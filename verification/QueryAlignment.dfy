/**
 The placeholders of every generated statement are bound by the getter generated beside it.
 For SELECT always; for INSERT, UPDATE and DELETE exactly when a condition on the request holds.
 */
module QueryAlignment {
  import opened Operators
  import opened QueryText
  import opened QueryMeaning
  import opened Seqs

  // ----- Text -----

  /** What follows a clause: the end of the text, or a keyword. */
  ghost predicate EndsClause(t: seq<Token>) {
    t == [] || t[0].Kw?
  }

  lemma {:induction false} ReadComparison(column: string, key: string, rest: seq<Token>)
    requires EndsClause(rest)
    ensures Read([Col(column), Cmp(key), Mark] + rest) == [Condition(column, key)] + Read(rest)
  {
    DropPrefix([Col(column), Cmp(key), Mark], rest);
  }

  /** A keyword that is not followed by a placeholder stands for nothing. */
  lemma {:induction false} ReadKeyword(k: Keyword, rest: seq<Token>)
    requires rest == [] || !rest[0].Mark?
    ensures Read([Kw(k)] + rest) == Read(rest)
  {
    DropPrefix([Kw(k)], rest);
  }

  lemma {:induction false} LeavesConcat<V>(column: string, a: seq<Leaf<V>>, b: seq<Leaf<V>>)
    ensures LeafTargets(column, a + b) == LeafTargets(column, a) + LeafTargets(column, b)
    ensures LeafArguments(a + b) == LeafArguments(a) + LeafArguments(b)
    decreases |a|
  {
    if a == [] {
      assert a + b == b;
    } else {
      assert (a + b)[1..] == a[1..] + b;
      LeavesConcat(column, a[1..], b);
      Assoc([Condition(column, a[0].key)], LeafTargets(column, a[1..]), LeafTargets(column, b));
      Assoc([a[0].argument], LeafArguments(a[1..]), LeafArguments(b));
    }
  }

  lemma {:induction false} ConditionStarts<V>(column: string, d: DocValue<V>)
    ensures GetSingleCondition(column, d) != [] && GetSingleCondition(column, d)[0] == Col(column)
    decreases d
  {
    if d.Both? {
      ConditionStarts(column, d.left);
    }
  }

  /** Reading a condition generated from one value finds the comparisons of any value of its shape. */
  lemma {:induction false} ReadSingleCondition<V>(column: string, generated: DocValue<V>, d: DocValue<V>, name: string,
                                                  fromModel: bool, rest: seq<Token>)
    requires EndsClause(rest) && OperandOf(generated) == OperandOf(d)
    ensures Read(GetSingleCondition(column, generated) + rest) == LeafTargets(column, Leaves(d, name, fromModel)) + Read(rest)
    decreases generated
  {
    if !generated.Both? {
      ReadLeafCondition(column, generated, d, name, fromModel, rest);
    } else {
      var left, right := GetSingleCondition(column, generated.left), GetSingleCondition(column, generated.right);
      var a, b := Leaves(d.left, name, fromModel), Leaves(d.right, name, fromModel);
      var next := [Kw(AndKw)] + (right + rest);
      assert GetSingleCondition(column, generated) + rest == left + next by {
        Assoc(left, [Kw(AndKw)] + right, rest);
        Assoc([Kw(AndKw)], right, rest);
      }
      ReadSingleCondition(column, generated.left, d.left, name, fromModel, next);
      ConditionStarts(column, generated.right);
      ReadKeyword(AndKw, right + rest);
      ReadSingleCondition(column, generated.right, d.right, name, fromModel, rest);
      LeavesConcat(column, a, b);
      Assoc(LeafTargets(column, a), LeafTargets(column, b), Read(rest));
    }
  }

  lemma {:induction false} ReadLeafCondition<V>(column: string, generated: DocValue<V>, d: DocValue<V>, name: string,
                                                fromModel: bool, rest: seq<Token>)
    requires EndsClause(rest) && OperandOf(generated) == OperandOf(d) && !generated.Both?
    ensures Read(GetSingleCondition(column, generated) + rest) == LeafTargets(column, Leaves(d, name, fromModel)) + Read(rest)
  {
    ReadComparison(column, if generated.Compared? then OperatorKey(generated.op) else EQ, rest);
    assert Leaves(d, name, fromModel)[1..] == [];
  }

  lemma {:induction false} ReadConditions<V>(properties: seq<PropertyInfo<V>>, doc: Doc<V>, rest: seq<Token>)
    requires EndsClause(rest) && OperatorsFit(properties, doc)
    ensures Read(GetConditionWithOperators(properties) + rest) == Conditions(properties, doc).targets + Read(rest)
    decreases |properties|
  {
    hide Read;
    if properties == [] {
      assert GetConditionWithOperators(properties) + rest == rest;
      assert Conditions(properties, doc).targets + Read(rest) == Read(rest);
    } else {
      var p := properties[0];
      var d := Lookup(doc, p.propertyName);
      var first, others := SingleCondition(p), GetConditionWithOperators(properties[1..]);
      var targets, more := LeafTargets(p.columnName, LeavesOf(p, doc)), Conditions(properties[1..], doc).targets;
      Assoc(targets, more, Read(rest));
      if |properties| == 1 {
        assert more == [];
        ReadSingleCondition(p.columnName, p.value, d, p.propertyName, p.fromModel, rest);
      } else {
        Assoc(first, [Kw(AndKw)] + others, rest);
        Assoc([Kw(AndKw)], others, rest);
        ReadSingleCondition(p.columnName, p.value, d, p.propertyName, p.fromModel, [Kw(AndKw)] + (others + rest));
        ConditionsStart(properties[1..]);
        ReadKeyword(AndKw, others + rest);
        ReadConditions(properties[1..], doc, rest);
      }
    }
  }

  lemma {:induction false} ConditionsStart<V>(properties: seq<PropertyInfo<V>>)
    requires properties != []
    ensures GetConditionWithOperators(properties) != [] && GetConditionWithOperators(properties)[0].Col?
  {
    ConditionStarts(properties[0].columnName, properties[0].value);
  }

  lemma {:induction false} ReadAssignment<V>(p: PropertyInfo<V>, doc: Doc<V>, rest: seq<Token>)
    requires EndsClause(rest) && SameShape(p.value, Lookup(doc, p.propertyName))
    ensures Read(Assignment(p) + rest) == AssignmentMeaning(p, doc).targets + Read(rest)
  {
    var c := p.columnName;
    match p.value {
      case Assigned(sign, _, true) =>
        DropPrefix([Col(c), Cmp(EQ), Mark, Sgn(sign), Col(c)], rest);
      case Assigned(sign, _, false) =>
        var t := Assignment(p) + rest;
        assert t[1..][1..] == [Col(c), Sgn(sign), Mark] + rest;
        assert t[1..][1..][3..] == rest;
        assert Read(t) == Read(t[1..]) == Read(t[1..][1..]);
      case _ =>
        ReadComparison(c, EQ, rest);
    }
  }

  lemma {:induction false} AssignmentsStart<V>(properties: seq<PropertyInfo<V>>)
    requires properties != []
    ensures JoinMap(Assignment, properties, Comma) != [] && JoinMap(Assignment, properties, Comma)[0].Col?
  {
  }

  lemma {:induction false} ReadAssignments<V>(properties: seq<PropertyInfo<V>>, doc: Doc<V>, rest: seq<Token>)
    requires EndsClause(rest) && Fits(properties, doc)
    ensures Read(JoinMap(Assignment, properties, Comma) + rest) == Assignments(properties, doc).targets + Read(rest)
    decreases |properties|
  {
    if properties == [] {
      assert JoinMap(Assignment, properties, Comma) + rest == rest;
    } else {
      var first, others := Assignment(properties[0]), JoinMap(Assignment, properties[1..], Comma);
      var more := Assignments(properties[1..], doc).targets;
      Assoc(AssignmentMeaning(properties[0], doc).targets, more, Read(rest));
      if |properties| == 1 {
        ReadAssignment(properties[0], doc, rest);
      } else {
        Assoc(first, [Kw(Comma)] + others, rest);
        Assoc([Kw(Comma)], others, rest);
        ReadAssignment(properties[0], doc, [Kw(Comma)] + (others + rest));
        AssignmentsStart(properties[1..]);
        ReadKeyword(Comma, others + rest);
        ReadAssignments(properties[1..], doc, rest);
      }
    }
  }

  lemma {:induction false} ReadKeys<V>(properties: seq<PropertyInfo<V>>, doc: Doc<V>, rest: seq<Token>)
    requires EndsClause(rest)
    ensures Read(JoinMap(KeyCondition, properties, AndKw) + rest) == Equalities(properties, doc).targets + Read(rest)
    decreases |properties|
  {
    if properties == [] {
      assert JoinMap(KeyCondition, properties, AndKw) + rest == rest;
    } else {
      var c := properties[0].columnName;
      var first, others := KeyCondition(properties[0]), JoinMap(KeyCondition, properties[1..], AndKw);
      Assoc([Condition(c, EQ)], Equalities(properties[1..], doc).targets, Read(rest));
      if |properties| == 1 {
        ReadComparison(c, EQ, rest);
      } else {
        Assoc(first, [Kw(AndKw)] + others, rest);
        Assoc([Kw(AndKw)], others, rest);
        ReadComparison(c, EQ, [Kw(AndKw)] + (others + rest));
        assert others[0].Col?;
        ReadKeyword(AndKw, others + rest);
        ReadKeys(properties[1..], doc, rest);
      }
    }
  }

  /** Column lists and orderings bind nothing. */
  lemma {:induction false} ReadColumns<V>(properties: seq<PropertyInfo<V>>, rest: seq<Token>)
    requires EndsClause(rest)
    ensures Read(JoinMap(Column, properties, Comma) + rest) == Read(rest)
    decreases |properties|
  {
    if properties == [] {
      assert JoinMap(Column, properties, Comma) + rest == rest;
    } else {
      var first := Column(properties[0]);
      if |properties| == 1 {
        DropPrefix(first, rest);
      } else {
        var others := JoinMap(Column, properties[1..], Comma);
        var tail := [Kw(Comma)] + (others + rest);
        Assoc(first, [Kw(Comma)] + others, rest);
        Assoc([Kw(Comma)], others, rest);
        DropPrefix(first, tail);
        assert others[0].Col?;
        ReadKeyword(Comma, others + rest);
        ReadColumns(properties[1..], rest);
      }
    }
  }

  lemma {:induction false} ReadOrder(order: seq<(string, string)>, rest: seq<Token>)
    requires EndsClause(rest)
    ensures Read(JoinMap(Order, order, Comma) + rest) == Read(rest)
    decreases |order|
  {
    if order == [] {
      assert JoinMap(Order, order, Comma) + rest == rest;
    } else if |order| == 1 {
      ReadOrdering(order[0], rest);
    } else {
      var first, others := Order(order[0]), JoinMap(Order, order[1..], Comma);
      Assoc(first, [Kw(Comma)] + others, rest);
      Assoc([Kw(Comma)], others, rest);
      ReadOrdering(order[0], [Kw(Comma)] + (others + rest));
      assert others[0].Col?;
      ReadKeyword(Comma, others + rest);
      ReadOrder(order[1..], rest);
    }
  }

  lemma {:induction false} ReadOrdering(o: (string, string), rest: seq<Token>)
    requires EndsClause(rest)
    ensures Read(Order(o) + rest) == Read(rest)
  {
    var t := Order(o) + rest;
    assert t[1..] == [Kw(Direction(o.1))] + rest && t[1..][1..] == rest;
  }

  lemma {:induction false} ReadOption(k: Keyword, rest: seq<Token>)
    ensures Read([Kw(k), Mark] + rest) == [Target.Option(k)] + Read(rest)
  {
    DropPrefix([Kw(k), Mark], rest);
  }

  // ----- Getters -----

  ghost predicate EndsElement(t: seq<Piece>) {
    t == [] || t[0].Sep?
  }

  lemma {:induction false} ElementFirst<V>(g: Getter, rest: seq<Piece>, doc: Doc<V>, info: DocInfo<V>)
    ensures Arguments([Elem(g)] + rest, doc, info) == [Apply(g, doc, info)] + AfterElement(rest, doc, info)
  {
    DropPrefix([Elem(g)], rest);
  }

  lemma {:induction false} AfterSeparator<V>(rest: seq<Piece>, doc: Doc<V>, info: DocInfo<V>)
    ensures AfterElement([Sep] + rest, doc, info) == Arguments(rest, doc, info)
  {
    DropPrefix([Sep], rest);
  }

  /** A getter generated for one value finds the leaves of any value of its shape. */
  lemma {:induction false} SingleGetter<V>(prefix: Path, name: string, generated: DocValue<V>, fromModel: bool,
                                           rest: seq<Piece>, doc: Doc<V>, info: DocInfo<V>)
    requires EndsElement(rest) && OperandOf(generated) == OperandOf(Follow(prefix, doc, info))
    ensures Arguments(ValueGetterSingle(prefix, name, generated, fromModel) + rest, doc, info)
         == LeafArguments(Leaves(Follow(prefix, doc, info), name, fromModel)) + AfterElement(rest, doc, info)
    decreases generated
  {
    var d := Follow(prefix, doc, info);
    var pieces := ValueGetterSingle(prefix, name, generated, fromModel);
    if generated.Both? {
      var left := ValueGetterSingle(ChildOf(prefix, false), name, generated.left, fromModel);
      var right := ValueGetterSingle(ChildOf(prefix, true), name, generated.right, fromModel);
      Assoc(left, [Sep] + right, rest);
      Assoc([Sep], right, rest);
      SingleGetter(ChildOf(prefix, false), name, generated.left, fromModel, [Sep] + (right + rest), doc, info);
      AfterSeparator(right + rest, doc, info);
      SingleGetter(ChildOf(prefix, true), name, generated.right, fromModel, rest, doc, info);
      var a, b := Leaves(d.left, name, fromModel), Leaves(d.right, name, fromModel);
      LeavesConcat("", a, b);
      Assoc(LeafArguments(a), LeafArguments(b), AfterElement(rest, doc, info));
    } else {
      assert |pieces| == 1 && pieces == [Elem(pieces[0].getter)];
      ElementFirst(pieces[0].getter, rest, doc, info);
      assert Leaves(d, name, fromModel)[1..] == [];
    }
  }

  /** One getter for each of a non-empty list of properties. */
  lemma {:induction false} DocGetters<V>(properties: seq<PropertyInfo<V>>, rest: seq<Piece>, doc: Doc<V>, info: DocInfo<V>)
    requires EndsElement(rest) && OperatorsFit(properties, doc) && properties != []
    ensures Arguments(JoinGetters(DocGetter, properties) + rest, doc, info)
         == Equalities(properties, doc).arguments + AfterElement(rest, doc, info)
    decreases |properties|
  {
    var p := properties[0];
    var first := DocGetter(p);
    var head, more := LeafArguments(LeavesOf(p, doc)), Equalities(properties[1..], doc).arguments;
    Assoc(head, more, AfterElement(rest, doc, info));
    if |properties| == 1 {
      assert more == [] && head + more == head;
      SingleGetter(DocProperty(p.propertyName), p.propertyName, p.value, p.fromModel, rest, doc, info);
    } else {
      var others := JoinGetters(DocGetter, properties[1..]);
      Assoc(first, [Sep] + others, rest);
      Assoc([Sep], others, rest);
      SingleGetter(DocProperty(p.propertyName), p.propertyName, p.value, p.fromModel, [Sep] + (others + rest), doc, info);
      AfterSeparator(others + rest, doc, info);
      DocGetters(properties[1..], rest, doc, info);
    }
  }

  lemma {:induction false} WhenGetters<V>(properties: seq<PropertyInfo<V>>, doc: Doc<V>, info: DocInfo<V>)
    requires OperatorsFit(properties, info.condition) && properties != []
    ensures Arguments(JoinGetters(WhenGetter, properties), doc, info) == Conditions(properties, info.condition).arguments
    decreases |properties|
  {
    var p := properties[0];
    var first := WhenGetter(p);
    var path := ConditionProperty(p.propertyName);
    if |properties| == 1 {
      assert first + [] == first;
      SingleGetter(path, p.propertyName, p.value, p.fromModel, [], doc, info);
    } else {
      var others := JoinGetters(WhenGetter, properties[1..]);
      SingleGetter(path, p.propertyName, p.value, p.fromModel, [Sep] + others, doc, info);
      AfterSeparator(others, doc, info);
      WhenGetters(properties[1..], doc, info);
    }
  }

  lemma {:induction false} AssignmentElement<V>(p: PropertyInfo<V>, rest: seq<Piece>, doc: Doc<V>, info: DocInfo<V>)
    requires SameShape(p.value, Lookup(doc, p.propertyName))
    ensures Arguments(AssignmentGetter(p) + rest, doc, info)
         == AssignmentMeaning(p, doc).arguments + AfterElement(rest, doc, info)
  {
    var d := Lookup(doc, p.propertyName);
    assert p.value.Assigned? == d.Assigned?;
    assert Follow(DocProperty(p.propertyName), doc, info) == d;
    assert d.Assigned? ==> Follow(ValueOf(DocProperty(p.propertyName)), doc, info) == Raw(d.v);
    var first := AssignmentGetter(p);
    assert first == [Elem(first[0].getter)];
    ElementFirst(first[0].getter, rest, doc, info);
  }

  lemma {:induction false} AssignmentGetters<V>(properties: seq<PropertyInfo<V>>, rest: seq<Piece>, doc: Doc<V>, info: DocInfo<V>)
    requires EndsElement(rest) && Fits(properties, doc) && properties != []
    ensures Arguments(JoinGetters(AssignmentGetter, properties) + rest, doc, info)
         == Assignments(properties, doc).arguments + AfterElement(rest, doc, info)
    decreases |properties|
  {
    var first := AssignmentGetter(properties[0]);
    var head, more := AssignmentMeaning(properties[0], doc).arguments, Assignments(properties[1..], doc).arguments;
    Assoc(head, more, AfterElement(rest, doc, info));
    if |properties| == 1 {
      assert more == [] && head + more == head;
      AssignmentElement(properties[0], rest, doc, info);
    } else {
      var others := JoinGetters(AssignmentGetter, properties[1..]);
      Assoc(first, [Sep] + others, rest);
      Assoc([Sep], others, rest);
      AssignmentElement(properties[0], [Sep] + (others + rest), doc, info);
      AfterSeparator(others + rest, doc, info);
      AssignmentGetters(properties[1..], rest, doc, info);
    }
  }

  // ----- Statements -----

  lemma {:induction false} ReadCondition<V>(condition: seq<PropertyInfo<V>>, ifExists: bool, info: DocInfo<V>)
    requires OperatorsFit(condition, info.condition)
    ensures EndsClause(ConditionClause(condition, ifExists))
    ensures Read(ConditionClause(condition, ifExists)) == ConditionMeaning(condition, ifExists, info).targets
  {
    if ifExists {
      assert [Kw(IfExists)][1..] == [];
    } else if |condition| > 0 {
      var c := GetConditionWithOperators(condition);
      ConditionsStart(condition);
      ReadKeyword(If, c);
      assert c + [] == c;
      ReadConditions(condition, info.condition, []);
    }
  }

  /** Every SELECT: any operators, nested to any depth, with or without fields, ordering and limit. */
  lemma {:induction false} SelectAligned<V>(table: string, properties: seq<PropertyInfo<V>>, fields: seq<PropertyInfo<V>>,
                                            order: seq<(string, string)>, limit: bool, doc: Doc<V>, info: DocInfo<V>)
    requires OperatorsFit(properties, doc)
    ensures Aligned(Read(GetSelect(table, properties, fields, order, limit)),
                    Arguments(SelectParamsGetter(properties, limit), doc, info),
                    SelectMeaning(properties, limit, doc, info))
  {
    SelectText(table, properties, fields, order, limit, doc, info);
    SelectGetter(properties, limit, doc, info);
    ConditionsLength(properties, doc);
  }

  lemma {:induction false} LeavesLength<V>(column: string, leaves: seq<Leaf<V>>)
    ensures |LeafTargets(column, leaves)| == |leaves| == |LeafArguments(leaves)|
    decreases |leaves|
  {
    if leaves != [] {
      LeavesLength(column, leaves[1..]);
    }
  }

  lemma {:induction false} ConditionsLength<V>(properties: seq<PropertyInfo<V>>, doc: Doc<V>)
    ensures |Conditions(properties, doc).targets| == |Conditions(properties, doc).arguments|
    ensures |Conditions(properties, doc).arguments| >= |properties|
    ensures Equalities(properties, doc).arguments == Conditions(properties, doc).arguments
    decreases |properties|
  {
    if properties != [] {
      LeavesLength(properties[0].columnName, LeavesOf(properties[0], doc));
      ConditionsLength(properties[1..], doc);
    }
  }

  lemma {:induction false} SelectText<V>(table: string, properties: seq<PropertyInfo<V>>, fields: seq<PropertyInfo<V>>,
                                         order: seq<(string, string)>, limit: bool, doc: Doc<V>, info: DocInfo<V>)
    requires OperatorsFit(properties, doc)
    ensures Read(GetSelect(table, properties, fields, order, limit)) == SelectMeaning(properties, limit, doc, info).targets
  {
    var limits := When(limit, [Kw(Limit), Mark]);
    ReadLastOption(limit, Limit, info.limit);
    var ordered := When(|order| > 0, [Kw(OrderBy)] + JoinMap(Order, order, Comma)) + limits;
    ReadOrderBy(order, limits);
    var where := When(|properties| > 0, [Kw(Where)] + GetConditionWithOperators(properties)) + ordered;
    ReadWhere(properties, doc, ordered);
    SelectHead(table, fields, where);
  }

  lemma {:induction false} ReadLastOption<V>(present: bool, k: Keyword, value: DocValue<V>)
    ensures Read(When(present, [Kw(k), Mark])) == OptionMeaning(present, k, value).targets
  {
    if present {
      assert [Kw(k), Mark] + [] == [Kw(k), Mark];
      ReadOption(k, []);
    }
  }

  lemma {:induction false} ReadOrderBy(order: seq<(string, string)>, rest: seq<Token>)
    requires EndsClause(rest)
    ensures var t := When(|order| > 0, [Kw(OrderBy)] + JoinMap(Order, order, Comma)) + rest;
      EndsClause(t) && Read(t) == Read(rest)
  {
    if |order| > 0 {
      Assoc([Kw(OrderBy)], JoinMap(Order, order, Comma), rest);
      ReadKeyword(OrderBy, JoinMap(Order, order, Comma) + rest);
      ReadOrder(order, rest);
    } else {
      assert [] + rest == rest;
    }
  }

  lemma {:induction false} ReadWhere<V>(properties: seq<PropertyInfo<V>>, doc: Doc<V>, rest: seq<Token>)
    requires EndsClause(rest) && OperatorsFit(properties, doc)
    ensures var t := When(|properties| > 0, [Kw(Where)] + GetConditionWithOperators(properties)) + rest;
      EndsClause(t) && Read(t) == Conditions(properties, doc).targets + Read(rest)
  {
    if |properties| > 0 {
      Assoc([Kw(Where)], GetConditionWithOperators(properties), rest);
      ConditionsStart(properties);
      ReadKeyword(Where, GetConditionWithOperators(properties) + rest);
      ReadConditions(properties, doc, rest);
    } else {
      assert [] + rest == rest;
    }
  }

  lemma {:induction false} SelectHead<V>(table: string, fields: seq<PropertyInfo<V>>, rest: seq<Token>)
    requires EndsClause(rest)
    ensures Read([Kw(SelectKw)] + ((if |fields| > 0 then JoinMap(Column, fields, Comma) else [Kw(Star)])
                 + ([Kw(From), Table(table)] + rest))) == Read(rest)
  {
    var from := [Kw(From), Table(table)] + rest;
    assert from[1..][1..] == rest;
    assert Read(from) == Read(from[1..]) == Read(rest);
    var columns := if |fields| > 0 then JoinMap(Column, fields, Comma) else [Kw(Star)];
    if |fields| > 0 {
      assert columns[0].Col?;
      ReadColumns(fields, from);
    } else {
      ReadKeyword(Star, from);
    }
    ReadKeyword(SelectKw, columns + from);
  }

  lemma {:induction false} SelectGetter<V>(properties: seq<PropertyInfo<V>>, limit: bool, doc: Doc<V>, info: DocInfo<V>)
    requires OperatorsFit(properties, doc)
    ensures Arguments(SelectParamsGetter(properties, limit), doc, info) == SelectMeaning(properties, limit, doc, info).arguments
  {
    ConditionsLength(properties, doc);
    if properties == [] {
      assert SelectParamsGetter(properties, limit) == if limit then [Elem(Get(DocInfoLimit))] else [];
      if limit {
        assert [Elem(Get(DocInfoLimit))] + [] == [Elem(Get(DocInfoLimit))];
        ElementFirst(Get(DocInfoLimit), [], doc, info);
      }
    } else if limit {
      var last := [Elem(Get(DocInfoLimit))];
      DocGetters(properties, [Sep] + last, doc, info);
      AfterSeparator(last, doc, info);
      assert last + [] == last;
      ElementFirst(Get(DocInfoLimit), [], doc, info);
    } else {
      DocGetters(properties, [], doc, info);
    }
  }

  // ----- INSERT -----

  /** The i-th placeholder of the text is for the i-th column, then for the TTL. */
  lemma {:induction false} InsertText<V>(table: string, properties: seq<PropertyInfo<V>>, ifNotExists: bool, ttl: bool,
                                         doc: Doc<V>, info: DocInfo<V>)
    ensures ReadInsert(GetInsertQuery(table, properties, ifNotExists, ttl)) == InsertBinding(properties, ttl, doc, info).targets
  {
    var last := When(ifNotExists, [Kw(IfNotExists)]) + When(ttl, [Kw(UsingTtl), Mark]);
    var tail := [Kw(Close)] + last;
    var values := JoinMap(Placeholder, properties, Comma) + tail;
    var middle := [Kw(Close), Kw(QueryText.Values), Kw(Open)] + values;
    var columns := JoinMap(Column, properties, Comma) + middle;
    var names := NamesOf(properties);
    InsertTail(ifNotExists, ttl, info.ttl);
    SkipFixed([Kw(Close)], last, []);
    InsertNames(table, properties, tail);
    SkipFixed([Kw(Close), Kw(QueryText.Values), Kw(Open)], values, names);
    SkipFixed([Kw(InsertInto), Table(table), Kw(Open)], columns, names);
    ColumnsHoldNoMarks(properties, middle, names);
    MarksFollowColumns(properties, tail, doc);
  }

  lemma {:induction false} InsertNames<V>(table: string, properties: seq<PropertyInfo<V>>, tail: seq<Token>)
    requires ColumnNames(tail) == []
    ensures ColumnNames([Kw(InsertInto), Table(table), Kw(Open)] + (JoinMap(Column, properties, Comma)
              + ([Kw(Close), Kw(QueryText.Values), Kw(Open)] + (JoinMap(Placeholder, properties, Comma) + tail))))
         == NamesOf(properties)
  {
    hide ColumnNames, ReadValues, JoinMap, NamesOf;
    var values := JoinMap(Placeholder, properties, Comma) + tail;
    var middle := [Kw(Close), Kw(QueryText.Values), Kw(Open)] + values;
    NamesOfMarks(properties, tail);
    SkipFixed([Kw(Close), Kw(QueryText.Values), Kw(Open)], values, []);
    NamesOfColumns(properties, middle);
    SkipFixed([Kw(InsertInto), Table(table), Kw(Open)], JoinMap(Column, properties, Comma) + middle, []);
    assert NamesOf(properties) + [] == NamesOf(properties);
  }

  lemma {:induction false} InsertTail<V>(ifNotExists: bool, ttl: bool, value: DocValue<V>)
    ensures var last := When(ifNotExists, [Kw(IfNotExists)]) + When(ttl, [Kw(UsingTtl), Mark]);
      && ColumnNames(last) == []
      && ReadValues(last, []) == OptionMeaning(ttl, UsingTtl, value).targets
  {
    var option := When(ttl, [Kw(UsingTtl), Mark]);
    if ttl {
      assert option[1..] == [Mark] && option[2..] == [] && [Mark][1..] == [];
    }
    if ifNotExists {
      SkipFixed([Kw(IfNotExists)], option, []);
    } else {
      assert [] + option == option;
    }
  }

  /** Tokens that neither name a column nor take part in a placeholder are skipped. */
  lemma {:induction false} SkipFixed(fixed: seq<Token>, rest: seq<Token>, names: seq<string>)
    requires forall i :: 0 <= i < |fixed| ==> !fixed[i].Col? && !fixed[i].Mark? && fixed[i] != Kw(UsingTtl)
    ensures ColumnNames(fixed + rest) == ColumnNames(rest)
    ensures ReadValues(fixed + rest, names) == ReadValues(rest, names)
    decreases |fixed|
  {
    if fixed == [] {
      assert fixed + rest == rest;
    } else {
      assert (fixed + rest)[1..] == fixed[1..] + rest;
      SkipFixed(fixed[1..], rest, names);
    }
  }

  function NamesOf<V>(properties: seq<PropertyInfo<V>>): seq<string> {
    if properties == [] then [] else [properties[0].columnName] + NamesOf(properties[1..])
  }

  lemma {:induction false} NamesOfColumns<V>(properties: seq<PropertyInfo<V>>, rest: seq<Token>)
    ensures ColumnNames(JoinMap(Column, properties, Comma) + rest) == NamesOf(properties) + ColumnNames(rest)
    decreases |properties|
  {
    if properties == [] {
      assert JoinMap(Column, properties, Comma) + rest == rest;
    } else if |properties| == 1 {
      DropPrefix(Column(properties[0]), rest);
    } else {
      var first, others := Column(properties[0]), JoinMap(Column, properties[1..], Comma);
      var t := first + ([Kw(Comma)] + others) + rest;
      assert t[1..] == [Kw(Comma)] + (others + rest) && t[1..][1..] == others + rest;
      NamesOfColumns(properties[1..], rest);
      Assoc([properties[0].columnName], NamesOf(properties[1..]), ColumnNames(rest));
    }
  }

  lemma {:induction false} NamesOfMarks<V>(properties: seq<PropertyInfo<V>>, rest: seq<Token>)
    ensures ColumnNames(JoinMap(Placeholder, properties, Comma) + rest) == ColumnNames(rest)
    decreases |properties|
  {
    if properties == [] {
      assert JoinMap(Placeholder, properties, Comma) + rest == rest;
    } else if |properties| == 1 {
      DropPrefix([Mark], rest);
    } else {
      var others := JoinMap(Placeholder, properties[1..], Comma);
      var t := [Mark] + ([Kw(Comma)] + others) + rest;
      assert t[1..] == [Kw(Comma)] + (others + rest) && t[1..][1..] == others + rest;
      NamesOfMarks(properties[1..], rest);
    }
  }

  lemma {:induction false} ColumnsHoldNoMarks<V>(properties: seq<PropertyInfo<V>>, rest: seq<Token>, names: seq<string>)
    ensures ReadValues(JoinMap(Column, properties, Comma) + rest, names) == ReadValues(rest, names)
    decreases |properties|
  {
    if properties == [] {
      assert JoinMap(Column, properties, Comma) + rest == rest;
    } else if |properties| == 1 {
      DropPrefix(Column(properties[0]), rest);
    } else {
      var first, others := Column(properties[0]), JoinMap(Column, properties[1..], Comma);
      var t := first + ([Kw(Comma)] + others) + rest;
      assert t[1..] == [Kw(Comma)] + (others + rest) && t[1..][1..] == others + rest;
      ColumnsHoldNoMarks(properties[1..], rest, names);
    }
  }

  lemma {:induction false} MarksFollowColumns<V>(properties: seq<PropertyInfo<V>>, rest: seq<Token>, doc: Doc<V>)
    ensures ReadValues(JoinMap(Placeholder, properties, Comma) + rest, NamesOf(properties))
         == Equalities(properties, doc).targets + ReadValues(rest, [])
    decreases |properties|
  {
    hide LeavesOf, LeafArguments;
    if properties == [] {
      assert JoinMap(Placeholder, properties, Comma) + rest == rest;
    } else {
      var names := NamesOf(properties);
      assert names[1..] == NamesOf(properties[1..]);
      Assoc([Condition(names[0], EQ)], Equalities(properties[1..], doc).targets, ReadValues(rest, []));
      if |properties| == 1 {
        DropPrefix([Mark], rest);
      } else {
        var others := JoinMap(Placeholder, properties[1..], Comma);
        var t := [Mark] + ([Kw(Comma)] + others) + rest;
        assert t[1..] == [Kw(Comma)] + (others + rest) && t[1..][1..] == others + rest;
        MarksFollowColumns(properties[1..], rest, doc);
      }
    }
  }

  /** Every value of these properties is a single one, not a combination of operators. */
  ghost predicate Single<V>(properties: seq<PropertyInfo<V>>) {
    forall i :: 0 <= i < |properties| ==> !properties[i].value.Both?
  }

  /** There is one placeholder per property; there is one value for each exactly when none is a combination. */
  lemma {:induction false} EqualitiesLength<V>(properties: seq<PropertyInfo<V>>, doc: Doc<V>)
    requires OperatorsFit(properties, doc)
    ensures var m := Equalities(properties, doc);
      && |m.targets| == |properties| <= |m.arguments|
      && (|m.targets| == |m.arguments| <==> Single(properties))
    decreases |properties|
  {
    if properties != [] {
      var p := properties[0];
      var leaves := LeavesOf(p, doc);
      LeavesLength(p.columnName, leaves);
      EqualitiesLength(properties[1..], doc);
      assert OperandOf(p.value) == OperandOf(Lookup(doc, p.propertyName));
      assert |leaves| == 1 <==> !p.value.Both?;
      assert Single(properties) <==> !p.value.Both? && Single(properties[1..]);
    }
  }

  lemma {:induction false} InsertGetter<V>(properties: seq<PropertyInfo<V>>, ttl: bool, doc: Doc<V>, info: DocInfo<V>)
    requires OperatorsFit(properties, doc)
    ensures var a := Arguments(InsertParamsGetter(properties, ttl), doc, info);
      if properties == [] && ttl then a == [Hole, Given(info.ttl)]
      else a == InsertBinding(properties, ttl, doc, info).arguments
  {
    var last := [Elem(Get(DocInfoTtl))];
    assert last + [] == last;
    ElementFirst(Get(DocInfoTtl), [], doc, info);
    var rest := if ttl then [Sep] + last else [];
    assert InsertParamsGetter(properties, ttl) == JoinGetters(DocGetter, properties) + rest;
    AfterSeparator(last, doc, info);
    if properties == [] {
      assert JoinGetters(DocGetter, properties) + rest == rest;
    } else {
      DocGetters(properties, rest, doc, info);
    }
  }

  /** An INSERT text and its getter are in step exactly when no value combines operators and a TTL does not come without columns. */
  lemma {:induction false} InsertInStep<V>(table: string, properties: seq<PropertyInfo<V>>, ifNotExists: bool, ttl: bool,
                                            doc: Doc<V>, info: DocInfo<V>)
    requires OperatorsFit(properties, doc)
    ensures Aligned(ReadInsert(GetInsertQuery(table, properties, ifNotExists, ttl)),
                    Arguments(InsertParamsGetter(properties, ttl), doc, info),
                    InsertBinding(properties, ttl, doc, info))
         <==> Single(properties) && (properties != [] || !ttl)
  {
    InsertText(table, properties, ifNotExists, ttl, doc, info);
    InsertGetter(properties, ttl, doc, info);
    EqualitiesLength(properties, doc);
  }

  // ----- UPDATE and DELETE -----

  /** The part both statements share: the key columns, then `IF EXISTS` or other conditions. */
  ghost predicate KeysInStep<V>(keys: seq<PropertyInfo<V>>, condition: seq<PropertyInfo<V>>, ifExists: bool) {
    Single(keys) && (keys != [] || condition == []) && !(ifExists && condition != [])
  }

  function KeyPieces<V>(keys: seq<PropertyInfo<V>>, condition: seq<PropertyInfo<V>>): seq<Piece> {
    JoinGetters(DocGetter, keys) + ConditionGetter(condition)
  }

  function KeyText<V>(keys: seq<PropertyInfo<V>>, condition: seq<PropertyInfo<V>>, ifExists: bool): seq<Token> {
    JoinMap(KeyCondition, keys, AndKw) + ConditionClause(condition, ifExists)
  }

  lemma {:induction false} ReadKeyText<V>(keys: seq<PropertyInfo<V>>, condition: seq<PropertyInfo<V>>, ifExists: bool,
                                          doc: Doc<V>, info: DocInfo<V>)
    requires OperatorsFit(condition, info.condition)
    ensures Read(KeyText(keys, condition, ifExists)) == DeleteBinding(keys, condition, ifExists, doc, info).targets
    ensures KeyText(keys, condition, ifExists) != [] ==> !KeyText(keys, condition, ifExists)[0].Mark?
  {
    ReadCondition(condition, ifExists, info);
    ReadKeys(keys, doc, ConditionClause(condition, ifExists));
    if keys != [] {
      assert JoinMap(KeyCondition, keys, AndKw)[0].Col?;
    }
  }

  /** What the getter of the conditions adds, first in the array or after the keys. */
  lemma {:induction false} ConditionPieces<V>(condition: seq<PropertyInfo<V>>, doc: Doc<V>, info: DocInfo<V>)
    requires OperatorsFit(condition, info.condition)
    ensures var rest, conditions := ConditionGetter(condition), Conditions(condition, info.condition).arguments;
      && Arguments(rest, doc, info) == (if condition != [] then [Hole] else []) + conditions
      && AfterElement(rest, doc, info) == conditions
      && EndsElement(rest) && (condition == [] <==> rest == [])
  {
    hide LeavesOf, LeafArguments, Apply;
    if condition != [] {
      WhenGetters(condition, doc, info);
      AfterSeparator(JoinGetters(WhenGetter, condition), doc, info);
      DropPrefix([Sep], JoinGetters(WhenGetter, condition));
    }
  }

  lemma {:induction false} KeyGetter<V>(keys: seq<PropertyInfo<V>>, condition: seq<PropertyInfo<V>>, doc: Doc<V>, info: DocInfo<V>)
    requires OperatorsFit(keys, doc) && OperatorsFit(condition, info.condition)
    ensures Arguments(KeyPieces(keys, condition), doc, info) ==
      Equalities(keys, doc).arguments + (if keys == [] && condition != [] then [Hole] else [])
      + Conditions(condition, info.condition).arguments
  {
    hide Arguments, AfterElement, Conditions, ConditionGetter, LeavesOf, LeafArguments;
    var rest := ConditionGetter(condition);
    ConditionPieces(condition, doc, info);
    var equalities := Equalities(keys, doc).arguments;
    if keys == [] {
      assert KeyPieces(keys, condition) == rest && equalities == [];
    } else {
      DocGetters(keys, rest, doc, info);
      assert equalities + [] == equalities;
    }
  }

  /** In step, for the shared part: counting the values is enough, since nothing makes the getter shorter. */
  lemma {:induction false} KeysInStepExactly<V>(keys: seq<PropertyInfo<V>>, condition: seq<PropertyInfo<V>>, ifExists: bool,
                                                 doc: Doc<V>, info: DocInfo<V>)
    requires OperatorsFit(keys, doc) && OperatorsFit(condition, info.condition)
    ensures var m := DeleteBinding(keys, condition, ifExists, doc, info);
      var a := Arguments(KeyPieces(keys, condition), doc, info);
      && |m.targets| <= |a| && |m.targets| <= |m.arguments|
      && (|m.targets| == |a| <==> KeysInStep(keys, condition, ifExists))
      && (KeysInStep(keys, condition, ifExists) ==> a == m.arguments)
  {
    hide Arguments, KeyPieces, Equalities;
    KeyGetter(keys, condition, doc, info);
    EqualitiesLength(keys, doc);
    ConditionsLength(condition, info.condition);
    assert condition == [] <==> |Conditions(condition, info.condition).arguments| == 0;
  }

  /** A DELETE is in step exactly when `KeysInStep` holds. */
  lemma {:induction false} DeleteInStep<V>(table: string, others: seq<PropertyInfo<V>>, keys: seq<PropertyInfo<V>>,
                                            condition: seq<PropertyInfo<V>>, ifExists: bool, deleteOnlyColumns: bool,
                                            doc: Doc<V>, info: DocInfo<V>)
    requires OperatorsFit(keys, doc) && OperatorsFit(condition, info.condition)
    ensures Aligned(Read(GetDeleteQuery(table, others, keys, condition, ifExists, deleteOnlyColumns)),
                    Arguments(DeleteParamsGetter(keys, condition), doc, info),
                    DeleteBinding(keys, condition, ifExists, doc, info))
         <==> KeysInStep(keys, condition, ifExists)
  {
    KeysInStepExactly(keys, condition, ifExists, doc, info);
    ReadKeyText(keys, condition, ifExists, doc, info);
    DeleteHead(table, others, deleteOnlyColumns, KeyText(keys, condition, ifExists));
  }

  /** `q.and` on a key column is not refused: the getter then gives more values than there are placeholders. */
  lemma {:induction false} CombinedKeyMisaligns<V>(table: string, others: seq<PropertyInfo<V>>, keys: seq<PropertyInfo<V>>,
                                                   condition: seq<PropertyInfo<V>>, ifExists: bool, deleteOnlyColumns: bool,
                                                   doc: Doc<V>, info: DocInfo<V>)
    requires OperatorsFit(keys, doc) && OperatorsFit(condition, info.condition) && !Single(keys)
    ensures |Read(GetDeleteQuery(table, others, keys, condition, ifExists, deleteOnlyColumns))|
          < |Arguments(DeleteParamsGetter(keys, condition), doc, info)|
  {
    KeysInStepExactly(keys, condition, ifExists, doc, info);
    ReadKeyText(keys, condition, ifExists, doc, info);
    DeleteHead(table, others, deleteOnlyColumns, KeyText(keys, condition, ifExists));
  }

  lemma {:induction false} DeleteHead<V>(table: string, others: seq<PropertyInfo<V>>, deleteOnlyColumns: bool, rest: seq<Token>)
    requires rest == [] || !rest[0].Mark?
    ensures Read([Kw(DeleteKw)] + (When(deleteOnlyColumns, JoinMap(Column, others, Comma)) +
                 ([Kw(From), Table(table), Kw(Where)] + rest))) == Read(rest)
  {
    var from := [Kw(From), Table(table), Kw(Where)] + rest;
    assert from[1..][1..] == [Kw(Where)] + rest;
    ReadKeyword(Where, rest);
    assert Read(from) == Read(from[1..]) == Read(from[1..][1..]);
    var columns := When(deleteOnlyColumns, JoinMap(Column, others, Comma));
    if deleteOnlyColumns {
      ReadColumns(others, from);
      if others != [] {
        assert columns[0].Col?;
      }
    } else {
      assert columns + from == from;
    }
    ReadKeyword(DeleteKw, columns + from);
  }

  /** An UPDATE is in step exactly when something is assigned and `KeysInStep` holds. */
  lemma {:induction false} UpdateInStep<V>(table: string, updates: seq<PropertyInfo<V>>, keys: seq<PropertyInfo<V>>,
                                            condition: seq<PropertyInfo<V>>, ifExists: bool, ttl: bool,
                                            doc: Doc<V>, info: DocInfo<V>)
    requires Fits(updates, doc) && OperatorsFit(keys, doc) && OperatorsFit(condition, info.condition)
    ensures Aligned(Read(GetUpdateQuery(table, updates, keys, condition, ifExists, ttl)),
                    Arguments(UpdateParamsGetter(updates, keys, condition, ttl), doc, info),
                    UpdateBinding(updates, keys, condition, ifExists, ttl, doc, info))
         <==> updates != [] && KeysInStep(keys, condition, ifExists)
  {
    KeysInStepExactly(keys, condition, ifExists, doc, info);
    UpdateText(table, updates, keys, condition, ifExists, ttl, doc, info);
    UpdateGetter(updates, keys, condition, ttl, doc, info);
    AssignmentsLength(updates, doc);
  }

  lemma {:induction false} AssignmentsLength<V>(properties: seq<PropertyInfo<V>>, doc: Doc<V>)
    ensures |Assignments(properties, doc).targets| == |properties| == |Assignments(properties, doc).arguments|
    decreases |properties|
  {
    if properties != [] {
      AssignmentsLength(properties[1..], doc);
    }
  }

  lemma {:induction false} UpdateText<V>(table: string, updates: seq<PropertyInfo<V>>, keys: seq<PropertyInfo<V>>,
                                         condition: seq<PropertyInfo<V>>, ifExists: bool, ttl: bool,
                                         doc: Doc<V>, info: DocInfo<V>)
    requires Fits(updates, doc) && OperatorsFit(condition, info.condition)
    ensures Read(GetUpdateQuery(table, updates, keys, condition, ifExists, ttl))
         == UpdateBinding(updates, keys, condition, ifExists, ttl, doc, info).targets
  {
    var keyText := KeyText(keys, condition, ifExists);
    ReadKeyText(keys, condition, ifExists, doc, info);
    ReadKeyword(Where, keyText);
    var where := [Kw(Where)] + keyText;
    ReadAssignments(updates, doc, where);
    var assignments := JoinMap(Assignment, updates, Comma) + where;
    if updates != [] {
      AssignmentsStart(updates);
    }
    ReadKeyword(SetKw, assignments);
    UpdateHead(table, ttl, [Kw(SetKw)] + assignments, info.ttl);
  }

  lemma {:induction false} UpdateHead<V>(table: string, ttl: bool, rest: seq<Token>, value: DocValue<V>)
    requires rest != [] && rest[0].Kw?
    ensures Read([Kw(UpdateKw), Table(table)] + (When(ttl, [Kw(UsingTtl), Mark]) + rest))
         == OptionMeaning(ttl, UsingTtl, value).targets + Read(rest)
  {
    var options := When(ttl, [Kw(UsingTtl), Mark]) + rest;
    var t := [Kw(UpdateKw), Table(table)] + options;
    assert t[1..][1..] == options;
    assert Read(t) == Read(t[1..]) == Read(options);
    if ttl {
      ReadOption(UsingTtl, rest);
    } else {
      assert options == rest;
    }
  }

  lemma {:induction false} UpdateGetter<V>(updates: seq<PropertyInfo<V>>, keys: seq<PropertyInfo<V>>,
                                           condition: seq<PropertyInfo<V>>, ttl: bool, doc: Doc<V>, info: DocInfo<V>)
    requires Fits(updates, doc)
    ensures Arguments(UpdateParamsGetter(updates, keys, condition, ttl), doc, info) ==
      OptionMeaning(ttl, UsingTtl, info.ttl).arguments
      + ((if updates == [] then [Hole] else Assignments(updates, doc).arguments)
         + Arguments(KeyPieces(keys, condition), doc, info))
  {
    var last := KeyPieces(keys, condition);
    var rest := JoinGetters(AssignmentGetter, updates) + ([Sep] + last);
    AfterSeparator(last, doc, info);
    if updates == [] {
      assert rest == [Sep] + last;
      DropPrefix([Sep], last);
    } else {
      AssignmentGetters(updates, [Sep] + last, doc, info);
    }
    if ttl {
      Assoc([Elem(Get(DocInfoTtl))], [Sep], rest);
      assert [Elem(Get(DocInfoTtl)), Sep] == [Elem(Get(DocInfoTtl))] + [Sep];
      ElementFirst(Get(DocInfoTtl), [Sep] + rest, doc, info);
      AfterSeparator(rest, doc, info);
    } else {
      assert [] + rest == rest;
    }
  }

  // ----- The statement as requested -----

  lemma {:induction false} SelectionFits<V>(properties: seq<PropertyInfo<V>>, columns: set<string>, doc: Doc<V>)
    requires Fits(properties, doc)
    ensures Fits(Keep(properties, columns), doc) && Fits(Drop(properties, columns), doc)
    decreases |properties|
  {
    if properties != [] {
      SelectionFits(properties[..|properties| - 1], columns, doc);
    }
  }

  ghost predicate Counts<V>(p: PropertyInfo<V>, columns: map<string, ColumnType>) {
    p.columnName in columns && columns[p.columnName] == CounterColumn
  }

  ghost predicate Repeatable<V>(p: PropertyInfo<V>, columns: map<string, ColumnType>) {
    p.columnName in columns ==>
      !(columns[p.columnName] == ListColumn && p.value.Assigned?) && columns[p.columnName] != CounterColumn
  }

  /** The pass of `getUpdate` that keeps the table's columns and decides whether the update may be repeated. */
  method FilterColumns<V>(columns: map<string, ColumnType>, properties: seq<PropertyInfo<V>>)
    returns (filtered: seq<PropertyInfo<V>>, isIdempotent: bool, isCounter: bool)
    ensures filtered == Keep(properties, columns.Keys)
    ensures isIdempotent <==> forall i :: 0 <= i < |properties| ==> Repeatable(properties[i], columns)
    ensures isCounter <==>
      exists i :: 0 <= i < |properties| && Counts(properties[i], columns)
  {
    filtered, isIdempotent, isCounter := [], true, false;
    for n := 0 to |properties|
      invariant filtered == Keep(properties[..n], columns.Keys)
      invariant isIdempotent <==> forall i :: 0 <= i < n ==> Repeatable(properties[i], columns)
      invariant isCounter <==>
        exists i :: 0 <= i < n && Counts(properties[i], columns)
    {
      var p := properties[n];
      assert properties[..n + 1][..n] == properties[..n];
      if p.columnName in columns {
        var column := columns[p.columnName];
        if column == ListColumn && p.value.Assigned? {
          // repeating it would add the elements again
          isIdempotent := false;
        } else if column == CounterColumn {
          // repeating it would count again
          isIdempotent := false;
          isCounter := true;
        }
        filtered := filtered + [p];
      }
    }
    assert properties[..|properties|] == properties;
  }

  // ----- What a document asks for: operators on keys and inserted values count -----

  /** No property compares or combines. */
  ghost predicate NoOperators<V>(properties: seq<PropertyInfo<V>>) {
    forall i :: 0 <= i < |properties| ==> OperandOf(properties[i].value).Value?
  }

  lemma OperatorIsNotEquality(op: Operator)
    ensures OperatorKey(op) != EQ
  {
    assert |EQ| == 1 && EQ[0] == '=';
    assert OperatorKey(op)[0] in {'I', '>', '<', '!'};
  }

  lemma {:induction false} TargetsOfOne<V>(p: PropertyInfo<V>, doc: Doc<V>)
    requires OperandOf(p.value) == OperandOf(Lookup(doc, p.propertyName))
    ensures var targets := LeafTargets(p.columnName, LeavesOf(p, doc));
      && |targets| >= 1 && (|targets| == 1 <==> !p.value.Both?)
      && (targets == [Condition(p.columnName, EQ)] <==> OperandOf(p.value).Value?)
  {
    var d := Lookup(doc, p.propertyName);
    var leaves := LeavesOf(p, doc);
    LeavesLength(p.columnName, leaves);
    if d.Both? {
      assert |leaves| == |Leaves(d.left, p.propertyName, p.fromModel)| + |Leaves(d.right, p.propertyName, p.fromModel)|;
    } else {
      assert leaves[1..] == [];
      assert LeafTargets(p.columnName, leaves) == [Condition(p.columnName, leaves[0].key)];
      if d.Compared? {
        OperatorIsNotEquality(d.op);
      }
    }
  }

  /** Equality for each column is what the document asks for exactly when it uses no operators. */
  lemma {:induction false} EqualityIsMeant<V>(properties: seq<PropertyInfo<V>>, doc: Doc<V>)
    requires OperatorsFit(properties, doc)
    ensures Equalities(properties, doc).targets == Conditions(properties, doc).targets <==> NoOperators(properties)
    decreases |properties|
  {
    if properties != [] {
      hide LeavesOf, LeafTargets, LeafArguments, OperandOf;
      var p, others := properties[0], properties[1..];
      TargetsOfOne(p, doc);
      EqualityIsMeant(others, doc);
      EqualitiesLength(others, doc);
      ConditionsLength(others, doc);
      var first := LeafTargets(p.columnName, LeavesOf(p, doc));
      var e, c := Equalities(others, doc).targets, Conditions(others, doc).targets;
      DropPrefix([Condition(p.columnName, EQ)], e);
      DropPrefix(first, c);
      assert NoOperators(properties) <==> OperandOf(p.value).Value? && NoOperators(others);
      assert [Condition(p.columnName, EQ)] + e == first + c <==> first == [Condition(p.columnName, EQ)] && e == c;
    }
  }

  lemma Cancel<T>(before: seq<T>, x: seq<T>, y: seq<T>, after: seq<T>)
    ensures before + (x + after) == before + (y + after) <==> x == y
  {
    if before + (x + after) == before + (y + after) {
      DropPrefix(before, x + after);
      DropPrefix(before, y + after);
      assert |x| == |y|;
      DropPrefix(x, after);
      DropPrefix(y, after);
    }
  }

  /** An INSERT does what its document asks exactly when no value carries an operator and a TTL does not come without columns. */
  lemma {:induction false} InsertAligned<V>(table: string, properties: seq<PropertyInfo<V>>, ifNotExists: bool, ttl: bool,
                                            doc: Doc<V>, info: DocInfo<V>)
    requires OperatorsFit(properties, doc)
    ensures Aligned(ReadInsert(GetInsertQuery(table, properties, ifNotExists, ttl)),
                    Arguments(InsertParamsGetter(properties, ttl), doc, info),
                    InsertMeaning(properties, ttl, doc, info))
         <==> NoOperators(properties) && (properties != [] || !ttl)
  {
    InsertInStep(table, properties, ifNotExists, ttl, doc, info);
    InsertText(table, properties, ifNotExists, ttl, doc, info);
    hide GetInsertQuery, ReadInsert, Arguments, InsertParamsGetter, Equalities, Conditions;
    EqualityIsMeant(properties, doc);
    ConditionsLength(properties, doc);
    var option := OptionMeaning(ttl, UsingTtl, info.ttl).targets;
    Cancel([], Equalities(properties, doc).targets, Conditions(properties, doc).targets, option);
    assert [] + (Equalities(properties, doc).targets + option) == Equalities(properties, doc).targets + option;
    assert [] + (Conditions(properties, doc).targets + option) == Conditions(properties, doc).targets + option;
    if NoOperators(properties) {
      PlainIsSingle(properties);
    }
  }

  lemma PlainIsSingle<V>(properties: seq<PropertyInfo<V>>)
    requires NoOperators(properties)
    ensures Single(properties)
  {
  }

  /** For UPDATE and DELETE: no operator on a key column, a key or no condition, and not `IF EXISTS` with conditions. */
  ghost predicate KeysAligned<V>(keys: seq<PropertyInfo<V>>, condition: seq<PropertyInfo<V>>, ifExists: bool) {
    NoOperators(keys) && (keys != [] || condition == []) && !(ifExists && condition != [])
  }

  /** A DELETE does what its document asks exactly when `KeysAligned` holds. */
  lemma {:induction false} DeleteAligned<V>(table: string, others: seq<PropertyInfo<V>>, keys: seq<PropertyInfo<V>>,
                                            condition: seq<PropertyInfo<V>>, ifExists: bool, deleteOnlyColumns: bool,
                                            doc: Doc<V>, info: DocInfo<V>)
    requires OperatorsFit(keys, doc) && OperatorsFit(condition, info.condition)
    ensures Aligned(Read(GetDeleteQuery(table, others, keys, condition, ifExists, deleteOnlyColumns)),
                    Arguments(DeleteParamsGetter(keys, condition), doc, info),
                    DeleteMeaning(keys, condition, ifExists, doc, info))
         <==> KeysAligned(keys, condition, ifExists)
  {
    DeleteInStep(table, others, keys, condition, ifExists, deleteOnlyColumns, doc, info);
    DeleteText(table, others, keys, condition, ifExists, deleteOnlyColumns, doc, info);
    hide GetDeleteQuery, Read, Arguments, DeleteParamsGetter, Equalities, Conditions, ConditionMeaning, NoOperators, Single;
    KeysMeant([], keys, condition, ifExists, doc, info);
  }

  lemma {:induction false} DeleteText<V>(table: string, others: seq<PropertyInfo<V>>, keys: seq<PropertyInfo<V>>,
                                         condition: seq<PropertyInfo<V>>, ifExists: bool, deleteOnlyColumns: bool,
                                         doc: Doc<V>, info: DocInfo<V>)
    requires OperatorsFit(condition, info.condition)
    ensures Read(GetDeleteQuery(table, others, keys, condition, ifExists, deleteOnlyColumns))
         == DeleteBinding(keys, condition, ifExists, doc, info).targets
  {
    ReadKeyText(keys, condition, ifExists, doc, info);
    DeleteHead(table, others, deleteOnlyColumns, KeyText(keys, condition, ifExists));
  }

  /** Among the same other targets, those of the keys are meant exactly when no key carries an operator. */
  lemma {:induction false} KeysMeant<V>(before: seq<Target>, keys: seq<PropertyInfo<V>>, condition: seq<PropertyInfo<V>>,
                                        ifExists: bool, doc: Doc<V>, info: DocInfo<V>)
    requires OperatorsFit(keys, doc)
    ensures var bound, meant := DeleteBinding(keys, condition, ifExists, doc, info), DeleteMeaning(keys, condition, ifExists, doc, info);
      && bound.arguments == meant.arguments
      && (bound.targets == meant.targets <==> NoOperators(keys))
      && (before + bound.targets == before + meant.targets <==> NoOperators(keys))
    ensures NoOperators(keys) ==> Single(keys)
  {
    hide Equalities, Conditions, ConditionMeaning, OperatorsFit;
    EqualityIsMeant(keys, doc);
    ConditionsLength(keys, doc);
    var after := ConditionMeaning(condition, ifExists, info).targets;
    Cancel(before, Equalities(keys, doc).targets, Conditions(keys, doc).targets, after);
    Cancel([], Equalities(keys, doc).targets, Conditions(keys, doc).targets, after);
    assert [] + (Equalities(keys, doc).targets + after) == Equalities(keys, doc).targets + after;
    assert [] + (Conditions(keys, doc).targets + after) == Conditions(keys, doc).targets + after;
  }

  /** An UPDATE does what its document asks exactly when something is assigned and `KeysAligned` holds. */
  lemma {:induction false} UpdateAligned<V>(table: string, updates: seq<PropertyInfo<V>>, keys: seq<PropertyInfo<V>>,
                                            condition: seq<PropertyInfo<V>>, ifExists: bool, ttl: bool,
                                            doc: Doc<V>, info: DocInfo<V>)
    requires Fits(updates, doc) && OperatorsFit(keys, doc) && OperatorsFit(condition, info.condition)
    ensures Aligned(Read(GetUpdateQuery(table, updates, keys, condition, ifExists, ttl)),
                    Arguments(UpdateParamsGetter(updates, keys, condition, ttl), doc, info),
                    UpdateMeaning(updates, keys, condition, ifExists, ttl, doc, info))
         <==> updates != [] && KeysAligned(keys, condition, ifExists)
  {
    UpdateInStep(table, updates, keys, condition, ifExists, ttl, doc, info);
    UpdateText(table, updates, keys, condition, ifExists, ttl, doc, info);
    hide GetUpdateQuery, Read, Arguments, UpdateParamsGetter, Equalities, Conditions, ConditionMeaning, NoOperators, Single;
    hide Fits, OperatorsFit;
    var option, updated := OptionMeaning(ttl, UsingTtl, info.ttl).targets, Assignments(updates, doc).targets;
    var bound := DeleteBinding(keys, condition, ifExists, doc, info).targets;
    var meant := DeleteMeaning(keys, condition, ifExists, doc, info).targets;
    KeysMeant(option + updated, keys, condition, ifExists, doc, info);
    Assoc(option, updated, bound);
    Assoc(option, updated, meant);
  }

  /** What an UPDATE does as requested: columns outside the table are dropped, the rest split by primary key. */
  lemma {:induction false} GetUpdateAligned<V>(table: string, columns: set<string>, primaryKeys: set<string>,
                                               properties: seq<PropertyInfo<V>>, condition: seq<PropertyInfo<V>>,
                                               ifExists: bool, ttl: bool, doc: Doc<V>, info: DocInfo<V>)
    requires Fits(properties, doc) && OperatorsFit(condition, info.condition)
    ensures var kept := Keep(properties, columns);
      var updates, keys := Drop(kept, primaryKeys), Keep(kept, primaryKeys);
      Aligned(Read(GetUpdateQuery(table, updates, keys, condition, ifExists, ttl)),
              Arguments(UpdateParamsGetter(updates, keys, condition, ttl), doc, info),
              UpdateMeaning(updates, keys, condition, ifExists, ttl, doc, info))
      <==> updates != [] && KeysAligned(keys, condition, ifExists)
  {
    var kept := Keep(properties, columns);
    SelectionFits(properties, columns, doc);
    SelectionFits(kept, primaryKeys, doc);
    ShapesFit(Keep(kept, primaryKeys), doc);
    UpdateAligned(table, Drop(kept, primaryKeys), Keep(kept, primaryKeys), condition, ifExists, ttl, doc, info);
  }
}
