/**
 Generated texts read back as whole statements: which table, which columns, under which conditions. The reader
 cuts a text at the keywords that start a clause and reads the body of each clause by its own grammar.
 */
module QueryStatements {
  import opened Operators
  import opened QueryText
  import opened QueryMeaning
  import opened Seqs
  import QueryAlignment
  import Wrappers

  type Option<T> = Wrappers.Option<T>

  // ----- The reader -----

  /** What an UPDATE or DELETE waits for. */
  datatype Guard = Unguarded | IfItExists | Under(conditions: seq<Target>)

  /** A SELECT without fields is for all columns; a DELETE without columns is for the whole row. */
  datatype Statement =
    | Selecting(fields: seq<string>, table: string, conditions: seq<Target>, order: seq<(string, string)>, limited: bool)
    | Inserting(table: string, columns: seq<string>, values: nat, ifNotExists: bool, ttl: bool)
    | Updating(table: string, ttl: bool, assignments: seq<Target>, keys: seq<Target>, guard: Guard)
    | Deleting(columns: seq<string>, table: string, keys: seq<Target>, guard: Guard)

  datatype Clause = Clause(k: Keyword, body: seq<Token>)

  /** The other keywords stand inside clauses. */
  predicate StartsClause(t: Token) {
    t.Kw? && t.k != AndKw && t.k != Comma && t.k != Star && t.k != Open && t.k != Close && !t.k.Direction?
  }

  function BodyLength(t: seq<Token>): (n: nat)
    ensures n <= |t|
  {
    if t == [] || StartsClause(t[0]) then 0 else 1 + BodyLength(t[1..])
  }

  function Clauses(t: seq<Token>): seq<Clause>
    decreases |t|
  {
    if t == [] then []
    else if !StartsClause(t[0]) then Clauses(t[1..])
    else
      var n := BodyLength(t[1..]);
      [Clause(t[0].k, t[1..][..n])] + Clauses(t[1..][n..])
  }

  /** Columns between commas. */
  function ReadNames(t: seq<Token>): Option<seq<string>> {
    if t == [] then Wrappers.Some([])
    else if !t[0].Col? then Wrappers.None
    else if |t| == 1 then Wrappers.Some([t[0].name])
    else if t[1] != Kw(Comma) || |t| == 2 then Wrappers.None
    else
      var rest := ReadNames(t[2..]);
      if rest.None? then Wrappers.None else Wrappers.Some([t[0].name] + rest.value)
  }

  /** Columns with directions between commas. */
  function ReadOrdering(t: seq<Token>): Option<seq<(string, string)>> {
    if t == [] then Wrappers.Some([])
    else if |t| < 2 || !t[0].Col? || !t[1].Kw? || !t[1].k.Direction? then Wrappers.None
    else if |t| == 2 then Wrappers.Some([(t[0].name, t[1].k.d)])
    else if t[2] != Kw(Comma) || |t| == 3 then Wrappers.None
    else
      var rest := ReadOrdering(t[3..]);
      if rest.None? then Wrappers.None else Wrappers.Some([(t[0].name, t[1].k.d)] + rest.value)
  }

  /** A comparison or an assignment at the start of a text, and its length. */
  function TermAt(t: seq<Token>): Option<(Target, nat)> {
    if |t| >= 5 && t[0].Col? && t[1] == Cmp(EQ) && t[2].Mark? && t[3].Sgn? && t[4] == t[0] then
      Wrappers.Some((Prepend(t[0].name, t[3].s), 5))
    else if |t| >= 5 && t[0].Col? && t[1] == Cmp(EQ) && t[2] == t[0] && t[3].Sgn? && t[4].Mark? then
      Wrappers.Some((Append(t[0].name, t[3].s), 5))
    else if |t| >= 3 && t[0].Col? && t[1].Cmp? && t[2].Mark? then
      Wrappers.Some((Condition(t[0].name, t[1].key), 3))
    else Wrappers.None
  }

  function ReadTerms(t: seq<Token>, separator: Keyword): Option<seq<Target>>
    decreases |t|
  {
    if t == [] then Wrappers.Some([])
    else
      var first := TermAt(t);
      if first.None? then Wrappers.None
      else
        var (target, n) := first.value;
        if |t| == n then Wrappers.Some([target])
        else if t[n] != Kw(separator) || |t| == n + 1 then Wrappers.None
        else
          var rest := ReadTerms(t[n + 1..], separator);
          if rest.None? then Wrappers.None else Wrappers.Some([target] + rest.value)
  }

  function IsNext(c: seq<Clause>, k: Keyword): bool {
    c != [] && c[0].k == k
  }

  /** The body of the next clause if it is of a kind, and the clauses after it. */
  function Optional(c: seq<Clause>, k: Keyword): (Option<seq<Token>>, seq<Clause>) {
    if IsNext(c, k) then (Wrappers.Some(c[0].body), c[1..]) else (Wrappers.None, c)
  }

  predicate IsTable(body: Option<seq<Token>>) {
    body.Some? && |body.value| == 1 && body.value[0].Table?
  }

  predicate IsMark(body: Option<seq<Token>>) {
    body == Wrappers.Some([Mark])
  }

  function ReadSelect(c: seq<Clause>): Option<Statement>
    requires c != []
  {
    var all := c[0].body == [Kw(Star)];
    var fields := if all then Wrappers.Some([]) else ReadNames(c[0].body);
    var (from, afterFrom) := Optional(c[1..], From);
    var (where, afterWhere) := Optional(afterFrom, Where);
    var (orderBy, afterOrder) := Optional(afterWhere, OrderBy);
    var (limit, rest) := Optional(afterOrder, Limit);
    var conditions := if where.Some? then ReadTerms(where.value, AndKw) else Wrappers.Some([]);
    var order := if orderBy.Some? then ReadOrdering(orderBy.value) else Wrappers.Some([]);
    if fields.None? || (!all && fields.value == []) || !IsTable(from) || conditions.None? || order.None? then Wrappers.None
    else if rest != [] || (limit.Some? && !IsMark(limit)) then Wrappers.None
    else Wrappers.Some(Selecting(fields.value, from.value[0].name, conditions.value, order.value, limit.Some?))
  }

  /** `?, ?, ?` in parentheses: how many. */
  function ReadMarks(t: seq<Token>): Option<nat> {
    if t == [] then Wrappers.Some(0)
    else if !t[0].Mark? then Wrappers.None
    else if |t| == 1 then Wrappers.Some(1)
    else if t[1] != Kw(Comma) || |t| == 2 then Wrappers.None
    else
      var rest := ReadMarks(t[2..]);
      if rest.None? then Wrappers.None else Wrappers.Some(1 + rest.value)
  }

  /** What stands between the first and the last parenthesis. */
  function Inside(t: seq<Token>): Option<seq<Token>> {
    if |t| >= 2 && t[0] == Kw(Open) && t[|t| - 1] == Kw(Close) then Wrappers.Some(t[1..|t| - 1]) else Wrappers.None
  }

  function ReadInsertion(c: seq<Clause>): Option<Statement>
    requires c != []
  {
    var into := c[0].body;
    var (values, afterValues) := Optional(c[1..], Values);
    var (ifNotExists, afterIf) := Optional(afterValues, IfNotExists);
    var (ttl, rest) := Optional(afterIf, UsingTtl);
    if into == [] || !into[0].Table? || values.None? || rest != [] then Wrappers.None
    else if (ifNotExists.Some? && ifNotExists.value != []) || (ttl.Some? && !IsMark(ttl)) then Wrappers.None
    else
      var columns, marks := Inside(into[1..]), Inside(values.value);
      if columns.None? || marks.None? then Wrappers.None
      else
        var names, n := ReadNames(columns.value), ReadMarks(marks.value);
        if names.None? || n.None? then Wrappers.None
        else Wrappers.Some(Inserting(into[0].name, names.value, n.value, ifNotExists.Some?, ttl.Some?))
  }

  function ReadGuard(c: seq<Clause>): Option<Guard> {
    if c == [] then Wrappers.Some(Unguarded)
    else if c == [Clause(IfExists, [])] then Wrappers.Some(IfItExists)
    else if |c| == 1 && c[0].k == If then
      var conditions := ReadTerms(c[0].body, AndKw);
      if conditions.None? then Wrappers.None else Wrappers.Some(Under(conditions.value))
    else Wrappers.None
  }

  function ReadUpdate(c: seq<Clause>): Option<Statement>
    requires c != []
  {
    var table := Wrappers.Some(c[0].body);
    var (ttl, afterTtl) := Optional(c[1..], UsingTtl);
    var (updates, afterSet) := Optional(afterTtl, SetKw);
    var (where, rest) := Optional(afterSet, Where);
    if !IsTable(table) || (ttl.Some? && !IsMark(ttl)) || updates.None? || where.None? then Wrappers.None
    else
      var assignments, keys, guard := ReadTerms(updates.value, Comma), ReadTerms(where.value, AndKw), ReadGuard(rest);
      if assignments.None? || keys.None? || guard.None? then Wrappers.None
      else Wrappers.Some(Updating(table.value[0].name, ttl.Some?, assignments.value, keys.value, guard.value))
  }

  function ReadDelete(c: seq<Clause>): Option<Statement>
    requires c != []
  {
    var columns := ReadNames(c[0].body);
    var (from, afterFrom) := Optional(c[1..], From);
    var (where, rest) := Optional(afterFrom, Where);
    if columns.None? || !IsTable(from) || where.None? then Wrappers.None
    else
      var keys, guard := ReadTerms(where.value, AndKw), ReadGuard(rest);
      if keys.None? || guard.None? then Wrappers.None
      else Wrappers.Some(Deleting(columns.value, from.value[0].name, keys.value, guard.value))
  }

  function ReadStatement(t: seq<Token>): Option<Statement> {
    var c := Clauses(t);
    if c == [] then Wrappers.None
    else match c[0].k
      case SelectKw => ReadSelect(c)
      case InsertInto => ReadInsertion(c)
      case UpdateKw => ReadUpdate(c)
      case DeleteKw => ReadDelete(c)
      case _ => Wrappers.None
  }

  // ----- Cutting a text into clauses -----

  predicate IsBody(t: seq<Token>) {
    forall i :: 0 <= i < |t| ==> !StartsClause(t[i])
  }

  predicate ClausesStart(t: seq<Token>) {
    t == [] || StartsClause(t[0])
  }

  lemma {:induction false} BodyEnds(body: seq<Token>, rest: seq<Token>)
    requires IsBody(body) && ClausesStart(rest)
    ensures BodyLength(body + rest) == |body|
    decreases |body|
  {
    if body == [] {
      assert body + rest == rest;
    } else {
      assert (body + rest)[1..] == body[1..] + rest;
      BodyEnds(body[1..], rest);
    }
  }

  lemma {:induction false} FirstClause(k: Keyword, body: seq<Token>, rest: seq<Token>)
    requires StartsClause(Kw(k)) && IsBody(body) && ClausesStart(rest)
    ensures Clauses([Kw(k)] + (body + rest)) == [Clause(k, body)] + Clauses(rest)
  {
    DropPrefix([Kw(k)], body + rest);
    BodyEnds(body, rest);
    DropPrefix(body, rest);
  }

  lemma {:induction false} LastClause(k: Keyword, body: seq<Token>)
    requires StartsClause(Kw(k)) && IsBody(body)
    ensures Clauses([Kw(k)] + body) == [Clause(k, body)]
  {
    FirstClause(k, body, []);
    assert body + [] == body;
  }

  lemma {:induction false} JoinIsBody<P>(f: P -> seq<Token>, properties: seq<P>, separator: Keyword)
    requires !StartsClause(Kw(separator)) && forall p :: IsBody(f(p))
    ensures IsBody(JoinMap(f, properties, separator))
    decreases |properties|
  {
    if |properties| > 1 {
      JoinIsBody(f, properties[1..], separator);
      assert IsBody(f(properties[0]));
    }
  }

  lemma {:induction false} ConditionIsBody<V>(column: string, value: DocValue<V>)
    ensures IsBody(GetSingleCondition(column, value))
    decreases value
  {
    if value.Both? {
      ConditionIsBody(column, value.left);
      ConditionIsBody(column, value.right);
    }
  }

  lemma {:induction false} ConditionsAreBody<V>(properties: seq<PropertyInfo<V>>)
    ensures IsBody(GetConditionWithOperators(properties))
  {
    forall p: PropertyInfo<V>
      ensures IsBody(SingleCondition(p))
    {
      ConditionIsBody(p.columnName, p.value);
    }
    JoinIsBody<PropertyInfo<V>>(SingleCondition, properties, AndKw);
  }

  lemma {:induction false} ColumnsAreBody<V>(properties: seq<PropertyInfo<V>>)
    ensures IsBody(JoinMap(Column, properties, Comma)) && IsBody(JoinMap(Placeholder, properties, Comma))
  {
    JoinIsBody<PropertyInfo<V>>(Column, properties, Comma);
    JoinIsBody<PropertyInfo<V>>(Placeholder, properties, Comma);
  }

  // ----- Reading the body of a clause -----

  function NamesOf<V>(properties: seq<PropertyInfo<V>>): (r: seq<string>)
    ensures |r| == |properties| && forall i :: 0 <= i < |r| ==> r[i] == properties[i].columnName
  {
    seq(|properties|, i requires 0 <= i < |properties| => properties[i].columnName)
  }

  lemma NamesTail<V>(properties: seq<PropertyInfo<V>>)
    requires properties != []
    ensures NamesOf(properties) == [properties[0].columnName] + NamesOf(properties[1..])
  {
  }

  lemma {:induction false} NamesRead<V>(properties: seq<PropertyInfo<V>>)
    ensures ReadNames(JoinMap(Column, properties, Comma)) == Wrappers.Some(NamesOf(properties))
    ensures properties != [] ==> JoinMap(Column, properties, Comma) != [] && JoinMap(Column, properties, Comma)[0].Col?
    decreases |properties|
  {
    if |properties| > 1 {
      NamesRead(properties[1..]);
      NamesTail(properties);
      var t := JoinMap(Column, properties, Comma);
      assert t == [Col(properties[0].columnName), Kw(Comma)] + JoinMap(Column, properties[1..], Comma);
      DropPrefix([Col(properties[0].columnName), Kw(Comma)], JoinMap(Column, properties[1..], Comma));
    } else {
      assert NamesOf(properties) == if properties == [] then [] else [properties[0].columnName];
    }
  }

  lemma {:induction false} MarksRead<V>(properties: seq<PropertyInfo<V>>)
    ensures ReadMarks(JoinMap(Placeholder, properties, Comma)) == Wrappers.Some(|properties|)
    ensures properties != [] ==> JoinMap(Placeholder, properties, Comma) != []
    decreases |properties|
  {
    if |properties| > 1 {
      MarksRead(properties[1..]);
      var t := JoinMap(Placeholder, properties, Comma);
      assert t == [Mark, Kw(Comma)] + JoinMap(Placeholder, properties[1..], Comma);
      DropPrefix([Mark, Kw(Comma)], JoinMap(Placeholder, properties[1..], Comma));
    }
  }

  lemma {:induction false} OrderRead(order: seq<(string, string)>)
    ensures ReadOrdering(JoinMap(Order, order, Comma)) == Wrappers.Some(order)
    ensures order != [] ==> |JoinMap(Order, order, Comma)| >= 2
    decreases |order|
  {
    if |order| > 1 {
      OrderRead(order[1..]);
      var first := [Col(order[0].0), Kw(Direction(order[0].1)), Kw(Comma)];
      var rest := JoinMap(Order, order[1..], Comma);
      assert JoinMap(Order, order, Comma) == first + rest;
      DropPrefix(first, rest);
      assert order == [order[0]] + order[1..];
    } else {
      assert order == if order == [] then [] else [(order[0].0, order[0].1)];
    }
  }

  /** What follows a term does not change it, unless it is a sign. */
  lemma TermStays(a: seq<Token>, separator: Keyword, b: seq<Token>)
    requires TermAt(a).Some? && (|a| == TermAt(a).value.1 || a[TermAt(a).value.1] == Kw(separator))
    ensures TermAt(a + ([Kw(separator)] + b)) == TermAt(a)
  {
    var t := a + ([Kw(separator)] + b);
    assert forall i :: 0 <= i < |a| ==> t[i] == a[i];
    assert t[|a|] == Kw(separator);
  }

  lemma {:induction false} TermsJoin(a: seq<Token>, separator: Keyword, b: seq<Token>)
    requires a != [] && b != [] && ReadTerms(a, separator).Some? && ReadTerms(b, separator).Some?
    ensures ReadTerms(a + ([Kw(separator)] + b), separator)
         == Wrappers.Some(ReadTerms(a, separator).value + ReadTerms(b, separator).value)
    decreases |a|
  {
    hide TermAt;
    var t := a + ([Kw(separator)] + b);
    var (target, n) := TermAt(a).value;
    TermBounds(a);
    TermStays(a, separator, b);
    if |a| == n {
      assert t[n + 1..] == b;
    } else {
      TermsJoin(a[n + 1..], separator, b);
      assert t[n + 1..] == a[n + 1..] + ([Kw(separator)] + b);
      Assoc([target], ReadTerms(a[n + 1..], separator).value, ReadTerms(b, separator).value);
    }
  }

  lemma TermBounds(t: seq<Token>)
    ensures TermAt(t).Some? ==> 0 < TermAt(t).value.1 <= |t|
  {
  }

  /** A comparison reads as the comparisons of any value with the same operators. */
  lemma {:induction false} ConditionRead<V>(column: string, generated: DocValue<V>, d: DocValue<V>, name: string, fromModel: bool)
    requires OperandOf(generated) == OperandOf(d)
    ensures GetSingleCondition(column, generated) != []
    ensures ReadTerms(GetSingleCondition(column, generated), AndKw) == Wrappers.Some(LeafTargets(column, Leaves(d, name, fromModel)))
    decreases generated
  {
    if generated.Both? {
      ConditionRead(column, generated.left, d.left, name, fromModel);
      ConditionRead(column, generated.right, d.right, name, fromModel);
      hide ReadTerms;
      TermsJoin(GetSingleCondition(column, generated.left), AndKw, GetSingleCondition(column, generated.right));
      QueryAlignment.LeavesConcat(column, Leaves(d.left, name, fromModel), Leaves(d.right, name, fromModel));
    } else {
      var leaves := Leaves(d, name, fromModel);
      assert leaves[1..] == [];
      assert LeafTargets(column, leaves) == [Condition(column, leaves[0].key)];
    }
  }

  lemma {:induction false} ConditionsRead<V>(properties: seq<PropertyInfo<V>>, doc: Doc<V>)
    requires OperatorsFit(properties, doc)
    ensures ReadTerms(GetConditionWithOperators(properties), AndKw) == Wrappers.Some(Conditions(properties, doc).targets)
    ensures properties != [] ==> GetConditionWithOperators(properties) != []
    decreases |properties|
  {
    hide ReadTerms, OperandOf;
    if properties != [] {
      var p := properties[0];
      ConditionRead(p.columnName, p.value, Lookup(doc, p.propertyName), p.propertyName, p.fromModel);
      ConditionsRead(properties[1..], doc);
      if |properties| > 1 {
        TermsJoin(SingleCondition(p), AndKw, GetConditionWithOperators(properties[1..]));
      } else {
        var leaves := LeafTargets(p.columnName, LeavesOf(p, doc));
        assert leaves + Conditions(properties[1..], doc).targets == leaves;
      }
    } else {
      NothingRead(AndKw);
    }
  }

  lemma NothingRead(separator: Keyword)
    ensures ReadTerms([], separator) == Wrappers.Some([])
  {
  }

  lemma {:induction false} KeysRead<V>(properties: seq<PropertyInfo<V>>, doc: Doc<V>)
    ensures ReadTerms(JoinMap(KeyCondition, properties, AndKw), AndKw) == Wrappers.Some(Equalities(properties, doc).targets)
    ensures properties != [] ==> JoinMap(KeyCondition, properties, AndKw) != []
    decreases |properties|
  {
    if properties != [] {
      KeysRead(properties[1..], doc);
      if |properties| > 1 {
        KeyRead(properties[0]);
        hide ReadTerms;
        TermsJoin(KeyCondition(properties[0]), AndKw, JoinMap(KeyCondition, properties[1..], AndKw));
      } else {
        KeyRead(properties[0]);
        var target := [Condition(properties[0].columnName, EQ)];
        assert target + Equalities(properties[1..], doc).targets == target;
      }
    }
  }

  lemma KeyRead<V>(p: PropertyInfo<V>)
    ensures ReadTerms(KeyCondition(p), AndKw) == Wrappers.Some([Condition(p.columnName, EQ)])
  {
  }

  lemma {:induction false} AssignmentRead<V>(p: PropertyInfo<V>, doc: Doc<V>)
    requires SameShape(p.value, Lookup(doc, p.propertyName))
    ensures Assignment(p) != []
    ensures ReadTerms(Assignment(p), Comma) == Wrappers.Some(AssignmentMeaning(p, doc).targets)
  {
  }

  lemma {:induction false} AssignmentsRead<V>(properties: seq<PropertyInfo<V>>, doc: Doc<V>)
    requires Fits(properties, doc)
    ensures ReadTerms(JoinMap(Assignment, properties, Comma), Comma) == Wrappers.Some(Assignments(properties, doc).targets)
    ensures properties != [] ==> JoinMap(Assignment, properties, Comma) != []
    decreases |properties|
  {
    hide ReadTerms;
    if properties == [] {
      NothingRead(Comma);
    } else {
      AssignmentRead(properties[0], doc);
      AssignmentsRead(properties[1..], doc);
      if |properties| > 1 {
        TermsJoin(Assignment(properties[0]), Comma, JoinMap(Assignment, properties[1..], Comma));
      } else {
        var target := AssignmentMeaning(properties[0], doc).targets;
        assert target + Assignments(properties[1..], doc).targets == target;
      }
    }
  }

  // ----- The statements -----

  /** A SELECT reads the fields asked for from the table, under the document's conditions, in the order asked for. */
  lemma {:induction false} SelectReads<V>(table: string, properties: seq<PropertyInfo<V>>, fields: seq<PropertyInfo<V>>,
                                          order: seq<(string, string)>, limit: bool, doc: Doc<V>)
    requires OperatorsFit(properties, doc)
    ensures ReadStatement(GetSelect(table, properties, fields, order, limit))
         == Wrappers.Some(Selecting(NamesOf(fields), table, Conditions(properties, doc).targets, order, limit))
  {
    hide ReadTerms, ReadNames, ReadOrdering, OperatorsFit, Clauses, JoinMap, GetConditionWithOperators, GetSelect, OptionalClause;
    SelectClauses(table, properties, fields, order, limit);
    ConditionsRead(properties, doc);
    OrderRead(order);
    NamesRead(fields);
    assert NamesOf<V>([]) == [];
    assert properties == [] ==> Conditions(properties, doc).targets == [];
    var c := Clauses(GetSelect(table, properties, fields, order, limit));
    SelectRead(table, Selection(fields), GetConditionWithOperators(properties), |properties| > 0,
               JoinMap(Order, order, Comma), |order| > 0, limit, c);
  }

  lemma SelectRead(table: string, selection: seq<Token>, conditions: seq<Token>, restricted: bool,
                   ordering: seq<Token>, ordered: bool, limit: bool, c: seq<Clause>)
    requires c == [Clause(SelectKw, selection), Clause(From, [Table(table)])]
                  + (OptionalClause(restricted, Where, conditions)
                  + (OptionalClause(ordered, OrderBy, ordering) + OptionalClause(limit, Limit, [Mark])))
    requires selection != []
    ensures c != [] && c[0].k == SelectKw
    ensures var all := selection == [Kw(Star)];
      var fields := if all then Wrappers.Some([]) else ReadNames(selection);
      var targets := if restricted then ReadTerms(conditions, AndKw) else Wrappers.Some([]);
      var order := if ordered then ReadOrdering(ordering) else Wrappers.Some([]);
      fields.Some? && (all || fields.value != []) && targets.Some? && order.Some? ==>
        ReadSelect(c) == Wrappers.Some(Selecting(fields.value, table, targets.value, order.value, limit))
  {
    hide ReadTerms, ReadOrdering, ReadNames, Optional, OptionalClause, IsNext;
    var limits := OptionalClause(limit, Limit, [Mark]);
    var orders := OptionalClause(ordered, OrderBy, ordering) + limits;
    var wheres := OptionalClause(restricted, Where, conditions) + orders;
    TwoFirst(Clause(SelectKw, selection), Clause(From, [Table(table)]), wheres);
    NotNext(limit, Limit, [Mark], [], OrderBy);
    NotNext(limit, Limit, [Mark], [], Where);
    NotNext(ordered, OrderBy, ordering, limits, Where);
    NotNext(limit, Limit, [Mark], [], From);
    NotNext(ordered, OrderBy, ordering, limits, From);
    NotNext(restricted, Where, conditions, orders, From);
    OptionalIs(From, [Table(table)], true, wheres);
    OptionalIs(Where, conditions, restricted, orders);
    OptionalIs(OrderBy, ordering, ordered, limits);
    OptionalIs(Limit, [Mark], limit, []);
  }

  lemma TwoFirst(a: Clause, b: Clause, rest: seq<Clause>)
    ensures var c := [a, b] + rest;
      c != [] && c[0] == a && c[1..] == OptionalClause(true, b.k, b.body) + rest
  {
  }

  /** An optional clause of another kind is not taken, nor what follows it. */
  lemma NotNext(flag: bool, k: Keyword, body: seq<Token>, rest: seq<Clause>, other: Keyword)
    requires k != other && (rest == [] || !IsNext(rest, other))
    ensures !IsNext(OptionalClause(flag, k, body) + rest, other)
    ensures rest == [] ==> OptionalClause(flag, k, body) + rest == OptionalClause(flag, k, body)
    ensures !IsNext([], other) && !IsNext([], k)
  {
  }

  /** An optional clause is taken if it is there; what follows is of another kind. */
  lemma OptionalIs(k: Keyword, body: seq<Token>, flag: bool, rest: seq<Clause>)
    requires rest == [] || !IsNext(rest, k)
    ensures Optional(OptionalClause(flag, k, body) + rest, k) == (if flag then Wrappers.Some(body) else Wrappers.None, rest)
    ensures rest == [] ==> OptionalClause(flag, k, body) + rest == OptionalClause(flag, k, body)
  {
    if flag {
      DropPrefix([Clause(k, body)], rest);
    } else {
      assert [] + rest == rest;
    }
  }

  function OptionalClause(flag: bool, k: Keyword, body: seq<Token>): seq<Clause> {
    if flag then [Clause(k, body)] else []
  }

  lemma {:induction false} OptionalCut(flag: bool, k: Keyword, body: seq<Token>, rest: seq<Token>)
    requires StartsClause(Kw(k)) && IsBody(body) && ClausesStart(rest)
    ensures ClausesStart(When(flag, [Kw(k)] + body) + rest)
    ensures Clauses(When(flag, [Kw(k)] + body) + rest) == OptionalClause(flag, k, body) + Clauses(rest)
  {
    if flag {
      Assoc([Kw(k)], body, rest);
      FirstClause(k, body, rest);
    } else {
      assert [] + rest == rest;
      assert [] + Clauses(rest) == Clauses(rest);
    }
  }

  lemma {:induction false} OptionalEnd(flag: bool, k: Keyword, body: seq<Token>)
    requires StartsClause(Kw(k)) && IsBody(body)
    ensures ClausesStart(When(flag, [Kw(k)] + body))
    ensures Clauses(When(flag, [Kw(k)] + body)) == OptionalClause(flag, k, body)
  {
    OptionalCut(flag, k, body, []);
    assert When(flag, [Kw(k)] + body) + [] == When(flag, [Kw(k)] + body);
    assert OptionalClause(flag, k, body) + [] == OptionalClause(flag, k, body);
  }

  function Selection<V>(fields: seq<PropertyInfo<V>>): seq<Token> {
    if |fields| > 0 then JoinMap(Column, fields, Comma) else [Kw(Star)]
  }

  function Tail(conditions: seq<Token>, restricted: bool, ordering: seq<Token>, ordered: bool, limit: bool): seq<Token> {
    When(restricted, [Kw(Where)] + conditions) + (When(ordered, [Kw(OrderBy)] + ordering) + When(limit, [Kw(Limit), Mark]))
  }

  lemma {:induction false} TailClauses(conditions: seq<Token>, restricted: bool, ordering: seq<Token>, ordered: bool, limit: bool)
    requires IsBody(conditions) && IsBody(ordering)
    ensures ClausesStart(Tail(conditions, restricted, ordering, ordered, limit))
    ensures Clauses(Tail(conditions, restricted, ordering, ordered, limit))
         == OptionalClause(restricted, Where, conditions)
            + (OptionalClause(ordered, OrderBy, ordering) + OptionalClause(limit, Limit, [Mark]))
  {
    hide Clauses, When, OptionalClause, IsBody;
    assert IsBody([Mark]) by {
      MarkIsBody();
    }
    assert [Kw(Limit), Mark] == [Kw(Limit)] + [Mark];
    OptionalEnd(limit, Limit, [Mark]);
    OptionalCut(ordered, OrderBy, ordering, When(limit, [Kw(Limit), Mark]));
    OptionalCut(restricted, Where, conditions, When(ordered, [Kw(OrderBy)] + ordering) + When(limit, [Kw(Limit), Mark]));
  }

  lemma MarkIsBody()
    ensures IsBody([Mark])
  {
  }

  lemma {:induction false} HeadClauses(table: string, selection: seq<Token>, tail: seq<Token>)
    requires IsBody(selection) && ClausesStart(tail)
    ensures Clauses([Kw(SelectKw)] + (selection + ([Kw(From), Table(table)] + tail)))
         == [Clause(SelectKw, selection), Clause(From, [Table(table)])] + Clauses(tail)
  {
    hide Clauses;
    FirstClause(From, [Table(table)], tail);
    assert [Kw(From), Table(table)] + tail == [Kw(From)] + ([Table(table)] + tail);
    FirstClause(SelectKw, selection, [Kw(From), Table(table)] + tail);
    assert [Clause(SelectKw, selection)] + ([Clause(From, [Table(table)])] + Clauses(tail))
        == [Clause(SelectKw, selection), Clause(From, [Table(table)])] + Clauses(tail);
  }

  lemma {:induction false} SelectClauses<V>(table: string, properties: seq<PropertyInfo<V>>, fields: seq<PropertyInfo<V>>,
                                            order: seq<(string, string)>, limit: bool)
    ensures Clauses(GetSelect(table, properties, fields, order, limit))
         == [Clause(SelectKw, Selection(fields)), Clause(From, [Table(table)])]
            + (OptionalClause(|properties| > 0, Where, GetConditionWithOperators(properties))
            + (OptionalClause(|order| > 0, OrderBy, JoinMap(Order, order, Comma))
            + OptionalClause(limit, Limit, [Mark])))
  {
    var conditions, ordering := GetConditionWithOperators(properties), JoinMap(Order, order, Comma);
    ConditionsAreBody(properties);
    JoinIsBody<(string, string)>(Order, order, Comma);
    ColumnsAreBody(fields);
    hide Clauses, JoinMap, GetConditionWithOperators, OptionalClause, When;
    TailClauses(conditions, |properties| > 0, ordering, |order| > 0, limit);
    HeadClauses(table, Selection(fields), Tail(conditions, |properties| > 0, ordering, |order| > 0, limit));
  }

  /** An INSERT names the columns and as many values, and says IF NOT EXISTS and USING TTL exactly when asked. */
  lemma {:induction false} InsertReads<V>(table: string, properties: seq<PropertyInfo<V>>, ifNotExists: bool, ttl: bool)
    ensures ReadStatement(GetInsertQuery(table, properties, ifNotExists, ttl))
         == Wrappers.Some(Inserting(table, NamesOf(properties), |properties|, ifNotExists, ttl))
  {
    InsertClauses(table, properties, ifNotExists, ttl);
    hide Clauses, JoinMap, ReadNames, ReadMarks, GetInsertQuery;
    NamesRead(properties);
    MarksRead(properties);
    var columns, marks := JoinMap(Column, properties, Comma), JoinMap(Placeholder, properties, Comma);
    InsideOf(columns);
    InsideOf(marks);
    assert ([Table(table)] + ([Kw(Open)] + (columns + [Kw(Close)])))[1..] == [Kw(Open)] + (columns + [Kw(Close)]);
  }

  lemma InsideOf(t: seq<Token>)
    ensures Inside([Kw(Open)] + (t + [Kw(Close)])) == Wrappers.Some(t)
  {
    var all := [Kw(Open)] + (t + [Kw(Close)]);
    assert all[1..|all| - 1] == t;
  }

  lemma {:induction false} InsertClauses<V>(table: string, properties: seq<PropertyInfo<V>>, ifNotExists: bool, ttl: bool)
    ensures var columns, marks := JoinMap(Column, properties, Comma), JoinMap(Placeholder, properties, Comma);
      Clauses(GetInsertQuery(table, properties, ifNotExists, ttl))
      == [Clause(InsertInto, [Table(table)] + ([Kw(Open)] + (columns + [Kw(Close)]))),
          Clause(Values, [Kw(Open)] + (marks + [Kw(Close)]))]
         + (OptionalClause(ifNotExists, IfNotExists, []) + OptionalClause(ttl, UsingTtl, [Mark]))
  {
    hide Clauses;
    var columns, marks := JoinMap(Column, properties, Comma), JoinMap(Placeholder, properties, Comma);
    ColumnsAreBody(properties);
    assert [Kw(UsingTtl), Mark] == [Kw(UsingTtl)] + [Mark] && [Kw(IfNotExists)] == [Kw(IfNotExists)] + [];
    OptionalEnd(ttl, UsingTtl, [Mark]);
    var ttls := When(ttl, [Kw(UsingTtl), Mark]);
    OptionalCut(ifNotExists, IfNotExists, [], ttls);
    var options := When(ifNotExists, [Kw(IfNotExists)]) + ttls;
    var into := [Table(table)] + ([Kw(Open)] + (columns + [Kw(Close)]));
    var values := [Kw(Open)] + (marks + [Kw(Close)]);
    BodiesInside(table, columns, marks);
    hide IsBody, When, OptionalClause, JoinMap;
    FirstClause(Values, values, options);
    FirstClause(InsertInto, into, [Kw(Values)] + (values + options));
    InsertIs(table, columns, marks, options);
    assert [Clause(InsertInto, into)] + ([Clause(Values, values)] + Clauses(options))
        == [Clause(InsertInto, into), Clause(Values, values)] + Clauses(options);
  }

  lemma BodiesInside(table: string, columns: seq<Token>, marks: seq<Token>)
    requires IsBody(columns) && IsBody(marks)
    ensures IsBody([Table(table)] + ([Kw(Open)] + (columns + [Kw(Close)]))) && IsBody([Kw(Open)] + (marks + [Kw(Close)]))
  {
  }

  lemma InsertIs(table: string, columns: seq<Token>, marks: seq<Token>, options: seq<Token>)
    ensures [Kw(InsertInto), Table(table), Kw(Open)] + (columns + ([Kw(Close), Kw(Values), Kw(Open)] + (marks + ([Kw(Close)] + options))))
         == [Kw(InsertInto)] + (([Table(table)] + ([Kw(Open)] + (columns + [Kw(Close)])))
            + ([Kw(Values)] + (([Kw(Open)] + (marks + [Kw(Close)])) + options)))
  {
  }

  function GuardOf<V>(condition: seq<PropertyInfo<V>>, ifExists: bool, info: DocInfo<V>): Guard {
    if ifExists then IfItExists
    else if condition == [] then Unguarded
    else Under(Conditions(condition, info.condition).targets)
  }

  lemma {:induction false} GuardReads<V>(condition: seq<PropertyInfo<V>>, ifExists: bool, info: DocInfo<V>)
    requires OperatorsFit(condition, info.condition)
    ensures ClausesStart(ConditionClause(condition, ifExists))
    ensures ReadGuard(Clauses(ConditionClause(condition, ifExists))) == Wrappers.Some(GuardOf(condition, ifExists, info))
    ensures var c := Clauses(ConditionClause(condition, ifExists));
      c != [] ==> c[0].k == If || c[0].k == IfExists
  {
    hide ReadTerms;
    if ifExists {
      LastClause(IfExists, []);
      assert [Kw(IfExists)] + [] == [Kw(IfExists)];
    } else if condition != [] {
      ConditionsAreBody(condition);
      LastClause(If, GetConditionWithOperators(condition));
      ConditionsRead(condition, info.condition);
    }
  }

  /** WHERE and what follows it, in UPDATE and DELETE. */
  lemma {:induction false} WhereReads<V>(keys: seq<PropertyInfo<V>>, condition: seq<PropertyInfo<V>>, ifExists: bool,
                                         doc: Doc<V>, info: DocInfo<V>)
    requires OperatorsFit(condition, info.condition)
    ensures var text := [Kw(Where)] + (JoinMap(KeyCondition, keys, AndKw) + ConditionClause(condition, ifExists));
      var c := Clauses(text);
      && ClausesStart(text) && c != [] && c[0].k == Where
      && ReadTerms(c[0].body, AndKw) == Wrappers.Some(Equalities(keys, doc).targets)
      && ReadGuard(c[1..]) == Wrappers.Some(GuardOf(condition, ifExists, info))
  {
    hide ReadTerms, ReadGuard, Clauses;
    var body, guard := JoinMap(KeyCondition, keys, AndKw), ConditionClause(condition, ifExists);
    GuardReads(condition, ifExists, info);
    JoinIsBody<PropertyInfo<V>>(KeyCondition, keys, AndKw);
    FirstClause(Where, body, guard);
    KeysRead(keys, doc);
    DropPrefix([Clause(Where, body)], Clauses(guard));
  }

  /** An UPDATE assigns what is asked in the table's rows with the keys, under the guard asked for. */
  lemma {:induction false} UpdateReads<V>(table: string, updates: seq<PropertyInfo<V>>, keys: seq<PropertyInfo<V>>,
                                          condition: seq<PropertyInfo<V>>, ifExists: bool, ttl: bool,
                                          doc: Doc<V>, info: DocInfo<V>)
    requires Fits(updates, doc) && OperatorsFit(condition, info.condition)
    ensures ReadStatement(GetUpdateQuery(table, updates, keys, condition, ifExists, ttl))
         == Wrappers.Some(Updating(table, ttl, Assignments(updates, doc).targets, Equalities(keys, doc).targets,
                                   GuardOf(condition, ifExists, info)))
  {
    hide ReadTerms, ReadGuard, Clauses, JoinMap, Fits, OperatorsFit, GuardOf, ConditionClause, OptionalClause, ReadUpdate, When;
    var tail := JoinMap(KeyCondition, keys, AndKw) + ConditionClause(condition, ifExists);
    WhereReads(keys, condition, ifExists, doc, info);
    var sets := JoinMap(Assignment, updates, Comma);
    AssignmentsAreBody(updates);
    AssignmentsRead(updates, doc);
    UpdateClauses(table, ttl, sets, tail);
    UpdateRead(table, ttl, sets, Clauses([Kw(Where)] + tail),
               Clauses(GetUpdateQuery(table, updates, keys, condition, ifExists, ttl)));
  }

  lemma {:induction false} UpdateClauses(table: string, ttl: bool, sets: seq<Token>, tail: seq<Token>)
    requires IsBody(sets)
    ensures Clauses([Kw(UpdateKw), Table(table)] + (When(ttl, [Kw(UsingTtl), Mark]) + ([Kw(SetKw)] + (sets + ([Kw(Where)] + tail)))))
         == [Clause(UpdateKw, [Table(table)])]
            + (OptionalClause(ttl, UsingTtl, [Mark]) + ([Clause(SetKw, sets)] + Clauses([Kw(Where)] + tail)))
  {
    hide Clauses, OptionalClause;
    var where := [Kw(Where)] + tail;
    FirstClause(SetKw, sets, where);
    assert [Kw(UsingTtl), Mark] == [Kw(UsingTtl)] + [Mark];
    OptionalCut(ttl, UsingTtl, [Mark], [Kw(SetKw)] + (sets + where));
    var rest := When(ttl, [Kw(UsingTtl), Mark]) + ([Kw(SetKw)] + (sets + where));
    FirstClause(UpdateKw, [Table(table)], rest);
    assert [Kw(UpdateKw), Table(table)] + rest == [Kw(UpdateKw)] + ([Table(table)] + rest);
  }

  lemma UpdateRead(table: string, ttl: bool, sets: seq<Token>, where: seq<Clause>, c: seq<Clause>)
    requires c == [Clause(UpdateKw, [Table(table)])] + (OptionalClause(ttl, UsingTtl, [Mark]) + ([Clause(SetKw, sets)] + where))
    requires where != [] && where[0].k == Where
    ensures c != [] && c[0].k == UpdateKw
    ensures var assignments, keys, guard := ReadTerms(sets, Comma), ReadTerms(where[0].body, AndKw), ReadGuard(where[1..]);
      assignments.Some? && keys.Some? && guard.Some? ==>
        ReadUpdate(c) == Wrappers.Some(Updating(table, ttl, assignments.value, keys.value, guard.value))
  {
    hide ReadTerms, ReadGuard, Optional, OptionalClause, IsNext;
    var afterTtl := OptionalClause(true, SetKw, sets) + where;
    FirstIs(Clause(UpdateKw, [Table(table)]), OptionalClause(ttl, UsingTtl, [Mark]) + ([Clause(SetKw, sets)] + where));
    OneClause(SetKw, sets);
    NextIs(where, UsingTtl);
    NextIs(where, SetKw);
    NextIs(where, Where);
    NotNext(true, SetKw, sets, where, UsingTtl);
    OptionalIs(UsingTtl, [Mark], ttl, afterTtl);
    OptionalIs(SetKw, sets, true, where);
    WhereIs(where);
  }

  lemma FirstIs(a: Clause, rest: seq<Clause>)
    ensures var c := [a] + rest;
      c != [] && c[0] == a && c[1..] == rest
  {
  }

  lemma OneClause(k: Keyword, body: seq<Token>)
    ensures OptionalClause(true, k, body) == [Clause(k, body)]
  {
  }

  lemma NextIs(c: seq<Clause>, k: Keyword)
    ensures IsNext(c, k) <==> c != [] && c[0].k == k
  {
  }

  lemma WhereIs(c: seq<Clause>)
    requires c != [] && c[0].k == Where
    ensures Optional(c, Where) == (Wrappers.Some(c[0].body), c[1..])
  {
  }

  lemma {:induction false} AssignmentsAreBody<V>(properties: seq<PropertyInfo<V>>)
    ensures IsBody(JoinMap(Assignment, properties, Comma))
  {
    forall p: PropertyInfo<V>
      ensures IsBody(Assignment(p))
    {
    }
    JoinIsBody<PropertyInfo<V>>(Assignment, properties, Comma);
  }

  /** A DELETE removes exactly the columns asked for, or else whole rows, from the table's rows with the keys. */
  lemma {:induction false} DeleteReads<V>(table: string, others: seq<PropertyInfo<V>>, keys: seq<PropertyInfo<V>>,
                                          condition: seq<PropertyInfo<V>>, ifExists: bool, deleteOnlyColumns: bool,
                                          doc: Doc<V>, info: DocInfo<V>)
    requires OperatorsFit(condition, info.condition)
    ensures ReadStatement(GetDeleteQuery(table, others, keys, condition, ifExists, deleteOnlyColumns))
         == Wrappers.Some(Deleting(if deleteOnlyColumns then NamesOf(others) else [], table, Equalities(keys, doc).targets,
                                   GuardOf(condition, ifExists, info)))
  {
    hide ReadTerms, ReadGuard, Clauses, JoinMap, OperatorsFit, GuardOf, ConditionClause, ReadNames, ReadDelete, IsBody;
    assert IsBody([]) by {
      EmptyIsBody();
    }
    var tail := JoinMap(KeyCondition, keys, AndKw) + ConditionClause(condition, ifExists);
    WhereReads(keys, condition, ifExists, doc, info);
    var columns := When(deleteOnlyColumns, JoinMap(Column, others, Comma));
    ColumnsAreBody(others);
    DeleteClauses(table, columns, tail);
    NamesRead(others);
    NoNames();
    DeleteRead(table, columns, Clauses([Kw(Where)] + tail), Clauses(GetDeleteQuery(table, others, keys, condition, ifExists, deleteOnlyColumns)));
  }

  lemma {:induction false} DeleteClauses(table: string, columns: seq<Token>, rest: seq<Token>)
    requires IsBody(columns)
    ensures Clauses([Kw(DeleteKw)] + (columns + ([Kw(From), Table(table), Kw(Where)] + rest)))
         == [Clause(DeleteKw, columns)] + ([Clause(From, [Table(table)])] + Clauses([Kw(Where)] + rest))
  {
    hide Clauses;
    var where := [Kw(Where)] + rest;
    FirstClause(From, [Table(table)], where);
    assert [Kw(From), Table(table), Kw(Where)] + rest == [Kw(From)] + ([Table(table)] + where);
    FirstClause(DeleteKw, columns, [Kw(From)] + ([Table(table)] + where));
  }

  lemma EmptyIsBody()
    ensures IsBody([])
  {
  }

  lemma NoNames()
    ensures ReadNames([]) == Wrappers.Some([])
  {
  }

  lemma DeleteRead(table: string, columns: seq<Token>, where: seq<Clause>, c: seq<Clause>)
    requires c == [Clause(DeleteKw, columns)] + ([Clause(From, [Table(table)])] + where)
    requires where != [] && where[0].k == Where
    ensures c != [] && c[0].k == DeleteKw
    ensures var names, keys, guard := ReadNames(columns), ReadTerms(where[0].body, AndKw), ReadGuard(where[1..]);
      names.Some? && keys.Some? && guard.Some? ==>
        ReadDelete(c) == Wrappers.Some(Deleting(names.value, table, keys.value, guard.value))
  {
    hide ReadTerms, ReadGuard, ReadNames, Optional, OptionalClause, IsNext;
    FirstIs(Clause(DeleteKw, columns), [Clause(From, [Table(table)])] + where);
    OneClause(From, [Table(table)]);
    NextIs(where, From);
    OptionalIs(From, [Table(table)], true, where);
    WhereIs(where);
  }

  // ----- Which properties a statement is made of -----

  ghost predicate Rising(at: seq<nat>, n: nat) {
    (forall k :: 0 <= k < |at| ==> at[k] < n) && forall j, k :: 0 <= j < k < |at| ==> at[j] < at[k]
  }

  ghost predicate PickedFrom<V>(picked: seq<PropertyInfo<V>>, properties: seq<PropertyInfo<V>>, at: seq<nat>) {
    && Rising(at, |properties|) && |picked| == |at| && forall k :: 0 <= k < |at| ==> picked[k] == properties[at[k]]
  }

  lemma PickedLonger<V>(picked: seq<PropertyInfo<V>>, properties: seq<PropertyInfo<V>>, at: seq<nat>)
    requires properties != [] && PickedFrom(picked, properties[..|properties| - 1], at)
    ensures PickedFrom(picked, properties, at)
    ensures PickedFrom(picked + [properties[|properties| - 1]], properties, at + [|properties| - 1])
    ensures forall i <- at :: i < |properties| - 1
  {
  }

  /** Of the properties, in their order, exactly those with a column among the given ones are kept, and the others dropped. */
  lemma {:induction false} KeepAndDrop<V>(properties: seq<PropertyInfo<V>>, columns: set<string>) returns (kept: seq<nat>, dropped: seq<nat>)
    ensures PickedFrom(Keep(properties, columns), properties, kept) && PickedFrom(Drop(properties, columns), properties, dropped)
    ensures forall i: nat :: i in kept <==> i < |properties| && properties[i].columnName in columns
    ensures forall i: nat :: i in dropped <==> i < |properties| && properties[i].columnName !in columns
    decreases |properties|
  {
    hide PickedFrom;
    kept, dropped := [], [];
    if properties == [] {
      NothingPicked<V>();
    } else {
      var last: nat := |properties| - 1;
      var init := properties[..last];
      kept, dropped := KeepAndDrop(init, columns);
      PickedLonger(Keep(init, columns), properties, kept);
      PickedLonger(Drop(init, columns), properties, dropped);
      assert Keep(init, columns) + [] == Keep(init, columns) && Drop(init, columns) + [] == Drop(init, columns);
      var before := (kept, dropped);
      if properties[last].columnName in columns {
        kept := kept + [last];
      } else {
        dropped := dropped + [last];
      }
      forall i: nat
        ensures i in kept <==> i < |properties| && properties[i].columnName in columns
        ensures i in dropped <==> i < |properties| && properties[i].columnName !in columns
      {
        Among(before.0, last, i);
        Among(before.1, last, i);
        assert i < last ==> init[i] == properties[i];
      }
    }
  }

  lemma Among(at: seq<nat>, last: nat, i: nat)
    ensures i in at + [last] <==> i in at || i == last
  {
  }

  lemma NothingPicked<V>()
    ensures PickedFrom<V>([], [], [])
  {
  }
}
