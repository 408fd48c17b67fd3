/**
 The keys under which the mapper caches generated queries (lib/mapping/cache.js).

 A key flattens the shape of a request into a sequence of strings. SELECT and INSERT keys determine
 the shape exactly when no property has a name that the key functions also add; DELETE keys do so
 exactly when `Ambiguous` is false.
 */
module ShapeKeys {
  import opened Wrappers
  import opened Operators
  import opened Seqs

  type Parts = seq<string>

  const FIELDS := "|f|"
  const LIMIT := "|l|"
  const ORDER := "|o|"
  const TTL := "|t|"
  const EXISTS := "|e|"
  const DELETE_ONLY := "|dc|"
  const OPERANDS := "|/|"

  /** The marks that can follow the properties in each kind of key. */
  const SELECT_MARKS := {FIELDS, LIMIT, ORDER}
  const INSERT_MARKS := {FIELDS, TTL, EXISTS}
  const DELETE_MARKS := {FIELDS, EXISTS, DELETE_ONLY}

  predicate IsMark(s: string) {
    s in SELECT_MARKS || s in INSERT_MARKS || s in DELETE_MARKS
  }

  /** None of the strings that any of the key functions adds. */
  predicate IsOrdinary(s: string) {
    !IsMark(s) && !IsOperatorKey(s) && s != OPERANDS
  }

  datatype Property = Property(name: string, operand: Operand)

  datatype SelectShape = SelectShape(
    properties: seq<Property>, fields: seq<string>, limit: bool, orderBy: Option<seq<(string, string)>>)

  datatype InsertShape = InsertShape(properties: seq<string>, fields: seq<string>, ttl: bool, ifNotExists: bool)

  datatype RemoveShape = RemoveShape(
    properties: seq<Property>, fields: seq<string>, ifExists: bool, deleteOnlyColumns: bool, condition: seq<Property>)

  function NamesOf(properties: seq<Property>): (r: seq<string>)
    ensures |r| == |properties| && forall i :: 0 <= i < |r| ==> r[i] == properties[i].name
  {
    seq(|properties|, i requires 0 <= i < |properties| => properties[i].name)
  }

  ghost predicate Over(names: iset<string>, used: seq<string>) {
    forall i :: 0 <= i < |used| ==> used[i] in names
  }

  /** As the keys of an object are. */
  ghost predicate Different(used: seq<string>) {
    forall i, j :: 0 <= i < j < |used| ==> used[i] != used[j]
  }

  // ----- The key functions -----

  function YieldOperators(value: Operand): Parts {
    match value
    case Value => []
    case Compare(op) => [OperatorKey(op)]
    case And(left, right) => [AND_KEY] + YieldOperators(left) + [OPERANDS] + YieldOperators(right)
  }

  function YieldKeyAndOperators(properties: seq<Property>): Parts {
    if properties == [] then []
    else [properties[0].name] + (YieldOperators(properties[0].operand) + YieldKeyAndOperators(properties[1..]))
  }

  function YieldFields(fields: seq<string>): Parts {
    YieldMarked(fields, FIELDS)
  }

  function YieldMarked(names: seq<string>, marker: string): Parts {
    if names == [] then [] else [marker] + names
  }

  function YieldOrder(order: seq<(string, string)>): Parts {
    if order == [] then [] else [order[0].0, order[0].1] + YieldOrder(order[1..])
  }

  function YieldOrderBy(orderBy: Option<seq<(string, string)>>): Parts {
    match orderBy
    case None => []
    case Some(order) => [ORDER] + YieldOrder(order)
  }

  function YieldFlag(flag: bool, part: string): Parts {
    if flag then [part] else []
  }

  function GetSelectDocInfo(s: SelectShape): Parts {
    YieldFields(s.fields) + (YieldFlag(s.limit, LIMIT) + YieldOrderBy(s.orderBy))
  }

  function GetSelectKey(s: SelectShape): Parts {
    YieldKeyAndOperators(s.properties) + GetSelectDocInfo(s)
  }

  function GetInsertKey(s: InsertShape): Parts {
    s.properties + (YieldFields(s.fields) + (YieldFlag(s.ttl, TTL) + YieldFlag(s.ifNotExists, EXISTS)))
  }

  function GetRemoveKey(s: RemoveShape): Parts {
    YieldKeyAndOperators(s.properties) + (YieldFields(s.fields) + (YieldFlag(s.ifExists, EXISTS) +
    (YieldFlag(s.deleteOnlyColumns, DELETE_ONLY) + YieldKeyAndOperators(s.condition))))
  }

  // ----- Reading keys back -----

  /** Names that no part of a key can be taken for: no mark, no comparison, and not both halves of `and`. */
  ghost predicate KeptApart(names: iset<string>, marks: set<string>) {
    && (forall m :: m in marks ==> IsMark(m) && m !in names)
    && (forall op: Operator :: OperatorKey(op) !in names)
    && (AND_KEY !in names || OPERANDS !in names)
  }

  lemma {:induction false} StringsDiffer()
    ensures forall op: Operator :: !IsMark(OperatorKey(op)) && OperatorKey(op) != OPERANDS && OperatorKey(op) != AND_KEY
    ensures !IsMark(AND_KEY) && AND_KEY != OPERANDS && !IsMark(OPERANDS)
    ensures FIELDS != LIMIT && FIELDS != ORDER && LIMIT != ORDER && FIELDS != TTL && FIELDS != EXISTS && TTL != EXISTS
    ensures FIELDS != DELETE_ONLY && EXISTS != DELETE_ONLY
  {
    assert FIELDS[0] == LIMIT[0] == ORDER[0] == TTL[0] == EXISTS[0] == OPERANDS[0] == DELETE_ONLY[0] == '|';
    assert FIELDS[1] == 'f' && LIMIT[1] == 'l' && ORDER[1] == 'o' && TTL[1] == 't' && EXISTS[1] == 'e' && OPERANDS[1] == '/';
    assert |DELETE_ONLY| == 4 && AND_KEY[0] == 'A';
    forall op: Operator
      ensures OperatorKey(op)[0] != '|' && OperatorKey(op) != AND_KEY
    {
      OperatorKeyIsNotAnd(op);
    }
  }

  /** Among the operators with which `s` starts, every mark between operands has its `and`; `open` of them came before. */
  predicate Paired(s: Parts, open: nat) {
    s == [] ||
    if s[0] == OPERANDS then open > 0 && Paired(s[1..], open - 1)
    else if s[0] == AND_KEY then Paired(s[1..], open + 1)
    else IsOperatorKey(s[0]) ==> Paired(s[1..], open)
  }

  lemma {:induction false} PairedDeeper(s: Parts, open: nat)
    requires Paired(s, open)
    ensures Paired(s, open + 1)
    decreases |s|
  {
    if s == [] {
    } else if s[0] == OPERANDS {
      PairedDeeper(s[1..], open - 1);
    } else if s[0] == AND_KEY {
      PairedDeeper(s[1..], open + 1);
    } else if IsOperatorKey(s[0]) {
      PairedDeeper(s[1..], open);
    }
  }

  /** An operand closes all that it opens. */
  lemma {:induction false} PairedOperand(a: Operand, s: Parts, open: nat)
    ensures Paired(YieldOperators(a) + s, open) == Paired(s, open)
    decreases a
  {
    OperandHead(a, s);
    if a.Compare? {
      StringsDiffer();
    } else if a.And? {
      StringsDiffer();
      var rest := YieldOperators(a.right) + s;
      PairedOperand(a.left, [OPERANDS] + rest, open + 1);
      DropPrefix([OPERANDS], rest);
      PairedOperand(a.right, s, open);
    }
  }

  /** What may follow an operand: the end, no operator, or the name "AND" where no operand is closed after it. */
  ghost predicate EndsOperand(rest: Parts) {
    rest == [] || !IsOperatorKey(rest[0]) || (rest[0] == AND_KEY && Paired(rest[1..], 0))
  }

  /** The first part of an operand's key, and what is left after it. */
  lemma {:induction false} OperandHead(a: Operand, s: Parts)
    ensures var k := YieldOperators(a) + s;
      match a
      case Value => k == s
      case Compare(op) => |k| > 0 && k[0] == OperatorKey(op) && k[1..] == s
      case And(l, r) =>
        |k| > 0 && k[0] == AND_KEY && k[1..] == YieldOperators(l) + ([OPERANDS] + (YieldOperators(r) + s))
  {
    var k := YieldOperators(a) + s;
    match a
    case Value =>
    case Compare(op) => assert k == [OperatorKey(op)] + s;
    case And(l, r) => assert k == [AND_KEY] + (YieldOperators(l) + ([OPERANDS] + (YieldOperators(r) + s)));
  }

  /** After the first part of `and`, a mark closes it. */
  lemma {:induction false} AndIsClosed(a: Operand, s: Parts)
    requires a.And?
    ensures !Paired((YieldOperators(a) + s)[1..], 0)
  {
    OperandHead(a, s);
    PairedOperand(a.left, [OPERANDS] + (YieldOperators(a.right) + s), 0);
  }

  lemma {:induction false} SameConstructor(a: Operand, b: Operand, s: Parts, t: Parts)
    requires EndsOperand(s) && EndsOperand(t)
    requires YieldOperators(a) + s == YieldOperators(b) + t
    ensures a.Value? == b.Value? && a.And? == b.And?
    ensures a.Compare? && b.Compare? ==> a == b
  {
    hide Paired;
    OperandHead(a, s);
    OperandHead(b, t);
    if a.Compare? {
      OperatorKeyIsNotAnd(a.op);
    } else if a.And? {
      AndIsClosed(a, s);
    }
    if b.Compare? {
      OperatorKeyIsNotAnd(b.op);
      if a.Compare? && a != b {
        OperatorKeysDiffer(a.op, b.op);
      }
    } else if b.And? {
      AndIsClosed(b, t);
    }
  }

  /** Operator trees of any depth are read back uniquely, along with what follows. */
  lemma {:induction false} OperatorsUnique(a: Operand, b: Operand, s: Parts, t: Parts)
    requires EndsOperand(s) && EndsOperand(t)
    requires YieldOperators(a) + s == YieldOperators(b) + t
    ensures a == b && s == t
    decreases a
  {
    SameConstructor(a, b, s, t);
    OperandHead(a, s);
    OperandHead(b, t);
    if a.And? {
      StringsDiffer();
      var s', t' := YieldOperators(a.right) + s, YieldOperators(b.right) + t;
      OperatorsUnique(a.left, b.left, [OPERANDS] + s', [OPERANDS] + t');
      assert ([OPERANDS] + s')[1..] == s' && ([OPERANDS] + t')[1..] == t';
      OperatorsUnique(a.right, b.right, s, t);
    }
  }

  /** What may follow the properties: the end, or a mark. */
  ghost predicate EndsNames(marks: set<string>, rest: Parts) {
    rest == [] || rest[0] in marks
  }

  lemma {:induction false} PropertiesHead(p: seq<Property>, s: Parts)
    requires p != []
    ensures var k := YieldKeyAndOperators(p) + s;
      && |k| > 0 && k[0] == p[0].name
      && k[1..] == YieldOperators(p[0].operand) + (YieldKeyAndOperators(p[1..]) + s)
  {
    var operators, rest := YieldOperators(p[0].operand), YieldKeyAndOperators(p[1..]);
    Assoc([p[0].name], operators + rest, s);
    Assoc(operators, rest, s);
  }

  lemma {:induction false} OverTail(names: iset<string>, p: seq<Property>)
    requires p != [] && Over(names, NamesOf(p))
    ensures p[0].name in names && Over(names, NamesOf(p[1..]))
  {
    assert NamesOf(p)[0] == p[0].name;
    forall i | 0 <= i < |p[1..]|
      ensures NamesOf(p[1..])[i] in names
    {
      assert NamesOf(p[1..])[i] == NamesOf(p)[i + 1];
    }
  }

  /** Without the mark between operands among the names, every such mark has its `and`. */
  lemma {:induction false} PairedProperties(names: iset<string>, marks: set<string>, p: seq<Property>, s: Parts)
    requires KeptApart(names, marks) && Over(names, NamesOf(p)) && EndsNames(marks, s) && OPERANDS !in names
    ensures Paired(YieldKeyAndOperators(p) + s, 0)
    decreases |p|
  {
    StringsDiffer();
    if p == [] {
      assert YieldKeyAndOperators(p) + s == s;
    } else {
      OverTail(names, p);
      PropertiesHead(p, s);
      PairedProperties(names, marks, p[1..], s);
      var rest := YieldKeyAndOperators(p[1..]) + s;
      PairedOperand(p[0].operand, rest, 0);
      PairedDeeper(YieldOperators(p[0].operand) + rest, 0);
    }
  }

  lemma {:induction false} TailEndsOperand(names: iset<string>, marks: set<string>, p: seq<Property>, s: Parts)
    requires KeptApart(names, marks) && Over(names, NamesOf(p)) && EndsNames(marks, s)
    ensures EndsOperand(YieldKeyAndOperators(p) + s)
  {
    hide Paired;
    StringsDiffer();
    if p == [] {
      assert YieldKeyAndOperators(p) + s == s;
    } else {
      OverTail(names, p);
      PropertiesHead(p, s);
      if p[0].name == AND_KEY {
        PairedProperties(names, marks, p[1..], s);
        PairedOperand(p[0].operand, YieldKeyAndOperators(p[1..]) + s, 0);
      }
    }
  }

  lemma {:induction false} PropertiesUnique(names: iset<string>, marks: set<string>, p: seq<Property>, q: seq<Property>,
                                            s: Parts, t: Parts)
    requires KeptApart(names, marks) && Over(names, NamesOf(p)) && Over(names, NamesOf(q))
    requires EndsNames(marks, s) && EndsNames(marks, t)
    requires YieldKeyAndOperators(p) + s == YieldKeyAndOperators(q) + t
    ensures p == q && s == t
    decreases |p|
  {
    assert p == [] ==> YieldKeyAndOperators(p) + s == s;
    assert q == [] ==> YieldKeyAndOperators(q) + t == t;
    if p != [] {
      PropertiesHead(p, s);
      OverTail(names, p);
    }
    if q != [] {
      PropertiesHead(q, t);
      OverTail(names, q);
    }
    if p != [] && q != [] {
      TailEndsOperand(names, marks, p[1..], s);
      TailEndsOperand(names, marks, q[1..], t);
      OperatorsUnique(p[0].operand, q[0].operand, YieldKeyAndOperators(p[1..]) + s, YieldKeyAndOperators(q[1..]) + t);
      PropertiesUnique(names, marks, p[1..], q[1..], s, t);
    }
  }

  /** A run of names followed by a mark or the end is read back uniquely. */
  lemma {:induction false} NamesUnique(names: iset<string>, marks: set<string>, f: seq<string>, g: seq<string>,
                                       s: Parts, t: Parts)
    requires Over(names, f) && Over(names, g) && EndsNames(marks, s) && EndsNames(marks, t)
    requires (forall m :: m in marks ==> m !in names) && f + s == g + t
    ensures f == g && s == t
  {
    NotShorter(names, marks, f, g, s, t);
    NotShorter(names, marks, g, f, t, s);
    assert f == (f + s)[..|f|] == (g + t)[..|f|] == g;
    assert s == (f + s)[|f|..] == (g + t)[|f|..] == t;
  }

  lemma {:induction false} NotShorter(names: iset<string>, marks: set<string>, f: seq<string>, g: seq<string>,
                                      s: Parts, t: Parts)
    requires Over(names, g) && EndsNames(marks, s) && (forall m :: m in marks ==> m !in names) && f + s == g + t
    ensures |f| >= |g|
  {
    var k := f + s;
    assert |f| < |k| ==> k[|f|] == s[0];
    assert k == g + t;
  }

  lemma {:induction false} MarkedUnique(names: iset<string>, marks: set<string>, f: seq<string>, g: seq<string>,
                                        marker: string, s: Parts, t: Parts)
    requires Over(names, f) && Over(names, g) && EndsNames(marks, s) && EndsNames(marks, t)
    requires forall m :: m in marks ==> m !in names
    requires s != [] ==> s[0] != marker
    requires t != [] ==> t[0] != marker
    requires YieldMarked(f, marker) + s == YieldMarked(g, marker) + t
    ensures f == g && s == t
  {
    MarkerFirst(f, marker, s);
    MarkerFirst(g, marker, t);
    if f != [] {
      NamesUnique(names, marks, f, g, s, t);
    }
  }

  lemma {:induction false} MarkerFirst(f: seq<string>, marker: string, s: Parts)
    requires s != [] ==> s[0] != marker
    ensures var k := YieldMarked(f, marker) + s;
      && (f == [] <==> k == [] || k[0] != marker)
      && (if f == [] then k == s else k[1..] == f + s)
  {
    assert if f == [] then YieldMarked(f, marker) + s == s else YieldMarked(f, marker) + s == [marker] + (f + s);
  }

  lemma {:induction false} FlagUnique(f: bool, g: bool, part: string, s: Parts, t: Parts)
    requires s != [] ==> s[0] != part
    requires t != [] ==> t[0] != part
    requires YieldFlag(f, part) + s == YieldFlag(g, part) + t
    ensures f == g && s == t
  {
    var k := YieldFlag(f, part) + s;
    assert f ==> k[0] == part && k[1..] == s;
    assert g ==> k[0] == part && k[1..] == t;
    assert !f ==> k == s;
    assert !g ==> k == t;
  }

  lemma {:induction false} OrderUnique(o: seq<(string, string)>, p: seq<(string, string)>)
    requires YieldOrder(o) == YieldOrder(p)
    ensures o == p
    decreases |o|
  {
    if o != [] && p != [] {
      assert YieldOrder(o)[2..] == YieldOrder(o[1..]) && YieldOrder(p)[2..] == YieldOrder(p[1..]);
      assert o[0].0 == YieldOrder(o)[0] && o[0].1 == YieldOrder(o)[1];
      assert p[0].0 == YieldOrder(p)[0] && p[0].1 == YieldOrder(p)[1];
      OrderUnique(o[1..], p[1..]);
    }
  }

  // ----- SELECT and INSERT keys determine shapes -----

  /** Shapes of the requests for documents with such property names; an object's keys are different. */
  ghost predicate SelectOver(names: iset<string>, s: SelectShape) {
    && s.properties != [] && Over(names, NamesOf(s.properties)) && Different(NamesOf(s.properties))
    && Over(names, s.fields)
  }

  ghost predicate InsertOver(names: iset<string>, s: InsertShape) {
    s.properties != [] && Over(names, s.properties) && Different(s.properties) && Over(names, s.fields)
  }

  /** The names that SELECT keys need: no marks of SELECT, no comparisons, not both `AND` and `|/|`. */
  ghost predicate SelectNames(names: iset<string>) {
    KeptApart(names, SELECT_MARKS)
  }

  /** INSERT keys hold no operators, so only the marks matter. */
  ghost predicate InsertNames(names: iset<string>) {
    forall m :: m in INSERT_MARKS ==> m !in names
  }

  lemma {:induction false} SelectGroups(s: SelectShape)
    ensures var order := YieldOrderBy(s.orderBy);
      var limit := YieldFlag(s.limit, LIMIT) + order;
      var fields := YieldFields(s.fields) + limit;
      && GetSelectKey(s) == YieldKeyAndOperators(s.properties) + fields
      && EndsNames(SELECT_MARKS, order) && EndsNames(SELECT_MARKS, limit) && EndsNames(SELECT_MARKS, fields)
      && (order != [] ==> order[0] != LIMIT)
      && (limit != [] ==> limit[0] != FIELDS)
  {
    StringsDiffer();
    var order := YieldOrderBy(s.orderBy);
    assert !s.limit ==> YieldFlag(s.limit, LIMIT) + order == order;
    assert s.fields == [] ==> YieldFields(s.fields) + (YieldFlag(s.limit, LIMIT) + order) == YieldFlag(s.limit, LIMIT) + order;
  }

  lemma {:induction false} OrderByUnique(a: Option<seq<(string, string)>>, b: Option<seq<(string, string)>>)
    requires YieldOrderBy(a) == YieldOrderBy(b)
    ensures a == b
  {
    if a.Some? && b.Some? {
      assert YieldOrderBy(a)[1..] == YieldOrder(a.value) && YieldOrderBy(b)[1..] == YieldOrder(b.value);
      OrderUnique(a.value, b.value);
    }
  }

  /** With such names, two SELECT requests have equal keys only when they have the same shape. */
  lemma {:induction false} SelectKeyInjective(names: iset<string>, a: SelectShape, b: SelectShape)
    requires SelectNames(names) && SelectOver(names, a) && SelectOver(names, b)
    ensures GetSelectKey(a) == GetSelectKey(b) <==> a == b
  {
    if GetSelectKey(a) == GetSelectKey(b) {
      SelectGroups(a);
      SelectGroups(b);
      var oa, ob := YieldOrderBy(a.orderBy), YieldOrderBy(b.orderBy);
      var la, lb := YieldFlag(a.limit, LIMIT) + oa, YieldFlag(b.limit, LIMIT) + ob;
      PropertiesUnique(names, SELECT_MARKS, a.properties, b.properties, YieldFields(a.fields) + la, YieldFields(b.fields) + lb);
      MarkedUnique(names, SELECT_MARKS, a.fields, b.fields, FIELDS, la, lb);
      FlagUnique(a.limit, b.limit, LIMIT, oa, ob);
      OrderByUnique(a.orderBy, b.orderBy);
    }
  }

  // ----- The names that SELECT and INSERT keys confuse -----

  function Plain(names: seq<string>): (r: seq<Property>)
    ensures |r| == |names| && forall i :: 0 <= i < |r| ==> r[i] == Property(names[i], Value)
  {
    if names == [] then [] else [Property(names[0], Value)] + Plain(names[1..])
  }

  lemma {:induction false} PlainKey(names: seq<string>)
    ensures YieldKeyAndOperators(Plain(names)) == names
    decreases |names|
  {
    if names != [] {
      PlainKey(names[1..]);
      DropPrefix([Property(names[0], Value)], Plain(names[1..]));
      assert YieldOperators(Value) + names[1..] == names[1..];
      assert names == [names[0]] + names[1..];
    }
  }

  lemma PlainNames(names: seq<string>)
    ensures NamesOf(Plain(names)) == names
  {
  }

  lemma OneKey(name: string, operand: Operand)
    ensures YieldKeyAndOperators([Property(name, operand)]) == [name] + YieldOperators(operand)
    ensures NamesOf([Property(name, operand)]) == [name]
  {
    assert YieldOperators(operand) + [] == YieldOperators(operand);
  }

  /** A mark or a comparison among the names: two documents with that name and another one are confused. */
  lemma {:induction false} SelectNameConfused(names: iset<string>, bad: string, x: string)
    returns (a: SelectShape, b: SelectShape)
    requires x in names && bad in names && x != bad
    requires bad in SELECT_MARKS || exists op: Operator :: bad == OperatorKey(op)
    ensures SelectOver(names, a) && SelectOver(names, b) && a != b && GetSelectKey(a) == GetSelectKey(b)
  {
    PlainKey([x, bad]);
    PlainKey([x]);
    PlainNames([x, bad]);
    PlainNames([x]);
    b := SelectShape(Plain([x, bad]), [], false, None);
    if bad == LIMIT {
      a := SelectShape(Plain([x]), [], true, None);
    } else if bad == ORDER {
      a := SelectShape(Plain([x]), [], false, Some([]));
    } else if bad == FIELDS {
      a := SelectShape(Plain([x]), [FIELDS, x], false, None);
      b := SelectShape(Plain([x, FIELDS]), [x], false, None);
      assert GetSelectKey(a) == [x, FIELDS, FIELDS, x] == GetSelectKey(b);
    } else {
      var op :| bad == OperatorKey(op);
      OneKey(x, Compare(op));
      a := SelectShape([Property(x, Compare(op))], [], false, None);
    }
  }

  /** Both `AND` and `|/|` among the names: they can be taken for an `and` of two values. */
  lemma {:induction false} SelectAndConfused(names: iset<string>, x: string) returns (a: SelectShape, b: SelectShape)
    requires x in names && AND_KEY in names && OPERANDS in names && x != AND_KEY && x != OPERANDS
    ensures SelectOver(names, a) && SelectOver(names, b) && a != b && GetSelectKey(a) == GetSelectKey(b)
  {
    StringsDiffer();
    var all := [x, AND_KEY, OPERANDS];
    PlainKey(all);
    PlainNames(all);
    OneKey(x, And(Value, Value));
    a := SelectShape([Property(x, And(Value, Value))], [], false, None);
    b := SelectShape(Plain(all), [], false, None);
    assert GetSelectKey(a) == all == GetSelectKey(b);
  }

  ghost predicate SelectKeysDiffer(names: iset<string>) {
    forall a, b :: SelectOver(names, a) && SelectOver(names, b) && GetSelectKey(a) == GetSelectKey(b) ==> a == b
  }

  /**
   Over property names with at least one ordinary one among them, SELECT keys determine the shape exactly
   when none of the names is a mark of SELECT or a comparison, and `AND` and `|/|` are not both names.
   */
  lemma {:induction false} SelectKeyNeedsNames(names: iset<string>, x: string)
    requires x in names && IsOrdinary(x)
    ensures SelectKeysDiffer(names) <==> SelectNames(names)
  {
    hide GetSelectKey, SelectOver;
    if SelectNames(names) {
      forall a, b | SelectOver(names, a) && SelectOver(names, b) && GetSelectKey(a) == GetSelectKey(b)
        ensures a == b
      {
        SelectKeyInjective(names, a, b);
      }
    } else if bad: string :| bad in names && (bad in SELECT_MARKS || exists op: Operator :: bad == OperatorKey(op)) {
      var a, b := SelectNameConfused(names, bad, x);
    } else {
      var a, b := SelectAndConfused(names, x);
    }
  }

  lemma {:induction false} InsertGroups(s: InsertShape)
    ensures var exists' := YieldFlag(s.ifNotExists, EXISTS);
      var ttl := YieldFlag(s.ttl, TTL) + exists';
      var fields := YieldFields(s.fields) + ttl;
      && GetInsertKey(s) == s.properties + fields
      && EndsNames(INSERT_MARKS, exists') && EndsNames(INSERT_MARKS, ttl) && EndsNames(INSERT_MARKS, fields)
      && (exists' != [] ==> exists'[0] != TTL)
      && (ttl != [] ==> ttl[0] != FIELDS)
  {
    StringsDiffer();
    var exists' := YieldFlag(s.ifNotExists, EXISTS);
    assert !s.ttl ==> YieldFlag(s.ttl, TTL) + exists' == exists';
    assert s.fields == [] ==> YieldFields(s.fields) + (YieldFlag(s.ttl, TTL) + exists') == YieldFlag(s.ttl, TTL) + exists';
  }

  /** With such names, two INSERT requests have equal keys only when they have the same shape. */
  lemma {:induction false} InsertKeyInjective(names: iset<string>, a: InsertShape, b: InsertShape)
    requires InsertNames(names) && InsertOver(names, a) && InsertOver(names, b)
    ensures GetInsertKey(a) == GetInsertKey(b) <==> a == b
  {
    if GetInsertKey(a) == GetInsertKey(b) {
      InsertGroups(a);
      InsertGroups(b);
      var ea, eb := YieldFlag(a.ifNotExists, EXISTS), YieldFlag(b.ifNotExists, EXISTS);
      var ta, tb := YieldFlag(a.ttl, TTL) + ea, YieldFlag(b.ttl, TTL) + eb;
      NamesUnique(names, INSERT_MARKS, a.properties, b.properties, YieldFields(a.fields) + ta, YieldFields(b.fields) + tb);
      MarkedUnique(names, INSERT_MARKS, a.fields, b.fields, FIELDS, ta, tb);
      FlagUnique(a.ttl, b.ttl, TTL, ea, eb);
      assert ea + [] == eb + [];
      FlagUnique(a.ifNotExists, b.ifNotExists, EXISTS, [], []);
    }
  }

  lemma {:induction false} InsertNameConfused(names: iset<string>, bad: string, x: string)
    returns (a: InsertShape, b: InsertShape)
    requires x in names && bad in names && x != bad && bad in INSERT_MARKS
    ensures InsertOver(names, a) && InsertOver(names, b) && a != b && GetInsertKey(a) == GetInsertKey(b)
  {
    if bad == FIELDS {
      a := InsertShape([x], [FIELDS, x], false, false);
      b := InsertShape([x, FIELDS], [x], false, false);
      assert GetInsertKey(a) == [x, FIELDS, FIELDS, x] == GetInsertKey(b);
    } else {
      a := InsertShape([x], [], bad == TTL, bad == EXISTS);
      b := InsertShape([x, bad], [], false, false);
      assert GetInsertKey(a) == [x, bad] == GetInsertKey(b);
    }
  }

  ghost predicate InsertKeysDiffer(names: iset<string>) {
    forall a, b :: InsertOver(names, a) && InsertOver(names, b) && GetInsertKey(a) == GetInsertKey(b) ==> a == b
  }

  /**
   Over property names with at least one ordinary one, INSERT keys determine the shape exactly when no name is a
   mark of INSERT.
   */
  lemma {:induction false} InsertKeyNeedsNames(names: iset<string>, x: string)
    requires x in names && IsOrdinary(x)
    ensures InsertKeysDiffer(names) <==> InsertNames(names)
  {
    hide GetInsertKey, InsertOver;
    if InsertNames(names) {
      forall a, b | InsertOver(names, a) && InsertOver(names, b) && GetInsertKey(a) == GetInsertKey(b)
        ensures a == b
      {
        InsertKeyInjective(names, a, b);
      }
    } else {
      var bad :| bad in INSERT_MARKS && bad in names;
      var a, b := InsertNameConfused(names, bad, x);
    }
  }

  // ----- DELETE: conditions are not separated from what precedes them -----

  /** Shapes of DELETE requests: the keys of the document and of `when` are those of objects. */
  ghost predicate RemoveOver(names: iset<string>, s: RemoveShape) {
    && s.properties != [] && Over(names, NamesOf(s.properties)) && Different(NamesOf(s.properties))
    && Over(names, s.fields) && Over(names, NamesOf(s.condition)) && Different(NamesOf(s.condition))
  }

  ghost predicate RemoveNames(names: iset<string>) {
    KeptApart(names, DELETE_MARKS)
  }

  function Last(names: seq<string>): string
    requires names != []
  {
    names[|names| - 1]
  }

  /**
   True of the shapes whose key another shape shares: nothing marks where `when` begins, so its first
   property may as well be the last of the document or the last column, and the other way round. An object
   cannot have a property twice, so the name must be new where it moves to.
   */
  predicate Ambiguous(s: RemoveShape) {
    !Flagged(s) && (MovesBack(s) || MovesOn(s))
  }

  /** The first condition can be taken for one more property, or one more column. */
  predicate MovesBack(s: RemoveShape) {
    s.condition != [] &&
    if s.fields == [] then s.condition[0].name !in NamesOf(s.properties) else s.condition[0].operand.Value?
  }

  /** The last property, or the last column, can be taken for a condition. */
  predicate MovesOn(s: RemoveShape) {
    if s.fields == [] then |s.properties| >= 2 && Last(NamesOf(s.properties)) !in NamesOf(s.condition)
    else |s.fields| >= 2 && Last(s.fields) !in NamesOf(s.condition)
  }

  lemma {:induction false} PropertiesConcat(p: seq<Property>, q: seq<Property>)
    ensures YieldKeyAndOperators(p + q) == YieldKeyAndOperators(p) + YieldKeyAndOperators(q)
    decreases |p|
  {
    if p == [] {
      assert p + q == q;
    } else {
      PropertiesConcat(p[1..], q);
      assert (p + q)[1..] == p[1..] + q;
      var operators, rest := YieldOperators(p[0].operand), YieldKeyAndOperators(p[1..]);
      Assoc(operators, rest, YieldKeyAndOperators(q));
      Assoc([p[0].name], operators + rest, YieldKeyAndOperators(q));
    }
  }

  predicate Flagged(s: RemoveShape) {
    s.ifExists || s.deleteOnlyColumns
  }

  /** Without flags, the conditions continue the properties, or the columns. */
  lemma {:induction false} UnflaggedKey(s: RemoveShape)
    requires !Flagged(s)
    ensures s.fields == [] ==> GetRemoveKey(s) == YieldKeyAndOperators(s.properties + s.condition)
    ensures s.fields != [] ==>
      GetRemoveKey(s) == YieldKeyAndOperators(s.properties) + ([FIELDS] + YieldKeyAndOperators(Plain(s.fields) + s.condition))
  {
    var c := YieldKeyAndOperators(s.condition);
    NoFlag(EXISTS, YieldFlag(s.deleteOnlyColumns, DELETE_ONLY) + c);
    NoFlag(DELETE_ONLY, c);
    if s.fields == [] {
      assert YieldFields(s.fields) + c == c;
      PropertiesConcat(s.properties, s.condition);
    } else {
      PropertiesConcat(Plain(s.fields), s.condition);
      PlainKey(s.fields);
      Assoc([FIELDS], s.fields, c);
    }
  }

  lemma {:induction false} NoFlag(part: string, rest: Parts)
    ensures YieldFlag(false, part) + rest == rest
  {
  }

  /** A key starts with its properties, followed by the first marker if there is one. */
  lemma {:induction false} FlaggedKey(s: RemoveShape)
    requires Flagged(s)
    ensures var condition := YieldKeyAndOperators(s.condition);
      var only := YieldFlag(s.deleteOnlyColumns, DELETE_ONLY) + condition;
      var flags := YieldFlag(s.ifExists, EXISTS) + only;
      && GetRemoveKey(s) == YieldKeyAndOperators(s.properties) + (YieldFields(s.fields) + flags)
      && flags != [] && EndsNames(DELETE_MARKS, flags) && flags[0] != FIELDS
      && EndsNames(DELETE_MARKS, YieldFields(s.fields) + flags) && YieldFields(s.fields) + flags != []
  {
    StringsDiffer();
    var only := YieldFlag(s.deleteOnlyColumns, DELETE_ONLY) + YieldKeyAndOperators(s.condition);
    assert !s.ifExists ==> YieldFlag(s.ifExists, EXISTS) + only == only;
    assert s.fields == [] ==> YieldFields(s.fields) + (YieldFlag(s.ifExists, EXISTS) + only) == YieldFlag(s.ifExists, EXISTS) + only;
  }

  lemma {:induction false} ConditionHead(names: iset<string>, c: seq<Property>, marker: string)
    requires Over(names, NamesOf(c)) && marker !in names
    ensures YieldKeyAndOperators(c) != [] ==> YieldKeyAndOperators(c)[0] != marker
  {
    if c != [] {
      OverTail(names, c);
    }
  }

  /** A flag in the key settles everything after it. */
  lemma {:induction false} FlaggedDetermines(names: iset<string>, a: RemoveShape, b: RemoveShape)
    requires RemoveNames(names) && RemoveOver(names, a) && RemoveOver(names, b) && Flagged(a) && Flagged(b)
    requires GetRemoveKey(a) == GetRemoveKey(b)
    ensures a == b
  {
    StringsDiffer();
    FlaggedKey(a);
    FlaggedKey(b);
    var ca, cb := YieldKeyAndOperators(a.condition), YieldKeyAndOperators(b.condition);
    var oa, ob := YieldFlag(a.deleteOnlyColumns, DELETE_ONLY) + ca, YieldFlag(b.deleteOnlyColumns, DELETE_ONLY) + cb;
    var ea, eb := YieldFlag(a.ifExists, EXISTS) + oa, YieldFlag(b.ifExists, EXISTS) + ob;
    PropertiesUnique(names, DELETE_MARKS, a.properties, b.properties, YieldFields(a.fields) + ea, YieldFields(b.fields) + eb);
    MarkedUnique(names, DELETE_MARKS, a.fields, b.fields, FIELDS, ea, eb);
    FlagStops(names, a.deleteOnlyColumns, a.condition);
    FlagStops(names, b.deleteOnlyColumns, b.condition);
    FlagUnique(a.ifExists, b.ifExists, EXISTS, oa, ob);
    ConditionHead(names, a.condition, DELETE_ONLY);
    ConditionHead(names, b.condition, DELETE_ONLY);
    FlagUnique(a.deleteOnlyColumns, b.deleteOnlyColumns, DELETE_ONLY, ca, cb);
    assert ca + [] == ca && cb + [] == cb;
    PropertiesUnique(names, DELETE_MARKS, a.condition, b.condition, [], []);
  }

  lemma {:induction false} FlagStops(names: iset<string>, only: bool, c: seq<Property>)
    requires Over(names, NamesOf(c)) && EXISTS !in names
    ensures var o := YieldFlag(only, DELETE_ONLY) + YieldKeyAndOperators(c);
      o != [] ==> o[0] != EXISTS
  {
    StringsDiffer();
    ConditionHead(names, c, EXISTS);
    assert !only ==> YieldFlag(only, DELETE_ONLY) + YieldKeyAndOperators(c) == YieldKeyAndOperators(c);
  }

  /** Keys with and without flags never meet. */
  lemma {:induction false} FlaggedDiffers(names: iset<string>, a: RemoveShape, b: RemoveShape)
    requires RemoveNames(names) && RemoveOver(names, a) && RemoveOver(names, b) && Flagged(a) && !Flagged(b)
    ensures GetRemoveKey(a) != GetRemoveKey(b)
  {
    if GetRemoveKey(a) == GetRemoveKey(b) {
      StringsDiffer();
      FlaggedKey(a);
      UnflaggedKey(b);
      var ca := YieldKeyAndOperators(a.condition);
      var ea := YieldFlag(a.ifExists, EXISTS) + (YieldFlag(a.deleteOnlyColumns, DELETE_ONLY) + ca);
      if b.fields == [] {
        var all := YieldKeyAndOperators(b.properties + b.condition);
        assert all + [] == all;
        NamesOfConcat(b.properties, b.condition);
        PropertiesUnique(names, DELETE_MARKS, a.properties, b.properties + b.condition, YieldFields(a.fields) + ea, []);
      } else {
        var tail := Plain(b.fields) + b.condition;
        NamesOfConcat(Plain(b.fields), b.condition);
        PlainNames(a.fields);
        PlainNames(b.fields);
        PropertiesUnique(names, DELETE_MARKS, a.properties, b.properties, YieldFields(a.fields) + ea,
                         [FIELDS] + YieldKeyAndOperators(tail));
        assert YieldKeyAndOperators(tail) + [] == YieldKeyAndOperators(tail);
        MarkerFirst(a.fields, FIELDS, ea);
        PlainKey(a.fields);
        PropertiesUnique(names, DELETE_MARKS, Plain(a.fields), tail, ea, []);
      }
    }
  }

  lemma NamesOfConcat(p: seq<Property>, q: seq<Property>)
    ensures NamesOf(p + q) == NamesOf(p) + NamesOf(q)
  {
  }

  lemma {:induction false} OverAll(names: iset<string>, s: RemoveShape)
    requires RemoveOver(names, s)
    ensures Over(names, NamesOf(s.properties + s.condition)) && Over(names, NamesOf(Plain(s.fields) + s.condition))
  {
    NamesOfConcat(s.properties, s.condition);
    NamesOfConcat(Plain(s.fields), s.condition);
    PlainNames(s.fields);
  }

  lemma {:induction false} PropertiesInjective(names: iset<string>, p: seq<Property>, q: seq<Property>)
    requires RemoveNames(names) && Over(names, NamesOf(p)) && Over(names, NamesOf(q))
    requires YieldKeyAndOperators(p) == YieldKeyAndOperators(q)
    ensures p == q
  {
    var kp, kq := YieldKeyAndOperators(p), YieldKeyAndOperators(q);
    assert kp + [] == kp && kq + [] == kq;
    PropertiesUnique(names, DELETE_MARKS, p, q, [], []);
  }

  /** Without flags, two shapes share a key only by moving the start of the conditions. */
  lemma {:induction false} UnflaggedDetermines(names: iset<string>, a: RemoveShape, b: RemoveShape)
    requires RemoveNames(names) && RemoveOver(names, a) && RemoveOver(names, b) && !Flagged(a) && !Flagged(b)
    requires GetRemoveKey(a) == GetRemoveKey(b)
    ensures (a.fields == []) == (b.fields == [])
    ensures a.fields == [] ==> a.properties + a.condition == b.properties + b.condition
    ensures a.fields != [] ==>
      a.properties == b.properties && Plain(a.fields) + a.condition == Plain(b.fields) + b.condition
  {
    UnflaggedKey(a);
    UnflaggedKey(b);
    OverAll(names, a);
    OverAll(names, b);
    if a.fields == [] && b.fields == [] {
      PropertiesInjective(names, a.properties + a.condition, b.properties + b.condition);
    } else if a.fields != [] && b.fields != [] {
      MarkedTail(names, a.properties, b.properties, Plain(a.fields) + a.condition, Plain(b.fields) + b.condition);
    } else {
      var x, y := if a.fields == [] then a else b, if a.fields == [] then b else a;
      UnmarkedDiffers(names, x.properties + x.condition, y.properties, Plain(y.fields) + y.condition);
    }
  }

  lemma {:induction false} MarkedTail(names: iset<string>, p: seq<Property>, q: seq<Property>, f: seq<Property>, g: seq<Property>)
    requires RemoveNames(names) && Over(names, NamesOf(p)) && Over(names, NamesOf(q))
    requires Over(names, NamesOf(f)) && Over(names, NamesOf(g))
    requires YieldKeyAndOperators(p) + ([FIELDS] + YieldKeyAndOperators(f))
          == YieldKeyAndOperators(q) + ([FIELDS] + YieldKeyAndOperators(g))
    ensures p == q && f == g
  {
    PropertiesUnique(names, DELETE_MARKS, p, q, [FIELDS] + YieldKeyAndOperators(f), [FIELDS] + YieldKeyAndOperators(g));
    DropPrefix([FIELDS], YieldKeyAndOperators(f));
    DropPrefix([FIELDS], YieldKeyAndOperators(g));
    PropertiesInjective(names, f, g);
  }

  lemma {:induction false} UnmarkedDiffers(names: iset<string>, p: seq<Property>, q: seq<Property>, g: seq<Property>)
    requires RemoveNames(names) && Over(names, NamesOf(p)) && Over(names, NamesOf(q))
    ensures YieldKeyAndOperators(p) != YieldKeyAndOperators(q) + ([FIELDS] + YieldKeyAndOperators(g))
  {
    var tail := [FIELDS] + YieldKeyAndOperators(g);
    if YieldKeyAndOperators(p) == YieldKeyAndOperators(q) + tail {
      assert YieldKeyAndOperators(p) + [] == YieldKeyAndOperators(p);
      PropertiesUnique(names, DELETE_MARKS, p, q, [], tail);
    }
  }

  /** A shape with the same key as an ambiguous one, and different from it. */
  function Twin(s: RemoveShape): RemoveShape
    requires Ambiguous(s)
  {
    if MovesBack(s) then
      if s.fields == [] then s.(properties := s.properties + [s.condition[0]], condition := s.condition[1..])
      else s.(fields := s.fields + [s.condition[0].name], condition := s.condition[1..])
    else if s.fields == [] then
      var last := |s.properties| - 1;
      s.(properties := s.properties[..last], condition := [s.properties[last]] + s.condition)
    else
      var last := |s.fields| - 1;
      s.(fields := s.fields[..last], condition := [Property(s.fields[last], Value)] + s.condition)
  }

  lemma {:induction false} TwinCollides(names: iset<string>, s: RemoveShape)
    requires RemoveOver(names, s) && Ambiguous(s)
    ensures RemoveOver(names, Twin(s)) && Twin(s) != s && GetRemoveKey(Twin(s)) == GetRemoveKey(s)
  {
    var t := Twin(s);
    TwinIsRequest(names, s);
    TwinContinues(s);
    UnflaggedKey(s);
    UnflaggedKey(t);
  }

  lemma {:induction false} TwinContinues(s: RemoveShape)
    requires Ambiguous(s)
    ensures var t := Twin(s);
      && t != s && !Flagged(t) && (t.fields == [] <==> s.fields == [])
      && (s.fields == [] ==> t.properties + t.condition == s.properties + s.condition)
      && (s.fields != [] ==> t.properties == s.properties && Plain(t.fields) + t.condition == Plain(s.fields) + s.condition)
  {
    hide Plain;
    var t := Twin(s);
    assert |t.condition| != |s.condition|;
    if s.fields != [] {
      var a, b := Plain(t.fields) + t.condition, Plain(s.fields) + s.condition;
      assert |a| == |b| && forall i :: 0 <= i < |a| ==> a[i] == b[i];
    }
  }

  /** An object can have the property that moved, since it had none of that name. */
  lemma {:induction false} TwinIsRequest(names: iset<string>, s: RemoveShape)
    requires RemoveOver(names, s) && Ambiguous(s)
    ensures RemoveOver(names, Twin(s))
  {
    hide Flagged;
    var t := Twin(s);
    if MovesBack(s) {
      assert NamesOf(t.condition) == NamesOf(s.condition)[1..];
      assert NamesOf(s.condition)[0] == s.condition[0].name;
      if s.fields == [] {
        assert NamesOf(t.properties) == NamesOf(s.properties) + [s.condition[0].name];
      }
    } else if s.fields == [] {
      var last := |s.properties| - 1;
      assert NamesOf(t.properties) == NamesOf(s.properties)[..last];
      assert NamesOf(t.condition) == [Last(NamesOf(s.properties))] + NamesOf(s.condition);
    } else {
      assert NamesOf(t.condition) == [Last(s.fields)] + NamesOf(s.condition);
    }
  }

  /** The key of a DELETE request is shared by that of a different request exactly when the shape is ambiguous. */
  lemma {:induction false} RemoveKeyCollides(names: iset<string>, a: RemoveShape)
    requires RemoveNames(names) && RemoveOver(names, a)
    ensures Ambiguous(a) <==> exists b :: RemoveOver(names, b) && b != a && GetRemoveKey(b) == GetRemoveKey(a)
  {
    hide RemoveOver, GetRemoveKey;
    if Ambiguous(a) {
      TwinCollides(names, a);
    }
    forall b | RemoveOver(names, b) && b != a && GetRemoveKey(b) == GetRemoveKey(a)
      ensures Ambiguous(a)
    {
      if Flagged(a) != Flagged(b) {
        FlaggedDiffers(names, if Flagged(a) then a else b, if Flagged(a) then b else a);
      } else if Flagged(a) {
        FlaggedDetermines(names, a, b);
      } else {
        UnflaggedDetermines(names, a, b);
        if a.fields == [] {
          SplitsDiffer(names, a, b);
        } else {
          FieldSplitsDiffer(names, a, b);
        }
      }
    }
  }

  /** Two ways to split the same properties: at the nearer end of the difference, one of them can move. */
  lemma {:induction false} SplitsDiffer(names: iset<string>, a: RemoveShape, b: RemoveShape)
    requires RemoveOver(names, a) && RemoveOver(names, b) && !Flagged(a) && !Flagged(b) && a != b
    requires a.fields == [] == b.fields && a.properties + a.condition == b.properties + b.condition
    ensures Ambiguous(a)
  {
    var all, n, m := a.properties + a.condition, |a.properties|, |b.properties|;
    assert a.properties == all[..n] && a.condition == all[n..] && b.properties == all[..m] && b.condition == all[m..];
    if n < m {
      var moved := a.condition[0];
      assert moved == all[n] == b.properties[n];
      assert NamesOf(b.properties)[n] == moved.name;
      forall i | 0 <= i < n
        ensures NamesOf(a.properties)[i] != moved.name
      {
        assert NamesOf(a.properties)[i] == NamesOf(b.properties)[i];
      }
      assert MovesBack(a);
    } else {
      assert m < n;
      var last := Last(NamesOf(a.properties));
      assert last == all[n - 1].name == NamesOf(b.condition)[n - 1 - m];
      forall i | 0 <= i < |a.condition|
        ensures NamesOf(a.condition)[i] != last
      {
        assert a.condition[i] == all[n + i] == b.condition[n + i - m];
        assert NamesOf(a.condition)[i] == NamesOf(b.condition)[n + i - m];
      }
      assert MovesOn(a);
    }
  }

  lemma {:induction false} FieldSplitsDiffer(names: iset<string>, a: RemoveShape, b: RemoveShape)
    requires RemoveOver(names, a) && RemoveOver(names, b) && !Flagged(a) && !Flagged(b) && a != b
    requires a.fields != [] && b.fields != [] && a.properties == b.properties
    requires Plain(a.fields) + a.condition == Plain(b.fields) + b.condition
    ensures Ambiguous(a)
  {
    var all, n, m := Plain(a.fields) + a.condition, |a.fields|, |b.fields|;
    if n == m {
      SameSplit(a, b);
    }
    assert a.condition == all[n..] && b.condition == all[m..];
    assert forall i :: 0 <= i < n ==> all[i] == Property(a.fields[i], Value);
    assert forall i :: 0 <= i < m ==> all[i] == Property(b.fields[i], Value);
    if n < m {
      assert a.condition[0] == all[n];
      assert MovesBack(a);
    } else if m < n {
      var last := Last(a.fields);
      assert last == all[n - 1].name == NamesOf(b.condition)[n - 1 - m];
      forall i | 0 <= i < |a.condition|
        ensures NamesOf(a.condition)[i] != last
      {
        assert a.condition[i] == all[n + i] == b.condition[n + i - m];
        assert NamesOf(a.condition)[i] == NamesOf(b.condition)[n + i - m];
      }
      assert MovesOn(a);
    }
  }

  lemma SameSplit(a: RemoveShape, b: RemoveShape)
    requires |a.fields| == |b.fields| && Plain(a.fields) + a.condition == Plain(b.fields) + b.condition
    ensures a.fields == b.fields && a.condition == b.condition
  {
    var all := Plain(a.fields) + a.condition;
    assert a.condition == all[|a.fields|..] == b.condition;
    forall i | 0 <= i < |a.fields|
      ensures a.fields[i] == b.fields[i]
    {
      assert all[i] == Property(a.fields[i], Value) && all[i] == Property(b.fields[i], Value);
    }
  }
}
