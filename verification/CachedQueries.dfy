/**
 The cached queries themselves: what a request is answered with is compared with the text and the getter
 that would be generated for that very request.
 */
module CachedQueries {
  import opened Wrappers
  import opened CacheSpec
  import opened CacheIndex
  import opened Operators
  import opened Seqs
  import opened ShapeKeys
  import opened CacheSharing
  import opened QueryText
  import opened QueryMeaning
  import QueryAlignment

  // ----- Runs of a cache whose handler builds the item for the request at hand -----

  /** Each new key is given the item that is wanted for the request that brings it. */
  ghost predicate BuildsWanted<V(!new)>(keys: seq<Key>, supply: nat -> V, wanted: seq<V>)
    requires |wanted| == |keys|
  {
    forall i :: 0 <= i < |keys| && keys[i] !in FirstUse(keys[..i]) ==> supply(|FirstUse(keys[..i])|) == wanted[i]
  }

  ghost predicate IsFirst(keys: seq<Key>, i: nat, j: nat) {
    i <= j < |keys| && keys[i] == keys[j] && keys[i] !in FirstUse(keys[..i])
  }

  /** Some request brought the key, and its number is the number of keys before it. */
  lemma {:induction false} FirstRequest(keys: seq<Key>, j: nat) returns (i: nat)
    requires j < |keys|
    ensures IsFirst(keys, i, j)
    ensures keys[j] in FirstUse(keys) && FirstUse(keys)[keys[j]] == |FirstUse(keys[..i])|
    decreases j
  {
    FirstUseNumbers(keys[..j]);
    if keys[j] !in FirstUse(keys[..j]) {
      i := j;
      assert keys[..j + 1][..j] == keys[..j];
      FirstUseStable(keys, j + 1);
    } else {
      var k :| 0 <= k < j && keys[..j][k] == keys[j];
      i := FirstRequest(keys, k);
    }
  }

  /** Every request is answered with what was wanted for the first request with its key. */
  lemma {:induction false} AnsweredAsFirst<V(!new)>(keys: seq<Key>, supply: nat -> V, wanted: seq<V>, j: nat) returns (i: nat)
    requires NonEmpty(keys) && j < |keys| == |wanted| && BuildsWanted(keys, supply, wanted)
    ensures IsFirst(keys, i, j) && AnswerAt(keys, supply, j) == Some(wanted[i])
  {
    i := FirstRequest(keys, j);
    AnswersAreFirstItems(keys, supply, j);
  }

  // ----- Requests -----

  /** What the mapper knows of a model: columns, conversions, and the table chosen for a shape. */
  datatype Model = Model(
    column: string -> string, fromModel: string -> bool, direction: string -> string, table: SelectShape -> string)

  /** `keys` are the document's properties in order; properties may be undefined. */
  datatype Select<V> = Select(
    keys: seq<string>, doc: Doc<V>, fields: seq<string>, orderBy: Option<seq<(string, string)>>, limit: Option<V>)

  datatype Insert<V> = Insert(keys: seq<string>, doc: Doc<V>, fields: seq<string>, ttl: Option<V>, ifNotExists: bool)

  datatype Query = Query(text: seq<Token>, getter: seq<Piece>)

  /** `getPropertiesInfo` */
  function PropertiesInfo<V>(m: Model, names: seq<string>, doc: Doc<V>): (r: seq<PropertyInfo<V>>)
    ensures |r| == |names|
    ensures forall i :: 0 <= i < |r| ==>
      r[i] == PropertyInfo(names[i], m.column(names[i]), Lookup(doc, names[i]), m.fromModel(names[i]))
  {
    seq(|names|, i requires 0 <= i < |names| =>
      PropertyInfo(names[i], m.column(names[i]), Lookup(doc, names[i]), m.fromModel(names[i])))
  }

  /** `adaptOrderBy` */
  function OrderColumns(m: Model, orderBy: Option<seq<(string, string)>>): seq<(string, string)> {
    match orderBy
    case None => []
    case Some(order) =>
      seq(|order|, i requires 0 <= i < |order| => (m.column(order[i].0), m.direction(order[i].1)))
  }

  function SelectShapeOf<V>(r: Select<V>): SelectShape {
    SelectShape(
      seq(|r.keys|, i requires 0 <= i < |r.keys| => Property(r.keys[i], OperandOf(Lookup(r.doc, r.keys[i])))),
      r.fields, r.limit.Some?, r.orderBy)
  }

  function InsertShapeOf<V>(r: Insert<V>): InsertShape {
    InsertShape(r.keys, r.fields, r.ttl.Some?, r.ifNotExists)
  }

  // ----- SELECT: the cache is transparent -----

  function SelectQuery<V>(m: Model, r: Select<V>): Query {
    var properties := PropertiesInfo(m, r.keys, r.doc);
    Query(GetSelect(m.table(SelectShapeOf(r)), properties, PropertiesInfo(m, r.fields, r.doc),
                    OrderColumns(m, r.orderBy), r.limit.Some?),
          SelectParamsGetter(properties, r.limit.Some?))
  }

  /** Lists of properties that differ in the values only. */
  ghost predicate SameColumns<V>(p: seq<PropertyInfo<V>>, q: seq<PropertyInfo<V>>) {
    |p| == |q| && forall i :: 0 <= i < |p| ==> q[i] == p[i].(value := q[i].value)
  }

  ghost predicate SameOperands<V>(p: seq<PropertyInfo<V>>, q: seq<PropertyInfo<V>>) {
    |p| == |q| && forall i :: 0 <= i < |p| ==> OperandOf(p[i].value) == OperandOf(q[i].value)
  }

  lemma {:induction false} SameCondition<V>(column: string, a: DocValue<V>, b: DocValue<V>)
    requires OperandOf(a) == OperandOf(b)
    ensures GetSingleCondition(column, a) == GetSingleCondition(column, b)
    decreases a
  {
    if a.Both? {
      SameCondition(column, a.left, b.left);
      SameCondition(column, a.right, b.right);
    }
  }

  lemma {:induction false} SameGetter<V>(prefix: Path, name: string, a: DocValue<V>, b: DocValue<V>, fromModel: bool)
    requires OperandOf(a) == OperandOf(b)
    ensures ValueGetterSingle(prefix, name, a, fromModel) == ValueGetterSingle(prefix, name, b, fromModel)
    decreases a
  {
    if a.Both? {
      SameGetter(ChildOf(prefix, false), name, a.left, b.left, fromModel);
      SameGetter(ChildOf(prefix, true), name, a.right, b.right, fromModel);
    }
  }

  lemma {:induction false} SameConditions<V>(p: seq<PropertyInfo<V>>, q: seq<PropertyInfo<V>>)
    requires SameColumns(p, q) && SameOperands(p, q)
    ensures GetConditionWithOperators(p) == GetConditionWithOperators(q)
    ensures JoinGetters(DocGetter, p) == JoinGetters(DocGetter, q)
    decreases |p|
  {
    if p != [] {
      SameCondition(p[0].columnName, p[0].value, q[0].value);
      SameGetter(DocProperty(p[0].propertyName), p[0].propertyName, p[0].value, q[0].value, p[0].fromModel);
      SameConditions(p[1..], q[1..]);
    }
  }

  lemma {:induction false} SameColumnList<V>(p: seq<PropertyInfo<V>>, q: seq<PropertyInfo<V>>)
    requires SameColumns(p, q)
    ensures JoinMap(Column, p, Comma) == JoinMap(Column, q, Comma)
    ensures JoinMap(Placeholder, p, Comma) == JoinMap(Placeholder, q, Comma)
    decreases |p|
  {
    if p != [] {
      SameColumnList(p[1..], q[1..]);
    }
  }

  /** Requests of one shape are given the same text and getter. */
  lemma {:induction false} ShapeGivesQuery<V>(m: Model, a: Select<V>, b: Select<V>)
    requires SelectShapeOf(a) == SelectShapeOf(b)
    ensures SelectQuery(m, a) == SelectQuery(m, b)
  {
    var sa, sb := SelectShapeOf(a), SelectShapeOf(b);
    var p, q := PropertiesInfo(m, a.keys, a.doc), PropertiesInfo(m, b.keys, b.doc);
    forall i | 0 <= i < |p|
      ensures a.keys[i] == b.keys[i] && OperandOf(p[i].value) == OperandOf(q[i].value)
    {
      assert sa.properties[i] == sb.properties[i];
    }
    assert |a.keys| == |sa.properties| == |sb.properties| == |b.keys|;
    SameConditions(p, q);
    SameColumnList(PropertiesInfo(m, a.fields, a.doc), PropertiesInfo(m, b.fields, b.doc));
  }

  function SelectRequestKeys<V>(requests: seq<Select<V>>): (keys: seq<Key>)
    ensures |keys| == |requests| && forall i :: 0 <= i < |keys| ==> keys[i] == GetSelectKey(SelectShapeOf(requests[i]))
  {
    seq(|requests|, i requires 0 <= i < |requests| => GetSelectKey(SelectShapeOf(requests[i])))
  }

  function SelectQueries<V>(m: Model, requests: seq<Select<V>>): (queries: seq<Query>)
    ensures |queries| == |requests| && forall i :: 0 <= i < |queries| ==> queries[i] == SelectQuery(m, requests[i])
  {
    seq(|requests|, i requires 0 <= i < |requests| => SelectQuery(m, requests[i]))
  }

  lemma SelectKeyNotEmpty(s: SelectShape)
    requires s.properties != []
    ensures GetSelectKey(s) != []
  {
  }

  /**
   In any run of SELECT requests, each is answered with exactly the query that would be generated for it,
   and the getter, which may have been generated for another document, binds the values of its own.
   */
  lemma {:induction false} SelectCacheIsTransparent<V>(names: iset<string>, m: Model, requests: seq<Select<V>>,
                                                       supply: nat -> Query, j: nat, info: DocInfo<V>)
    requires SelectNames(names)
    requires forall k :: 0 <= k < |requests| ==> SelectOver(names, SelectShapeOf(requests[k]))
    requires j < |requests| && BuildsWanted(SelectRequestKeys(requests), supply, SelectQueries(m, requests))
    ensures AnswerAt(SelectRequestKeys(requests), supply, j) == Some(SelectQuery(m, requests[j]))
    ensures var r := requests[j];
      var cached := AnswerAt(SelectRequestKeys(requests), supply, j).value;
      Aligned(Read(cached.text), Arguments(cached.getter, r.doc, info),
              SelectMeaning(PropertiesInfo(m, r.keys, r.doc), r.limit.Some?, r.doc, info))
  {
    hide GetSelectKey, SelectQuery, SelectOver, AnswerAt, SelectShapeOf;
    var keys := SelectRequestKeys(requests);
    forall k | 0 <= k < |requests|
      ensures keys[k] != []
    {
      NotEmptyOver(names, SelectShapeOf(requests[k]));
    }
    var i := AnsweredAsFirst(keys, supply, SelectQueries(m, requests), j);
    SelectKeyInjective(names, SelectShapeOf(requests[i]), SelectShapeOf(requests[j]));
    ShapeGivesQuery(m, requests[i], requests[j]);
    OwnQueryAligned(m, requests[j], info);
  }

  lemma NotEmptyOver(names: iset<string>, s: SelectShape)
    requires SelectOver(names, s)
    ensures GetSelectKey(s) != []
  {
    SelectKeyNotEmpty(s);
  }

  lemma OwnQueryAligned<V>(m: Model, r: Select<V>, info: DocInfo<V>)
    ensures var q := SelectQuery(m, r);
      Aligned(Read(q.text), Arguments(q.getter, r.doc, info),
              SelectMeaning(PropertiesInfo(m, r.keys, r.doc), r.limit.Some?, r.doc, info))
  {
    QueryAlignment.SelectAligned(m.table(SelectShapeOf(r)), PropertiesInfo(m, r.keys, r.doc), PropertiesInfo(m, r.fields, r.doc),
                  OrderColumns(m, r.orderBy), r.limit.Some?, r.doc, info);
  }

  // ----- INSERT: exactly when a cached getter is the one wanted -----

  /** The same accesses in the generated code; with a conversion, `in` differs from other comparisons. */
  predicate SameAccess<V>(a: DocValue<V>, b: DocValue<V>, fromModel: bool) {
    match (a, b)
    case (Both(l, r), Both(l', r')) => SameAccess(l, l', fromModel) && SameAccess(r, r', fromModel)
    case (Compared(op, _), Compared(op', _)) => fromModel ==> (op == In <==> op' == In)
    case _ => !a.Both? && !b.Both? && !a.Compared? && !b.Compared?
  }

  function Depth(p: Path): nat {
    match p
    case ChildOf(q, _) => 1 + Depth(q)
    case ValueOf(q) => Depth(q)
    case _ => 0
  }

  lemma {:induction false} FirstAccess<V>(prefix: Path, name: string, d: DocValue<V>, fromModel: bool)
    ensures var p := ValueGetterSingle(prefix, name, d, fromModel);
      && p != [] && p[0].Elem? && Depth(p[0].getter.path) >= Depth(prefix)
      && (d.Both? <==> Depth(p[0].getter.path) > Depth(prefix))
    decreases d
  {
    if d.Both? {
      FirstAccess(ChildOf(prefix, false), name, d.left, fromModel);
    }
  }

  lemma {:induction false} ValueIsElsewhere(p: Path)
    ensures ValueOf(p) != p
  {
    if p.ValueOf? {
      ValueIsElsewhere(p.of);
    }
  }

  lemma {:induction false} LeafAccess<V>(prefix: Path, name: string, a: DocValue<V>, b: DocValue<V>, fromModel: bool)
    requires !a.Both? && !b.Both?
    ensures var x, y := ValueGetterSingle(prefix, name, a, fromModel), ValueGetterSingle(prefix, name, b, fromModel);
      && x == [x[0]] && y == [y[0]]
      && (x == y <==> SameAccess(a, b, fromModel))
  {
    ValueIsElsewhere(prefix);
  }

  lemma {:induction false} AccessesDiffer<V>(prefix: Path, name: string, a: DocValue<V>, b: DocValue<V>, fromModel: bool,
                                             s: seq<Piece>, t: seq<Piece>)
    requires QueryAlignment.EndsElement(s) && QueryAlignment.EndsElement(t)
    ensures ValueGetterSingle(prefix, name, a, fromModel) + s == ValueGetterSingle(prefix, name, b, fromModel) + t
       <==> SameAccess(a, b, fromModel) && s == t
    decreases a
  {
    var x, y := ValueGetterSingle(prefix, name, a, fromModel), ValueGetterSingle(prefix, name, b, fromModel);
    FirstAccess(prefix, name, a, fromModel);
    FirstAccess(prefix, name, b, fromModel);
    assert (x + s)[0] == x[0] && (y + t)[0] == y[0];
    if a.Both? && b.Both? {
      var left, right := ChildOf(prefix, false), ChildOf(prefix, true);
      var ar, br := ValueGetterSingle(right, name, a.right, fromModel), ValueGetterSingle(right, name, b.right, fromModel);
      PiecesOf(prefix, name, a, fromModel, s);
      PiecesOf(prefix, name, b, fromModel, t);
      AccessesDiffer(left, name, a.left, b.left, fromModel, [Sep] + (ar + s), [Sep] + (br + t));
      DropPrefix([Sep], ar + s);
      DropPrefix([Sep], br + t);
      AccessesDiffer(right, name, a.right, b.right, fromModel, s, t);
    } else if !a.Both? && !b.Both? {
      LeafAccess(prefix, name, a, b, fromModel);
      DropPrefix(x, s);
      DropPrefix(y, t);
    }
  }

  lemma PiecesOf<V>(prefix: Path, name: string, d: DocValue<V>, fromModel: bool, rest: seq<Piece>)
    requires d.Both?
    ensures ValueGetterSingle(prefix, name, d, fromModel) + rest
         == ValueGetterSingle(ChildOf(prefix, false), name, d.left, fromModel)
            + ([Sep] + (ValueGetterSingle(ChildOf(prefix, true), name, d.right, fromModel) + rest))
  {
    var l := ValueGetterSingle(ChildOf(prefix, false), name, d.left, fromModel);
    var r := ValueGetterSingle(ChildOf(prefix, true), name, d.right, fromModel);
    Assoc(l, [Sep] + r, rest);
    Assoc([Sep], r, rest);
  }

  ghost predicate SameAccesses<V>(p: seq<PropertyInfo<V>>, q: seq<PropertyInfo<V>>)
    requires |p| == |q|
  {
    forall i :: 0 <= i < |p| ==> SameAccess(p[i].value, q[i].value, p[i].fromModel)
  }

  lemma {:induction false} GettersDiffer<V>(p: seq<PropertyInfo<V>>, q: seq<PropertyInfo<V>>, s: seq<Piece>)
    requires SameColumns(p, q) && QueryAlignment.EndsElement(s)
    ensures JoinGetters(DocGetter, p) + s == JoinGetters(DocGetter, q) + s <==> SameAccesses(p, q)
    decreases |p|
  {
    if p != [] {
      var a, b := p[0], q[0];
      var path := DocProperty(a.propertyName);
      if |p| == 1 {
        AccessesDiffer(path, a.propertyName, a.value, b.value, a.fromModel, s, s);
      } else {
        var pr, qr := JoinGetters(DocGetter, p[1..]), JoinGetters(DocGetter, q[1..]);
        Assoc(DocGetter(a), [Sep] + pr, s);
        Assoc([Sep], pr, s);
        Assoc(DocGetter(b), [Sep] + qr, s);
        Assoc([Sep], qr, s);
        AccessesDiffer(path, a.propertyName, a.value, b.value, a.fromModel, [Sep] + (pr + s), [Sep] + (qr + s));
        DropPrefix([Sep], pr + s);
        DropPrefix([Sep], qr + s);
        GettersDiffer(p[1..], q[1..], s);
      }
    }
  }

  /** The fields take the place of the document's keys, and columns outside the table are dropped. */
  function InsertProperties<V>(m: Model, columns: set<string>, r: Insert<V>): seq<PropertyInfo<V>> {
    Keep(PropertiesInfo(m, if r.fields != [] then r.fields else r.keys, r.doc), columns)
  }

  function InsertQuery<V>(m: Model, table: string, columns: set<string>, r: Insert<V>): Query {
    var properties := InsertProperties(m, columns, r);
    Query(GetInsertQuery(table, properties, r.ifNotExists, r.ttl.Some?), InsertParamsGetter(properties, r.ttl.Some?))
  }

  lemma {:induction false} KeptColumns<V>(p: seq<PropertyInfo<V>>, q: seq<PropertyInfo<V>>, columns: set<string>)
    requires SameColumns(p, q)
    ensures SameColumns(Keep(p, columns), Keep(q, columns))
    decreases |p|
  {
    if p != [] {
      KeptColumns(p[..|p| - 1], q[..|q| - 1], columns);
    }
  }

  /**
   Of two INSERT requests of one shape, the texts are equal; the getters are equal exactly when the values are
   accessed alike.
   */
  lemma {:induction false} InsertShapeGivesText<V>(m: Model, table: string, columns: set<string>, a: Insert<V>, b: Insert<V>)
    requires InsertShapeOf(a) == InsertShapeOf(b)
    ensures var x, y := InsertQuery(m, table, columns, a), InsertQuery(m, table, columns, b);
      var p, q := InsertProperties(m, columns, a), InsertProperties(m, columns, b);
      x.text == y.text && |p| == |q| && (x.getter == y.getter <==> SameAccesses(p, q))
  {
    var names := if a.fields != [] then a.fields else a.keys;
    KeptColumns(PropertiesInfo(m, names, a.doc), PropertiesInfo(m, names, b.doc), columns);
    var p, q := InsertProperties(m, columns, a), InsertProperties(m, columns, b);
    SameColumnList(p, q);
    GettersDiffer(p, q, if a.ttl.Some? then [Sep, Elem(Get(DocInfoTtl))] else []);
  }

  function InsertRequestKeys<V>(requests: seq<Insert<V>>): (keys: seq<Key>)
    ensures |keys| == |requests| && forall i :: 0 <= i < |keys| ==> keys[i] == GetInsertKey(InsertShapeOf(requests[i]))
  {
    seq(|requests|, i requires 0 <= i < |requests| => GetInsertKey(InsertShapeOf(requests[i])))
  }

  function InsertQueries<V>(m: Model, table: string, columns: set<string>, requests: seq<Insert<V>>): (queries: seq<Query>)
    ensures |queries| == |requests|
    ensures forall i :: 0 <= i < |queries| ==> queries[i] == InsertQuery(m, table, columns, requests[i])
  {
    seq(|requests|, i requires 0 <= i < |requests| => InsertQuery(m, table, columns, requests[i]))
  }

  /**
   In any run of INSERT requests, each is answered with the text that would be generated for it, and with
   the getter of the first request of its shape, which is its own exactly when that one had the same operators.
   */
  lemma {:induction false} InsertCacheIsTransparent<V>(names: iset<string>, m: Model, table: string, columns: set<string>,
                                                       requests: seq<Insert<V>>, supply: nat -> Query, j: nat) returns (i: nat)
    requires InsertNames(names)
    requires forall k :: 0 <= k < |requests| ==> InsertOver(names, InsertShapeOf(requests[k]))
    requires j < |requests| && BuildsWanted(InsertRequestKeys(requests), supply, InsertQueries(m, table, columns, requests))
    ensures IsFirst(InsertRequestKeys(requests), i, j) && InsertShapeOf(requests[i]) == InsertShapeOf(requests[j])
    ensures var p, q := InsertProperties(m, columns, requests[i]), InsertProperties(m, columns, requests[j]);
      var answer := AnswerAt(InsertRequestKeys(requests), supply, j);
      && answer.Some? && answer.value.text == InsertQuery(m, table, columns, requests[j]).text && |p| == |q|
      && (answer == Some(InsertQuery(m, table, columns, requests[j])) <==> SameAccesses(p, q))
  {
    hide GetInsertKey, InsertQuery, InsertOver, AnswerAt, InsertShapeOf, InsertProperties;
    var keys := InsertRequestKeys(requests);
    forall k | 0 <= k < |requests|
      ensures keys[k] != []
    {
      InsertKeyNotEmpty(names, InsertShapeOf(requests[k]));
    }
    i := AnsweredAsFirst(keys, supply, InsertQueries(m, table, columns, requests), j);
    InsertKeyInjective(names, InsertShapeOf(requests[i]), InsertShapeOf(requests[j]));
    InsertShapeGivesText(m, table, columns, requests[i], requests[j]);
  }

  lemma InsertKeyNotEmpty(names: iset<string>, s: InsertShape)
    requires InsertOver(names, s)
    ensures GetInsertKey(s) != []
  {
  }
}
