/** What generated texts and getters mean, independently of how they are built. */
module QueryMeaning {
  import opened Operators
  import opened QueryText

  /** What a placeholder stands for. */
  datatype Target =
    | Condition(column: string, key: string)    // "column" key ?, also a plain assignment with "="
    | Append(column: string, sign: Sign)        // "column" = "column" sign ?
    | Prepend(column: string, sign: Sign)       // "column" = ? sign "column"
    | Option(k: Keyword)                        // LIMIT ? or USING TTL ?

  function Read(t: seq<Token>): seq<Target> {
    if |t| >= 5 && t[0].Col? && t[1].Cmp? && t[2].Mark? && t[3].Sgn? && t[4].Col? then
      [Prepend(t[0].name, t[3].s)] + Read(t[5..])
    else if |t| >= 3 && t[0].Col? && t[1].Cmp? && t[2].Mark? then
      [Condition(t[0].name, t[1].key)] + Read(t[3..])
    else if |t| >= 3 && t[0].Col? && t[1].Sgn? && t[2].Mark? then
      [Append(t[0].name, t[1].s)] + Read(t[3..])
    else if |t| >= 2 && t[0].Kw? && t[1].Mark? then
      [Option(t[0].k)] + Read(t[2..])
    else if t != [] then Read(t[1..])
    else []
  }

  function ColumnNames(t: seq<Token>): seq<string> {
    if t == [] then [] else (if t[0].Col? then [t[0].name] else []) + ColumnNames(t[1..])
  }

  /** In an INSERT the n-th placeholder is for the n-th column, up to the one for the TTL. */
  function ReadValues(t: seq<Token>, columns: seq<string>): seq<Target> {
    if t == [] then []
    else if |t| >= 2 && t[0] == Kw(UsingTtl) && t[1].Mark? then [Option(UsingTtl)] + ReadValues(t[2..], columns)
    else if t[0].Mark? && columns != [] then [Condition(columns[0], EQ)] + ReadValues(t[1..], columns[1..])
    else ReadValues(t[1..], columns)
  }

  function ReadInsert(t: seq<Token>): seq<Target> {
    ReadValues(t, ColumnNames(t))
  }

  /** The value a placeholder is bound to; `Hole` is an elided array element. */
  datatype Argument<V> =
    | Given(d: DocValue<V>)
    | Converted(name: string, d: DocValue<V>)
    | ConvertedEach(name: string, d: DocValue<V>)
    | Hole

  function Follow<V>(path: Path, doc: Doc<V>, info: DocInfo<V>): DocValue<V> {
    match path
    case DocProperty(name) => Lookup(doc, name)
    case ConditionProperty(name) => Lookup(info.condition, name)
    case DocInfoLimit => info.limit
    case DocInfoTtl => info.ttl
    case ValueOf(p) =>
      (match Follow(p, doc, info)
       case Compared(_, v) => Raw(v)
       case Assigned(_, v, _) => Raw(v)
       case _ => Missing)
    case ChildOf(p, second) =>
      (match Follow(p, doc, info)
       case Both(l, r) => if second then r else l
       case _ => Missing)
  }

  function Apply<V>(g: Getter, doc: Doc<V>, info: DocInfo<V>): Argument<V> {
    match g
    case Get(p) => Given(Follow(p, doc, info))
    case Mapped(name, p) => Converted(name, Follow(p, doc, info))
    case MappedEach(name, p) => ConvertedEach(name, Follow(p, doc, info))
  }

  /** The elements of the array literal `[t]`: a comma that follows no element leaves a hole, a last comma adds nothing. */
  function Arguments<V>(t: seq<Piece>, doc: Doc<V>, info: DocInfo<V>): seq<Argument<V>> {
    if t == [] then []
    else match t[0] {
      case Sep => [Hole] + Arguments(t[1..], doc, info)
      case Elem(g) => [Apply(g, doc, info)] + AfterElement(t[1..], doc, info)
    }
  }

  function AfterElement<V>(t: seq<Piece>, doc: Doc<V>, info: DocInfo<V>): seq<Argument<V>> {
    if t == [] then [] else Arguments(t[1..], doc, info)
  }

  // ----- What a statement is meant to bind -----

  /** One comparison: the operator's key and the value to compare with. */
  datatype Leaf<V> = Leaf(key: string, argument: Argument<V>)

  /** The comparisons a value asks for, left to right through nested `and` operators. */
  function Leaves<V>(d: DocValue<V>, name: string, fromModel: bool): (r: seq<Leaf<V>>)
    ensures |r| >= 1
  {
    match d
    case Both(l, r) => Leaves(l, name, fromModel) + Leaves(r, name, fromModel)
    case Compared(op, v) =>
      [Leaf(OperatorKey(op),
            if !fromModel then Given(Raw(v)) else if op == In then ConvertedEach(name, Raw(v)) else Converted(name, Raw(v)))]
    case _ => [Leaf(EQ, if fromModel then Converted(name, d) else Given(d))]
  }

  function LeafTargets<V>(column: string, leaves: seq<Leaf<V>>): seq<Target> {
    if leaves == [] then [] else [Condition(column, leaves[0].key)] + LeafTargets(column, leaves[1..])
  }

  function LeafArguments<V>(leaves: seq<Leaf<V>>): seq<Argument<V>> {
    if leaves == [] then [] else [leaves[0].argument] + LeafArguments(leaves[1..])
  }

  /** What a clause is meant to bind: its placeholders, and the values for them, in order. */
  datatype Meaning<V> = Meaning(targets: seq<Target>, arguments: seq<Argument<V>>) {
    function Then(next: Meaning<V>): Meaning<V> {
      Meaning(targets + next.targets, arguments + next.arguments)
    }
  }

  function Nothing<V>(): Meaning<V> {
    Meaning([], [])
  }

  function LeavesOf<V>(p: PropertyInfo<V>, doc: Doc<V>): seq<Leaf<V>> {
    Leaves(Lookup(doc, p.propertyName), p.propertyName, p.fromModel)
  }

  /** Every comparison on every property, as a list of conditions. */
  function Conditions<V>(properties: seq<PropertyInfo<V>>, doc: Doc<V>): Meaning<V> {
    if properties == [] then Nothing()
    else
      var leaves := LeavesOf(properties[0], doc);
      Meaning(LeafTargets(properties[0].columnName, leaves), LeafArguments(leaves)).Then(Conditions(properties[1..], doc))
  }

  /** One value for each column, compared or inserted with equality. */
  function Equalities<V>(properties: seq<PropertyInfo<V>>, doc: Doc<V>): Meaning<V> {
    if properties == [] then Nothing()
    else
      var p := properties[0];
      Meaning([Condition(p.columnName, EQ)], LeafArguments(LeavesOf(p, doc))).Then(Equalities(properties[1..], doc))
  }

  function AssignmentMeaning<V>(p: PropertyInfo<V>, doc: Doc<V>): Meaning<V> {
    var d := Lookup(doc, p.propertyName);
    var target :=
      match d
      case Assigned(sign, _, true) => Prepend(p.columnName, sign)
      case Assigned(sign, _, false) => Append(p.columnName, sign)
      case _ => Condition(p.columnName, EQ);
    var value := if d.Assigned? then Raw(d.v) else d;
    Meaning([target], [if p.fromModel then Converted(p.propertyName, value) else Given(value)])
  }

  function Assignments<V>(properties: seq<PropertyInfo<V>>, doc: Doc<V>): Meaning<V> {
    if properties == [] then Nothing()
    else AssignmentMeaning(properties[0], doc).Then(Assignments(properties[1..], doc))
  }

  function OptionMeaning<V>(present: bool, k: Keyword, value: DocValue<V>): Meaning<V> {
    if present then Meaning([Option(k)], [Given(value)]) else Nothing()
  }

  function SelectMeaning<V>(properties: seq<PropertyInfo<V>>, limit: bool, doc: Doc<V>, info: DocInfo<V>): Meaning<V> {
    Conditions(properties, doc).Then(OptionMeaning(limit, Limit, info.limit))
  }

  /** What the placeholders of an INSERT text are for: a value for each column, whatever operator it carries. */
  function InsertBinding<V>(properties: seq<PropertyInfo<V>>, ttl: bool, doc: Doc<V>, info: DocInfo<V>): Meaning<V> {
    Equalities(properties, doc).Then(OptionMeaning(ttl, UsingTtl, info.ttl))
  }

  /** What a document asks an INSERT for: its comparisons, which only equality can be inserted for. */
  function InsertMeaning<V>(properties: seq<PropertyInfo<V>>, ttl: bool, doc: Doc<V>, info: DocInfo<V>): Meaning<V> {
    Conditions(properties, doc).Then(OptionMeaning(ttl, UsingTtl, info.ttl))
  }

  /** `IF EXISTS` takes the place of other conditions. */
  function ConditionMeaning<V>(condition: seq<PropertyInfo<V>>, ifExists: bool, info: DocInfo<V>): Meaning<V> {
    if ifExists then Nothing() else Conditions(condition, info.condition)
  }

  /** What the placeholders of UPDATE and DELETE texts are for: key columns are always compared with equality. */
  function UpdateBinding<V>(updates: seq<PropertyInfo<V>>, keys: seq<PropertyInfo<V>>, condition: seq<PropertyInfo<V>>,
                            ifExists: bool, ttl: bool, doc: Doc<V>, info: DocInfo<V>): Meaning<V> {
    OptionMeaning(ttl, UsingTtl, info.ttl).Then(Assignments(updates, doc).Then(
      DeleteBinding(keys, condition, ifExists, doc, info)))
  }

  function DeleteBinding<V>(keys: seq<PropertyInfo<V>>, condition: seq<PropertyInfo<V>>, ifExists: bool,
                            doc: Doc<V>, info: DocInfo<V>): Meaning<V> {
    Equalities(keys, doc).Then(ConditionMeaning(condition, ifExists, info))
  }

  /** What a document asks UPDATE and DELETE for: every comparison on its key columns. */
  function UpdateMeaning<V>(updates: seq<PropertyInfo<V>>, keys: seq<PropertyInfo<V>>, condition: seq<PropertyInfo<V>>,
                            ifExists: bool, ttl: bool, doc: Doc<V>, info: DocInfo<V>): Meaning<V> {
    OptionMeaning(ttl, UsingTtl, info.ttl).Then(Assignments(updates, doc).Then(
      DeleteMeaning(keys, condition, ifExists, doc, info)))
  }

  function DeleteMeaning<V>(keys: seq<PropertyInfo<V>>, condition: seq<PropertyInfo<V>>, ifExists: bool,
                            doc: Doc<V>, info: DocInfo<V>): Meaning<V> {
    Conditions(keys, doc).Then(ConditionMeaning(condition, ifExists, info))
  }

  /** The i-th placeholder is bound by the i-th element of the array, as meant. */
  ghost predicate Aligned<V>(read: seq<Target>, arguments: seq<Argument<V>>, meant: Meaning<V>) {
    |read| == |arguments| && read == meant.targets && arguments == meant.arguments
  }
}
