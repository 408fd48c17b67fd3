/**
 Generated CQL and the parameter getters generated beside it (lib/mapping/query-generator.js).

 The text is modelled as tokens, and the getter as the source text of a JavaScript array
 literal: elements and commas, so that a clause that contributes no element leaves a hole.
 `Read` says what each placeholder of a text stands for; `Arguments` evaluates a getter.
 */
module QueryText {
  import opened Operators

  // ----- Documents and what the generator knows of their properties -----

  datatype Sign = Plus | Minus

  /** A property of a document: a plain value, an operator on values, or an assignment such as `q.append`. */
  datatype DocValue<V> =
    | Raw(v: V)
    | Compared(op: Operator, v: V)
    | Both(left: DocValue<V>, right: DocValue<V>)
    | Assigned(sign: Sign, v: V, inverted: bool)
    | Missing

  type Doc<V> = map<string, DocValue<V>>

  datatype DocInfo<V> = DocInfo(limit: DocValue<V>, ttl: DocValue<V>, condition: Doc<V>)

  /** A property with the column it maps to and the value it had when the query was generated. */
  datatype PropertyInfo<V> = PropertyInfo(propertyName: string, columnName: string, value: DocValue<V>, fromModel: bool)

  predicate IsPlain<V>(d: DocValue<V>) {
    d.Raw? || d.Missing?
  }

  predicate SameShape<V>(a: DocValue<V>, b: DocValue<V>) {
    match (a, b)
    case (Compared(op, _), Compared(op', _)) => op == op'
    case (Both(l, r), Both(l', r')) => SameShape(l, l') && SameShape(r, r')
    case (Assigned(s, _, i), Assigned(s', _, i')) => s == s' && i == i'
    case _ => IsPlain(a) && IsPlain(b)
  }

  /** What a value means in a comparison; an assignment counts as a plain value there. */
  function OperandOf<V>(d: DocValue<V>): Operand {
    match d
    case Compared(op, _) => Compare(op)
    case Both(l, r) => And(OperandOf(l), OperandOf(r))
    case _ => Value
  }

  lemma {:induction false} SameShapeOperands<V>(a: DocValue<V>, b: DocValue<V>)
    requires SameShape(a, b)
    ensures OperandOf(a) == OperandOf(b)
    decreases a
  {
    if a.Both? {
      SameShapeOperands(a.left, b.left);
      SameShapeOperands(a.right, b.right);
    }
  }

  function Lookup<V>(doc: Doc<V>, name: string): DocValue<V> {
    if name in doc then doc[name] else Missing
  }

  /** The getter may be applied to any document of the shape the query was generated for. */
  ghost predicate Fits<V>(properties: seq<PropertyInfo<V>>, doc: Doc<V>) {
    forall i :: 0 <= i < |properties| ==> SameShape(properties[i].value, Lookup(doc, properties[i].propertyName))
  }

  /** It may be applied to any document with the same operators, unless something is assigned. */
  ghost predicate OperatorsFit<V>(properties: seq<PropertyInfo<V>>, doc: Doc<V>) {
    forall i :: 0 <= i < |properties| ==> OperandOf(properties[i].value) == OperandOf(Lookup(doc, properties[i].propertyName))
  }

  lemma ShapesFit<V>(properties: seq<PropertyInfo<V>>, doc: Doc<V>)
    requires Fits(properties, doc)
    ensures OperatorsFit(properties, doc)
  {
    forall i | 0 <= i < |properties|
      ensures OperandOf(properties[i].value) == OperandOf(Lookup(doc, properties[i].propertyName))
    {
      SameShapeOperands(properties[i].value, Lookup(doc, properties[i].propertyName));
    }
  }

  /** The part of a column's type that decides whether an update may be repeated. */
  datatype ColumnType = ListColumn | CounterColumn | OtherColumn

  function Keep<V>(properties: seq<PropertyInfo<V>>, columns: set<string>): seq<PropertyInfo<V>> {
    if properties == [] then []
    else
      var p := properties[|properties| - 1];
      Keep(properties[..|properties| - 1], columns) + if p.columnName in columns then [p] else []
  }

  function Drop<V>(properties: seq<PropertyInfo<V>>, columns: set<string>): seq<PropertyInfo<V>> {
    if properties == [] then []
    else
      var p := properties[|properties| - 1];
      Drop(properties[..|properties| - 1], columns) + if p.columnName in columns then [] else [p]
  }

  // ----- Text -----

  datatype Keyword =
    | SelectKw | Star | From | Where | AndKw | Comma | OrderBy | Direction(d: string) | Limit
    | InsertInto | Open | Close | Values | IfNotExists | UsingTtl
    | UpdateKw | SetKw | IfExists | If | DeleteKw

  datatype Token = Kw(k: Keyword) | Table(name: string) | Col(name: string) | Cmp(key: string) | Sgn(s: Sign) | Mark

  const EQ := "="

  /** `properties.map(f).join(separator)` */
  function JoinMap<P>(f: P -> seq<Token>, properties: seq<P>, separator: Keyword): seq<Token> {
    if properties == [] then []
    else if |properties| == 1 then f(properties[0])
    else f(properties[0]) + ([Kw(separator)] + JoinMap(f, properties[1..], separator))
  }

  function GetSingleCondition<V>(columnName: string, value: DocValue<V>): seq<Token> {
    match value
    case Both(l, r) => GetSingleCondition(columnName, l) + ([Kw(AndKw)] + GetSingleCondition(columnName, r))
    case Compared(op, _) => [Col(columnName), Cmp(OperatorKey(op)), Mark]
    case _ => [Col(columnName), Cmp(EQ), Mark]
  }

  function SingleCondition<V>(p: PropertyInfo<V>): seq<Token> {
    GetSingleCondition(p.columnName, p.value)
  }

  function GetConditionWithOperators<V>(properties: seq<PropertyInfo<V>>): seq<Token> {
    JoinMap(SingleCondition, properties, AndKw)
  }

  function Assignment<V>(p: PropertyInfo<V>): seq<Token> {
    match p.value
    case Assigned(sign, _, true) => [Col(p.columnName), Cmp(EQ), Mark, Sgn(sign), Col(p.columnName)]
    case Assigned(sign, _, false) => [Col(p.columnName), Cmp(EQ), Col(p.columnName), Sgn(sign), Mark]
    case _ => [Col(p.columnName), Cmp(EQ), Mark]
  }

  function KeyCondition<V>(p: PropertyInfo<V>): seq<Token> {
    [Col(p.columnName), Cmp(EQ), Mark]
  }

  function Column<V>(p: PropertyInfo<V>): seq<Token> {
    [Col(p.columnName)]
  }

  function Placeholder<V>(p: PropertyInfo<V>): seq<Token> {
    [Mark]
  }

  function Order(o: (string, string)): seq<Token> {
    [Col(o.0), Kw(Direction(o.1))]
  }

  function When(flag: bool, tokens: seq<Token>): seq<Token> {
    if flag then tokens else []
  }

  function GetSelect<V>(table: string, properties: seq<PropertyInfo<V>>, fields: seq<PropertyInfo<V>>,
                        order: seq<(string, string)>, limit: bool): seq<Token> {
    [Kw(SelectKw)] + ((if |fields| > 0 then JoinMap(Column, fields, Comma) else [Kw(Star)]) + ([Kw(From), Table(table)] +
    (When(|properties| > 0, [Kw(Where)] + GetConditionWithOperators(properties)) +
    (When(|order| > 0, [Kw(OrderBy)] + JoinMap(Order, order, Comma)) + When(limit, [Kw(Limit), Mark])))))
  }

  function GetInsertQuery<V>(table: string, properties: seq<PropertyInfo<V>>, ifNotExists: bool, ttl: bool): seq<Token> {
    [Kw(InsertInto), Table(table), Kw(Open)] + (JoinMap(Column, properties, Comma) + ([Kw(Close), Kw(Values), Kw(Open)] +
    (JoinMap(Placeholder, properties, Comma) +
    ([Kw(Close)] + (When(ifNotExists, [Kw(IfNotExists)]) + When(ttl, [Kw(UsingTtl), Mark]))))))
  }

  function ConditionClause<V>(condition: seq<PropertyInfo<V>>, ifExists: bool): seq<Token> {
    if ifExists then [Kw(IfExists)]
    else When(|condition| > 0, [Kw(If)] + GetConditionWithOperators(condition))
  }

  function GetUpdateQuery<V>(table: string, updates: seq<PropertyInfo<V>>, keys: seq<PropertyInfo<V>>,
                             condition: seq<PropertyInfo<V>>, ifExists: bool, ttl: bool): seq<Token> {
    [Kw(UpdateKw), Table(table)] + (When(ttl, [Kw(UsingTtl), Mark]) + ([Kw(SetKw)] +
    (JoinMap(Assignment, updates, Comma) + ([Kw(Where)] +
    (JoinMap(KeyCondition, keys, AndKw) + ConditionClause(condition, ifExists))))))
  }

  function GetDeleteQuery<V>(table: string, others: seq<PropertyInfo<V>>, keys: seq<PropertyInfo<V>>,
                             condition: seq<PropertyInfo<V>>, ifExists: bool, deleteOnlyColumns: bool): seq<Token> {
    [Kw(DeleteKw)] + (When(deleteOnlyColumns, JoinMap(Column, others, Comma)) + ([Kw(From), Table(table), Kw(Where)] +
    (JoinMap(KeyCondition, keys, AndKw) + ConditionClause(condition, ifExists))))
  }

  // ----- Getters -----

  /** The object a getter starts from, and the accesses it makes from there. */
  datatype Path =
    | DocProperty(name: string)
    | ConditionProperty(name: string)
    | DocInfoLimit
    | DocInfoTtl
    | ValueOf(of: Path)
    | ChildOf(of: Path, second: bool)

  datatype Getter = Get(path: Path) | Mapped(name: string, path: Path) | MappedEach(name: string, path: Path)

  /** The source text between the brackets of the returned array. */
  datatype Piece = Elem(getter: Getter) | Sep

  function JoinGetters<V>(f: PropertyInfo<V> -> seq<Piece>, properties: seq<PropertyInfo<V>>): seq<Piece> {
    if properties == [] then []
    else if |properties| == 1 then f(properties[0])
    else f(properties[0]) + ([Sep] + JoinGetters(f, properties[1..]))
  }

  function ValueGetterSingle<V>(prefix: Path, name: string, value: DocValue<V>, fromModel: bool): seq<Piece>
    decreases value
  {
    match value
    case Both(l, r) =>
      ValueGetterSingle(ChildOf(prefix, false), name, l, fromModel)
      + ([Sep] + ValueGetterSingle(ChildOf(prefix, true), name, r, fromModel))
    case Compared(op, _) =>
      if op == In && fromModel then [Elem(MappedEach(name, ValueOf(prefix)))]
      else if fromModel then [Elem(Mapped(name, ValueOf(prefix)))]
      else [Elem(Get(ValueOf(prefix)))]
    case _ =>
      if fromModel then [Elem(Mapped(name, prefix))] else [Elem(Get(prefix))]
  }

  function DocGetter<V>(p: PropertyInfo<V>): seq<Piece> {
    ValueGetterSingle(DocProperty(p.propertyName), p.propertyName, p.value, p.fromModel)
  }

  function WhenGetter<V>(p: PropertyInfo<V>): seq<Piece> {
    ValueGetterSingle(ConditionProperty(p.propertyName), p.propertyName, p.value, p.fromModel)
  }

  function AssignmentGetter<V>(p: PropertyInfo<V>): seq<Piece> {
    var path := if p.value.Assigned? then ValueOf(DocProperty(p.propertyName)) else DocProperty(p.propertyName);
    [Elem(if p.fromModel then Mapped(p.propertyName, path) else Get(path))]
  }

  function SelectParamsGetter<V>(properties: seq<PropertyInfo<V>>, limit: bool): seq<Piece> {
    JoinGetters(DocGetter, properties)
    + (if limit then (if |properties| > 0 then [Sep] else []) + [Elem(Get(DocInfoLimit))] else [])
  }

  function InsertParamsGetter<V>(properties: seq<PropertyInfo<V>>, ttl: bool): seq<Piece> {
    JoinGetters(DocGetter, properties) + (if ttl then [Sep, Elem(Get(DocInfoTtl))] else [])
  }

  function ConditionGetter<V>(condition: seq<PropertyInfo<V>>): seq<Piece> {
    if |condition| > 0 then [Sep] + JoinGetters(WhenGetter, condition) else []
  }

  function UpdateParamsGetter<V>(updates: seq<PropertyInfo<V>>, keys: seq<PropertyInfo<V>>,
                                 condition: seq<PropertyInfo<V>>, ttl: bool): seq<Piece> {
    (if ttl then [Elem(Get(DocInfoTtl)), Sep] else []) + (JoinGetters(AssignmentGetter, updates) + ([Sep] +
    (JoinGetters(DocGetter, keys) + ConditionGetter(condition))))
  }

  function DeleteParamsGetter<V>(keys: seq<PropertyInfo<V>>, condition: seq<PropertyInfo<V>>): seq<Piece> {
    JoinGetters(DocGetter, keys) + ConditionGetter(condition)
  }
}
