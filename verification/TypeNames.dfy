/**
 CQL type names: the parser (`parseTypeName` in lib/encoder.js) and the printer
 (`getDataTypeNameByCode` in lib/types/index.js).
 */
module TypeNames {
  import opened Seqs
  import opened TypeParams
  import opened Wrappers

  /** What a name is parsed to; a code of `dataTypes` is given by its name there. */
  datatype TypeInfo =
    | Simple(name: string)
    | Custom(info: string)
    | ListOf(item: TypeInfo, frozen: bool)
    | SetOf(item: TypeInfo, frozen: bool)
    | MapOf(key: TypeInfo, value: TypeInfo, frozen: bool)
    | TupleOf(items: seq<TypeInfo>, frozen: bool)
    | VectorOf(item: TypeInfo, dimension: Option<int>)  // None is NaN
    | UdtOf(name: string, frozen: bool)

  /** Whether the keyspace has a user-defined type of a name. */
  type Resolver = string -> bool

  /** The names that start a type with parameters, in the order they are tried. */
  datatype Keyword = List | Set | Map | Tuple | Vector

  function Name(w: Keyword): string {
    match w
    case List => "list"
    case Set => "set"
    case Map => "map"
    case Tuple => "tuple"
    case Vector => "vector"
  }

  const FROZEN := "frozen"

  /** The members of `dataTypes` that are codes. */
  const CODE_NAMES: set<string> := {
    "custom", "ascii", "bigint", "blob", "boolean", "counter", "decimal", "double", "float", "int", "text",
    "timestamp", "uuid", "varchar", "varint", "timeuuid", "inet", "date", "time", "smallint", "tinyint",
    "duration", "list", "map", "set", "udt", "tuple"}

  /** `text.indexOf(word, start) === start` */
  predicate At(text: string, start: nat, word: string) {
    start + |word| <= |text| && text[start..start + |word|] == word
  }

  function KeywordAt(text: string, start: nat): (r: Option<Keyword>)
    ensures r.Some? ==> text != "" && At(text, start, Name(r.value))
  {
    if At(text, start, Name(List)) then Some(List)
    else if At(text, start, Name(Set)) then Some(Set)
    else if At(text, start, Name(Map)) then Some(Map)
    else if At(text, start, Name(Tuple)) then Some(Tuple)
    else if At(text, start, Name(Vector)) then Some(Vector)
    else None
  }

  predicate IsSpace(c: char) {
    c == ' ' || c == '\t' || c == '\n' || c == '\r'
  }

  function TrimStart(s: string): (r: string)
    ensures |r| <= |s|
  {
    if s != "" && IsSpace(s[0]) then TrimStart(s[1..]) else s
  }

  function TrimEnd(s: string): (r: string)
    ensures |r| <= |s|
  {
    if s != "" && IsSpace(s[|s| - 1]) then TrimEnd(s[..|s| - 1]) else s
  }

  function Trim(s: string): (r: string)
    ensures |r| <= |s|
  {
    TrimEnd(TrimStart(s))
  }

  /** The first `""` becomes `"`. */
  function Unescape(s: string): string {
    if |s| < 2 then s else if s[0] == '"' && s[1] == '"' then s[1..] else [s[0]] + Unescape(s[1..])
  }

  predicate IsDigit(c: char) {
    '0' <= c <= '9'
  }

  /** `parseInt(s, 10)` of a trimmed text: a sign, and digits up to the first other character. */
  function ParseInt(s: string): Option<int> {
    if s != "" && s[0] == '-' then
      var n := Digits(s[1..], None);
      if n.None? then None else Some(-n.value)
    else if s != "" && s[0] == '+' then Digits(s[1..], None)
    else Digits(s, None)
  }

  function Digits(s: string, read: Option<int>): Option<int> {
    if s == "" || !IsDigit(s[0]) then read
    else Digits(s[1..], Some((if read.None? then 0 else read.value * 10) + (s[0] as int - '0' as int)))
  }

  // ----- Parsing -----

  lemma {:induction false} ScanShort(piece: string, rest: string, level: int, k: Brackets)
    ensures forall p <- Scan(piece, rest, level, k) :: |p| <= |piece| + |rest|
    decreases |rest|
  {
    if rest != "" {
      var next := level + Delta(rest[0], k);
      ScanShort("", rest[1..], next, k);
      ScanShort(piece + [rest[0]], rest[1..], next, k);
    }
  }

  function Longest(params: seq<string>): (n: nat)
    ensures forall p <- params :: |p| <= n
    ensures params != [] ==> exists p <- params :: |p| == n
  {
    if params == [] then 0
    else
      var rest := Longest(params[1..]);
      if |params[0]| >= rest then |params[0]| else rest
  }

  /** The parameters in a window of the text; each is shorter than the text when the window starts inside it. */
  function Params(text: string, start: nat, length: int, k: Brackets): (r: seq<string>)
    ensures |r| >= 1 && (0 < start && text != "" ==> Longest(r) < |text|)
  {
    ScanShort("", Substr(text, start, length), 0, k);
    Split(Substr(text, start, length), k)
  }

  /** A length of zero stands for `null` too: both mean the whole text. */
  function Parse(text: string, startIndex: nat, givenLength: int, resolver: Option<Resolver>): Outcome<TypeInfo>
    decreases |text|, 2
  {
    var length := if givenLength == 0 then |text| else givenLength;
    if At(text, startIndex, "'") then Returns(Custom(Substr(text, startIndex + 1, length - 2)))
    else if At(text, startIndex, FROZEN) then
      ParseType(text, startIndex + |FROZEN| + 1, length - (|FROZEN| + 2), true, resolver)
    else ParseType(text, startIndex, length, false, resolver)
  }

  function ParseType(text: string, start: nat, length: int, frozen: bool, resolver: Option<Resolver>): Outcome<TypeInfo>
    decreases |text|, 1
  {
    match KeywordAt(text, start)
    case None => ParseName(text, start, length, frozen, resolver)
    case Some(Vector) => ParseVector(text)
    case Some(w) =>
      ParseWith(w, Params(text, start + |Name(w)| + 1, length - (|Name(w)| + 2), ANGLES), frozen, resolver)
  }

  function ParseEach(params: seq<string>, resolver: Option<Resolver>): (r: Outcome<seq<TypeInfo>>)
    ensures r.Returns? ==> |r.value| == |params|
    decreases Longest(params), 4
  {
    All(seq(|params|, i requires 0 <= i < |params| => ParseTrimmed(params[i], resolver)))
  }

  function ParseTrimmed(param: string, resolver: Option<Resolver>): Outcome<TypeInfo>
    decreases |param|, 3
  {
    Parse(Trim(param), 0, 0, resolver)
  }

  /** The rest of a collection or tuple: what its parameters are. */
  function ParseWith(w: Keyword, params: seq<string>, frozen: bool, resolver: Option<Resolver>): Outcome<TypeInfo>
    requires w != Vector && |params| >= 1
    decreases Longest(params), 5
  {
    if w == List || w == Set then
      if |params| != 1 then Fails
      else
        var item := Parse(params[0], 0, 0, resolver);
        if item.Fails? then Fails
        else Returns(if w == List then ListOf(item.value, frozen) else SetOf(item.value, frozen))
    else if w == Map && |params| != 2 then Fails
    else
      var items := ParseEach(params, resolver);
      if items.Fails? then Fails
      else Returns(if w == Map then MapOf(items.value[0], items.value[1], frozen) else TupleOf(items.value, frozen))
  }

  /** The parameters of a vector are looked for behind the name at the start of the text, and cut as if in parentheses. */
  function ParseVector(text: string): Outcome<TypeInfo>
    requires text != ""
    decreases |text|, 0
  {
    var params := Params(text, |Name(Vector)| + 1, |text| - (|Name(Vector)| + 2), PARENS);
    if |params| != 2 then Fails
    else
      var item := ParseTrimmed(params[0], None);
      if item.Fails? then Fails else Returns(VectorOf(item.value, ParseInt(Trim(params[1]))))
  }

  function ParseName(text: string, startIndex: nat, givenLength: int, frozen: bool, resolver: Option<Resolver>): Outcome<TypeInfo> {
    var quoted := At(text, startIndex, "\"");
    var start, length := if quoted then startIndex + 1 else startIndex, if quoted then givenLength - 2 else givenLength;
    var part := if start > 0 then Substr(text, start, length) else text;
    var name := if quoted then Unescape(part) else part;
    if name in CODE_NAMES then Returns(Simple(name))
    else if name == "empty" then Returns(Custom("empty"))
    else if resolver.Some? && resolver.value(name) then Returns(UdtOf(name, frozen))
    else Fails
  }

  // ----- Printing -----

  function PrintEach(items: seq<TypeInfo>, i: nat): string
    requires i <= |items|
    decreases items, |items| - i
  {
    if i == |items| then ""
    else if i == |items| - 1 then Print(items[i])
    else Print(items[i]) + (", " + PrintEach(items, i + 1))
  }

  function Wrap(word: string, inner: string): string {
    word + ("<" + (inner + ">"))
  }

  function Print(t: TypeInfo): string {
    match t
    case Simple(name) => name
    case Custom(_) => "custom"
    case ListOf(item, _) => Wrap(Name(List), Print(item))
    case SetOf(item, _) => Wrap(Name(Set), Print(item))
    case MapOf(key, value, _) => Wrap(Name(Map), Print(key) + (", " + Print(value)))
    case TupleOf(items, _) => Wrap(Name(Tuple), PrintEach(items, 0))
    case VectorOf(item, dimension) => Wrap(Name(Vector), Print(item) + (", " + PrintNumber(dimension)))
    case UdtOf(name, _) => name
  }

  function Decimal(n: nat): (s: string)
    ensures s != "" && forall c <- s :: IsDigit(c)
  {
    var last := '0' + (n % 10) as char;
    if n < 10 then [last] else Decimal(n / 10) + [last]
  }

  function PrintNumber(n: Option<int>): string {
    match n
    case None => "NaN"
    case Some(n) => if n < 0 then "-" + Decimal(-n) else Decimal(n)
  }
}
