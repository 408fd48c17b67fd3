/** Parsing what was printed gives the type back, up to `options.frozen`. */
module TypeNameLaws {
  import opened Seqs
  import opened TypeNames
  import opened TypeParams
  import opened Wrappers

  // ----- `frozen` -----

  function Froze(t: Outcome<TypeInfo>): Outcome<TypeInfo> {
    if t.Fails? then Fails
    else
      Returns(match t.value
              case ListOf(item, _) => ListOf(item, true)
              case SetOf(item, _) => SetOf(item, true)
              case MapOf(key, value, _) => MapOf(key, value, true)
              case TupleOf(items, _) => TupleOf(items, true)
              case other => other)
  }

  function Frozen(s: string): string {
    Wrap(FROZEN, s)
  }

  lemma AtInside(a: string, s: string, word: string)
    requires '>' !in word && word != ""
    ensures At(a + (s + ">"), |a|, word) <==> At(s, 0, word)
  {
    var text := a + (s + ">");
    if At(s, 0, word) {
      assert text[|a|..|a| + |word|] == s[0..|word|];
    }
    if At(text, |a|, word) {
      assert word[|word| - 1] == text[|a| + |word| - 1];
      assert |word| <= |s|;
      assert text[|a|..|a| + |word|] == s[0..|word|];
    }
  }

  lemma KeywordInside(a: string, s: string)
    ensures KeywordAt(a + (s + ">"), |a|) == KeywordAt(s, 0)
  {
    hide At;
    AtInside(a, s, Name(List));
    AtInside(a, s, Name(Set));
    AtInside(a, s, Name(Map));
    AtInside(a, s, Name(Tuple));
    AtInside(a, s, Name(Vector));
  }

  lemma SubstrInside(a: string, s: string, start: nat, length: int)
    requires start + length < |s|
    ensures Substr(a + (s + ">"), |a| + start, length) == Substr(s, start, length)
  {
    var text := a + (s + ">");
    if length > 0 {
      assert text[|a| + start..|a| + start + length] == s[start..start + length];
    }
  }

  lemma AtFirst(text: string, start: nat, word: string)
    requires word != "" && At(text, start, word)
    ensures start < |text| && text[start] == word[0]
  {
    assert text[start] == text[start..start + |word|][0];
  }

  lemma NotAt(text: string, start: nat, word: string, k: nat)
    requires k < |word| && (start + k < |text| ==> text[start + k] != word[k])
    ensures !At(text, start, word)
  {
    if start + |word| <= |text| {
      assert text[start + k] == text[start..start + |word|][k];
    }
  }

  lemma KeywordIsNotQuoteOrFrozen(s: string)
    requires KeywordAt(s, 0).Some?
    ensures !At(s, 0, "'") && !At(s, 0, FROZEN)
  {
    hide At, KeywordAt;
    AtFirst(s, 0, Name(KeywordAt(s, 0).value));
    NotAt(s, 0, "'", 0);
    NotAt(s, 0, FROZEN, 0);
  }

  lemma FrozenStarts(s: string)
    ensures !At(Frozen(s), 0, "'") && At(Frozen(s), 0, FROZEN)
    ensures Frozen(s) == "frozen<" + (s + ">") && |Frozen(s)| == |s| + 8
  {
    var text := Frozen(s);
    assert text == "frozen<" + (s + ">");
    assert text[0..6] == FROZEN;
    NotAt(text, 0, "'", 0);
  }

  /** A text that starts with a keyword is parsed by its parameters. */
  lemma ParsesParams(s: string, resolver: Option<Resolver>)
    requires KeywordAt(s, 0).Some? && KeywordAt(s, 0) != Some(Vector)
    ensures var w := KeywordAt(s, 0).value;
      var n := |Name(w)|;
      Parse(s, 0, 0, resolver) == ParseWith(w, Params(s, n + 1, |s| - (n + 2), ANGLES), false, resolver)
  {
    hide At, KeywordAt, Name, Params, ParseWith, ParseVector, ParseName;
    KeywordIsNotQuoteOrFrozen(s);
  }

  lemma FrozenParsesParams(s: string, resolver: Option<Resolver>)
    requires KeywordAt(s, 0).Some? && KeywordAt(s, 0) != Some(Vector)
    ensures var w := KeywordAt(s, 0).value;
      var n := |Name(w)|;
      Parse(Frozen(s), 0, 0, resolver) == ParseWith(w, Params(s, n + 1, |s| - (n + 2), ANGLES), true, resolver)
  {
    hide Parse, At, KeywordAt, Name, ParseWith, ParseVector, ParseName, Frozen, Substr, Split;
    var n := |Name(KeywordAt(s, 0).value)|;
    FrozenParsesType(s, resolver);
    FrozenStarts(s);
    KeywordInside("frozen<", s);
    SubstrInside("frozen<", s, n + 1, |s| - (n + 2));
  }

  lemma FrozenParsesType(s: string, resolver: Option<Resolver>)
    ensures Parse(Frozen(s), 0, 0, resolver) == ParseType(Frozen(s), 7, |s|, true, resolver)
  {
    hide At, ParseType, Frozen;
    FrozenStarts(s);
  }

  lemma FrozenIsPassedOn(w: Keyword, params: seq<string>, resolver: Option<Resolver>)
    requires w != Vector && |params| >= 1
    ensures ParseWith(w, params, true, resolver) == Froze(ParseWith(w, params, false, resolver))
  {
    hide Parse, ParseEach;
  }

  /** Wrapping any text that starts like a collection or a tuple in `frozen<...>` changes only `options.frozen`. */
  lemma FrozenChangesOneOption(s: string, resolver: Option<Resolver>)
    requires KeywordAt(s, 0).Some? && KeywordAt(s, 0) != Some(Vector)
    ensures Parse(Frozen(s), 0, 0, resolver) == Froze(Parse(s, 0, 0, resolver))
  {
    hide KeywordAt, Name, Params, ParseWith, Frozen, Parse, Froze;
    var w := KeywordAt(s, 0).value;
    var n := |Name(w)|;
    ParsesParams(s, resolver);
    FrozenParsesParams(s, resolver);
    FrozenIsPassedOn(w, Params(s, n + 1, |s| - (n + 2), ANGLES), resolver);
  }

  // ----- Names that are printed as they are -----

  /** A name without brackets, commas, quotes or spaces that does not start like a type with parameters. */
  ghost predicate SafeName(name: string) {
    && name != ""
    && (forall c <- name :: c !in {'<', '>', '(', ')', ',', '\'', '"'} && !IsSpace(c))
    && KeywordAt(name, 0).None? && !At(name, 0, FROZEN)
  }

  const WITH_PARAMETERS: set<string> := {"list", "map", "set", "tuple"}

  lemma NotKeywordAt(name: string)
    requires name != "" && name[0] !in {'l', 's', 'm', 't', 'v'}
    ensures KeywordAt(name, 0).None?
  {
    hide At;
    NotAt(name, 0, Name(List), 0);
    NotAt(name, 0, Name(Set), 0);
    NotAt(name, 0, Name(Map), 0);
    NotAt(name, 0, Name(Tuple), 0);
    NotAt(name, 0, Name(Vector), 0);
  }

  lemma NotKeywordAtSecond(name: string)
    requires |name| >= 2 && name[0] in {'s', 't', 'v'}
    requires name[1] != (if name[0] == 't' then 'u' else 'e')
    ensures KeywordAt(name, 0).None?
  {
    NotAt(name, 0, Name(List), 0);
    NotAt(name, 0, Name(Map), 0);
    var word := if name[0] == 's' then Name(Set) else if name[0] == 't' then Name(Tuple) else Name(Vector);
    NotAt(name, 0, word, 1);
    NotAt(name, 0, if name[0] == 's' then Name(Tuple) else Name(Set), 0);
    NotAt(name, 0, if name[0] == 'v' then Name(Tuple) else Name(Vector), 0);
  }

  lemma NotFrozenAt(name: string)
    requires |name| >= 2 && !(name[0] == 'f' && name[1] == 'r')
    ensures !At(name, 0, FROZEN)
  {
    NotAt(name, 0, FROZEN, if name[0] == 'f' then 1 else 0);
  }

  lemma CodeNameLetters(name: string)
    requires name in CODE_NAMES && name !in WITH_PARAMETERS
    ensures |name| >= 2 && (forall c <- name :: 'a' <= c <= 'z')
    ensures name[0] !in {'l', 's', 'm', 't', 'v'}
         || (name[0] in {'s', 't', 'v'} && name[1] != if name[0] == 't' then 'u' else 'e')
    ensures !(name[0] == 'f' && name[1] == 'r')
  {
  }

  /** The name of every simple type is safe. */
  lemma CodeNamesAreSafe(name: string)
    requires name in CODE_NAMES && name !in WITH_PARAMETERS
    ensures SafeName(name)
  {
    hide CODE_NAMES, WITH_PARAMETERS, KeywordAt, At;
    CodeNameLetters(name);
    NotFrozenAt(name);
    if name[0] in {'l', 's', 'm', 't', 'v'} {
      NotKeywordAtSecond(name);
    } else {
      NotKeywordAt(name);
    }
  }

  // ----- What printed types look like -----

  ghost predicate Printable(t: TypeInfo, resolver: Resolver) {
    match t
    case Simple(name) => name in CODE_NAMES && name !in WITH_PARAMETERS
    case Custom(_) => false
    case ListOf(item, _) => Printable(item, resolver)
    case SetOf(item, _) => Printable(item, resolver)
    case MapOf(key, value, _) => Printable(key, resolver) && Printable(value, resolver)
    case TupleOf(items, _) => items != [] && forall i :: 0 <= i < |items| ==> Printable(items[i], resolver)
    case VectorOf(item, _) => Printable(item, resolver)
    case UdtOf(name, _) => SafeName(name) && name !in CODE_NAMES && name != "empty" && resolver(name)
  }

  function Kept(frozen: bool, p: string): string {
    if frozen then Wrap(FROZEN, p) else p
  }

  /** The whole name of a type, as a server gives it: as printed, with `frozen<...>` where it is frozen. */
  function Full(t: TypeInfo): string {
    match t
    case Simple(name) => name
    case Custom(_) => "custom"
    case ListOf(item, frozen) => Kept(frozen, Wrap(Name(List), Full(item)))
    case SetOf(item, frozen) => Kept(frozen, Wrap(Name(Set), Full(item)))
    case MapOf(key, value, frozen) => Kept(frozen, Wrap(Name(Map), Full(key) + (", " + Full(value))))
    case TupleOf(items, frozen) => Kept(frozen, Wrap(Name(Tuple), FullEach(items, 0)))
    case VectorOf(item, dimension) => Wrap(Name(Vector), Full(item) + (", " + PrintNumber(dimension)))
    case UdtOf(name, frozen) => Kept(frozen, name)
  }

  function FullEach(items: seq<TypeInfo>, i: nat): string
    requires i <= |items|
    decreases items, |items| - i
  {
    if i == |items| then ""
    else if i == |items| - 1 then Full(items[i])
    else Full(items[i]) + (", " + FullEach(items, i + 1))
  }

  /** The type without its options. */
  function Unfrozen(t: TypeInfo): TypeInfo {
    match t
    case ListOf(item, _) => ListOf(Unfrozen(item), false)
    case SetOf(item, _) => SetOf(Unfrozen(item), false)
    case MapOf(key, value, _) => MapOf(Unfrozen(key), Unfrozen(value), false)
    case TupleOf(items, _) => TupleOf(UnfrozenEach(items), false)
    case VectorOf(item, dimension) => VectorOf(Unfrozen(item), dimension)
    case UdtOf(name, _) => UdtOf(name, false)
    case other => other
  }

  function UnfrozenEach(items: seq<TypeInfo>): seq<TypeInfo> {
    seq(|items|, i requires 0 <= i < |items| => Unfrozen(items[i]))
  }

  /**
   What vectors allow: no comma in the name of the elements' type, and no user-defined type in it, for
   which there is no resolver then.
   */
  predicate VectorsAllow(t: TypeInfo, resolves: bool) {
    match t
    case ListOf(item, _) => VectorsAllow(item, resolves)
    case SetOf(item, _) => VectorsAllow(item, resolves)
    case MapOf(key, value, _) => VectorsAllow(key, resolves) && VectorsAllow(value, resolves)
    case TupleOf(items, _) => forall i :: 0 <= i < |items| ==> VectorsAllow(items[i], resolves)
    case VectorOf(item, _) => ',' !in Full(item) && VectorsAllow(item, false)
    case UdtOf(_, _) => resolves
    case _ => true
  }

  /** Inside brackets, or anywhere when there is no comma, a text does not end a parameter; and it keeps the level. */
  ghost predicate Closed(p: string) {
    forall level: nat :: Quiet(p, level, ANGLES) && LevelAfter(p, level, ANGLES) == level
  }

  ghost predicate Enclosed(p: string) {
    forall level: nat :: level >= 1 ==> Quiet(p, level, ANGLES) && LevelAfter(p, level, ANGLES) == level
  }

  ghost predicate NoSpacesAround(p: string) {
    p != "" && !IsSpace(p[0]) && !IsSpace(p[|p| - 1])
  }

  ghost predicate NoParens(p: string) {
    forall c <- p :: c != '(' && c != ')'
  }

  lemma {:induction false} PlainLevel(p: string, level: int, k: Brackets)
    requires forall c <- p :: c != k.open && c != k.close
    ensures LevelAfter(p, level, k) == level
    ensures (level != 0 || ',' !in p) ==> Quiet(p, level, k)
  {
    if p != "" {
      assert p[0] in p && forall c <- p[1..] :: c in p;
      PlainLevel(p[1..], level, k);
    }
  }

  lemma {:induction false} EnclosedAppend(a: string, b: string)
    requires Enclosed(a) && Enclosed(b)
    ensures Enclosed(a + b)
  {
    forall level: nat | level >= 1
      ensures Quiet(a + b, level, ANGLES) && LevelAfter(a + b, level, ANGLES) == level
    {
      LevelAppend(a, b, level, ANGLES);
    }
  }

  lemma SeparatorEnclosed(p: string)
    requires forall c <- p :: c != '<' && c != '>'
    ensures Enclosed(p)
  {
    forall level: nat | level >= 1
      ensures Quiet(p, level, ANGLES) && LevelAfter(p, level, ANGLES) == level
    {
      PlainLevel(p, level, ANGLES);
    }
  }

  lemma PlainClosed(p: string)
    requires forall c <- p :: c != '<' && c != '>' && c != ','
    ensures Closed(p)
  {
    forall level: nat
      ensures Quiet(p, level, ANGLES) && LevelAfter(p, level, ANGLES) == level
    {
      PlainLevel(p, level, ANGLES);
    }
  }

  lemma {:induction false} WrapClosed(word: string, inner: string)
    requires Enclosed(inner) && forall c <- word :: c != '<' && c != '>' && c != ','
    ensures Closed(Wrap(word, inner))
  {
    forall level: nat
      ensures Quiet(Wrap(word, inner), level, ANGLES) && LevelAfter(Wrap(word, inner), level, ANGLES) == level
    {
      PlainLevel(word, level, ANGLES);
      LevelAppend(word, "<" + (inner + ">"), level, ANGLES);
      LevelAppend("<", inner + ">", level, ANGLES);
      OneChar('<', level, ANGLES);
      LevelAppend(inner, ">", level + 1, ANGLES);
      OneChar('>', level + 1, ANGLES);
    }
  }

  /** All that matters about the text of a printed type. */
  ghost predicate WellPrinted(p: string) {
    Closed(p) && NoSpacesAround(p) && NoParens(p)
  }

  lemma WrapWellPrinted(w: Keyword, inner: string)
    requires Enclosed(inner) && NoParens(inner)
    ensures WellPrinted(Wrap(Name(w), inner))
  {
    hide Closed, Enclosed;
    WrapClosed(Name(w), inner);
    var p := Wrap(Name(w), inner);
    assert p[|p| - 1] == '>' && p[0] == Name(w)[0];
    assert NoParens(p);
  }

  lemma SafeWellPrinted(name: string)
    requires SafeName(name)
    ensures WellPrinted(name)
  {
    PlainClosed(name);
  }

  lemma DecimalDigits(n: Option<int>)
    ensures forall c <- PrintNumber(n) :: c != '<' && c != '>' && c != '(' && c != ')' && c != ',' && !IsSpace(c)
    ensures PrintNumber(n) != ""
  {
  }

  lemma ClosedIsEnclosed(p: string)
    requires Closed(p)
    ensures Enclosed(p)
  {
  }

  lemma {:induction false} SeparatedEnclosed(a: string, b: string)
    requires Enclosed(a) && Enclosed(b) && NoParens(a) && NoParens(b)
    ensures Enclosed(a + (", " + b)) && NoParens(a + (", " + b))
  {
    hide Enclosed;
    SeparatorEnclosed(", ");
    EnclosedAppend(", ", b);
    EnclosedAppend(a, ", " + b);
  }

  lemma {:induction false} EachEnclosed(items: seq<TypeInfo>, i: nat)
    requires i < |items| && forall k :: i <= k < |items| ==> WellPrinted(Full(items[k]))
    ensures Enclosed(FullEach(items, i)) && NoParens(FullEach(items, i))
    decreases |items| - i
  {
    hide Closed, Enclosed, NoParens, Full;
    ClosedIsEnclosed(Full(items[i]));
    if i < |items| - 1 {
      EachEnclosed(items, i + 1);
      SeparatedEnclosed(Full(items[i]), FullEach(items, i + 1));
    }
  }

  lemma KeptWellPrinted(frozen: bool, p: string)
    requires WellPrinted(p)
    ensures WellPrinted(Kept(frozen, p))
  {
    hide Closed, Enclosed;
    if frozen {
      ClosedIsEnclosed(p);
      WrapClosed(FROZEN, p);
      var whole := Wrap(FROZEN, p);
      assert whole[|whole| - 1] == '>' && whole[0] == 'f';
    }
  }

  lemma {:induction false} TypesAreWellPrinted(t: TypeInfo, resolver: Resolver)
    requires Printable(t, resolver)
    ensures WellPrinted(Full(t))
    decreases t, 0
  {
    hide Closed, Enclosed, NoParens, NoSpacesAround, SafeName, Wrap, Name, CODE_NAMES, WITH_PARAMETERS, Kept;
    match t
    case Simple(name) => CodeNamesAreSafe(name); SafeWellPrinted(name);
    case UdtOf(name, frozen) =>
      SafeWellPrinted(name);
      KeptWellPrinted(frozen, name);
    case ListOf(item, frozen) => InnerWellPrinted(List, item, frozen, resolver);
    case SetOf(item, frozen) => InnerWellPrinted(Set, item, frozen, resolver);
    case MapOf(key, value, frozen) =>
      TypesAreWellPrinted(key, resolver);
      TypesAreWellPrinted(value, resolver);
      ClosedIsEnclosed(Full(key));
      ClosedIsEnclosed(Full(value));
      SeparatedEnclosed(Full(key), Full(value));
      WrapWellPrinted(Map, Full(key) + (", " + Full(value)));
      KeptWellPrinted(frozen, Wrap(Name(Map), Full(key) + (", " + Full(value))));
    case TupleOf(items, frozen) =>
      forall i | 0 <= i < |items|
        ensures WellPrinted(Full(items[i]))
      {
        TypesAreWellPrinted(items[i], resolver);
      }
      EachEnclosed(items, 0);
      WrapWellPrinted(Tuple, FullEach(items, 0));
      KeptWellPrinted(frozen, Wrap(Name(Tuple), FullEach(items, 0)));
    case VectorOf(item, dimension) =>
      TypesAreWellPrinted(item, resolver);
      ClosedIsEnclosed(Full(item));
      NumberEnclosed(dimension);
      SeparatedEnclosed(Full(item), PrintNumber(dimension));
      WrapWellPrinted(Vector, Full(item) + (", " + PrintNumber(dimension)));
  }

  lemma NumberEnclosed(n: Option<int>)
    ensures Enclosed(PrintNumber(n)) && NoParens(PrintNumber(n))
  {
    DecimalDigits(n);
    SeparatorEnclosed(PrintNumber(n));
  }

  lemma {:induction false} InnerWellPrinted(w: Keyword, item: TypeInfo, frozen: bool, resolver: Resolver)
    requires Printable(item, resolver)
    ensures WellPrinted(Kept(frozen, Wrap(Name(w), Full(item))))
    decreases item, 1
  {
    TypesAreWellPrinted(item, resolver);
    ClosedIsEnclosed(Full(item));
    WrapWellPrinted(w, Full(item));
    KeptWellPrinted(frozen, Wrap(Name(w), Full(item)));
  }

  // ----- Parsing a printed type -----

  lemma {:induction false} TrimEndKeeps(p: string)
    requires p == "" || !IsSpace(p[|p| - 1])
    ensures TrimEnd(p) == p
  {
  }

  lemma TrimKeeps(p: string)
    requires NoSpacesAround(p)
    ensures Trim(p) == p && Trim(" " + p) == p
  {
    TrimEndKeeps(p);
    assert (" " + p)[1..] == p;
  }

  lemma KeywordOf(w: Keyword, inner: string)
    ensures KeywordAt(Wrap(Name(w), inner), 0) == Some(w)
  {
    var text := Wrap(Name(w), inner);
    assert text[0..|Name(w)|] == Name(w);
    assert text[0] == Name(w)[0];
    hide At;
    if w != List { NotAt(text, 0, Name(List), 0); }
    if w != Set { NotAt(text, 0, Name(Set), 0); }
    if w != Map { NotAt(text, 0, Name(Map), 0); }
    if w != Tuple { NotAt(text, 0, Name(Tuple), 0); }
  }

  lemma InnerWindow(w: Keyword, inner: string)
    ensures var n, text := |Name(w)|, Wrap(Name(w), inner);
      Substr(text, n + 1, |text| - (n + 2)) == inner
  {
    var n, text := |Name(w)|, Wrap(Name(w), inner);
    assert |text| == n + |inner| + 2;
    Assoc(Name(w), "<", inner + ">");
    Middle(Name(w) + "<", inner, ">");
  }

  lemma Middle(a: string, b: string, c: string)
    ensures (a + (b + c))[|a|..|a| + |b|] == b
  {
  }

  /** A printed collection is parsed by the pieces of what is between its brackets. */
  lemma ParsesInner(w: Keyword, inner: string, resolver: Option<Resolver>)
    requires w != Vector
    ensures Parse(Wrap(Name(w), inner), 0, 0, resolver) == ParseWith(w, Split(inner, ANGLES), false, resolver)
  {
    hide Wrap, KeywordAt, Split, Substr, Parse, ParseWith;
    KeywordOf(w, inner);
    InnerWindow(w, inner);
    ParsesParams(Wrap(Name(w), inner), resolver);
  }

  lemma SplitClosed(p: string)
    requires Closed(p)
    ensures Split(p, ANGLES) == [p]
  {
    SplitAtomic(p, ANGLES);
  }

  /** The pieces between the brackets of a map or a tuple: all but the first after a space. */
  function PiecesOf(items: seq<TypeInfo>, i: nat): (r: seq<string>)
    requires i <= |items|
    ensures |r| == |items| - i
    ensures forall k :: 0 <= k < |r| ==> r[k] == if i + k == 0 then Full(items[0]) else " " + Full(items[i + k])
    decreases |items| - i
  {
    if i == |items| then []
    else [if i == 0 then Full(items[0]) else " " + Full(items[i])] + PiecesOf(items, i + 1)
  }

  lemma SpacedClosed(p: string)
    requires Closed(p)
    ensures Closed(" " + p)
  {
    forall level: nat
      ensures Quiet(" " + p, level, ANGLES) && LevelAfter(" " + p, level, ANGLES) == level
    {
      LevelAppend(" ", p, level, ANGLES);
      OneChar(' ', level, ANGLES);
    }
  }

  lemma {:induction false} SplitEach(items: seq<TypeInfo>, i: nat)
    requires i < |items| && forall k :: i <= k < |items| ==> Closed(Full(items[k]))
    ensures Split(if i == 0 then FullEach(items, 0) else " " + FullEach(items, i), ANGLES) == PiecesOf(items, i)
    decreases |items| - i
  {
    hide Closed, Full, Split;
    var p := Full(items[i]);
    var first := if i == 0 then p else " " + p;
    SpacedClosed(p);
    ClosedPiece(first);
    if i == |items| - 1 {
      SplitClosed(first);
      assert PiecesOf(items, i + 1) == [];
    } else {
      var rest := FullEach(items, i + 1);
      SplitEach(items, i + 1);
      SplitFirst(first, " " + rest, ANGLES);
      SpacedJoin(p, rest);
    }
  }

  lemma SpacedJoin(p: string, rest: string)
    ensures p + (", " + rest) == p + ("," + (" " + rest))
    ensures " " + (p + (", " + rest)) == (" " + p) + ("," + (" " + rest))
  {
    assert ", " + rest == "," + (" " + rest);
    Assoc(" ", p, ", " + rest);
  }

  lemma ClosedPiece(p: string)
    requires Closed(p)
    ensures Atomic(p, ANGLES) && Balanced(p, ANGLES)
  {
  }

  // ----- Vectors -----

  lemma {:induction false} CommaSplits(s: string)
    requires NoParens(s) && ',' in s
    ensures |Split(s, PARENS)| >= 2
  {
    var i := FirstComma(s);
    var a, b := s[..i], s[i + 1..];
    assert s == a + ("," + b) && forall c <- a :: c in s;
    PlainLevel(a, 0, PARENS);
    SplitFirst(a, b, PARENS);
  }

  lemma {:induction false} FirstComma(s: string) returns (i: nat)
    requires ',' in s
    ensures i < |s| && s[i] == ',' && ',' !in s[..i]
  {
    i := 0;
    while s[i] != ','
      invariant i < |s| && ',' !in s[..i] && ',' in s[i..]
      decreases |s| - i
    {
      assert s[..i + 1] == s[..i] + [s[i]] && s[i..] == [s[i]] + s[i + 1..];
      i := i + 1;
    }
  }

  /** The parameters of a printed vector are two exactly when the name of its elements' type has no comma. */
  lemma {:induction false} VectorPieces(p: string, n: string)
    requires NoParens(p) && NoParens(n) && ',' !in n
    ensures if ',' in p then |Split(p + (", " + n), PARENS)| >= 3 else Split(p + (", " + n), PARENS) == [p, " " + n]
  {
    assert ", " + n == "," + (" " + n);
    if ',' in p {
      var i := FirstComma(p);
      var a, b := p[..i], p[i + 1..];
      var rest := b + (", " + n);
      assert p + (", " + n) == a + ("," + rest) && (forall c <- a :: c in p) && forall c <- b :: c in p;
      PlainLevel(a, 0, PARENS);
      SplitFirst(a, rest, PARENS);
      assert rest[|b|] == ',';
      CommaSplits(rest);
    } else {
      PlainLevel(p, 0, PARENS);
      SplitFirst(p, " " + n, PARENS);
      PlainLevel(" " + n, 0, PARENS);
      SplitAtomic(" " + n, PARENS);
    }
  }

  lemma {:induction false} DigitsOfDecimal(n: nat, more: string, read: Option<int>)
    requires read.None? || read.value == 0
    ensures Digits(Decimal(n) + more, read) == Digits(more, Some(n))
    decreases n
  {
    var last := '0' + (n % 10) as char;
    var tail := [last] + more;
    assert tail[1..] == more && (last as int - '0' as int) == n % 10;
    if n >= 10 {
      DigitsOfDecimal(n / 10, tail, read);
      Assoc(Decimal(n / 10), [last], more);
    }
  }

  lemma {:induction false} ReadsNumber(n: Option<int>)
    ensures ParseInt(PrintNumber(n)) == n && NoSpacesAround(PrintNumber(n))
  {
    var text := PrintNumber(n);
    DecimalDigits(n);
    assert text[0] in text && text[|text| - 1] in text;
    if n.Some? {
      var digits := Decimal(if n.value < 0 then -n.value else n.value);
      DigitsOfDecimal(if n.value < 0 then -n.value else n.value, "", None);
      assert digits + "" == digits && digits[0] in digits;
      if n.value < 0 {
        assert text[1..] == digits;
      }
    }
  }

  lemma ParsesVector(s: string, resolver: Option<Resolver>)
    requires KeywordAt(s, 0) == Some(Vector)
    ensures Parse(s, 0, 0, resolver) == ParseVector(s)
  {
    hide At, KeywordAt, ParseVector, ParseWith, ParseName, Params;
    KeywordIsNotQuoteOrFrozen(s);
  }

  lemma VectorFromPieces(inner: string)
    ensures var params := Split(inner, PARENS);
      var r := ParseVector(Wrap(Name(Vector), inner));
      if |params| != 2 then r.Fails?
      else
        var item := Parse(Trim(params[0]), 0, 0, None);
        r == if item.Fails? then Fails else Returns(VectorOf(item.value, ParseInt(Trim(params[1]))))
  {
    hide Wrap, Split, Substr, Parse, Trim, ParseInt;
    InnerWindow(Vector, inner);
  }

  lemma {:induction false} VectorRoundTrip(t: TypeInfo, resolver: Resolver, given: Option<Resolver>)
    requires t.VectorOf? && Printable(t, resolver)
    requires Parse(Full(t.item), 0, 0, None) == if VectorsAllow(t.item, false) then Returns(t.item) else Fails
    ensures Parse(Full(t), 0, 0, given) == if VectorsAllow(t, given.Some?) then Returns(t) else Fails
  {
    var p, n := Full(t.item), PrintNumber(t.dimension);
    TypesAreWellPrinted(t.item, resolver);
    hide Parse, PrintNumber, ParseInt, Split, Trim, ParseVector, KeywordAt;
    NumberEnclosed(t.dimension);
    DecimalDigits(t.dimension);
    VectorPieces(p, n);
    TrimKeeps(p);
    ReadsNumber(t.dimension);
    TrimKeeps(n);
    KeywordOf(Vector, p + (", " + n));
    ParsesVector(Full(t), given);
    VectorFromPieces(p + (", " + n));
  }

  // ----- The round trip -----

  lemma NameRoundTrip(name: string, given: Option<Resolver>)
    requires SafeName(name)
    ensures Parse(name, 0, 0, given) == ParseName(name, 0, |name|, false, given)
    ensures !At(name, 0, "\"")
  {
    hide KeywordAt, ParseName;
    assert name[0] in name;
    NotAt(name, 0, "'", 0);
    NotAt(name, 0, "\"", 0);
  }

  lemma PieceParses(t: TypeInfo, piece: string, given: Option<Resolver>)
    requires NoSpacesAround(Full(t)) && (piece == Full(t) || piece == " " + Full(t))
    ensures ParseTrimmed(piece, given) == Parse(Full(t), 0, 0, given)
  {
    hide Parse, Full, NoSpacesAround, Trim;
    TrimKeeps(Full(t));
  }

  lemma {:induction false} EachParses(items: seq<TypeInfo>, given: Option<Resolver>)
    requires items != [] && forall i :: 0 <= i < |items| ==> WellPrinted(Full(items[i]))
    requires forall i :: 0 <= i < |items| ==>
      Parse(Full(items[i]), 0, 0, given) == if VectorsAllow(items[i], given.Some?) then Returns(items[i]) else Fails
    ensures var r := ParseEach(Split(FullEach(items, 0), ANGLES), given);
      if forall i :: 0 <= i < |items| ==> VectorsAllow(items[i], given.Some?)
      then r == Returns(seq(|items|, i requires 0 <= i < |items| => items[i]))
      else r.Fails?
  {
    hide Parse, ParseTrimmed, Full, FullEach, VectorsAllow, Closed, NoSpacesAround, Split;
    SplitEach(items, 0);
    var pieces := PiecesOf(items, 0);
    var outcomes := seq(|pieces|, i requires 0 <= i < |pieces| => ParseTrimmed(pieces[i], given));
    assert ParseEach(pieces, given) == All(outcomes);
    forall i | 0 <= i < |items|
      ensures outcomes[i] == if VectorsAllow(items[i], given.Some?) then Returns(items[i]) else Fails
    {
      PieceParses(items[i], pieces[i], given);
    }
    if forall i :: 0 <= i < |items| ==> VectorsAllow(items[i], given.Some?) {
      assert All(outcomes).value == seq(|items|, i requires 0 <= i < |items| => items[i]);
    } else {
      var i :| 0 <= i < |items| && !VectorsAllow(items[i], given.Some?);
      assert outcomes[i].Fails?;
    }
  }

  lemma {:induction false} OneRoundTrip(w: Keyword, item: TypeInfo, given: Option<Resolver>)
    requires w == List || w == Set
    requires WellPrinted(Full(item))
    requires Parse(Full(item), 0, 0, given) == if VectorsAllow(item, given.Some?) then Returns(item) else Fails
    ensures Parse(Wrap(Name(w), Full(item)), 0, 0, given)
         == if !VectorsAllow(item, given.Some?) then Fails
            else Returns(if w == List then ListOf(item, false) else SetOf(item, false))
  {
    hide Parse, Full, Wrap, Name, VectorsAllow, Closed, NoSpacesAround, NoParens, Split;
    ParsesInner(w, Full(item), given);
    SplitClosed(Full(item));
  }

  lemma {:induction false} MapRoundTrip(key: TypeInfo, value: TypeInfo, given: Option<Resolver>)
    requires WellPrinted(Full(key)) && WellPrinted(Full(value))
    requires Parse(Full(key), 0, 0, given) == if VectorsAllow(key, given.Some?) then Returns(key) else Fails
    requires Parse(Full(value), 0, 0, given) == if VectorsAllow(value, given.Some?) then Returns(value) else Fails
    ensures Parse(Wrap(Name(Map), Full(key) + (", " + Full(value))), 0, 0, given)
         == if VectorsAllow(key, given.Some?) && VectorsAllow(value, given.Some?) then
              Returns(MapOf(key, value, false))
            else Fails
  {
    hide Parse, ParseEach, Full, Wrap, Name, VectorsAllow, WellPrinted, Split;
    var items := [key, value];
    PrintTwo(key, value);
    ParsesInner(Map, FullEach(items, 0), given);
    EachParses(items, given);
    var pieces := Split(FullEach(items, 0), ANGLES);
    assert |pieces| == 2 by {
      PiecesOfTwo(key, value);
    }
    assert VectorsAllow(items[0], given.Some?) && VectorsAllow(items[1], given.Some?)
      <==> forall i :: 0 <= i < |items| ==> VectorsAllow(items[i], given.Some?);
  }

  lemma PrintTwo(key: TypeInfo, value: TypeInfo)
    ensures FullEach([key, value], 0) == Full(key) + (", " + Full(value))
  {
    assert FullEach([key, value], 1) == Full(value);
  }

  lemma PiecesOfTwo(key: TypeInfo, value: TypeInfo)
    requires WellPrinted(Full(key)) && WellPrinted(Full(value))
    ensures |Split(FullEach([key, value], 0), ANGLES)| == 2
  {
    hide Full, Closed, FullEach;
    SplitEach([key, value], 0);
  }

  lemma {:induction false} TupleRoundTrip(items: seq<TypeInfo>, given: Option<Resolver>)
    requires items != [] && forall i :: 0 <= i < |items| ==> WellPrinted(Full(items[i]))
    requires forall i :: 0 <= i < |items| ==>
      Parse(Full(items[i]), 0, 0, given) == if VectorsAllow(items[i], given.Some?) then Returns(items[i]) else Fails
    ensures Parse(Wrap(Name(Tuple), FullEach(items, 0)), 0, 0, given)
         == if forall i :: 0 <= i < |items| ==> VectorsAllow(items[i], given.Some?) then
              Returns(TupleOf(seq(|items|, i requires 0 <= i < |items| => items[i]), false))
            else Fails
  {
    hide Parse, ParseEach, Full, FullEach, Wrap, Name, VectorsAllow, WellPrinted, Split;
    ParsesInner(Tuple, FullEach(items, 0), given);
    EachParses(items, given);
  }

  lemma {:induction false} SimpleRoundTrip(t: TypeInfo, resolver: Resolver, given: Option<Resolver>)
    requires (t.Simple? || t.UdtOf?) && Printable(t, resolver) && (given.Some? ==> given.value == resolver)
    ensures Parse(Full(t), 0, 0, given) == if VectorsAllow(t, given.Some?) then Returns(t) else Fails
  {
    hide Parse, SafeName, KeywordAt, At, CODE_NAMES, WITH_PARAMETERS;
    if t.Simple? {
      CodeNamesAreSafe(t.name);
      NameRoundTrip(t.name, given);
    } else if t.frozen {
      assert KeywordAt(t.name, 0).None? by {
        PlainStart(t.name);
      }
      NameRoundTrip(t.name, given);
      FrozenName(t.name, given);
    } else {
      NameRoundTrip(t.name, given);
    }
  }

  lemma PlainStart(name: string)
    requires SafeName(name)
    ensures KeywordAt(name, 0).None?
  {
  }

  /** Behind `frozen<`, a text that starts with no keyword is looked up as it would be alone. */
  lemma FrozenName(s: string, given: Option<Resolver>)
    requires KeywordAt(s, 0).None?
    ensures Parse(Frozen(s), 0, 0, given) == ParseName(Frozen(s), 7, |s|, true, given)
    ensures !At(s, 0, "\"") ==>
              (ParseName(Frozen(s), 7, |s|, true, given)
               == if s in CODE_NAMES then Returns(Simple(s))
                  else if s == "empty" then Returns(Custom("empty"))
                  else if given.Some? && given.value(s) then Returns(UdtOf(s, true))
                  else Fails)
    ensures At(Frozen(s), 7, "\"") <==> At(s, 0, "\"")
  {
    hide Parse, KeywordAt, At, CODE_NAMES, Frozen;
    FrozenParsesType(s, given);
    FrozenStarts(s);
    KeywordInside("frozen<", s);
    AtInside("frozen<", s, "\"");
    Middle("frozen<", s, ">");
  }

  lemma FrozenRoundTrip(s: string, frozen: bool, given: Option<Resolver>)
    requires KeywordAt(s, 0).Some? && KeywordAt(s, 0) != Some(Vector)
    ensures Parse(Kept(frozen, s), 0, 0, given) == if frozen then Froze(Parse(s, 0, 0, given)) else Parse(s, 0, 0, given)
  {
    hide Parse, KeywordAt, Froze, Wrap;
    if frozen {
      FrozenChangesOneOption(s, given);
      assert Kept(frozen, s) == Frozen(s);
    }
  }

  lemma FrozenInner(w: Keyword, inner: string, frozen: bool, given: Option<Resolver>)
    requires w != Vector
    ensures var s := Wrap(Name(w), inner);
      Parse(Kept(frozen, s), 0, 0, given) == if frozen then Froze(Parse(s, 0, 0, given)) else Parse(s, 0, 0, given)
  {
    hide Parse, KeywordAt, Froze, Wrap, Name;
    KeywordOf(w, inner);
    FrozenRoundTrip(Wrap(Name(w), inner), frozen, given);
  }

  /**
   The parser gives back every type from its whole name, with its options, if all its vectors allow it, and
   throws for every other one.
   */
  lemma {:induction false} ParseInvertsFull(t: TypeInfo, resolver: Resolver, given: Option<Resolver>)
    requires Printable(t, resolver) && (given.Some? ==> given.value == resolver)
    ensures Parse(Full(t), 0, 0, given) == if VectorsAllow(t, given.Some?) then Returns(t) else Fails
    decreases t
  {
    hide Parse, WellPrinted, Wrap, Name, SafeName, CODE_NAMES, WITH_PARAMETERS, Kept;
    match t
    case Simple(_) => SimpleRoundTrip(t, resolver, given);
    case UdtOf(_, _) => SimpleRoundTrip(t, resolver, given);
    case ListOf(item, frozen) =>
      TypesAreWellPrinted(item, resolver);
      ParseInvertsFull(item, resolver, given);
      OneRoundTrip(List, item, given);
      FrozenInner(List, Full(item), frozen, given);
    case SetOf(item, frozen) =>
      TypesAreWellPrinted(item, resolver);
      ParseInvertsFull(item, resolver, given);
      OneRoundTrip(Set, item, given);
      FrozenInner(Set, Full(item), frozen, given);
    case MapOf(key, value, frozen) =>
      TypesAreWellPrinted(key, resolver);
      TypesAreWellPrinted(value, resolver);
      ParseInvertsFull(key, resolver, given);
      ParseInvertsFull(value, resolver, given);
      MapRoundTrip(key, value, given);
      FrozenInner(Map, Full(key) + (", " + Full(value)), frozen, given);
    case TupleOf(items, frozen) =>
      forall i | 0 <= i < |items|
        ensures WellPrinted(Full(items[i]))
        ensures Parse(Full(items[i]), 0, 0, given)
             == if VectorsAllow(items[i], given.Some?) then Returns(items[i]) else Fails
      {
        TypesAreWellPrinted(items[i], resolver);
        ParseInvertsFull(items[i], resolver, given);
      }
      TupleRoundTrip(items, given);
      FrozenInner(Tuple, FullEach(items, 0), frozen, given);
      assert seq(|items|, i requires 0 <= i < |items| => items[i]) == items;
    case VectorOf(item, _) =>
      ParseInvertsFull(item, resolver, None);
      VectorRoundTrip(t, resolver, given);
  }

  lemma {:induction false} PrintIsFull(t: TypeInfo)
    ensures Print(t) == Full(Unfrozen(t))
    decreases t, 0
  {
    match t
    case ListOf(item, _) => PrintIsFull(item);
    case SetOf(item, _) => PrintIsFull(item);
    case MapOf(key, value, _) => PrintIsFull(key); PrintIsFull(value);
    case TupleOf(items, _) => PrintEachIsFull(items, 0);
    case VectorOf(item, _) => PrintIsFull(item);
    case _ =>
  }

  lemma {:induction false} PrintEachIsFull(items: seq<TypeInfo>, i: nat)
    requires i <= |items|
    ensures PrintEach(items, i) == FullEach(UnfrozenEach(items), i)
    decreases items, |items| - i
  {
    if i < |items| {
      PrintIsFull(items[i]);
      PrintEachIsFull(items, i + 1);
    }
  }

  lemma {:induction false} UnfrozenPrintable(t: TypeInfo, resolver: Resolver)
    requires Printable(t, resolver)
    ensures Printable(Unfrozen(t), resolver)
  {
    hide SafeName, CODE_NAMES, WITH_PARAMETERS;
    match t
    case ListOf(item, _) => UnfrozenPrintable(item, resolver);
    case SetOf(item, _) => UnfrozenPrintable(item, resolver);
    case MapOf(key, value, _) => UnfrozenPrintable(key, resolver); UnfrozenPrintable(value, resolver);
    case TupleOf(items, _) =>
      forall i | 0 <= i < |items|
        ensures Printable(UnfrozenEach(items)[i], resolver)
      {
        UnfrozenPrintable(items[i], resolver);
      }
    case VectorOf(item, _) => UnfrozenPrintable(item, resolver);
    case _ =>
  }

  /** The parser gives back every type the driver printed, without its options, or throws where its vectors do not allow it. */
  lemma ParseInvertsPrint(t: TypeInfo, resolver: Resolver, given: Option<Resolver>)
    requires Printable(t, resolver) && (given.Some? ==> given.value == resolver)
    ensures Parse(Print(t), 0, 0, given)
         == if VectorsAllow(Unfrozen(t), given.Some?) then Returns(Unfrozen(t)) else Fails
  {
    hide Parse, Print, Full, VectorsAllow, Unfrozen, Printable;
    PrintIsFull(t);
    UnfrozenPrintable(t, resolver);
    ParseInvertsFull(Unfrozen(t), resolver, given);
  }

  /** Lists and sets of other than one parameter and maps of other than two are refused, whatever the parameters are. */
  lemma {:induction false} WrongCountThrows(w: Keyword, items: seq<TypeInfo>, resolver: Resolver, given: Option<Resolver>)
    requires items != [] && forall i :: 0 <= i < |items| ==> Printable(items[i], resolver)
    requires w == List || w == Set || w == Map
    requires |items| != if w == Map then 2 else 1
    ensures Parse(Wrap(Name(w), FullEach(items, 0)), 0, 0, given).Fails?
  {
    forall i | 0 <= i < |items|
      ensures Closed(Full(items[i]))
    {
      TypesAreWellPrinted(items[i], resolver);
    }
    hide Parse, Full, FullEach, Wrap, Name, Closed, Split, Printable, ParseEach;
    ParsesInner(w, FullEach(items, 0), given);
    SplitEach(items, 0);
  }

  /** A user-defined type whose name starts with a keyword is never found, whatever the resolver knows. */
  lemma KeywordsShadowNames(name: string, resolver: Option<Resolver>)
    requires KeywordAt(name, 0).Some?
    ensures Parse(name, 0, 0, resolver).Returns? ==> !Parse(name, 0, 0, resolver).value.UdtOf?
  {
    hide Parse, ParseVector, KeywordAt, Params, ParseEach, Name;
    if KeywordAt(name, 0) == Some(Vector) {
      ParsesVector(name, resolver);
      VectorOrThrows(name);
    } else {
      ParsesParams(name, resolver);
    }
  }

  /** The names under which a user-defined type can be found: not read as anything else, whole or in part. */
  predicate Findable(name: string) {
    && KeywordAt(name, 0).None? && !At(name, 0, FROZEN) && !At(name, 0, "'") && !At(name, 0, "\"")
    && name !in CODE_NAMES && name != "empty"
  }

  /** A text is parsed to the user-defined type of that name exactly when the name is findable and the resolver knows it. */
  lemma NamesFound(name: string, resolver: Resolver)
    ensures Parse(name, 0, 0, Some(resolver)) == Returns(UdtOf(name, false)) <==> Findable(name) && resolver(name)
  {
    hide CODE_NAMES, KeywordAt, At, ParseName, ParseVector, Params, ParseWith, Unescape;
    if At(name, 0, "'") {
    } else if At(name, 0, FROZEN) {
      FrozenOrOther(name, 7, |name| - 8, resolver);
    } else if KeywordAt(name, 0).Some? {
      KeywordsShadowNames(name, Some(resolver));
    } else {
      PlainName(name, resolver);
    }
  }

  lemma PlainName(name: string, resolver: Resolver)
    ensures ParseName(name, 0, |name|, false, Some(resolver)) == Returns(UdtOf(name, false))
       <==> !At(name, 0, "\"") && name !in CODE_NAMES && name != "empty" && resolver(name)
  {
    hide CODE_NAMES;
    if At(name, 0, "\"") {
      UnescapeShortens(Substr(name, 1, |name| - 2));
    }
  }

  lemma {:induction false} UnescapeShortens(s: string)
    ensures |Unescape(s)| <= |s|
    decreases |s|
  {
    if |s| >= 2 {
      UnescapeShortens(s[1..]);
    }
  }

  /** Behind `frozen`, a user-defined type is a frozen one. */
  lemma FrozenOrOther(text: string, start: nat, length: int, resolver: Resolver)
    ensures ParseType(text, start, length, true, Some(resolver)) != Returns(UdtOf(text, false))
  {
    hide CODE_NAMES, KeywordAt, At, Params, Unescape, ParseVector, Substr, ParseEach, Parse;
    if KeywordAt(text, start) == Some(Vector) {
      VectorOrThrows(text);
    }
  }

  /** `frozen<s>` is parsed to the frozen user-defined type s exactly when no reading of s comes first and the resolver knows it. */
  lemma FrozenNamesFound(s: string, resolver: Resolver)
    ensures Parse(Frozen(s), 0, 0, Some(resolver)) == Returns(UdtOf(s, true))
       <==> KeywordAt(s, 0).None? && !At(s, 0, "\"") && s !in CODE_NAMES && s != "empty" && resolver(s)
  {
    hide CODE_NAMES, KeywordAt, At, ParseVector, Params, ParseWith, ParseName, Parse, Frozen, Unescape;
    if KeywordAt(s, 0).Some? {
      FrozenParsesType(s, Some(resolver));
      FrozenStarts(s);
      KeywordInside("frozen<", s);
      FrozenKeyword(Frozen(s), |s|, resolver);
    } else {
      FrozenName(s, Some(resolver));
      if At(s, 0, "\"") {
        AtFirst(s, 0, "\"");
        QuotedShorter(Frozen(s), 7, |s|, true, resolver, s);
      }
    }
  }

  lemma FrozenKeyword(text: string, length: int, resolver: Resolver)
    requires KeywordAt(text, 7).Some?
    ensures var r := ParseType(text, 7, length, true, Some(resolver)); r.Fails? || !r.value.UdtOf?
  {
    hide KeywordAt, ParseVector, Params, ParseWith, ParseName, Parse, Name, At;
    var w := KeywordAt(text, 7).value;
    if w == Vector {
      VectorOrThrows(text);
    } else {
      NoName(w, Params(text, 7 + |Name(w)| + 1, length - (|Name(w)| + 2), ANGLES), true, resolver);
    }
  }

  lemma NoName(w: Keyword, params: seq<string>, frozen: bool, resolver: Resolver)
    requires w != Vector && |params| >= 1
    ensures var r := ParseWith(w, params, frozen, Some(resolver)); r.Fails? || !r.value.UdtOf?
  {
    hide ParseEach, Parse;
  }

  lemma QuotedShorter(text: string, start: nat, length: nat, frozen: bool, resolver: Resolver, name: string)
    requires At(text, start, "\"") && |name| == length && length > 0
    ensures ParseName(text, start, length, frozen, Some(resolver)) != Returns(UdtOf(name, frozen))
  {
    hide CODE_NAMES, At, Unescape;
    UnescapeShortens(Substr(text, start + 1, length - 2));
  }

  lemma VectorOrThrows(text: string)
    requires text != ""
    ensures ParseVector(text).Fails? || ParseVector(text).value.VectorOf?
  {
    hide ParseTrimmed, Params;
  }

  // ----- Quoted texts -----

  /** A text in single quotes is a custom type. */
  lemma QuotedIsCustom(s: string, resolver: Option<Resolver>)
    ensures Parse("'" + (s + "'"), 0, 0, resolver) == Returns(Custom(s))
  {
    var text := "'" + (s + "'");
    assert text[0..1] == "'";
    Middle("'", s, "'");
  }

  /** A name as CQL quotes it: with every double quote written twice. */
  function Quoted(name: string): string {
    "\"" + (Doubled(name) + "\"")
  }

  function Doubled(name: string): string {
    if name == "" then "" else (if name[0] == '"' then "\"\"" else [name[0]]) + Doubled(name[1..])
  }

  function Quotes(name: string): nat {
    if name == "" then 0 else (if name[0] == '"' then 1 else 0) + Quotes(name[1..])
  }

  lemma {:induction false} DoubledLength(name: string)
    ensures |Doubled(name)| == |name| + Quotes(name)
  {
    if name != "" {
      DoubledLength(name[1..]);
    }
  }

  /** Only the first pair of quotes is made one again. */
  lemma {:induction false} UnescapeDoubled(name: string)
    ensures |Unescape(Doubled(name))| == |name| + (if Quotes(name) == 0 then 0 else Quotes(name) - 1)
    ensures Quotes(name) <= 1 ==> Unescape(Doubled(name)) == name
  {
    if name != "" {
      var rest := Doubled(name[1..]);
      DoubledLength(name[1..]);
      if name[0] == '"' {
        assert Doubled(name) == "\"" + ("\"" + rest) && ("\"" + ("\"" + rest))[1..] == "\"" + rest;
        if Quotes(name) == 1 {
          DoubledPlain(name[1..]);
        }
      } else {
        UnescapeDoubled(name[1..]);
        assert Doubled(name)[1..] == rest;
      }
    }
  }

  lemma {:induction false} DoubledPlain(name: string)
    requires Quotes(name) == 0
    ensures Doubled(name) == name
  {
    if name != "" {
      DoubledPlain(name[1..]);
    }
  }

  /**
   A quoted name is parsed to the user-defined type of that name exactly when it holds at most one double
   quote, is no name of a simple type, and the resolver knows it.
   */
  lemma QuotedNamesFound(name: string, resolver: Resolver)
    ensures Parse(Quoted(name), 0, 0, Some(resolver)) == Returns(UdtOf(name, false))
       <==> Quotes(name) <= 1 && name !in CODE_NAMES && name != "empty" && resolver(name)
  {
    hide CODE_NAMES, KeywordAt, Unescape, Doubled, Quotes, At, ParseName;
    QuotedLookedUp(name, resolver);
    UnescapeDoubled(name);
  }

  lemma QuotedLookedUp(name: string, resolver: Resolver)
    ensures var found := Unescape(Doubled(name));
      (Parse(Quoted(name), 0, 0, Some(resolver))
       == if found in CODE_NAMES then Returns(Simple(found))
          else if found == "empty" then Returns(Custom("empty"))
          else if resolver(found) then Returns(UdtOf(found, false))
          else Fails)
  {
    hide CODE_NAMES, KeywordAt, Unescape, Doubled, At;
    var text := Quoted(name);
    StartsQuoted(text);
    Middle("\"", Doubled(name), "\"");
  }

  lemma StartsQuoted(text: string)
    requires text != "" && text[0] == '"'
    ensures At(text, 0, "\"") && !At(text, 0, "'") && !At(text, 0, FROZEN) && KeywordAt(text, 0).None?
  {
    assert text[0..1] == "\"";
    hide At;
    NotKeywordAt(text);
    NotAt(text, 0, "'", 0);
    NotAt(text, 0, FROZEN, 0);
  }

  /** Simple types, the empty type and known user-defined types, in this order, are what a plain name is looked up as. */
  lemma NamesLookedUp(name: string, resolver: Option<Resolver>)
    requires KeywordAt(name, 0).None? && !At(name, 0, FROZEN) && !At(name, 0, "'") && !At(name, 0, "\"")
    ensures Parse(name, 0, 0, resolver)
         == if name in CODE_NAMES then Returns(Simple(name))
            else if name == "empty" then Returns(Custom("empty"))
            else if resolver.Some? && resolver.value(name) then Returns(UdtOf(name, false))
            else Fails
  {
    hide CODE_NAMES, KeywordAt, At;
  }
}
