/** Splitting a parameter list at its outermost commas (`parseParams` in lib/encoder.js). */
module TypeParams {
  import opened Seqs

  /** The brackets that nest: angle brackets or parentheses. */
  datatype Brackets = Brackets(open: char, close: char)

  const ANGLES := Brackets('<', '>')
  const PARENS := Brackets('(', ')')

  function Delta(c: char, k: Brackets): int {
    if c == k.open then 1 else if c == k.close then -1 else 0
  }

  /** The nesting level after reading a text that starts at a level. */
  function LevelAfter(s: string, level: int, k: Brackets): int {
    if s == "" then level else LevelAfter(s[1..], level + Delta(s[0], k), k)
  }

  /** No comma of the text stands at level zero. */
  predicate Quiet(s: string, level: int, k: Brackets) {
    s == "" || (!(level == 0 && s[0] == ',') && Quiet(s[1..], level + Delta(s[0], k), k))
  }

  /** Brackets other than commas, so that a comma never changes the level. */
  predicate Proper(k: Brackets) {
    k.open != ',' && k.close != ','
  }

  /** The pieces, given the one read so far and the rest of the text. */
  function Scan(piece: string, rest: string, level: int, k: Brackets): (r: seq<string>)
    ensures |r| >= 1
    decreases |rest|
  {
    if rest == "" then [piece]
    else
      var next := level + Delta(rest[0], k);
      if next == 0 && rest[0] == ',' then [piece] + Scan("", rest[1..], next, k)
      else Scan(piece + [rest[0]], rest[1..], next, k)
  }

  function Split(s: string, k: Brackets): (r: seq<string>)
    ensures |r| >= 1
  {
    Scan("", s, 0, k)
  }

  /** The part of a text between two indexes, as far as the text goes. */
  function Cut(s: string, from: nat, to: int): (r: string)
    ensures from <= |s| ==> |r| + from <= |s|
  {
    if from >= |s| || to <= from then "" else if to > |s| then s[from..] else s[from..to]
  }

  function Substr(s: string, start: nat, length: int): string {
    Cut(s, start, start + length)
  }

  lemma CutStep(s: string, from: nat, i: nat, to: int)
    requires from <= i < to
    ensures i < |s| ==> Cut(s, i, to) == [s[i]] + Cut(s, i + 1, to) && Cut(s, from, i) + [s[i]] == Cut(s, from, i + 1)
    ensures i >= |s| ==> Cut(s, i, to) == Cut(s, i + 1, to) == "" && Cut(s, from, i) == Cut(s, from, i + 1)
  {
  }

  lemma ScanStep(piece: string, c: char, rest: string, level: int, k: Brackets)
    ensures var next := level + Delta(c, k);
      Scan(piece, [c] + rest, level, k)
      == if next == 0 && c == ',' then [piece] + Scan("", rest, next, k) else Scan(piece + [c], rest, next, k)
  {
    assert ([c] + rest)[1..] == rest;
  }

  /** The loop runs over a window of the text, also where that reaches beyond it, and cuts at outermost commas. */
  method ParseParams(value: string, startIndex: nat, length: int, k: Brackets) returns (types: seq<string>)
    requires k.open != k.close
    ensures types == Split(Substr(value, startIndex, length), k)
  {
    hide Cut, Scan;
    types := [];
    var paramStart: nat, level, i: nat := startIndex, 0, startIndex;
    var limit := startIndex + length;
    CutNothing(value, startIndex);
    assert [] + Scan("", Cut(value, startIndex, limit), 0, k) == Scan("", Cut(value, startIndex, limit), 0, k);
    while i < limit
      invariant startIndex <= paramStart <= i && (i <= limit || i == startIndex)
      invariant Split(Substr(value, startIndex, length), k)
             == types + Scan(Cut(value, paramStart, i), Cut(value, i, limit), level, k)
    {
      CutStep(value, paramStart, i, limit);
      if i < |value| {
        var c := value[i];
        ScanStep(Cut(value, paramStart, i), c, Cut(value, i + 1, limit), level, k);
        if c == k.open {
          level := level + 1;
        }
        if c == k.close {
          level := level - 1;
        }
        if level == 0 && c == ',' {
          CutNothing(value, i + 1);
          Assoc(types, [Cut(value, paramStart, i)], Scan("", Cut(value, i + 1, limit), level, k));
          types := types + [Substr(value, paramStart, i - paramStart)];
          paramStart := i + 1;
        }
      }
      i := i + 1;
    }
    // what is left is a parameter too
    CutEnd(value, paramStart, i, limit, level, k);
    types := types + [Substr(value, paramStart, length - (paramStart - startIndex))];
  }

  lemma CutNothing(s: string, at: nat)
    ensures Cut(s, at, at) == ""
  {
  }

  lemma CutEnd(s: string, from: nat, i: nat, to: int, level: int, k: Brackets)
    requires from <= i && (i == to || (to < i && from == i))
    ensures Scan(Cut(s, from, i), Cut(s, i, to), level, k) == [Cut(s, from, to)]
  {
  }

  // ----- The pieces and the text determine each other -----

  function Join(pieces: seq<string>): string
    requires |pieces| >= 1
  {
    if |pieces| == 1 then pieces[0] else pieces[0] + ("," + Join(pieces[1..]))
  }

  lemma {:induction false} ScanJoins(piece: string, rest: string, level: int, k: Brackets)
    ensures Join(Scan(piece, rest, level, k)) == piece + rest
    decreases |rest|
  {
    if rest == "" {
      assert piece + rest == piece;
    } else {
      var c, tail, next := rest[0], rest[1..], level + Delta(rest[0], k);
      if next == 0 && c == ',' {
        ScanJoins("", tail, next, k);
        var more := Scan("", tail, next, k);
        assert ([piece] + more)[1..] == more;
        assert "," + ("" + tail) == rest;
      } else {
        ScanJoins(piece + [c], tail, next, k);
        assert (piece + [c]) + tail == piece + rest;
      }
    }
  }

  /** A piece has no comma outside brackets. */
  predicate Atomic(piece: string, k: Brackets) {
    Quiet(piece, 0, k)
  }

  predicate Balanced(piece: string, k: Brackets) {
    LevelAfter(piece, 0, k) == 0
  }

  /** What pieces look like: atomic, and balanced wherever another one follows. */
  ghost predicate Pieces(pieces: seq<string>, k: Brackets) {
    && |pieces| >= 1
    && (forall i :: 0 <= i < |pieces| ==> Atomic(pieces[i], k))
    && (forall i :: 0 <= i < |pieces| - 1 ==> Balanced(pieces[i], k))
  }

  lemma {:induction false} LevelAppend(a: string, b: string, level: int, k: Brackets)
    ensures LevelAfter(a + b, level, k) == LevelAfter(b, LevelAfter(a, level, k), k)
    ensures Quiet(a + b, level, k) <==> Quiet(a, level, k) && Quiet(b, LevelAfter(a, level, k), k)
    decreases |a|
  {
    if a == "" {
      assert a + b == b;
    } else {
      assert (a + b)[1..] == a[1..] + b;
      LevelAppend(a[1..], b, level + Delta(a[0], k), k);
    }
  }

  lemma OneChar(c: char, level: int, k: Brackets)
    ensures LevelAfter([c], level, k) == level + Delta(c, k)
    ensures Quiet([c], level, k) <==> !(level == 0 && c == ',')
  {
    assert [c][1..] == "";
  }

  lemma {:induction false} ScanGivesPieces(piece: string, rest: string, level: int, k: Brackets)
    requires Proper(k) && Atomic(piece, k) && LevelAfter(piece, 0, k) == level
    ensures Pieces(Scan(piece, rest, level, k), k)
    decreases |rest|
  {
    if rest != "" {
      var c, tail, next := rest[0], rest[1..], level + Delta(rest[0], k);
      if next == 0 && c == ',' {
        ScanGivesPieces("", tail, next, k);
        MorePieces(piece, Scan("", tail, next, k), k);
      } else {
        LevelAppend(piece, [c], 0, k);
        OneChar(c, level, k);
        ScanGivesPieces(piece + [c], tail, next, k);
      }
    }
  }

  lemma MorePieces(piece: string, more: seq<string>, k: Brackets)
    requires Atomic(piece, k) && Balanced(piece, k) && Pieces(more, k)
    ensures Pieces([piece] + more, k)
  {
    hide Atomic, Balanced;
    var all := [piece] + more;
    forall i | 0 <= i < |all|
      ensures Atomic(all[i], k) && (i < |all| - 1 ==> Balanced(all[i], k))
    {
      assert i > 0 ==> all[i] == more[i - 1];
    }
  }

  /** A text without commas at level zero only makes the current piece longer. */
  lemma {:induction false} ScanQuiet(piece: string, p: string, rest: string, level: int, k: Brackets)
    requires Proper(k) && Quiet(p, level, k)
    ensures Scan(piece, p + rest, level, k) == Scan(piece + p, rest, LevelAfter(p, level, k), k)
    decreases |p|
  {
    if p == "" {
      assert p + rest == rest && piece + p == piece;
    } else {
      var next := level + Delta(p[0], k);
      assert (p + rest)[1..] == p[1..] + rest;
      ScanQuiet(piece + [p[0]], p[1..], rest, next, k);
      assert (piece + [p[0]]) + p[1..] == piece + p;
    }
  }

  /** Splitting a text that starts with a piece and a comma. */
  lemma {:induction false} SplitFirst(p: string, rest: string, k: Brackets)
    requires Proper(k) && Atomic(p, k) && Balanced(p, k)
    ensures Split(p + ("," + rest), k) == [p] + Split(rest, k)
  {
    ScanQuiet("", p, "," + rest, 0, k);
    assert "" + p == p && ("," + rest)[1..] == rest;
  }

  lemma {:induction false} SplitAtomic(p: string, k: Brackets)
    requires Proper(k) && Atomic(p, k)
    ensures Split(p, k) == [p]
  {
    ScanQuiet("", p, "", 0, k);
    assert "" + p == p && p + "" == p;
  }

  lemma {:induction false} PiecesAreSplit(pieces: seq<string>, k: Brackets)
    requires Proper(k) && Pieces(pieces, k)
    ensures Split(Join(pieces), k) == pieces
    decreases |pieces|
  {
    if |pieces| == 1 {
      SplitAtomic(pieces[0], k);
    } else {
      hide Atomic, Balanced;
      var more := pieces[1..];
      forall i | 0 <= i < |more|
        ensures Atomic(more[i], k) && (i < |more| - 1 ==> Balanced(more[i], k))
      {
        assert more[i] == pieces[i + 1];
      }
      PiecesAreSplit(more, k);
      SplitFirst(pieces[0], Join(more), k);
      assert pieces == [pieces[0]] + more;
    }
  }

  /**
   The pieces of a text are the only list of texts that gives the text back when joined by commas,
   has no comma outside brackets in any piece, and is balanced in every piece but the last.
   */
  lemma {:induction false} SplitIsUnique(s: string, pieces: seq<string>, k: Brackets)
    requires Proper(k)
    ensures pieces == Split(s, k) <==> Pieces(pieces, k) && Join(pieces) == s
  {
    ScanJoins("", s, 0, k);
    assert "" + s == s;
    ScanGivesPieces("", s, 0, k);
    if Pieces(pieces, k) && Join(pieces) == s {
      PiecesAreSplit(pieces, k);
    }
  }
}
