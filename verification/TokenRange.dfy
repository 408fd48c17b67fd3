/**
 Ranges of tokens on the ring (lib/token.js): start-exclusive, end-inclusive, and wrapping.

 Tokens are ordered as integers with the tokenizer's minimum token `min` below or equal to all.
 `Clockwise order` from a start token is the reference every operation is compared with.
 */
module TokenRanges {
  type Token = int

  datatype TokenRange = TokenRange(start: Token, end: Token) {

    /** Only ]min, min] may start where it ends: it is the whole ring. */
    predicate IsEmpty(min: Token) {
      start == end && start != min
    }

    predicate IsWrappedAround(min: Token) {
      start > end && end != min
    }

    predicate Contains(min: Token, token: Token) {
      if IsEmpty(min) then false
      else if end == min then
        if start == min then true
        else if token == min then true
        else token > start
      else
        var isAfterStart := token > start;
        var isBeforeEnd := token <= end;
        if IsWrappedAround(min) then isAfterStart || isBeforeEnd else isAfterStart && isBeforeEnd
    }

    function Unwrap(min: Token): seq<TokenRange> {
      if IsWrappedAround(min) then [TokenRange(start, min), TokenRange(min, end)] else [this]
    }
  }

  /** Going clockwise from just after `from`, `a` is met no later than `b`; `from` itself is met last. */
  predicate NoLater(from: Token, a: Token, b: Token) {
    if a > from then b > from ==> a <= b
    else b <= from && a <= b
  }

  predicate Sooner(from: Token, a: Token, b: Token) {
    NoLater(from, a, b) && a != b
  }

  /** A range holds the tokens met clockwise from its start up to and including its end. */
  lemma ContainsIsClockwise(r: TokenRange, min: Token, token: Token)
    requires min <= r.start && min <= r.end && min <= token
    ensures r.Contains(min, token) <==> !r.IsEmpty(min) && NoLater(r.start, token, r.end)
  {
  }

  ghost predicate SomeContains(ranges: seq<TokenRange>, min: Token, token: Token) {
    exists i :: 0 <= i < |ranges| && ranges[i].Contains(min, token)
  }

  ghost predicate AtMostOne(ranges: seq<TokenRange>, min: Token, token: Token) {
    forall i, j :: 0 <= i < j < |ranges| ==> !(ranges[i].Contains(min, token) && ranges[j].Contains(min, token))
  }

  /** `unwrap` gives one or two ranges that do not wrap, share no token, and hold the same tokens together. */
  lemma UnwrapKeepsMembership(r: TokenRange, min: Token, token: Token)
    requires min <= r.start && min <= r.end && min <= token
    ensures forall i :: 0 <= i < |r.Unwrap(min)| ==> !r.Unwrap(min)[i].IsWrappedAround(min)
    ensures SomeContains(r.Unwrap(min), min, token) <==> r.Contains(min, token)
    ensures AtMostOne(r.Unwrap(min), min, token)
  {
    var u := r.Unwrap(min);
    if r.IsWrappedAround(min) {
      assert u[0] == TokenRange(r.start, min) && u[1] == TokenRange(min, r.end);
    } else {
      assert u[0] == r;
    }
  }

  /** The points a tokenizer may split a range at: inside it, strictly clockwise. */
  ghost predicate ValidPoints(r: TokenRange, min: Token, points: seq<Token>) {
    && (forall i :: 0 <= i < |points| ==> min <= points[i] && Sooner(r.start, points[i], r.end))
    && (forall i, j :: 0 <= i < j < |points| ==> Sooner(r.start, points[i], points[j]))
  }

  /** The ranges between consecutive points. */
  function Between(start: Token, points: seq<Token>, end: Token): (s: seq<TokenRange>)
    ensures |s| == |points| + 1
    decreases |points|
  {
    if points == [] then [TokenRange(start, end)]
    else [TokenRange(start, points[0])] + Between(points[0], points[1..], end)
  }

  datatype SplitResult = Ranges(ranges: seq<TokenRange>) | NotPositive | EmptyRange

  /** `splitEvenly`, for the points that the tokenizer's `split` returns. */
  method SplitEvenly(r: TokenRange, min: Token, numberOfSplits: int, splitPoints: seq<Token>) returns (result: SplitResult)
    ensures result ==
      if numberOfSplits < 1 then NotPositive
      else if r.IsEmpty(min) then EmptyRange
      else Ranges(Between(r.start, splitPoints, r.end))
  {
    if numberOfSplits < 1 {
      return NotPositive;
    }
    if r.IsEmpty(min) {
      return EmptyRange;
    }
    var tokenRanges := [];
    var splitStart := r.start;
    var splitIndex := 0;
    while splitIndex < |splitPoints|
      invariant 0 <= splitIndex <= |splitPoints|
      invariant tokenRanges + Between(splitStart, splitPoints[splitIndex..], r.end) == Between(r.start, splitPoints, r.end)
    {
      var splitEnd := splitPoints[splitIndex];
      assert splitPoints[splitIndex..][1..] == splitPoints[splitIndex + 1..];
      tokenRanges := tokenRanges + [TokenRange(splitStart, splitEnd)];
      splitStart := splitEnd;
      splitIndex := splitIndex + 1;
    }
    tokenRanges := tokenRanges + [TokenRange(splitStart, r.end)];
    return Ranges(tokenRanges);
  }

  /** The part of the clockwise order between `a` and `b`, where `a` may be the start itself. */
  ghost predicate InPiece(start: Token, a: Token, b: Token, token: Token) {
    (a == start || Sooner(start, a, token)) && NoLater(start, token, b)
  }

  lemma PieceIsClockwise(start: Token, min: Token, a: Token, b: Token, token: Token)
    requires min <= start && min <= a && min <= b && min <= token
    requires if a == start then !TokenRange(a, b).IsEmpty(min) else Sooner(start, a, b)
    ensures TokenRange(a, b).Contains(min, token) <==> InPiece(start, a, b, token)
  {
  }

  lemma {:induction false} PiecesPartition(start: Token, a: Token, points: seq<Token>, end: Token, min: Token, token: Token)
    requires min <= start && min <= a && min <= end && min <= token
    requires if a == start then !TokenRange(start, end).IsEmpty(min) else Sooner(start, a, end)
    requires ValidPoints(TokenRange(start, end), min, points)
    requires forall i :: 0 <= i < |points| ==> a == start || Sooner(start, a, points[i])
    ensures SomeContains(Between(a, points, end), min, token) <==> InPiece(start, a, end, token)
    ensures AtMostOne(Between(a, points, end), min, token)
    decreases |points|
  {
    var pieces := Between(a, points, end);
    if points == [] {
      PieceIsClockwise(start, min, a, end, token);
      assert pieces == [TokenRange(a, end)];
      assert SomeContains(pieces, min, token) <==> pieces[0].Contains(min, token);
    } else {
      var p, rest := points[0], Between(points[0], points[1..], end);
      assert Sooner(start, p, end);
      PieceIsClockwise(start, min, a, p, token);
      PiecesPartition(start, p, points[1..], end, min, token);
      assert pieces == [TokenRange(a, p)] + rest;
      assert SomeContains(rest, min, token) ==> !pieces[0].Contains(min, token);
      assert SomeContains(pieces, min, token) <==> pieces[0].Contains(min, token) || SomeContains(rest, min, token) by {
        if SomeContains(rest, min, token) {
          var i :| 0 <= i < |rest| && rest[i].Contains(min, token);
          assert pieces[i + 1].Contains(min, token);
        }
      }
    }
  }

  /** Splitting at points that lie clockwise inside a range partitions the range. */
  lemma SplitPartitions(r: TokenRange, min: Token, points: seq<Token>, token: Token)
    requires min <= r.start && min <= r.end && min <= token
    requires !r.IsEmpty(min) && ValidPoints(r, min, points)
    ensures SomeContains(Between(r.start, points, r.end), min, token) <==> r.Contains(min, token)
    ensures AtMostOne(Between(r.start, points, r.end), min, token)
  {
    PiecesPartition(r.start, r.start, points, r.end, min, token);
    ContainsIsClockwise(r, min, token);
  }
}
