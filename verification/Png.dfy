/** PNG scanline filters, and undoing them in place. */
module Png {
  import opened Arith
  import opened Common

  /** Whichever of left, above and upper left is nearest to their plane's prediction. */
  function Paeth(a: int, b: int, c: int): int {
    var p := a + b - c;
    var pa, pb, pc := Abs(p - a), Abs(p - b), Abs(p - c);
    if pa <= pb && pa <= pc then a else if pb <= pc then b else c
  }

  /** What a filter predicts from the bytes to the left, above, and above to the left. */
  function Predicted(filter: nat, a: int, b: int, c: int): int {
    match filter
    case 1 => a
    case 2 => b
    case 3 => (a + b) / 2
    case 4 => Paeth(a, b, c)
    case _ => 0
  }

  /** The byte `bpp` before, in the line itself or the one above; nothing is to the left of the first pixel. */
  function Before(line: seq<Byte>, i: nat, bpp: nat): int
    requires i <= |line|
  {
    if 0 < bpp <= i then line[i - bpp] else 0
  }

  function Prediction(filter: nat, line: seq<Byte>, above: seq<Byte>, bpp: nat, i: nat): int
    requires i < |line| == |above|
  {
    Predicted(filter, Before(line, i, bpp), above[i], Before(above, i, bpp))
  }

  /** What an encoder writes for a line. */
  function Filtered(filter: nat, line: seq<Byte>, above: seq<Byte>, bpp: nat): (coded: seq<Byte>)
    requires |line| == |above|
    ensures |coded| == |line|
  {
    seq(|line|, i requires 0 <= i < |line| => (line[i] - Prediction(filter, line, above, bpp, i)) % 256)
  }

  /** A line rebuilt as far as `n`, and still as it was coded from there. */
  ghost predicate Rebuilt(filter: nat, coded: seq<Byte>, line: seq<Byte>, above: seq<Byte>, bpp: nat, n: nat) {
    && |coded| == |line| == |above| && n <= |line|
    && (forall i: nat :: i < n ==> ByteRebuilt(filter, coded, line, above, bpp, i))
    && forall i: nat :: n <= i < |line| ==> line[i] == coded[i]
  }

  ghost predicate ByteRebuilt(filter: nat, coded: seq<Byte>, line: seq<Byte>, above: seq<Byte>, bpp: nat, i: nat)
    requires i < |coded| == |line| == |above|
  {
    line[i] == (coded[i] + Prediction(filter, line, above, bpp, i)) % 256
  }

  /** What is predicted for byte `i` by each filter, of the bytes `bpp` to the left, above, and `bpp` to the left of
      that (section 9.2 of the PNG specification); filter 4 takes the one nearest to left plus above less upper left,
      and of equals the first in that order. */
  lemma WhatFiltersPredict(line: seq<Byte>, above: seq<Byte>, bpp: nat, i: nat)
    requires bpp > 0 && i < |line| == |above|
    ensures var a: int, b: int := if i >= bpp then line[i - bpp] else 0, above[i];
      var c: int := if i >= bpp then above[i - bpp] else 0;
      var p := Prediction(4, line, above, bpp, i);
      && Prediction(0, line, above, bpp, i) == 0 && Prediction(1, line, above, bpp, i) == a
      && Prediction(2, line, above, bpp, i) == b
      && 2 * Prediction(3, line, above, bpp, i) <= a + b <= 2 * Prediction(3, line, above, bpp, i) + 1
      && (p == a || p == b || p == c)
      && Abs(a + b - c - p) <= Min(Abs(b - c), Min(Abs(a - c), Abs(a + b - 2 * c)))
      && (Abs(b - c) == Abs(a + b - c - p) ==> p == a)
      && (Abs(b - c) > Abs(a + b - c - p) == Abs(a - c) ==> p == b)
  {
  }

  lemma ByteBack(x: Byte, prediction: int)
    ensures ((x - prediction) % 256 + prediction) % 256 == x
    ensures ((x + prediction) % 256 - prediction) % 256 == x
  {
    ModAdd(x - prediction, prediction, 256);
    ModAdd(x + prediction, -prediction, 256);
    DivModUnique(x, 256, 0, x);
  }

  /** A filtered line rebuilds to the line it was made from. */
  lemma FilteredRebuilds(filter: nat, line: seq<Byte>, above: seq<Byte>, bpp: nat)
    requires |line| == |above|
    ensures Rebuilt(filter, Filtered(filter, line, above, bpp), line, above, bpp, |line|)
  {
    forall i: nat | i < |line|
      ensures ByteRebuilt(filter, Filtered(filter, line, above, bpp), line, above, bpp, i)
    {
      ByteBack(line[i], Prediction(filter, line, above, bpp, i));
    }
  }

  /** And to no other: one byte after another is forced. */
  lemma {:induction false} RebuiltIsUnique(filter: nat, coded: seq<Byte>, a: seq<Byte>, b: seq<Byte>,
                        above: seq<Byte>, bpp: nat, n: nat)
    requires Rebuilt(filter, coded, a, above, bpp, |a|) && Rebuilt(filter, coded, b, above, bpp, |b|) && n <= |a|
    ensures a[..n] == b[..n]
  {
    if n > 0 {
      RebuiltIsUnique(filter, coded, a, b, above, bpp, n - 1);
      assert ByteRebuilt(filter, coded, a, above, bpp, n - 1) && ByteRebuilt(filter, coded, b, above, bpp, n - 1);
      if 0 < bpp <= n - 1 {
        assert a[n - 1 - bpp] == a[..n - 1][n - 1 - bpp] == b[..n - 1][n - 1 - bpp] == b[n - 1 - bpp];
      }
      assert a[..n] == a[..n - 1] + [a[n - 1]] && b[..n] == b[..n - 1] + [b[n - 1]];
    }
  }

  /** Undoing a filter gives back the line that was filtered, and nothing else would. */
  lemma UnfilterInvertsFilter(filter: nat, line: seq<Byte>, above: seq<Byte>, bpp: nat, after: seq<Byte>)
    requires |line| == |above|
    ensures Rebuilt(filter, Filtered(filter, line, above, bpp), after, above, bpp, |after|) <==> after == line
  {
    FilteredRebuilds(filter, line, above, bpp);
    if Rebuilt(filter, Filtered(filter, line, above, bpp), after, above, bpp, |after|) {
      RebuiltIsUnique(filter, Filtered(filter, line, above, bpp), after, line, above, bpp, |line|);
      assert after[..|line|] == after && line[..|line|] == line;
    }
  }

  /** And filtering a rebuilt line again gives the coded bytes: no coded line is out of reach. */
  lemma FilterInvertsUnfilter(filter: nat, coded: seq<Byte>, line: seq<Byte>, above: seq<Byte>, bpp: nat)
    requires Rebuilt(filter, coded, line, above, bpp, |line|)
    ensures Filtered(filter, line, above, bpp) == coded
  {
    forall i: nat | i < |line|
      ensures Filtered(filter, line, above, bpp)[i] == coded[i]
    {
      assert ByteRebuilt(filter, coded, line, above, bpp, i);
      ByteBack(coded[i], Prediction(filter, line, above, bpp, i));
    }
  }

  /** Storing the next byte keeps what was rebuilt: a prediction only looks back. */
  lemma OneByteMore(filter: nat, coded: seq<Byte>, line: seq<Byte>, above: seq<Byte>, bpp: nat, n: nat, x: Byte)
    requires n < |line| && Rebuilt(filter, coded, line, above, bpp, n)
    requires x == (coded[n] + Prediction(filter, line, above, bpp, n)) % 256
    ensures Rebuilt(filter, coded, line[n := x], above, bpp, n + 1)
  {
    var after := line[n := x];
    forall i: nat | i <= n
      ensures ByteRebuilt(filter, coded, after, above, bpp, i)
    {
      assert Prediction(filter, after, above, bpp, i) == Prediction(filter, line, above, bpp, i);
      if i < n { assert ByteRebuilt(filter, coded, line, above, bpp, i); }
    }
  }

  /** Undo one filter in place; an unknown one is refused and nothing is touched. */
  method Unfilter(filter: nat, line: array<Byte>, above: seq<Byte>, bpp: nat) returns (known: bool)
    requires line.Length == |above| && bpp > 0
    modifies line
    ensures known == (filter <= 4)
    ensures known ==> Rebuilt(filter, old(line[..]), line[..], above, bpp, line.Length)
    ensures !known ==> line[..] == old(line[..])
  {
    ghost var coded := line[..];
    if filter == 0 {
      NothingPredicted(coded, above, bpp, line.Length);
    } else if filter == 1 {
      FirstPixelStands(coded, above, bpp, Min(bpp, line.Length));
      for i := Min(bpp, line.Length) to line.Length
        invariant Rebuilt(1, coded, line[..], above, bpp, i)
      {
        Put(1, coded, line, above, bpp, i, line[i - bpp]);
      }
    } else if filter == 2 {
      for i := 0 to line.Length
        invariant Rebuilt(2, coded, line[..], above, bpp, i)
      {
        Put(2, coded, line, above, bpp, i, above[i]);
      }
    } else if filter == 3 {
      for i := 0 to line.Length
        invariant Rebuilt(3, coded, line[..], above, bpp, i)
      {
        var left: int := if i >= bpp then line[i - bpp] else 0;
        Put(3, coded, line, above, bpp, i, (left + above[i] as int) / 2);
      }
    } else if filter == 4 {
      for i := 0 to line.Length
        invariant Rebuilt(4, coded, line[..], above, bpp, i)
      {
        var a: int := if i >= bpp then line[i - bpp] else 0;
        var b := above[i];
        var c: int := if i >= bpp then above[i - bpp] else 0;
        Put(4, coded, line, above, bpp, i, Paeth(a, b, c));
      }
    }
    known := filter <= 4;
  }

  /** `line[i] = (line[i] + prediction) & 0xFF`. */
  method Put(ghost filter: nat, ghost coded: seq<Byte>, line: array<Byte>,
             above: seq<Byte>, ghost bpp: nat, i: nat, prediction: int)
    requires i < line.Length && Rebuilt(filter, coded, line[..], above, bpp, i)
    requires prediction == Prediction(filter, line[..], above, bpp, i)
    modifies line
    ensures Rebuilt(filter, coded, line[..], above, bpp, i + 1)
  {
    ghost var was := line[..];
    var x: Byte := (line[i] + prediction) % 256;
    OneByteMore(filter, coded, was, above, bpp, i, x);
    line[i] := x;
    assert line[..] == was[i := x];
  }

  lemma NothingPredicted(coded: seq<Byte>, above: seq<Byte>, bpp: nat, n: nat)
    requires |coded| == |above| && n <= |coded|
    ensures Rebuilt(0, coded, coded, above, bpp, n)
  {
  }

  lemma FirstPixelStands(coded: seq<Byte>, above: seq<Byte>, bpp: nat, n: nat)
    requires |coded| == |above| && n <= |coded| && n <= bpp
    ensures Rebuilt(1, coded, coded, above, bpp, n)
  {
  }
}
