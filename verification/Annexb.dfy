/** An incremental H.264 parser: Annex-B bytes in, in pieces of any size, and pictures out. */
module Annexb {
  import opened Arith
  import opened Common

  datatype Picture = Picture(data: seq<Byte>, keyframe: bool)

  // ------------------------------------------------------------------ start codes and units

  predicate CodeAt(data: seq<Byte>, i: nat) {
    i + 3 <= |data| && data[i] == 0 && data[i + 1] == 0 && data[i + 2] == 1
  }

  /** The first start code at or after `i`, or the length when there is none. */
  function FirstCode(data: seq<Byte>, i: nat := 0): (f: nat)
    requires i <= |data|
    ensures i <= f <= |data| && (f < |data| ==> CodeAt(data, f))
    ensures forall j :: i <= j < f ==> !CodeAt(data, j)
    decreases |data| - i
  {
    if i + 3 > |data| then |data| else if CodeAt(data, i) then i else FirstCode(data, i + 1)
  }

  lemma FirstCodeUnique(data: seq<Byte>, i: nat, f: nat)
    requires i <= f && CodeAt(data, f)
    requires forall j :: i <= j < f ==> !CodeAt(data, j)
    ensures FirstCode(data, i) == f
  {
    var g := FirstCode(data, i);
    assert g < |data| && CodeAt(data, g);
  }

  /** A unit without the zero bytes at its end. */
  function Trimmed(unit: seq<Byte>): (t: seq<Byte>)
    ensures t <= unit && (t == [] || t[|t| - 1] != 0)
    ensures forall k :: |t| <= k < |unit| ==> unit[k] == 0
  {
    if unit != [] && unit[|unit| - 1] == 0 then Trimmed(unit[..|unit| - 1]) else unit
  }

  /** The units that are complete in `data`, which begins inside the first of them, and what is left over: the
      stream cut at its start codes. */
  function Cut(data: seq<Byte>): (c: (seq<seq<Byte>>, seq<Byte>))
    decreases |data|
  {
    var f := FirstCode(data);
    if f == |data| then ([], data)
    else
      var (nals, rest) := Cut(data[f + 3..]);
      ([Trimmed(data[..f])] + nals, rest)
  }

  /** More bytes are cut together with what was left over. */
  lemma {:induction false} CutExtend(a: seq<Byte>, b: seq<Byte>)
    ensures var (nals, rest) := Cut(a);
            Cut(a + b) == (nals + Cut(rest + b).0, Cut(rest + b).1)
    decreases |a|
  {
    var f := FirstCode(a);
    if f == |a| {
      assert [] + Cut(a + b).0 == Cut(a + b).0;
    } else {
      FirstCodeExtend(a, b);
      assert (a + b)[f + 3..] == a[f + 3..] + b && (a + b)[..f] == a[..f];
      CutExtend(a[f + 3..], b);
      var (nals, rest) := Cut(a[f + 3..]);
      Associative([Trimmed(a[..f])], nals, Cut(rest + b).0);
    }
  }

  lemma FirstCodeExtend(a: seq<Byte>, b: seq<Byte>)
    requires FirstCode(a) < |a|
    ensures FirstCode(a + b) == FirstCode(a)
  {
    assert forall j :: 0 <= j <= FirstCode(a) ==> CodeAt(a + b, j) == CodeAt(a, j);
    FirstCodeUnique(a + b, 0, FirstCode(a));
  }

  /** What is left over holds no start code. */
  lemma {:induction false} NothingLeftToCut(data: seq<Byte>)
    ensures var rest := Cut(data).1; FirstCode(rest) == |rest| && Cut(rest) == ([], rest)
    decreases |data|
  {
    var f := FirstCode(data);
    if f < |data| { NothingLeftToCut(data[f + 3..]); }
  }

  // ------------------------------------------------------------------ units into pictures

  /** The unit type: the low five bits of the first byte that is not zero. */
  function NalType(nal: seq<Byte>): (t: int)
    ensures -1 <= t < 32
    ensures t == -1 <==> forall k :: 0 <= k < |nal| ==> nal[k] == 0
  {
    if nal == [] then -1 else if nal[0] != 0 then nal[0] % 32 else NalType(nal[1..])
  }

  const LONG_CODE: seq<Byte> := [0, 0, 0, 1]

  /** The picture being put together and those already finished. */
  datatype Acc = Acc(prefix: seq<Byte>, parameters: bool, out: seq<Picture>)

  function Absorb(acc: Acc, nal: seq<Byte>): Acc {
    var kind := NalType(nal);
    if kind == -1 then acc
    else if kind == 1 || kind == 5 then
      Acc([], false, acc.out + [Picture(acc.prefix + LONG_CODE + nal, kind == 5 || acc.parameters)])
    else
      Acc(acc.prefix + LONG_CODE + nal, acc.parameters || kind == 7 || kind == 8, acc.out)
  }

  function AbsorbAll(acc: Acc, nals: seq<seq<Byte>>): Acc
    decreases |nals|
  {
    if nals == [] then acc else AbsorbAll(Absorb(acc, nals[0]), nals[1..])
  }

  lemma {:induction false} AbsorbConcat(acc: Acc, a: seq<seq<Byte>>, b: seq<seq<Byte>>)
    ensures AbsorbAll(acc, a + b) == AbsorbAll(AbsorbAll(acc, a), b)
    decreases |a|
  {
    if a == [] {
      assert a + b == b;
    } else {
      assert (a + b)[1..] == a[1..] + b;
      AbsorbConcat(Absorb(acc, a[0]), a[1..], b);
    }
  }

  /** What is already finished is never touched again. */
  lemma {:induction false} AbsorbAppends(acc: Acc, nals: seq<seq<Byte>>)
    ensures AbsorbAll(acc, nals)
         == AbsorbAll(acc.(out := []), nals).(out := acc.out + AbsorbAll(acc.(out := []), nals).out)
    decreases |nals|
  {
    if nals == [] {
      assert acc.out + [] == acc.out;
    } else {
      var one, zero := Absorb(acc, nals[0]), Absorb(acc.(out := []), nals[0]);
      assert one.out == acc.out + zero.out;
      AbsorbAppends(one, nals[1..]);
      AbsorbAppends(zero, nals[1..]);
      assert one.(out := []) == zero.(out := []);
      var rest := AbsorbAll(one.(out := []), nals[1..]).out;
      assert acc.out + zero.out + rest == acc.out + (zero.out + rest);
    }
  }

  // ------------------------------------------------------------------ the parser

  datatype State = State(pending: seq<Byte>, inNal: bool, prefix: seq<Byte>, parameters: bool)

  const INITIAL := State([], false, [], false)

  /** The complete units of the buffer and what is left over. Until a first start code has been seen there is no
      unit to be inside of. */
  ghost function CutBuffer(inNal: bool, data: seq<Byte>): (seq<seq<Byte>>, seq<Byte>) {
    var f := FirstCode(data);
    if inNal then Cut(data) else if f == |data| then ([], data) else Cut(data[f + 3..])
  }

  /** One call, with everything it does stated on values. */
  ghost function Fed(s: State, bytes: seq<Byte>): (State, seq<Picture>) {
    var data := s.pending + bytes;
    var (nals, rest) := CutBuffer(s.inNal, data);
    if nals == [] then (s.(pending := data), [])
    else
      var acc := AbsorbAll(Acc(s.prefix, s.parameters, []), nals);
      (State(rest, true, acc.prefix, acc.parameters), acc.out)
  }

  // ------------------------------------------------------------------ the offsets the code works with

  /** Where payloads begin, for each start code a scan from `i` meets. */
  ghost function Codes(data: seq<Byte>, i: nat): seq<nat>
    decreases |data| - i
  {
    if i + 3 > |data| then []
    else if CodeAt(data, i) then [i + 3] + Codes(data, i + 3)
    else Codes(data, i + 1)
  }

  method StartCodes(data: seq<Byte>) returns (found: seq<nat>)
    ensures found == Codes(data, 0)
  {
    found := [];
    var i := 0;
    while i + 3 <= |data|
      invariant found + Codes(data, i) == Codes(data, 0)
    {
      if data[i] == 0 && data[i + 1] == 0 && data[i + 2] == 1 {
        found := found + [i + 3];
        i := i + 3;
      } else {
        i := i + 1;
      }
    }
  }

  lemma {:induction false} CodesAreFirstCodes(data: seq<Byte>, i: nat)
    requires i <= |data|
    ensures var f := FirstCode(data, i);
            Codes(data, i) == if f == |data| then [] else [f + 3] + Codes(data, f + 3)
    decreases |data| - i
  {
    if i + 3 <= |data| && !CodeAt(data, i) { CodesAreFirstCodes(data, i + 1); }
  }

  lemma FirstCodeFrom(data: seq<Byte>, i: nat)
    requires i <= |data|
    ensures FirstCode(data, i) == i + FirstCode(data[i..])
  {
    var f := FirstCode(data[i..]);
    assert forall j :: i <= j <= |data| ==> CodeAt(data, j) == CodeAt(data[i..], j - i);
    if f < |data| - i { FirstCodeUnique(data, i, i + f); }
  }

  /** Where the unit before `nextStart` ends. */
  method NalEnd(data: seq<Byte>, nextStart: nat) returns (end: nat)
    requires nextStart <= |data|
    ensures end <= Max(nextStart - 3, 0) && (end == 0 || data[end - 1] != 0)
    ensures forall k :: end <= k < Max(nextStart - 3, 0) ==> data[k] == 0
  {
    end := Max(nextStart - 3, 0);
    while end > 0 && data[end - 1] == 0
      invariant end <= Max(nextStart - 3, 0)
      invariant forall k :: end <= k < Max(nextStart - 3, 0) ==> data[k] == 0
    {
      end := end - 1;
    }
  }

  /** A unit may begin here: at the very front, or just after a start code. */
  ghost predicate UnitStart(data: seq<Byte>, at: nat) {
    at <= |data| && (at == 0 || data[at - 1] != 0)
  }

  /** The end found for a unit is never before its beginning, and the slice up to it is the trimmed unit. */
  lemma SliceIsTrimmed(data: seq<Byte>, from: nat, code: nat, end: nat)
    requires UnitStart(data, from) && from <= code <= |data|
    requires end <= code && (end == 0 || data[end - 1] != 0)
    requires forall k :: end <= k < code ==> data[k] == 0
    ensures from <= end && data[from..end] == Trimmed(data[from..code])
  {
    assert data[from..code][..end - from] == data[from..end];
    TrimmedUnique(data[from..code], end - from);
  }

  lemma {:induction false} TrimmedUnique(unit: seq<Byte>, n: nat)
    requires n <= |unit| && (n == 0 || unit[n - 1] != 0)
    requires forall k :: n <= k < |unit| ==> unit[k] == 0
    ensures Trimmed(unit) == unit[..n]
    decreases |unit|
  {
    if n < |unit| {
      TrimmedUnique(unit[..|unit| - 1], n);
      assert unit[..|unit| - 1][..n] == unit[..n];
    } else {
      assert unit[..n] == unit;
    }
  }

  /** The unit between a boundary and the next, which is just past a start code. */
  method UnitBefore(data: seq<Byte>, from: nat, next: nat) returns (nal: seq<Byte>)
    requires UnitStart(data, from) && from + 3 <= next && UnitStart(data, next)
    ensures nal == Trimmed(data[from..next - 3])
  {
    var end := NalEnd(data, next);
    SliceIsTrimmed(data, from, next - 3, end);
    nal := data[from..end];
  }

  class Parser {
    var pending: seq<Byte>
    var inNal: bool
    var prefix: seq<Byte>
    var parameters: bool

    ghost function Abs(): State
      reads this
    {
      State(pending, inNal, prefix, parameters)
    }

    constructor ()
      ensures Abs() == INITIAL
    {
      pending, inNal, prefix, parameters := [], false, [], false;
    }

    /** One unit: a slice completes a picture, anything else waits for the next slice. */
    method Take(nal: seq<Byte>) returns (out: seq<Picture>)
      modifies `prefix, `parameters
      ensures Absorb(Acc(old(prefix), old(parameters), []), nal) == Acc(prefix, parameters, out)
    {
      out := [];
      var kind := NalType(nal);
      if kind == -1 {
      } else if kind == 1 || kind == 5 {
        var data := prefix + LONG_CODE + nal;
        prefix := [];
        var keyframe := kind == 5 || parameters;
        parameters := false;
        out := [Picture(data, keyframe)];
      } else {
        if kind == 7 || kind == 8 {
          parameters := true;
        }
        prefix := prefix + LONG_CODE + nal;
      }
    }

    /** The unit between two boundaries, the first of those left. */
    method TakeBetween(boundaries: seq<nat>, n: nat, ghost out: seq<Picture>, ghost left: seq<seq<Byte>>,
                       ghost rest: seq<Byte>)
      returns (pictures: seq<Picture>)
      requires n + 1 < |boundaries| && Units(pending, boundaries[n..], left, rest)
      modifies `prefix, `parameters
      ensures left != [] && Units(pending, boundaries[n + 1..], left[1..], rest)
      ensures AbsorbAll(Acc(prefix, parameters, out + pictures), left[1..])
           == AbsorbAll(Acc(old(prefix), old(parameters), out), left)
    {
      FirstUnit(pending, boundaries, n, left, rest);
      var nal := UnitBefore(pending, boundaries[n], boundaries[n + 1]);
      AbsorbOne(prefix, parameters, out, nal, left[1..]);
      assert left == [nal] + left[1..];
      pictures := Take(nal);
    }

    /** Every unit between consecutive boundaries. */
    method TakeAll(boundaries: seq<nat>, ghost units: seq<seq<Byte>>, ghost rest: seq<Byte>) returns (out: seq<Picture>)
      requires boundaries != [] && Units(pending, boundaries, units, rest)
      modifies `prefix, `parameters
      ensures Acc(prefix, parameters, out) == AbsorbAll(Acc(old(prefix), old(parameters), []), units)
      ensures boundaries[|boundaries| - 1] <= |pending| && rest == pending[boundaries[|boundaries| - 1]..]
    {
      out := [];
      ghost var left := units;
      for n := 0 to |boundaries| - 1
        invariant Units(pending, boundaries[n..], left, rest)
        invariant AbsorbAll(Acc(prefix, parameters, out), left) ==
            AbsorbAll(Acc(old(prefix), old(parameters), []), units)
      {
        var pictures := TakeBetween(boundaries, n, out, left, rest);
        left := left[1..];
        out := out + pictures;
      }
    }

    method Feed(bytes: seq<Byte>) returns (out: seq<Picture>)
      modifies this
      ensures (Abs(), out) == Fed(old(Abs()), bytes)
    {
      pending := pending + bytes;
      out := [];
      var codes := StartCodes(pending);
      var boundaries := (if inNal then [0] else []) + codes;
      FeedBoundaries(inNal, pending, boundaries);
      if |boundaries| < 2 {
        return;
      }
      ghost var cut := CutBuffer(inNal, pending);
      out := TakeAll(boundaries, cut.0, cut.1);
      var consumed := boundaries[|boundaries| - 1];
      pending := pending[consumed..];
      inNal := true;
    }
  }

  /** The units between boundaries, and what follows the last. */
  ghost predicate Units(data: seq<Byte>, bs: seq<nat>, units: seq<seq<Byte>>, rest: seq<Byte>)
    requires bs != []
    decreases |bs|
  {
    && UnitStart(data, bs[0])
    && if |bs| == 1 then units == [] && bs[0] <= |data| && rest == data[bs[0]..]
       else
         && bs[0] + 3 <= bs[1] && UnitStart(data, bs[1]) && bs[1] <= |data|
         && units != [] && units[0] == Trimmed(data[bs[0]..bs[1] - 3])
         && Units(data, bs[1..], units[1..], rest)
  }

  lemma FirstUnit(data: seq<Byte>, bs: seq<nat>, n: nat, units: seq<seq<Byte>>, rest: seq<Byte>)
    requires n + 1 < |bs| && Units(data, bs[n..], units, rest)
    ensures UnitStart(data, bs[n]) && bs[n] + 3 <= bs[n + 1] <= |data| && UnitStart(data, bs[n + 1])
    ensures units != [] && units[0] == Trimmed(data[bs[n]..bs[n + 1] - 3])
    ensures Units(data, bs[n + 1..], units[1..], rest)
  {
    assert bs[n..][0] == bs[n] && bs[n..][1] == bs[n + 1];
    DropTwice(bs, n, 1);
  }

  lemma {:induction false} CodesAreUnits(data: seq<Byte>, from: nat, codes: seq<nat>)
    requires UnitStart(data, from) && codes == Codes(data, from)
    ensures Units(data, [from] + codes, Cut(data[from..]).0, Cut(data[from..]).1)
    decreases |codes|
  {
    if codes == [] {
      NoBoundary(data, from);
    } else {
      NextBoundary(data, from, codes);
      CodesAreUnits(data, codes[0], codes[1..]);
      UnitsStep(data, from, codes, Cut(data[codes[0]..]).0, Cut(data[codes[0]..]).1);
    }
  }

  lemma UnitsStep(data: seq<Byte>, from: nat, codes: seq<nat>, units: seq<seq<Byte>>, rest: seq<Byte>)
    requires codes != [] && UnitStart(data, from) && from + 3 <= codes[0] && UnitStart(data, codes[0])
    requires Units(data, [codes[0]] + codes[1..], units, rest)
    ensures Units(data, [from] + codes, [Trimmed(data[from..codes[0] - 3])] + units, rest)
  {
    assert ([from] + codes)[1..] == [codes[0]] + codes[1..];
    assert ([Trimmed(data[from..codes[0] - 3])] + units)[1..] == units;
  }

  lemma AbsorbOne(prefix: seq<Byte>, parameters: bool, out: seq<Picture>, nal: seq<Byte>, nals: seq<seq<Byte>>)
    ensures var one := Absorb(Acc(prefix, parameters, []), nal);
      AbsorbAll(Acc(prefix, parameters, out), [nal] + nals)
      == AbsorbAll(Acc(one.prefix, one.parameters, out + one.out), nals)
  {
    AbsorbBefore(prefix, parameters, out, nal);
    assert ([nal] + nals)[1..] == nals;
  }

  lemma AbsorbBefore(prefix: seq<Byte>, parameters: bool, out: seq<Picture>, nal: seq<Byte>)
    ensures var one := Absorb(Acc(prefix, parameters, []), nal);
      Absorb(Acc(prefix, parameters, out), nal) == Acc(one.prefix, one.parameters, out + one.out)
  {
    assert out + [] == out;
  }

  /** The offset the first unit begins at, and that everything after it is cut from there. */
  lemma FirstBoundary(inNal: bool, data: seq<Byte>, bs: seq<nat>)
    requires bs == (if inNal then [0] else []) + Codes(data, 0)
    ensures bs == [] ==> CutBuffer(inNal, data) == ([], data)
    ensures bs != [] ==>
              && UnitStart(data, bs[0])
              && bs[1..] == Codes(data, bs[0])
              && CutBuffer(inNal, data) == Cut(data[bs[0]..])
  {
    CodesAreFirstCodes(data, 0);
    assert data[0..] == data;
  }

  lemma NoBoundary(data: seq<Byte>, from: nat)
    requires from <= |data| && Codes(data, from) == []
    ensures Cut(data[from..]) == ([], data[from..])
  {
    CodesAreFirstCodes(data, from);
    FirstCodeFrom(data, from);
  }

  /** Offsets and units correspond one to one. */
  lemma NextBoundary(data: seq<Byte>, from: nat, codes: seq<nat>)
    requires from <= |data| && codes != [] && codes == Codes(data, from)
    ensures from + 3 <= codes[0] && UnitStart(data, codes[0]) && codes[1..] == Codes(data, codes[0])
    ensures Cut(data[from..]).0 == [Trimmed(data[from..codes[0] - 3])] + Cut(data[codes[0]..]).0
    ensures Cut(data[from..]).1 == Cut(data[codes[0]..]).1
  {
    CodesAreFirstCodes(data, from);
    FirstCodeFrom(data, from);
    NextCut(data, from, codes[0]);
  }

  lemma NextCut(data: seq<Byte>, from: nat, next: nat)
    requires from + 3 <= next <= |data| && FirstCode(data[from..]) == next - 3 - from
    ensures Cut(data[from..]).0 == [Trimmed(data[from..next - 3])] + Cut(data[next..]).0
    ensures Cut(data[from..]).1 == Cut(data[next..]).1
  {
    var f := next - 3 - from;
    assert data[from..][f + 3..] == data[next..] && data[from..][..f] == data[from..next - 3];
    CutAtFirst(data[from..]);
  }

  lemma CutAtFirst(data: seq<Byte>)
    requires FirstCode(data) < |data|
    ensures FirstCode(data) + 3 <= |data|
    ensures Cut(data).0 == [Trimmed(data[..FirstCode(data)])] + Cut(data[FirstCode(data) + 3..]).0
    ensures Cut(data).1 == Cut(data[FirstCode(data) + 3..]).1
  {
  }

  /** The boundaries of a buffer are the boundaries of its units. */
  lemma FeedBoundaries(inNal: bool, data: seq<Byte>, bs: seq<nat>)
    requires bs == (if inNal then [0] else []) + Codes(data, 0)
    ensures |bs| < 2 ==> CutBuffer(inNal, data).0 == []
    ensures |bs| >= 2 ==> CutBuffer(inNal, data).0 != []
    ensures |bs| >= 2 ==> Units(data, bs, CutBuffer(inNal, data).0, CutBuffer(inNal, data).1)
  {
    FirstBoundary(inNal, data, bs);
    if bs != [] {
      assert bs == [bs[0]] + bs[1..];
      CodesAreUnits(data, bs[0], bs[1..]);
    }
  }

  // ------------------------------------------------------------------ any cut gives the same pictures

  lemma CutBufferExtend(inNal: bool, a: seq<Byte>, b: seq<Byte>)
    requires CutBuffer(inNal, a).0 != []
    ensures var (nals, rest) := CutBuffer(inNal, a);
            CutBuffer(inNal, a + b) == (nals + Cut(rest + b).0, Cut(rest + b).1)
    ensures Cut(CutBuffer(inNal, a).1) == ([], CutBuffer(inNal, a).1)
  {
    var f := FirstCode(a);
    if inNal {
      CutExtend(a, b);
      NothingLeftToCut(a);
    } else {
      FirstCodeExtend(a, b);
      assert (a + b)[f + 3..] == a[f + 3..] + b;
      CutExtend(a[f + 3..], b);
      NothingLeftToCut(a[f + 3..]);
    }
  }

  /** Two reads are as good as one, from any state at all. */
  lemma FeedTwice(s: State, a: seq<Byte>, b: seq<Byte>)
    ensures var (s1, p1) := Fed(s, a);
            var (s2, p2) := Fed(s1, b);
            Fed(s, a + b) == (s2, p1 + p2)
  {
    var d := s.pending + a;
    assert s.pending + (a + b) == d + b;
    var (first, rest) := CutBuffer(s.inNal, d);
    var (s1, p1) := Fed(s, a);
    if first == [] {
      assert p1 + Fed(s1, b).1 == Fed(s1, b).1;
    } else {
      CutBufferExtend(s.inNal, d, b);
      var (second, last) := Cut(rest + b);
      var acc := Acc(s.prefix, s.parameters, []);
      AbsorbConcat(acc, first, second);
      AbsorbAppends(AbsorbAll(acc, first), second);
      if second == [] {
        NothingLeftToCut(rest + b);
        CutIsNothing(rest + b);
        assert p1 + [] == p1;
      }
    }
  }

  lemma CutIsNothing(data: seq<Byte>)
    requires Cut(data).0 == []
    ensures Cut(data).1 == data
  {
  }

  /** No complete unit is left waiting, which is how every call leaves the parser. */
  ghost predicate Settled(s: State) {
    CutBuffer(s.inNal, s.pending).0 == []
  }

  lemma FeedSettles(s: State, bytes: seq<Byte>)
    ensures Settled(Fed(s, bytes).0)
    ensures Settled(s) ==> Fed(s, []) == (s, [])
  {
    var d := s.pending + bytes;
    if CutBuffer(s.inNal, d).0 != [] { CutBufferExtend(s.inNal, d, []); }
    assert s.pending + [] == s.pending;
  }

  ghost function FeedAll(s: State, chunks: seq<seq<Byte>>): (State, seq<Picture>)
    decreases |chunks|
  {
    if chunks == [] then (s, [])
    else
      var (s1, p1) := Fed(s, chunks[0]);
      var (s2, p2) := FeedAll(s1, chunks[1..]);
      (s2, p1 + p2)
  }

  /** However the pipe cuts a stream, the pictures and the parser's final state are those of reading it whole. */
  lemma {:induction false} ChunkInvariance(s: State, chunks: seq<seq<Byte>>)
    requires Settled(s)
    ensures FeedAll(s, chunks) == Fed(s, Flat(chunks))
    decreases |chunks|
  {
    if chunks == [] {
      FeedSettles(s, []);
    } else {
      FeedSettles(s, chunks[0]);
      ChunkInvariance(Fed(s, chunks[0]).0, chunks[1..]);
      FeedTwice(s, chunks[0], Flat(chunks[1..]));
    }
  }
}
