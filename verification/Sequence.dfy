/** Playing packets in order and once, from 32-bit sequence numbers alone. */
module Sequence {
  import opened Arith
  import opened Common

  const MAX_CONCEAL := 5
  const HALF := 0x8000_0000

  datatype Action = Play(conceal: nat) | Drop

  /** `seq.wrapping_sub(expected) as i32`. */
  function Distance(number: Word, expected: Word): int {
    var d := (number - expected) % U32;
    if d < HALF then d else d - U32
  }

  function Classify(expected: Option<Word>, number: Word): Action {
    match expected
    case None => Play(0)
    case Some(e) =>
      var distance := Distance(number, e);
      if distance == 0 then Play(0)
      else if 0 < distance <= MAX_CONCEAL then Play(distance)
      else if distance > MAX_CONCEAL then Play(0)
      else Drop
  }

  function NextExpected(expected: Option<Word>, number: Word): Option<Word> {
    if Classify(expected, number).Drop? then expected else Some((number + 1) % U32)
  }

  /** How many of the first `n` attempts succeed. */
  function Successes(decodes: nat -> bool, n: nat): (k: nat)
    ensures k <= n && ((forall i: nat :: i < n ==> decodes(i)) ==> k == n)
  {
    if n == 0 then 0 else Successes(decodes, n - 1) + if decodes(n - 1) then 1 else 0
  }

  /** One sender, as the receive loop knows it. */
  class Incoming {
    var awaited: Option<Word>
    var concealed: nat

    constructor ()
      ensures awaited == None && concealed == 0
    {
      awaited, concealed := None, 0;
    }

    /** One packet. `frames` counts what went to the speaker: invented frames, then the packet's own, each only if the
        decoder gives one. Whether it does makes no difference to what is awaited next. */
    method Receive(number: Word, decodes: nat -> bool) returns (frames: nat)
      modifies this
      ensures awaited == NextExpected(old(awaited), number)
      ensures var action := Classify(old(awaited), number);
        && frames == (if action.Play? then Successes(decodes, action.conceal + 1) else 0)
        && concealed == old(concealed) + (if action.Play? then Successes(decodes, action.conceal) else 0)
    {
      frames := 0;
      var action := Classify(awaited, number);
      if action.Drop? { return; }
      for n := 0 to action.conceal
        invariant frames == Successes(decodes, n) && concealed == old(concealed) + frames && awaited == old(awaited)
      {
        if decodes(n) { frames, concealed := frames + 1, concealed + 1; }
      }
      awaited := Some((number + 1) % U32);
      if decodes(action.conceal) { frames := frames + 1; }
    }
  }

  // ------------------------------------------------------------------ with counters that never wrap

  function Wire(n: int): (w: Word) { n % U32 }

  function OnWire(e: Option<int>): Option<Word> {
    match e case None => None case Some(n) => Some(Wire(n))
  }

  /** What should happen to packet `n` when `e` is the next. */
  function Ideal(e: Option<int>, n: int): Action {
    if e.None? || n == e.value then Play(0)
    else if n < e.value then Drop
    else if n - e.value <= MAX_CONCEAL then Play(n - e.value)
    else Play(0)
  }

  function IdealNext(e: Option<int>, n: int): Option<int> {
    if e.Some? && n < e.value then e else Some(n + 1)
  }

  /** Within half the circle of what is expected. */
  ghost predicate Near(e: Option<int>, n: int) {
    e.Some? ==> e.value - HALF <= n < e.value + HALF
  }

  lemma DistanceIsTrue(e: int, n: int)
    requires e - HALF <= n < e + HALF
    ensures Distance(Wire(n), Wire(e)) == n - e
  {
    if n >= e {
      ModSub(n, e, U32);
    } else {
      ModSub(n + U32, e, U32);
      ModShift(n, U32, 1);
    }
  }

  /** Thirty-two bits are enough to decide as unbounded numbers would. */
  lemma WireDecidesAsIdeal(e: Option<int>, n: int)
    requires Near(e, n)
    ensures Classify(OnWire(e), Wire(n)) == Ideal(e, n)
    ensures NextExpected(OnWire(e), Wire(n)) == OnWire(IdealNext(e, n))
  {
    if e.Some? { DistanceIsTrue(e.value, n); }
    ModAdd(n, 1, U32);
  }

  // ------------------------------------------------------------------ whole streams

  /** What is expected after some packets. */
  function Expected(e: Option<int>, packets: seq<int>): Option<int> {
    if packets == [] then e else IdealNext(Expected(e, packets[..|packets| - 1]), packets[|packets| - 1])
  }

  function WireExpected(e: Option<Word>, packets: seq<int>): Option<Word> {
    if packets == [] then e
    else NextExpected(WireExpected(e, packets[..|packets| - 1]), Wire(packets[|packets| - 1]))
  }

  ghost predicate AllNear(packets: seq<int>) {
    forall k :: 0 <= k < |packets| ==> Near(Expected(None, packets[..k]), packets[k])
  }

  /** The numbers played, in order. */
  function Played(packets: seq<int>): seq<int> {
    if packets == [] then []
    else
      var n := |packets| - 1;
      var e := WireExpected(None, packets[..n]);
      Played(packets[..n]) + if Classify(e, Wire(packets[n])).Play? then [packets[n]] else []
  }

  /** How many frames were invented. */
  function Concealed(packets: seq<int>): nat {
    if packets == [] then 0
    else
      var n := |packets| - 1;
      var action := Classify(WireExpected(None, packets[..n]), Wire(packets[n]));
      Concealed(packets[..n]) + if action.Play? then action.conceal else 0
  }

  lemma {:induction false} WireRunsAsIdeal(packets: seq<int>)
    requires AllNear(packets)
    ensures WireExpected(None, packets) == OnWire(Expected(None, packets))
  {
    if packets != [] {
      var init := packets[..|packets| - 1];
      NearBefore(packets);
      WireRunsAsIdeal(init);
      WireDecidesAsIdeal(Expected(None, init), packets[|packets| - 1]);
    }
  }

  lemma NearBefore(packets: seq<int>)
    requires AllNear(packets) && packets != []
    ensures AllNear(packets[..|packets| - 1])
    ensures Near(Expected(None, packets[..|packets| - 1]), packets[|packets| - 1])
  {
    var init := packets[..|packets| - 1];
    forall k | 0 <= k < |init|
      ensures Near(Expected(None, init[..k]), init[k])
    {
      assert init[..k] == packets[..k];
    }
  }

  ghost predicate Increasing(ns: seq<int>) {
    forall i, j :: 0 <= i < j < |ns| ==> ns[i] < ns[j]
  }

  /** One packet of the run, by its true number. */
  lemma LastPacket(packets: seq<int>)
    requires packets != [] && AllNear(packets)
    ensures var n := |packets| - 1;
      var action := Ideal(Expected(None, packets[..n]), packets[n]);
      && AllNear(packets[..n])
      && Played(packets) == Played(packets[..n]) + (if action.Play? then [packets[n]] else [])
      && Concealed(packets) == Concealed(packets[..n]) + (if action.Play? then action.conceal else 0)
  {
    var init := packets[..|packets| - 1];
    NearBefore(packets);
    WireRunsAsIdeal(init);
    WireDecidesAsIdeal(Expected(None, init), packets[|packets| - 1]);
  }

  /** What is expected is one past what was played last. */
  lemma {:induction false} ExpectedIsNext(packets: seq<int>)
    requires AllNear(packets)
    ensures var played := Played(packets);
      Expected(None, packets) == if played == [] then None else Some(played[|played| - 1] + 1)
  {
    if packets != [] {
      LastPacket(packets);
      ExpectedIsNext(packets[..|packets| - 1]);
    }
  }

  /** Nothing is played twice, and nothing after its own successor, across any number of wraps. */
  lemma {:induction false} PlaysInOrderOnce(packets: seq<int>)
    requires AllNear(packets)
    ensures Increasing(Played(packets))
  {
    if packets != [] {
      LastPacket(packets);
      PlaysInOrderOnce(packets[..|packets| - 1]);
      ExpectedIsNext(packets[..|packets| - 1]);
    }
  }

  lemma {:induction false} PlaysWhatCame(packets: seq<int>)
    ensures forall n :: n in Played(packets) ==> n in packets
  {
    if packets != [] {
      PlaysWhatCame(packets[..|packets| - 1]);
      assert packets == packets[..|packets| - 1] + [packets[|packets| - 1]];
    }
  }

  /** A packet is left out only when it, or a later one, has been played already. */
  lemma DroppedOnlyWhenLate(packets: seq<int>, n: int)
    requires AllNear(packets) && Near(Expected(None, packets), n)
    ensures Classify(WireExpected(None, packets), Wire(n)).Drop? <==>
      var played := Played(packets); played != [] && n <= played[|played| - 1]
  {
    WireRunsAsIdeal(packets);
    WireDecidesAsIdeal(Expected(None, packets), n);
    ExpectedIsNext(packets);
  }

  /** Every gap between packets played one after the other is short enough to conceal. */
  ghost predicate ShortGaps(ns: seq<int>) {
    |ns| < 2 || (ShortGaps(ns[..|ns| - 1]) && ns[|ns| - 1] - ns[|ns| - 2] <= 6)
  }

  function Last(ns: seq<int>): int
    requires ns != []
  {
    ns[|ns| - 1]
  }

  lemma ShortGapsStep(ns: seq<int>, n: int)
    requires ns != []
    ensures ShortGaps(ns + [n]) <==> ShortGaps(ns) && n - Last(ns) <= MAX_CONCEAL + 1
    ensures Last(ns + [n]) == n && (ns + [n])[0] == ns[0]
  {
    assert (ns + [n])[..|ns|] == ns;
  }

  /** How many frames one more packet gives, against how far it moves the timeline. */
  lemma OnePacketMore(packets: seq<int>)
    requires AllNear(packets) && packets != []
    ensures var n := |packets| - 1;
      var before := Played(packets[..n]);
      before != [] ==>
        if packets[n] <= Last(before) then Played(packets) == before && Concealed(packets) == Concealed(packets[..n])
        else
          && Played(packets) == before + [packets[n]]
          && Concealed(packets) - Concealed(packets[..n])
             == (if packets[n] - Last(before) <= MAX_CONCEAL + 1 then packets[n] - Last(before) - 1 else 0)
  {
    var before := packets[..|packets| - 1];
    LastPacket(packets);
    ExpectedIsNext(before);
    if Played(before) != [] { IdealAfter(Last(Played(before)), packets[|packets| - 1]); }
  }

  /** What becomes of packet `n` when `last` is what was played last. */
  lemma IdealAfter(last: int, n: int)
    ensures var action := Ideal(Some(last + 1), n);
      && (action.Play? <==> n > last)
      && (action.Play? ==> action.conceal == if n - last <= MAX_CONCEAL + 1 then n - last - 1 else 0)
  {
  }

  /** The timeline is kept exactly when no gap was too long: one frame for every number from the first to the last. A
      longer gap always shortens it. */
  lemma {:induction false} TimelineKept(packets: seq<int>)
    requires AllNear(packets) && packets != []
    ensures var played := Played(packets);
      && played != [] && played[0] == packets[0]
      && |played| + Concealed(packets) <= Last(played) - played[0] + 1
      && (|played| + Concealed(packets) == Last(played) - played[0] + 1 <==> ShortGaps(played))
  {
    var n := |packets| - 1;
    if n == 0 {
      LastPacket(packets);
      assert Played(packets[..0]) == [] && Expected(None, packets[..0]) == None;
    } else {
      NearBefore(packets);
      TimelineKept(packets[..n]);
      OnePacketMore(packets);
      ShortGapsStep(Played(packets[..n]), packets[n]);
    }
  }
}
