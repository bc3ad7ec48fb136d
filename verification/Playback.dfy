/** The playback callback: mix everybody, convert each channel, and never leave the device a sample short. */
module Playback {
  import opened Arith
  import opened Common
  import R = Resampler

  const VOICE_SAMPLE_RATE: nat := 48_000

  // ------------------------------------------------------------------ mixing

  /** A slot of the mixer; stream id 0 marks it free. */
  datatype Speaker = Speaker(ssrc: Word, user: nat, primed: bool, volume: real, waiting: seq<real>)

  predicate Heard(s: Speaker) { s.ssrc != 0 && s.primed }

  /** Sample `k` of what a speaker puts into a block: their oldest waiting samples, then silence. */
  function Voice(s: Speaker, k: nat): real {
    if Heard(s) && k < |s.waiting| then s.waiting[k] * s.volume else 0.0
  }

  function Sum(speakers: seq<Speaker>, k: nat): real {
    if speakers == [] then 0.0 else Sum(speakers[..|speakers| - 1], k) + Voice(speakers[|speakers| - 1], k)
  }

  function Clamp(x: real): (r: real)
    ensures -1.0 <= r <= 1.0 && (-1.0 <= x <= 1.0 ==> r == x)
  {
    if x < -1.0 then -1.0 else if x > 1.0 then 1.0 else x
  }

  function Mastered(x: real, master: real): real { Clamp(x * master) }

  /** Sample `k` of the mix: silence to the deafened, and never beyond full scale. */
  function MixAt(speakers: seq<Speaker>, deafened: bool, volume: real, k: nat): (r: real)
    ensures -1.0 <= r <= 1.0 && (deafened ==> r == 0.0)
  {
    if deafened then Mastered(0.0, 0.0) else Mastered(Sum(speakers, k), volume)
  }

  /** Taking a block from a speaker: what was played is gone, and running out means priming again. */
  function Taken(s: Speaker, n: nat): Speaker {
    if !Heard(s) then s
    else s.(waiting := s.waiting[Min(n, |s.waiting|)..], primed := n <= |s.waiting|)
  }

  /** Whoever is heard and has not got a whole block left. */
  function RanOut(speakers: seq<Speaker>, n: nat): nat {
    if speakers == [] then 0
    else
      var last := speakers[|speakers| - 1];
      RanOut(speakers[..|speakers| - 1], n) + if Heard(last) && |last.waiting| < n then 1 else 0
  }

  /** Everybody in the call, and what the interface has set. */
  datatype Room = Room(speakers: seq<Speaker>, deafened: bool, volume: real, underruns: nat)

  /** The next `n` samples of the mix. */
  function Block(r: Room, n: nat): (b: seq<real>)
    ensures |b| == n && forall k :: 0 <= k < n ==> b[k] == MixAt(r.speakers, r.deafened, r.volume, k)
  {
    seq(n, k requires 0 <= k < n => MixAt(r.speakers, r.deafened, r.volume, k))
  }

  /** Everybody heard moved on by as much, and those who ran out counted; deafened, nobody moves. */
  function MovedOn(r: Room, n: nat): Room {
    if r.deafened then r
    else
      r.(speakers := seq(|r.speakers|, i requires 0 <= i < |r.speakers| => Taken(r.speakers[i], n)),
         underruns := r.underruns + RanOut(r.speakers, n))
  }

  ghost predicate AllTaken(before: seq<Speaker>, after: seq<Speaker>, n: nat) {
    |before| == |after| && forall i :: 0 <= i < |before| ==> after[i] == Taken(before[i], n)
  }

  /** No stream has two slots. */
  ghost predicate OneSlotEach(speakers: seq<Speaker>) {
    forall i, j :: 0 <= i < j < |speakers| && speakers[i].ssrc != 0 ==> speakers[i].ssrc != speakers[j].ssrc
  }

  ghost function Streams(speakers: seq<Speaker>): set<int> { set i | 0 <= i < |speakers| :: speakers[i].ssrc }

  /** A slot made ready for a stream; nothing of whoever had it before is left but the volume. */
  function Claimed(s: Speaker, ssrc: Word, owners: map<Word, nat>): Speaker {
    s.(ssrc := ssrc, user := if ssrc in owners then owners[ssrc] else 0, primed := false, waiting := [])
  }

  class Shared {
    var speakers: seq<Speaker>
    var deafened: bool
    var volume: real
    var underruns: nat

    ghost function State(): Room
      reads this
    {
      Room(speakers, deafened, volume, underruns)
    }

    /** The slot for a stream: the one it has, or a free one, emptied and unprimed; `None` when all are taken. */
    method SlotFor(ssrc: Word, owners: map<Word, nat>) returns (slot: Option<nat>)
      requires OneSlotEach(speakers)
      modifies `speakers
      ensures OneSlotEach(speakers)
      ensures |speakers| == |old(speakers)|
      ensures slot.Some? ==> slot.value < |speakers| && speakers[slot.value].ssrc == ssrc
      ensures speakers == old(speakers) ||
        (slot.Some? && old(speakers)[slot.value].ssrc == 0 && ssrc !in Streams(old(speakers))
         && speakers == old(speakers)[slot.value :=
              Speaker(ssrc, if ssrc in owners then owners[ssrc] else 0, false, old(speakers)[slot.value].volume, [])])
      ensures slot.None? <==> ssrc !in Streams(old(speakers)) && 0 !in Streams(old(speakers))
    {
      slot := Find(ssrc);
      if slot.Some? { return; }
      slot := Find(0);
      if slot.Some? {
        speakers := speakers[slot.value := Claimed(speakers[slot.value], ssrc, owners)];
      }
    }

    method Find(ssrc: Word) returns (slot: Option<nat>)
      ensures slot.Some? ==> slot.value < |speakers| && speakers[slot.value].ssrc == ssrc
      ensures slot.None? <==> ssrc !in Streams(speakers)
    {
      for i := 0 to |speakers|
        invariant forall j :: 0 <= j < i ==> speakers[j].ssrc != ssrc
      {
        if speakers[i].ssrc == ssrc { return Some(i); }
      }
      return None;
    }

    /** The next `n` samples of everybody, and everybody moved on by as many; deafened, silence, and nobody moves. */
    method Mix(n: nat) returns (mixed: array<real>)
      modifies this
      ensures fresh(mixed) && mixed[..] == Block(old(State()), n) && State() == MovedOn(old(State()), n)
    {
      var master := if deafened then 0.0 else volume;
      mixed := new real[n](_ => 0.0);
      if !deafened {
        AddEverybody(mixed);
        assert speakers == MovedOn(old(State()), n).speakers;
      }
      ApplyMaster(mixed, master);
    }

    method AddEverybody(mixed: array<real>)
      requires forall k :: 0 <= k < mixed.Length ==> mixed[k] == 0.0
      modifies `speakers, `underruns, mixed
      ensures forall k :: 0 <= k < mixed.Length ==> mixed[k] == Sum(old(speakers), k)
      ensures AllTaken(old(speakers), speakers, mixed.Length)
      ensures underruns == old(underruns) + RanOut(old(speakers), mixed.Length)
    {
      var n := mixed.Length;
      ghost var before := speakers;
      for i := 0 to |speakers|
        invariant |speakers| == |before| && underruns == old(underruns) + RanOut(before[..i], n)
        invariant forall k :: 0 <= k < n ==> mixed[k] == Sum(before[..i], k)
        invariant AllTaken(before[..i], speakers[..i], n) && speakers[i..] == before[i..]
      {
        OneSpeakerMore(before, i, n);
        AddSpeaker(mixed, i);
      }
      assert before[..|before|] == before && speakers[..|before|] == speakers;
    }

    method AddSpeaker(mixed: array<real>, i: nat)
      requires i < |speakers|
      modifies `speakers, `underruns, mixed
      ensures var s, n := old(speakers)[i], mixed.Length;
        && speakers == old(speakers)[i := Taken(s, n)]
        && underruns == old(underruns) + (if Heard(s) && |s.waiting| < n then 1 else 0)
        && forall k :: 0 <= k < n ==> mixed[k] == old(mixed[k]) + (if Heard(s) then Voice(s, k) else 0.0)
    {
      var s := speakers[i];
      if Heard(s) {
        AddVoice(mixed, s);
        if |s.waiting| < mixed.Length { underruns := underruns + 1; }
      }
      speakers := speakers[i := Taken(s, mixed.Length)];
    }
  }

  lemma OneSpeakerMore(speakers: seq<Speaker>, i: nat, n: nat)
    requires i < |speakers|
    ensures forall k :: 0 <= k < n ==>
      Sum(speakers[..i + 1], k)
      == Sum(speakers[..i], k) + (if Heard(speakers[i]) then Voice(speakers[i], k) else 0.0)
    ensures RanOut(speakers[..i + 1], n)
      == RanOut(speakers[..i], n) + if Heard(speakers[i]) && |speakers[i].waiting| < n then 1 else 0
  {
    assert speakers[..i + 1][..i] == speakers[..i];
  }

  method ApplyMaster(mixed: array<real>, master: real)
    modifies mixed
    ensures forall k :: 0 <= k < mixed.Length ==> mixed[k] == Mastered(old(mixed[k]), master)
  {
    for k := 0 to mixed.Length
      invariant forall j :: 0 <= j < k ==> mixed[j] == Mastered(old(mixed[j]), master)
      invariant forall j :: k <= j < mixed.Length ==> mixed[j] == old(mixed[j])
    {
      mixed[k] := Mastered(mixed[k], master);
    }
  }

  method AddVoice(mixed: array<real>, s: Speaker)
    requires Heard(s)
    modifies mixed
    ensures forall k :: 0 <= k < mixed.Length ==> mixed[k] == old(mixed[k]) + Voice(s, k)
  {
    for k := 0 to Min(mixed.Length, |s.waiting|)
      invariant forall j :: 0 <= j < k ==> mixed[j] == old(mixed[j]) + Voice(s, j)
      invariant forall j :: k <= j < mixed.Length ==> mixed[j] == old(mixed[j])
    {
      mixed[k] := mixed[k] + s.waiting[k] * s.volume;
    }
  }

  // ------------------------------------------------------------------ what a speaker puts into the mix

  ghost predicate CanFill(s: Speaker, n: nat) { s.ssrc != 0 && s.primed && n <= |s.waiting| }

  /** Samples times a volume. */
  ghost function Loud(samples: seq<real>, volume: real): (r: seq<real>)
    ensures |r| == |samples| && forall k :: 0 <= k < |samples| ==> r[k] == samples[k] * volume
  {
    seq(|samples|, k requires 0 <= k < |samples| => samples[k] * volume)
  }

  /** A speaker's part in a block of `n`. */
  ghost function Part(s: Speaker, n: nat): (p: seq<real>)
    ensures |p| == n && forall k :: 0 <= k < n ==> p[k] == Voice(s, k)
  {
    seq(n, k requires 0 <= k < n => Voice(s, k))
  }

  /** Who can fill a block plays their oldest samples at their volume; those are then gone, what is left waits in its
      order, and nothing else about them changes. */
  lemma BlockIsTaken(s: Speaker, n: nat)
    requires CanFill(s, n)
    ensures Part(s, n) == Loud(s.waiting[..n], s.volume)
    ensures s.waiting[..n] + Taken(s, n).waiting == s.waiting && Taken(s, n).(waiting := s.waiting) == s
    ensures forall k :: 0 <= k && n + k < |s.waiting| ==> Voice(Taken(s, n), k) == Voice(s, n + k)
  {
    PlaysOldest(s, s.waiting[..n], Part(s, n));
  }

  lemma PlaysOldest(s: Speaker, samples: seq<real>, part: seq<real>)
    requires Heard(s) && samples <= s.waiting && |part| == |samples|
    requires forall k :: 0 <= k < |part| ==> part[k] == Voice(s, k)
    ensures part == Loud(samples, s.volume)
  {
    forall k | 0 <= k < |part|
      ensures part[k] == Loud(samples, s.volume)[k]
    {
      assert samples[k] == s.waiting[k];
    }
  }

  /** Who has not got a whole block left plays what there is, then silence; nothing waits then, and priming starts
      over. */
  lemma RunningOut(s: Speaker, n: nat)
    requires s.ssrc != 0 && s.primed && |s.waiting| < n
    ensures Part(s, n) == Loud(s.waiting, s.volume) + seq(n - |s.waiting|, _ => 0.0)
    ensures Taken(s, n) == Speaker(s.ssrc, s.user, false, s.volume, [])
  {
    var m := |s.waiting|;
    assert s.waiting[m..] == [];
    PlaysOldest(s, s.waiting, Part(s, n)[..m]);
    assert Part(s, n)[m..] == seq(n - m, _ => 0.0);
    assert Part(s, n) == Part(s, n)[..m] + Part(s, n)[m..];
  }

  /** Who is not primed, and a free slot, plays nothing and loses nothing. */
  lemma NotHeard(s: Speaker, n: nat)
    requires s.ssrc == 0 || !s.primed
    ensures Part(s, n) == seq(n, _ => 0.0) && Taken(s, n) == s
  {
    assert Part(s, n) == seq(n, _ => 0.0);
  }

  /** One block of a run: the room just before it, its size, and what comes in for the speaker watched before the
      next. */
  datatype Turn = Turn(room: Room, n: nat, arrived: seq<real>)

  /** All that speaker `i` puts into a run of blocks, end to end. */
  ghost function Parts(turns: seq<Turn>, i: nat): seq<real>
    requires forall t :: 0 <= t < |turns| ==> i < |turns[t].room.speakers|
    decreases |turns|
  {
    if turns == [] then []
    else
      var last := turns[|turns| - 1];
      Parts(turns[..|turns| - 1], i) + Part(last.room.speakers[i], last.n)
  }

  ghost function Arrivals(turns: seq<Turn>): seq<real> {
    if turns == [] then [] else Arrivals(turns[..|turns| - 1]) + turns[|turns| - 1].arrived
  }

  /** Speaker `i` is heard in every block and can fill it, at one volume, and between the blocks nothing happens to
      what they have waiting but that more comes in; whatever happens to everybody else. */
  ghost predicate HeardThroughout(turns: seq<Turn>, i: nat, volume: real) {
    && (forall t :: 0 <= t < |turns| ==>
          && i < |turns[t].room.speakers| && !turns[t].room.deafened
          && CanFill(turns[t].room.speakers[i], turns[t].n) && turns[t].room.speakers[i].volume == volume)
    && (forall t :: 0 < t < |turns| ==>
          turns[t].room.speakers[i].waiting
          == MovedOn(turns[t - 1].room, turns[t - 1].n).speakers[i].waiting + turns[t - 1].arrived)
  }

  /** Over any run of blocks a speaker heard throughout is mixed sample by sample, each one once and in order, at their
      volume: what was played and then what waits are what waited at first and then what came in. */
  lemma {:induction false} EachSampleOnce(turns: seq<Turn>, i: nat, volume: real)
    requires turns != [] && HeardThroughout(turns, i, volume)
    ensures var last := turns[|turns| - 1];
      Parts(turns, i) + Loud(MovedOn(last.room, last.n).speakers[i].waiting + last.arrived, volume)
      == Loud(turns[0].room.speakers[i].waiting + Arrivals(turns), volume)
    decreases |turns|
  {
    var n := |turns| - 1;
    var last := turns[n];
    var s := last.room.speakers[i];
    BlockIsTaken(s, last.n);
    LoudAppend(s.waiting[..last.n], Taken(s, last.n).waiting + last.arrived, volume);
    assert s.waiting[..last.n] + (Taken(s, last.n).waiting + last.arrived) == s.waiting + last.arrived;
    if n == 0 {
      assert Parts(turns[..0], i) == [] && Arrivals(turns[..0]) == [];
      assert [] + last.arrived == last.arrived && [] + Part(s, last.n) == Part(s, last.n);
    } else {
      EachSampleOnce(turns[..n], i, volume);
      OneTurnMore(Parts(turns[..n], i), s, last.n, turns[0].room.speakers[i].waiting, Arrivals(turns[..n]),
                  last.arrived, volume);
    }
  }

  lemma LoudAppend(a: seq<real>, b: seq<real>, volume: real)
    ensures Loud(a + b, volume) == Loud(a, volume) + Loud(b, volume)
  {
    forall k | 0 <= k < |a + b|
      ensures Loud(a + b, volume)[k] == (Loud(a, volume) + Loud(b, volume))[k]
    {
      assert (a + b)[k] == if k < |a| then a[k] else b[k - |a|];
    }
  }

  lemma OneTurnMore(parts: seq<real>, s: Speaker, n: nat, first: seq<real>, arrived: seq<real>, more: seq<real>,
                    volume: real)
    requires CanFill(s, n) && s.volume == volume && parts + Loud(s.waiting, volume) == Loud(first + arrived, volume)
    ensures parts + Part(s, n) + Loud(Taken(s, n).waiting + more, volume) == Loud(first + (arrived + more), volume)
  {
    var rest := Taken(s, n).waiting;
    BlockIsTaken(s, n);
    LoudAppend(s.waiting[..n], rest, volume);
    LoudAppend(rest, more, volume);
    LoudAppend(first + arrived, more, volume);
    Associative(first, arrived, more);
    Associative(parts, Part(s, n), Loud(rest, volume));
    Associative(parts + Part(s, n), Loud(rest, volume), Loud(more, volume));
  }

  /** The sum is the first speaker's part and everybody else's, whoever is added last. */
  lemma {:induction false} SumFromTheFront(speakers: seq<Speaker>, k: nat)
    requires speakers != []
    ensures Sum(speakers, k) == Voice(speakers[0], k) + Sum(speakers[1..], k)
    decreases |speakers|
  {
    var n := |speakers| - 1;
    if n == 0 {
      assert Sum(speakers[..0], k) == 0.0 && speakers[1..] == [];
    } else {
      SumFromTheFront(speakers[..n], k);
      assert speakers[..n][1..] == speakers[1..][..n - 1];
    }
  }

  /** A sample of the mix is everybody's parts added up, times the volume set, and full scale where that is beyond it;
      to the deafened it is silence. */
  lemma MixedSample(r: Room, n: nat, k: nat)
    requires k < n
    ensures var sum := Sum(r.speakers, k) * r.volume;
      if r.deafened then Block(r, n)[k] == 0.0
      else if sum > 1.0 then Block(r, n)[k] == 1.0
      else if sum < -1.0 then Block(r, n)[k] == -1.0
      else Block(r, n)[k] == sum
    ensures Sum([], k) == 0.0
  {
  }

  // ------------------------------------------------------------------ two channels in one sequence

  /** Whole pairs. */
  predicate Even(s: seq<real>) { |s| % 2 == 0 }

  lemma EvenAppend(a: seq<real>, b: seq<real>)
    requires Even(a) && Even(b)
    ensures Even(a + b)
  {
    ModShift(0, 2, |a| / 2 + |b| / 2);
  }

  /** Every other sample, starting with the first or the second. */
  function Channel(mixed: seq<real>, side: nat): (r: seq<real>)
    requires side < 2
    ensures |r| == |mixed| / 2
  {
    if |mixed| < 2 then [] else [mixed[side]] + Channel(mixed[2..], side)
  }

  function Left(mixed: seq<real>): seq<real> { Channel(mixed, 0) }

  function Right(mixed: seq<real>): seq<real> { Channel(mixed, 1) }

  /** Pairs of a left and a right sample, as long as there are both. */
  function Woven(left: seq<real>, right: seq<real>): (r: seq<real>)
    ensures |r| == 2 * Min(|left|, |right|) && Even(r)
  {
    if left == [] || right == [] then [] else [left[0], right[0]] + Woven(left[1..], right[1..])
  }

  lemma {:induction false} WovenIsWhole(mixed: seq<real>)
    requires Even(mixed)
    ensures Woven(Left(mixed), Right(mixed)) == mixed
    decreases |mixed|
  {
    if mixed != [] { WovenIsWhole(mixed[2..]); }
  }

  lemma {:induction false} ChannelAppend(a: seq<real>, b: seq<real>, side: nat)
    requires Even(a) && side < 2
    ensures Channel(a + b, side) == Channel(a, side) + Channel(b, side)
    decreases |a|
  {
    if a == [] {
      assert a + b == b;
    } else {
      ChannelAppend(a[2..], b, side);
      DropFront(a, b, 2);
      assert (a + b)[side] == a[side];
      Associative([a[side]], Channel(a[2..], side), Channel(b, side));
    }
  }

  /** One more pair at the end of a block. */
  lemma OnePairMore(block: seq<real>, i: nat, side: nat)
    requires 2 * i + 2 <= |block| && side < 2
    ensures Channel(block[..2 * i + 2], side) == Channel(block[..2 * i], side) + [block[2 * i + side]]
  {
    var pair := block[2 * i..2 * i + 2];
    assert block[..2 * i + 2] == block[..2 * i] + pair;
    ChannelAppend(block[..2 * i], pair, side);
    assert Channel(pair[2..], side) == [];
    assert Channel(pair, side) == [pair[side]];
  }

  method Deinterleave(block: seq<real>) returns (left: seq<real>, right: seq<real>)
    requires Even(block)
    ensures left == Left(block) && right == Right(block)
  {
    left, right := [], [];
    for i := 0 to |block| / 2
      invariant left == Left(block[..2 * i]) && right == Right(block[..2 * i])
    {
      OnePairMore(block, i, 0);
      OnePairMore(block, i, 1);
      left, right := left + [block[2 * i]], right + [block[2 * i + 1]];
    }
    assert block[..|block|] == block;
  }

  method Interleave(left: seq<real>, right: seq<real>, into: seq<real>) returns (ready: seq<real>)
    requires |left| == |right|
    ensures ready == into + Woven(left, right)
  {
    ready := into;
    for i := 0 to |left|
      invariant ready == into + Woven(left[..i], right[..i])
    {
      WovenAppend(left[..i], right[..i], [left[i]], [right[i]]);
      assert left[..i + 1] == left[..i] + [left[i]] && right[..i + 1] == right[..i] + [right[i]];
      PairWoven(left[i], right[i]);
      ready := ready + [left[i]] + [right[i]];
    }
    assert left[..|left|] == left && right[..|right|] == right;
  }

  lemma PairWoven(l: real, r: real)
    ensures Woven([l], [r]) == [l] + [r]
  {
  }

  lemma {:induction false} WovenAppend(a: seq<real>, b: seq<real>, c: seq<real>, d: seq<real>)
    requires |a| == |b|
    ensures Woven(a + c, b + d) == Woven(a, b) + Woven(c, d)
    decreases |a|
  {
    if a == [] {
      assert a + c == c && b + d == d;
    } else {
      WovenAppend(a[1..], b[1..], c, d);
      assert (a + c)[1..] == a[1..] + c && (b + d)[1..] == b[1..] + d;
    }
  }

  // ------------------------------------------------------------------ how much to mix

  /** How much of the mix to take for so many of the device's frames, slack included. */
  function Needed(frames: nat, rate: nat): nat
    requires rate > 0
  {
    (frames * VOICE_SAMPLE_RATE + rate - 1) / rate + 8
  }

  /** What `needed` more frames make of `n` frames' output. */
  function Made(n: nat, needed: nat, rate: nat): int
    requires rate > 0
  {
    R.Count(n + needed, VOICE_SAMPLE_RATE, rate) - R.Count(n, VOICE_SAMPLE_RATE, rate)
  }

  /** Enough, wherever the fractional position stands and whatever the rate; and never much more. */
  lemma MadeIsEnough(n: nat, frames: nat, rate: nat)
    requires rate > 0
    ensures frames <= Made(n, Needed(frames, rate), rate) <= frames + 1 + 9 * rate / VOICE_SAMPLE_RATE
  {
    var needed := Needed(frames, rate);
    R.CountIsCeiling(n, VOICE_SAMPLE_RATE, rate);
    R.CountIsCeiling(n + needed, VOICE_SAMPLE_RATE, rate);
    assert (n + needed) * rate == n * rate + needed * rate;
    NeededIsCeiling(frames, rate);
  }

  lemma NeededIsCeiling(frames: nat, rate: nat)
    requires rate > 0
    ensures frames * VOICE_SAMPLE_RATE + 8 * rate <= Needed(frames, rate) * rate < frames * VOICE_SAMPLE_RATE + 9 * rate
  {
    var x := frames * VOICE_SAMPLE_RATE + rate - 1;
    assert x == rate * (x / rate) + x % rate;
    assert Needed(frames, rate) * rate == rate * (x / rate) + 8 * rate;
  }

  /** Everything the device should hear for a mix: each channel converted, and the two woven together. */
  ghost function Whole(mixed: seq<real>, rate: nat): seq<real>
    requires rate > 0
  {
    Woven(Converted(Left(mixed), rate), Converted(Right(mixed), rate))
  }

  ghost function Converted(channel: seq<real>, rate: nat): seq<real>
    requires rate > 0
  {
    R.Converted(channel, VOICE_SAMPLE_RATE, rate)
  }

  lemma WholeLength(mixed: seq<real>, rate: nat)
    requires rate > 0
    ensures |Whole(mixed, rate)| == 2 * R.Count(|mixed| / 2, VOICE_SAMPLE_RATE, rate)
  {
    R.ConvertedLength(Left(mixed), VOICE_SAMPLE_RATE, rate);
    R.ConvertedLength(Right(mixed), VOICE_SAMPLE_RATE, rate);
  }

  /** At the codec's own rate a block goes straight out. */
  lemma WholePassesThrough(mixed: seq<real>, block: seq<real>)
    requires Even(mixed) && Even(block)
    ensures Whole(mixed + block, VOICE_SAMPLE_RATE) == Whole(mixed, VOICE_SAMPLE_RATE) + block
  {
    WovenIsWhole(mixed);
    WovenIsWhole(block);
    WovenIsWhole(mixed + block);
  }

  /** At any other, the two channels' new samples woven together are what is new in the whole. */
  lemma WholeGrows(mixed: seq<real>, block: seq<real>, rate: nat, left: seq<real>, right: seq<real>)
    requires rate > 0 && Even(mixed)
    requires Converted(Left(mixed), rate) + left == Converted(Left(mixed + block), rate)
    requires Converted(Right(mixed), rate) + right == Converted(Right(mixed + block), rate)
    ensures |left| == |right| && Whole(mixed + block, rate) == Whole(mixed, rate) + Woven(left, right)
  {
    R.ConvertedLength(Left(mixed), VOICE_SAMPLE_RATE, rate);
    R.ConvertedLength(Right(mixed), VOICE_SAMPLE_RATE, rate);
    R.ConvertedLength(Left(mixed + block), VOICE_SAMPLE_RATE, rate);
    R.ConvertedLength(Right(mixed + block), VOICE_SAMPLE_RATE, rate);
    WovenAppend(Converted(Left(mixed), rate), Converted(Right(mixed), rate), left, right);
  }

  // ------------------------------------------------------------------ the callback, on values

  /** The room, everything mixed and everything written to the device since the start, and what waits to be written. */
  datatype Playing = Playing(room: Room, mixed: seq<real>, written: seq<real>, ready: seq<real>)

  /** Written and waiting are together the whole of what was mixed. */
  ghost predicate InStep(p: Playing, rate: nat)
    requires rate > 0
  {
    Even(p.mixed) && Even(p.ready) && p.written + p.ready == Whole(p.mixed, rate)
  }

  /** `n` pairs of the room's mix taken, and what is new in the whole waiting too: the whole only grows. */
  ghost function Extended(p: Playing, n: nat, rate: nat): (q: Playing)
    requires rate > 0 && InStep(p, rate)
    ensures InStep(q, rate) && q.written == p.written
  {
    var block := Block(p.room, 2 * n);
    RestIsReady(p, block, rate);
    Playing(MovedOn(p.room, 2 * n), p.mixed + block, p.written, Whole(p.mixed + block, rate)[|p.written|..])
  }

  /** When there is not enough waiting, a block is mixed. */
  ghost function Filled(p: Playing, frames: nat, rate: nat): (f: Playing)
    requires rate > 0 && InStep(p, rate)
    ensures InStep(f, rate) && f.written == p.written
  {
    if |p.ready| >= 2 * frames then p else Extended(p, Needed(frames, rate), rate)
  }

  lemma LongerWhole(p: Playing, frames: nat, rate: nat)
    requires rate > 0 && InStep(p, rate)
    ensures var mixed := p.mixed + Block(p.room, 2 * Needed(frames, rate));
      && |p.written| + |p.ready| + 2 * frames <= |Whole(mixed, rate)|
      && |Whole(mixed, rate)| <= |p.written| + |p.ready| + 2 * (frames + 1 + 9 * rate / VOICE_SAMPLE_RATE)
  {
    var needed := Needed(frames, rate);
    var mixed := p.mixed + Block(p.room, 2 * needed);
    WholeLength(p.mixed, rate);
    WholeLength(mixed, rate);
    assert |mixed| / 2 == |p.mixed| / 2 + needed;
    MadeIsEnough(|p.mixed| / 2, frames, rate);
  }

  /** Enough waits then, and never more than needed by much. */
  lemma FilledIsEnough(p: Playing, frames: nat, rate: nat)
    requires rate > 0 && InStep(p, rate)
    ensures var f := Filled(p, frames, rate);
      && |f.ready| >= 2 * frames
      && |f.ready| / 2 <= Max(|p.ready| / 2, 2 * frames + 9 * rate / VOICE_SAMPLE_RATE)
  {
    if |p.ready| < 2 * frames { LongerWhole(p, frames, rate); }
  }

  lemma RestIsReady(p: Playing, block: seq<real>, rate: nat)
    requires rate > 0 && InStep(p, rate) && Even(block)
    ensures var whole := Whole(p.mixed + block, rate);
      && |p.written| <= |whole|
      && InStep(p.(mixed := p.mixed + block, ready := whole[|p.written|..]), rate)
  {
    EvenAppend(p.mixed, block);
    WholeExtends(p.mixed, block, rate);
    WholeIsEven(p.mixed, rate);
    WholeIsEven(p.mixed + block, rate);
    RestIsEven(p.written, p.ready, Whole(p.mixed, rate), Whole(p.mixed + block, rate));
  }

  lemma WholeIsEven(mixed: seq<real>, rate: nat)
    requires rate > 0
    ensures Even(Whole(mixed, rate))
  {
  }

  lemma RestIsEven(written: seq<real>, ready: seq<real>, whole: seq<real>, longer: seq<real>)
    requires written + ready == whole && Even(ready) && Even(whole) && Even(longer) && whole <= longer
    ensures |written| <= |longer| && Even(longer[|written|..]) && written + longer[|written|..] == longer
  {
    assert longer[..|written|] == written;
  }

  lemma WholeExtends(mixed: seq<real>, block: seq<real>, rate: nat)
    requires rate > 0 && Even(mixed) && Even(block)
    ensures Whole(mixed, rate) <= Whole(mixed + block, rate)
  {
    if rate == VOICE_SAMPLE_RATE {
      WholePassesThrough(mixed, block);
    } else {
      ChannelAppend(mixed, block, 0);
      ChannelAppend(mixed, block, 1);
      var l := R.NewSamples(Left(mixed), Left(block), VOICE_SAMPLE_RATE, rate);
      var r := R.NewSamples(Right(mixed), Right(block), VOICE_SAMPLE_RATE, rate);
      WholeGrows(mixed, block, rate, l, r);
    }
  }

  /** The first `n` pairs waiting, written. */
  ghost function Popped(p: Playing, n: nat): Playing
    requires 2 * n <= |p.ready|
  {
    p.(written := p.written + p.ready[..2 * n], ready := p.ready[2 * n..])
  }

  lemma PopOneMore(p: Playing, n: nat)
    requires 2 * n + 2 <= |p.ready|
    ensures Popped(Popped(p, n), 1) == Popped(p, n + 1)
  {
    assert p.ready[..2 * n + 2] == p.ready[..2 * n] + p.ready[2 * n..][..2];
  }

  /** The callback: fill, then write what was asked for. */
  ghost function Served(p: Playing, frames: nat, rate: nat): Playing
    requires rate > 0 && InStep(p, rate)
  {
    FilledIsEnough(p, frames, rate);
    Popped(Filled(p, frames, rate), frames)
  }

  lemma ServedIsInStep(p: Playing, frames: nat, rate: nat)
    requires rate > 0 && InStep(p, rate)
    ensures var t := Served(p, frames, rate);
      && InStep(t, rate) && |t.written| == |p.written| + 2 * frames
      && |t.ready| / 2 <= Max(|p.ready| / 2, 2 * frames + 9 * rate / VOICE_SAMPLE_RATE) - frames
  {
    FilledIsEnough(p, frames, rate);
    var f := Filled(p, frames, rate);
    SplitReady(f.written, f.ready, frames);
  }

  lemma SplitReady(written: seq<real>, ready: seq<real>, frames: nat)
    requires Even(ready) && 2 * frames <= |ready|
    ensures written + ready[..2 * frames] + ready[2 * frames..] == written + ready
    ensures Even(ready[2 * frames..]) && |ready[2 * frames..]| / 2 == |ready| / 2 - frames
  {
    ModShift(|ready| - 2 * frames, 2, frames);
    assert ready == ready[..2 * frames] + ready[2 * frames..];
  }

  // ------------------------------------------------------------------ whole runs

  /** One callback: how many frames, and the room as the other threads have it by then. */
  datatype Call = Call(room: Room, frames: nat)

  ghost function Run(calls: seq<Call>, rate: nat): (p: Playing)
    requires rate > 0
    ensures InStep(p, rate)
    decreases |calls|
  {
    if calls == [] then
      WholeOfNothing(rate);
      Playing(Room([], false, 0.0, 0), [], [], [])
    else
      var last := calls[|calls| - 1];
      var before := Run(calls[..|calls| - 1], rate).(room := last.room);
      ServedIsInStep(before, last.frames, rate);
      Served(before, last.frames, rate)
  }

  lemma WholeOfNothing(rate: nat)
    requires rate > 0
    ensures Whole([], rate) == []
  {
    WholeLength([], rate);
    R.CountFrom0(VOICE_SAMPLE_RATE, rate);
  }

  function Asked(calls: seq<Call>): nat {
    if calls == [] then 0 else Asked(calls[..|calls| - 1]) + calls[|calls| - 1].frames
  }

  /** Over any run of callbacks of at most `most` frames, whatever becomes of the room in between: every pair asked for
      was written, in order and without a gap, of the whole mix, and never more waits than as many again and a
      little. */
  lemma {:induction false} EveryRun(calls: seq<Call>, rate: nat, most: nat)
    requires rate > 0 && forall i :: 0 <= i < |calls| ==> calls[i].frames <= most
    ensures var p := Run(calls, rate);
      && p.written + p.ready == Whole(p.mixed, rate) && |p.written| == 2 * Asked(calls)
      && |p.ready| / 2 <= most + 9 * rate / VOICE_SAMPLE_RATE
    decreases |calls|
  {
    if calls != [] {
      var init, last := calls[..|calls| - 1], calls[|calls| - 1];
      EveryRun(init, rate, most);
      ServedIsInStep(Run(init, rate).(room := last.room), last.frames, rate);
    }
  }

  /** Nor does more ever wait at any moment of a run, with the block just mixed and nothing of it written. */
  lemma NeverMoreWaits(calls: seq<Call>, rate: nat, most: nat, next: Call)
    requires rate > 0 && next.frames <= most && forall i :: 0 <= i < |calls| ==> calls[i].frames <= most
    ensures |Filled(Run(calls, rate).(room := next.room), next.frames, rate).ready| / 2
         <= 2 * most + 9 * rate / VOICE_SAMPLE_RATE
  {
    EveryRun(calls, rate, most);
    FilledIsEnough(Run(calls, rate).(room := next.room), next.frames, rate);
  }

  /** What is mixed is what the people in the room said: each callback that mixes adds the block of that moment. */
  lemma MixIsTheRooms(calls: seq<Call>, rate: nat, room: Room, frames: nat)
    requires rate > 0
    ensures var p, t := Run(calls, rate), Run(calls + [Call(room, frames)], rate);
      if |p.ready| >= 2 * frames then t.mixed == p.mixed && t.room == room
      else
        && t.mixed == p.mixed + Block(room, 2 * Needed(frames, rate))
        && t.room == MovedOn(room, 2 * Needed(frames, rate))
  {
    assert (calls + [Call(room, frames)])[..|calls|] == calls;
  }

  // ------------------------------------------------------------------ the callback

  class Output {
    const shared: Shared
    const rate: nat
    const left: R.Resampler
    const right: R.Resampler
    /** Interleaved samples made and not yet written to the device. */
    var ready: seq<real>
    /** Everything mixed, and everything written to the device, since the start. */
    ghost var mixed: seq<real>
    ghost var written: seq<real>

    ghost predicate Valid()
      reads this, left, right
    {
      && rate > 0 && left != right && left.Valid() && right.Valid()
      && left.from == right.from == VOICE_SAMPLE_RATE && left.to == right.to == rate
      && Even(mixed) && Even(ready)
      && (rate != VOICE_SAMPLE_RATE ==> left.fed == Left(mixed) && right.fed == Right(mixed))
      && written + ready == Whole(mixed, rate)
    }

    ghost function Abs(): Playing
      reads this, shared
    {
      Playing(shared.State(), mixed, written, ready)
    }

    constructor (shared: Shared, deviceRate: Word)
      ensures Valid() && ready == [] && mixed == [] && written == []
      ensures this.shared == shared && rate == Max(deviceRate, 1) && fresh(left) && fresh(right)
    {
      this.shared, this.rate := shared, Max(deviceRate, 1);
      left := new R.Resampler(VOICE_SAMPLE_RATE, deviceRate);
      right := new R.Resampler(VOICE_SAMPLE_RATE, deviceRate);
      ready, mixed, written := [], [], [];
      R.CountFrom0(VOICE_SAMPLE_RATE, Max(deviceRate, 1));
    }

    /** Queue enough for `frames` frames of the room's mix, if there is not enough already. */
    method Fill(frames: nat)
      requires Valid()
      modifies this`ready, this`mixed, left, right, shared
      ensures Valid() && Abs() == Filled(old(Abs()), frames, rate)
    {
      if |ready| < 2 * frames { MixMore(Needed(frames, rate)); }
    }

    /** Take `needed` pairs of the mix. */
    method MixMore(needed: nat)
      requires Valid()
      modifies this`ready, this`mixed, left, right, shared
      ensures Valid() && Abs() == Extended(old(Abs()), needed, rate)
    {
      var block := shared.Mix(2 * needed);
      Queue(block[..]);
      assert Whole(mixed, rate)[|written|..] == ready;
    }

    /** Convert a block of the mix, each channel by itself, and queue it interleaved. */
    method Queue(block: seq<real>)
      requires Valid() && Even(block)
      modifies this`ready, this`mixed, left, right
      ensures Valid() && mixed == old(mixed) + block
    {
      if left.passthrough {
        WholePassesThrough(mixed, block);
        Append(block, block);
      } else {
        var newLeft, newRight := Convert(block);
        var more := Interleave(newLeft, newRight, []);
        Append(block, more);
      }
    }

    method Append(ghost block: seq<real>, more: seq<real>)
      requires rate > 0 && written + ready == Whole(mixed, rate)
      requires Whole(mixed + block, rate) == Whole(mixed, rate) + more
      requires Even(mixed) && Even(ready) && Even(block) && Even(more)
      modifies `ready, `mixed
      ensures ready == old(ready) + more && mixed == old(mixed) + block && written + ready == Whole(mixed, rate)
      ensures Even(mixed) && Even(ready)
    {
      EvenAppend(ready, more);
      EvenAppend(mixed, block);
      assert written + (ready + more) == written + ready + more;
      ready := ready + more;
      mixed := mixed + block;
    }

    method Convert(block: seq<real>) returns (newLeft: seq<real>, newRight: seq<real>)
      requires Valid() && !left.passthrough && Even(block)
      modifies left, right
      ensures left.Valid() && left.fed == Left(mixed + block)
      ensures right.Valid() && right.fed == Right(mixed + block)
      ensures |newLeft| == |newRight| && Whole(mixed + block, rate) == Whole(mixed, rate) + Woven(newLeft, newRight)
    {
      ChannelAppend(mixed, block, 0);
      ChannelAppend(mixed, block, 1);
      newLeft, newRight := Deinterleave(block);
      newLeft := left.Process(newLeft, []);
      newRight := right.Process(newRight, []);
      WholeGrows(mixed, block, rate, newLeft, newRight);
    }

    /** What the device asks for: `frames` pairs, always there, and nothing made up. */
    method Callback(frames: nat) returns (data: seq<(real, real)>)
      requires Valid()
      modifies this, left, right, shared
      ensures Valid() && Abs() == Served(old(Abs()), frames, rate)
      ensures |data| == frames && |written| == |old(written)| + 2 * frames
      ensures forall i :: 0 <= i < frames ==>
        data[i] == (written[|old(written)| + 2 * i], written[|old(written)| + 2 * i + 1])
    {
      FilledIsEnough(Abs(), frames, rate);
      Fill(frames);
      data := PopPairs(frames);
    }

    method PopPairs(frames: nat) returns (data: seq<(real, real)>)
      requires Valid() && 2 * frames <= |ready|
      modifies `ready, `written
      ensures Valid() && Abs() == Popped(old(Abs()), frames)
      ensures |data| == frames && forall i :: 0 <= i < frames ==> data[i] == (old(ready)[2 * i], old(ready)[2 * i + 1])
    {
      data := [];
      for n := 0 to frames
        invariant Valid() && |data| == n && Abs() == Popped(old(Abs()), n)
        invariant forall i :: 0 <= i < n ==> data[i] == (old(ready)[2 * i], old(ready)[2 * i + 1])
      {
        var l, r := PopPair();
        data := data + [(l, r)];
        PopOneMore(old(Abs()), n);
      }
    }

    method PopPair() returns (l: real, r: real)
      requires Valid() && |ready| >= 2
      modifies `ready, `written
      ensures Valid() && Abs() == Popped(old(Abs()), 1) && l == old(ready)[0] && r == old(ready)[1]
    {
      SplitReady(written, ready, 1);
      assert ready[..2] == [ready[0], ready[1]];
      l, r := ready[0], ready[1];
      written := written + [l, r];
      ready := ready[2..];
    }
  }
}
