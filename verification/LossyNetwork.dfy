/** What the reassembler guarantees over every run, whatever the network does to the fragments. */
module LossyNetwork {
  import opened Arith
  import opened Common
  import opened Media
  import opened Reassembler

  // ------------------------------------------------------------------ bounded memory, for any bytes at all

  /** How the state is between calls. */
  ghost predicate Healthy(s: State) {
    |s.building| <= IN_FLIGHT && forall t :: t in s.building ==> Unfinished(s.building[t])
  }

  lemma {:induction false} Farthest(keys: set<Word>, newest: Word) returns (t: Word)
    requires keys != {}
    ensures t in keys && forall u :: u in keys ==> Behind(newest, u) <= Behind(newest, t)
  {
    var x :| x in keys;
    if keys == {x} {
      t := x;
    } else {
      var rest := Farthest(keys - {x}, newest);
      t := if Behind(newest, x) <= Behind(newest, rest) then rest else x;
    }
  }

  /** Of three part-built pictures exactly the one farthest behind the newest is abandoned. */
  lemma OneOfThreeGoes(b: Building, newest: Word) returns (t: Word)
    requires |b| == 3
    ensures t in b && Kept(b, newest) == b - {t}
    ensures forall u :: u in b && u != t ==> Behind(newest, u) < Behind(newest, t)
  {
    t := Farthest(b.Keys, newest);
    forall u | u in b && u != t
      ensures Behind(newest, u) < Behind(newest, t) && |Nearer(b.Keys, newest, u)| < 2
    {
      NearerOfThree(b.Keys, newest, t, u);
    }
    assert Nearer(b.Keys, newest, t) == b.Keys - {t};
  }

  lemma NearerOfThree(keys: set<Word>, newest: Word, t: Word, u: Word)
    requires |keys| == 3 && t in keys && u in keys && u != t
    requires forall x :: x in keys ==> Behind(newest, x) <= Behind(newest, t)
    ensures Behind(newest, u) < Behind(newest, t) && |Nearer(keys, newest, u)| < 2
  {
    BehindDistinct(newest, u, t);
    assert |keys - {t} - {u}| == 1;
    CardinalityBound(Nearer(keys, newest, u), keys - {t} - {u});
  }

  lemma NotedKeeps(s: State, timestamp: Word)
    requires |s.building| <= 3
    ensures |Noted(s, timestamp).building| == Min(|s.building|, IN_FLIGHT)
    ensures forall t :: t in Noted(s, timestamp).building ==>
              t in s.building && Noted(s, timestamp).building[t] == s.building[t]
  {
    if |s.building| == 3 {
      var t := OneOfThreeGoes(s.building, Newer(s.newest, timestamp));
    }
  }

  lemma PlaceKeeps(p: Partial, index: nat, data: seq<Byte>)
    requires index < |p.pieces| && p.have == Count(p.pieces)
    ensures var q := Place(p, index, data); q.have == Count(q.pieces) && |q.pieces| == |p.pieces|
  {
    if p.pieces[index].None? { CountPlaced(p.pieces, index, data); }
  }

  /** The state with a fragment in its place: at most three part-built pictures, all but this one unfinished, and
      this one already there before if it is finished now. */
  lemma GrownIsSound(s: State, timestamp: Word, index: nat, count: nat, data: seq<Byte>)
    requires Healthy(s) && index < count && count != 1
    requires timestamp in s.building ==> |s.building[timestamp].pieces| == count
    ensures var g := Grown(s, timestamp, index, count, data); var p := g.building[timestamp];
            && |g.building| <= 3 && g.building.Keys == s.building.Keys + {timestamp}
            && |p.pieces| == count && p.have == Count(p.pieces)
            && (p.have == count ==> timestamp in s.building && |g.building| <= IN_FLIGHT)
  {
    CountEmpty(count);
    var partial := if timestamp in s.building then s.building[timestamp] else Empty(count);
    PlaceKeeps(partial, index, data);
    var g := Grown(s, timestamp, index, count, data);
    assert g.building.Keys == s.building.Keys + {timestamp};
    if timestamp in s.building { assert s.building.Keys + {timestamp} == s.building.Keys; }
  }

  /** Whatever bytes arrive, at most two pictures stay part-built, and the one a fragment completes is returned in
      that very step, which gives up on nothing. */
  lemma FeedIsHealthy(s: State, timestamp: Word, payload: seq<Byte>)
    requires Healthy(s)
    ensures Healthy(Fed(s, timestamp, payload).state)
    ensures match ReadFragment(payload)
            case None => true
            case Some((index, count, data)) =>
              count != 1 && (timestamp in s.building ==> |s.building[timestamp].pieces| == count) ==>
                CompletesAtOnce(s, timestamp, payload, index, count, data)
  {
    match ReadFragment(payload)
    case None =>
    case Some((index, count, data)) =>
      if count == 1 {
        NotedKeeps(s, timestamp);
      } else if timestamp in s.building && |s.building[timestamp].pieces| != count {
      } else {
        PlacedIsHealthy(s, timestamp, payload, index, count, data);
        PlacedCompletes(s, timestamp, payload, index, count, data);
      }
  }

  /** A picture all of whose fragments are there is returned now, and nothing is given up on. */
  ghost predicate CompletesAtOnce(s: State, timestamp: Word, payload: seq<Byte>,
                                  index: nat, count: nat, data: seq<Byte>)
    requires ReadFragment(payload) == Some((index, count, data)) && index < count && count != 1
    requires timestamp in s.building ==> |s.building[timestamp].pieces| == count
  {
    var p := Grown(s, timestamp, index, count, data).building[timestamp];
    p.have == |p.pieces| ==>
      Fed(s, timestamp, payload)
      == Outcome(State(s.building - {timestamp}, Some(Newer(s.newest, timestamp))), Some(Assembled(p.pieces)), 0)
  }

  lemma PlacedIsHealthy(s: State, timestamp: Word, payload: seq<Byte>, index: nat, count: nat, data: seq<Byte>)
    requires Healthy(s) && ReadFragment(payload) == Some((index, count, data)) && index < count && count != 1
    requires timestamp in s.building ==> |s.building[timestamp].pieces| == count
    ensures Healthy(Fed(s, timestamp, payload).state)
  {
    GrownIsSound(s, timestamp, index, count, data);
    var g := Grown(s, timestamp, index, count, data);
    NotedKeeps(g, timestamp);
    forall t | t in Fed(s, timestamp, payload).state.building
      ensures Unfinished(Fed(s, timestamp, payload).state.building[t])
    {
      assert g.building[t] == if t == timestamp then g.building[timestamp] else s.building[t];
    }
  }

  lemma PlacedCompletes(s: State, timestamp: Word, payload: seq<Byte>, index: nat, count: nat, data: seq<Byte>)
    requires Healthy(s) && ReadFragment(payload) == Some((index, count, data)) && index < count && count != 1
    requires timestamp in s.building ==> |s.building[timestamp].pieces| == count
    ensures CompletesAtOnce(s, timestamp, payload, index, count, data)
  {
    GrownIsSound(s, timestamp, index, count, data);
    var g := Grown(s, timestamp, index, count, data);
    NotedKeeps(g, timestamp);
    if g.building[timestamp].have == |g.building[timestamp].pieces| {
      assert g.building - {timestamp} == s.building - {timestamp};
    }
  }

  // ------------------------------------------------------------------ accounting, for any bytes at all

  datatype Tally = Tally(state: State, created: nat, completed: nat, dropped: nat)

  ghost predicate Creates(s: State, timestamp: Word, payload: seq<Byte>) {
    var f := ReadFragment(payload);
    f.Some? && f.value.1 != 1 && timestamp !in s.building
  }

  ghost predicate Completes(s: State, timestamp: Word, payload: seq<Byte>) {
    var f := ReadFragment(payload);
    f.Some? && f.value.1 != 1 && Fed(s, timestamp, payload).picture.Some?
  }

  ghost function Tallied(ds: seq<(Word, seq<Byte>)>): Tally {
    if ds == [] then Tally(INITIAL, 0, 0, 0)
    else
      var t, d := Tallied(ds[..|ds| - 1]), ds[|ds| - 1];
      var o := Fed(t.state, d.0, d.1);
      Tally(o.state,
            t.created + (if Creates(t.state, d.0, d.1) then 1 else 0),
            t.completed + (if Completes(t.state, d.0, d.1) then 1 else 0),
            t.dropped + o.dropped)
  }

  lemma StepBalances(s: State, timestamp: Word, payload: seq<Byte>)
    ensures |s.building| + (if Creates(s, timestamp, payload) then 1 else 0)
         == |Fed(s, timestamp, payload).state.building|
          + (if Completes(s, timestamp, payload) then 1 else 0) + Fed(s, timestamp, payload).dropped
  {
    match ReadFragment(payload)
    case None =>
    case Some((index, count, data)) =>
      if count == 1 {
        KeptIsSmaller(s.building, Newer(s.newest, timestamp));
      } else if timestamp in s.building && |s.building[timestamp].pieces| != count {
        assert (s.building - {timestamp}).Keys == s.building.Keys - {timestamp};
      } else {
        PlacedBalances(s, timestamp, index, count, data);
      }
  }

  lemma PlacedBalances(s: State, timestamp: Word, index: nat, count: nat, data: seq<Byte>)
    requires index < count && (timestamp in s.building ==> |s.building[timestamp].pieces| == count)
    ensures var o := FedPiece(s, timestamp, index, count, data);
            |s.building| + (if timestamp in s.building then 0 else 1)
            == |o.state.building| + (if o.picture.Some? then 1 else 0) + o.dropped
  {
    var g := Grown(s, timestamp, index, count, data);
    KeptIsSmaller(g.building, Newer(s.newest, timestamp));
    var t := Noted(g, timestamp);
    assert g.building.Keys == s.building.Keys + {timestamp};
    assert (t.building - {timestamp}).Keys == t.building.Keys - {timestamp};
  }

  /** Every entry ever made was returned, was given up on, or is still being built, of which there are at most two. */
  lemma {:induction false} EveryEntryIsAccountedFor(ds: seq<(Word, seq<Byte>)>)
    ensures var t := Tallied(ds);
            Healthy(t.state) && t.created == t.completed + t.dropped + |t.state.building|
    decreases |ds|
  {
    if ds != [] {
      var t, d := Tallied(ds[..|ds| - 1]), ds[|ds| - 1];
      EveryEntryIsAccountedFor(ds[..|ds| - 1]);
      FeedIsHealthy(t.state, d.0, d.1);
      StepBalances(t.state, d.0, d.1);
    }
  }

  // ------------------------------------------------------------------ exactness

  /** The pictures of one share, by the timestamp each was sent under. */
  type Sent = map<Word, seq<Byte>>

  ghost predicate Sendable(sent: Sent) {
    forall t :: t in sent ==> |Chunks(sent[t])| < U16
  }

  /** One datagram arriving: some fragment of some picture sent. */
  datatype Delivery = Delivery(timestamp: Word, index: nat)

  ghost predicate IsSent(sent: Sent, d: Delivery) {
    d.timestamp in sent && d.index < |Chunks(sent[d.timestamp])|
  }

  ghost function Deliver(sent: Sent, s: State, d: Delivery): Outcome
    requires IsSent(sent, d)
  {
    var f := Fragments(sent[d.timestamp])[d.index];
    Fed(s, d.timestamp, Payload(f.0, f.1, f.2))
  }

  /** What is held of each picture is that picture's own. */
  ghost predicate Genuine(sent: Sent, b: Building) {
    forall t :: t in b ==>
      && t in sent && |b[t].pieces| == |Chunks(sent[t])|
      && forall i :: 0 <= i < |b[t].pieces| && b[t].pieces[i].Some? ==> b[t].pieces[i].value == Chunks(sent[t])[i]
  }

  lemma {:induction false} AssembledWhole(pieces: seq<Option<seq<Byte>>>, chunks: seq<seq<Byte>>)
    requires |pieces| == |chunks| && forall i :: 0 <= i < |pieces| ==> pieces[i] == Some(chunks[i])
    ensures Assembled(pieces) == Flat(chunks)
    decreases |pieces|
  {
    if pieces != [] { AssembledWhole(pieces[1..], chunks[1..]); }
  }

  lemma GrownIsGenuine(sent: Sent, s: State, d: Delivery)
    requires Genuine(sent, s.building) && IsSent(sent, d)
    ensures var c := Chunks(sent[d.timestamp]);
            Genuine(sent, Grown(s, d.timestamp, d.index, |c|, c[d.index]).building)
  {
  }

  /** One delivery in the terms of the picture it belongs to. */
  lemma DeliverIs(sent: Sent, s: State, d: Delivery)
    requires Sendable(sent) && IsSent(sent, d)
    ensures var c := Chunks(sent[d.timestamp]);
            Deliver(sent, s, d) ==
              if |c| == 1 then Outcome(Noted(s, d.timestamp), Some(c[0]), GivenUp(s, d.timestamp))
              else FedPiece(s, d.timestamp, d.index, |c|, c[d.index])
  {
    FragmentArrives(sent[d.timestamp], d.index);
  }

  lemma LoneFragmentIsExact(sent: Sent, s: State, d: Delivery)
    requires Sendable(sent) && IsSent(sent, d) && Healthy(s) && Genuine(sent, s.building)
    requires |Chunks(sent[d.timestamp])| == 1
    ensures var o := Deliver(sent, s, d); Genuine(sent, o.state.building) && o.picture == Some(sent[d.timestamp])
  {
    DeliverIs(sent, s, d);
    NotedKeeps(s, d.timestamp);
    ChunksConcat(sent[d.timestamp]);
    var c := Chunks(sent[d.timestamp]);
    assert c[0] + [] == c[0];
  }

  lemma PieceIsExact(sent: Sent, s: State, d: Delivery)
    requires Sendable(sent) && IsSent(sent, d) && Healthy(s) && Genuine(sent, s.building)
    requires |Chunks(sent[d.timestamp])| != 1
    ensures var o := Deliver(sent, s, d);
            Genuine(sent, o.state.building) && (o.picture.Some? ==> o.picture.value == sent[d.timestamp])
  {
    var c := Chunks(sent[d.timestamp]);
    DeliverIs(sent, s, d);
    GrownIsGenuine(sent, s, d);
    GrownIsSound(s, d.timestamp, d.index, |c|, c[d.index]);
    var g := Grown(s, d.timestamp, d.index, |c|, c[d.index]);
    NotedKeeps(g, d.timestamp);
    WholeIsExact(sent[d.timestamp], g.building[d.timestamp]);
  }

  lemma WholeIsExact(frame: seq<Byte>, p: Partial)
    requires |p.pieces| == |Chunks(frame)| && p.have == Count(p.pieces)
    requires forall i :: 0 <= i < |p.pieces| && p.pieces[i].Some? ==> p.pieces[i].value == Chunks(frame)[i]
    ensures p.have == |p.pieces| ==> Assembled(p.pieces) == frame
  {
    if p.have == |p.pieces| {
      AssembledWhole(p.pieces, Chunks(frame));
      ChunksConcat(frame);
    }
  }

  lemma DeliverIsExact(sent: Sent, s: State, d: Delivery)
    requires Sendable(sent) && IsSent(sent, d) && Healthy(s) && Genuine(sent, s.building)
    ensures var o := Deliver(sent, s, d);
            && Healthy(o.state) && Genuine(sent, o.state.building)
            && (o.picture.Some? ==> o.picture.value == sent[d.timestamp])
  {
    var f := Fragments(sent[d.timestamp])[d.index];
    FeedIsHealthy(s, d.timestamp, Payload(f.0, f.1, f.2));
    if |Chunks(sent[d.timestamp])| == 1 { LoneFragmentIsExact(sent, s, d); } else { PieceIsExact(sent, s, d); }
  }

  ghost function After(sent: Sent, ds: seq<Delivery>): State
    requires forall k :: 0 <= k < |ds| ==> IsSent(sent, ds[k])
    decreases |ds|
  {
    if ds == [] then INITIAL else Deliver(sent, After(sent, ds[..|ds| - 1]), ds[|ds| - 1]).state
  }

  /** However the fragments are lost, reordered, repeated and mixed, a picture that comes out is byte for byte the
      one sent under its timestamp. */
  lemma {:induction false} EveryPictureIsExact(sent: Sent, ds: seq<Delivery>, d: Delivery)
    requires Sendable(sent) && IsSent(sent, d)
    requires forall k :: 0 <= k < |ds| ==> IsSent(sent, ds[k])
    ensures Healthy(After(sent, ds)) && Genuine(sent, After(sent, ds).building)
    ensures var o := Deliver(sent, After(sent, ds), d); o.picture.Some? ==> o.picture.value == sent[d.timestamp]
    decreases |ds|
  {
    if ds != [] { EveryPictureIsExact(sent, ds[..|ds| - 1], ds[|ds| - 1]); }
    if ds != [] { DeliverIsExact(sent, After(sent, ds[..|ds| - 1]), ds[|ds| - 1]); }
    DeliverIsExact(sent, After(sent, ds), d);
  }

  // ------------------------------------------------------------------ eviction and delivery, in true time

  /** How long after `lo` a picture was stamped, when everything is stamped within half a turn of it. */
  function Age(lo: Word, t: Word): nat { if t >= lo then t - lo else t + U32 - lo }

  ghost predicate Windowed(lo: Word, s: State) {
    && (s.newest.None? ==> s.building == map[])
    && (s.newest.Some? ==> Age(lo, s.newest.value) < HALF)
    && forall t :: t in s.building ==> Age(lo, t) <= Age(lo, s.newest.value)
  }

  /** Within the window, circular distance is true distance. */
  lemma BehindIsOlder(lo: Word, a: Word, b: Word)
    requires Age(lo, a) < HALF && Age(lo, b) < HALF
    ensures Behind(a, b) < HALF <==> Age(lo, b) <= Age(lo, a)
    ensures Age(lo, b) <= Age(lo, a) ==> Behind(a, b) == Age(lo, a) - Age(lo, b)
  {
    DivModUnique(a - b, U32, if a >= b then 0 else -1, if a >= b then a - b else a - b + U32);
  }

  /** Within it, what counts as the newest is the later of the newest so far and what comes. */
  lemma NewestIsLatest(lo: Word, newest: Word, t: Word)
    requires Age(lo, newest) < 0x7FFF_FFFF && Age(lo, t) < 0x7FFF_FFFF
    ensures Newer(Some(newest), t) == if Age(lo, t) >= Age(lo, newest) then t else newest
    ensures Newer(None, t) == t
  {
    BehindIsOlder(lo, t, newest);
  }

  /** The pictures stamped after `t` that are part-built. */
  ghost function NewerOnes(lo: Word, b: Building, t: Word): set<Word> {
    set u | u in b && Age(lo, u) > Age(lo, t)
  }

  /** Taking note of a timestamp abandons exactly the pictures with two or more newer ones part-built. */
  lemma OnlyTheOldestGoes(lo: Word, s: State, timestamp: Word)
    requires |s.building| <= 3 && Age(lo, timestamp) < HALF
    requires s.newest.Some? ==> Age(lo, s.newest.value) < HALF
    requires forall t :: t in s.building && t != timestamp ==> s.newest.Some? && Age(lo, t) <= Age(lo, s.newest.value)
    ensures forall t :: t in s.building ==>
              (t in Noted(s, timestamp).building <==> |NewerOnes(lo, s.building, t)| < IN_FLIGHT)
    ensures Windowed(lo, Noted(s, timestamp))
  {
    var newest := Newer(s.newest, timestamp);
    if s.newest.Some? { BehindIsOlder(lo, timestamp, s.newest.value); }
    NotedKeeps(s, timestamp);
    forall t | t in s.building
      ensures Age(lo, t) <= Age(lo, newest)
      ensures t in Noted(s, timestamp).building <==> |NewerOnes(lo, s.building, t)| < IN_FLIGHT
    {
      BehindIsOlder(lo, newest, t);
      forall u | u in s.building
        ensures Behind(newest, u) < Behind(newest, t) <==> Age(lo, u) > Age(lo, t)
      {
        BehindIsOlder(lo, newest, u);
      }
      assert NewerOnes(lo, s.building, t) == Nearer(s.building.Keys, newest, t);
      assert t !in NewerOnes(lo, s.building, t);
      CardinalityBound(NewerOnes(lo, s.building, t), s.building.Keys - {t});
    }
  }

  /** The fragments held of one picture. */
  ghost function Held(b: Building, t: Word): set<nat> {
    if t in b then HeldOf(b[t]) else {}
  }

  ghost function HeldOf(p: Partial): set<nat> {
    set i: nat | i < |p.pieces| && p.pieces[i].Some?
  }

  lemma HeldPlaced(p: Partial, index: nat, data: seq<Byte>)
    requires index < |p.pieces|
    ensures HeldOf(Place(p, index, data)) == HeldOf(p) + {index}
  {
  }

  lemma HeldFull(p: Partial)
    requires p.have == Count(p.pieces)
    ensures p.have == |p.pieces| <==> HeldOf(p) == Indices(|p.pieces|)
  {
    if HeldOf(p) == Indices(|p.pieces|) {
      forall i | 0 <= i < |p.pieces|
        ensures p.pieces[i].Some?
      {
        var k: nat := i;
        assert k in Indices(|p.pieces|);
      }
      CountFull(p.pieces);
    }
  }

  /** Just before anything is given up on, fewer than two newer pictures than `t` are part-built. */
  ghost predicate Undisturbed(lo: Word, sent: Sent, s: State, d: Delivery, t: Word)
    requires IsSent(sent, d)
  {
    var c := Chunks(sent[d.timestamp]);
    var b := if |c| == 1 || (d.timestamp in s.building && |s.building[d.timestamp].pieces| != |c|) then s.building
             else Grown(s, d.timestamp, d.index, |c|, c[d.index]).building;
    |NewerOnes(lo, b, t)| < IN_FLIGHT
  }

  ghost predicate Good(lo: Word, sent: Sent, s: State) {
    Sendable(sent) && Healthy(s) && Genuine(sent, s.building) && Windowed(lo, s)
  }

  lemma DeliverIsGood(lo: Word, sent: Sent, s: State, d: Delivery)
    requires Good(lo, sent, s) && IsSent(sent, d) && Age(lo, d.timestamp) < HALF
    ensures Good(lo, sent, Deliver(sent, s, d).state)
  {
    DeliverIsExact(sent, s, d);
    DeliverIs(sent, s, d);
    var c := Chunks(sent[d.timestamp]);
    if |c| == 1 {
      OnlyTheOldestGoes(lo, s, d.timestamp);
    } else {
      GrownIsSound(s, d.timestamp, d.index, |c|, c[d.index]);
      OnlyTheOldestGoes(lo, Grown(s, d.timestamp, d.index, |c|, c[d.index]), d.timestamp);
    }
  }

  lemma {:induction false} CountFull(pieces: seq<Option<seq<Byte>>>)
    requires forall i :: 0 <= i < |pieces| ==> pieces[i].Some?
    ensures Count(pieces) == |pieces|
    decreases |pieces|
  {
    if pieces != [] { CountFull(pieces[1..]); }
  }

  ghost function AllOf(sent: Sent, t: Word): set<nat>
    requires t in sent
  {
    Indices(|Chunks(sent[t])|)
  }

  ghost function Indices(n: nat): (s: set<nat>)
    ensures forall i: nat :: i in s <==> i < n
  {
    if n == 0 then {} else Indices(n - 1) + {n - 1}
  }

  /** A delivery of another picture leaves what is held of an undisturbed one alone. */
  lemma OthersLeaveHeld(lo: Word, sent: Sent, s: State, d: Delivery, t: Word)
    requires Good(lo, sent, s) && IsSent(sent, d) && Age(lo, d.timestamp) < HALF && t != d.timestamp
    requires Undisturbed(lo, sent, s, d, t)
    ensures var b := Deliver(sent, s, d).state.building;
            (t in b <==> t in s.building) && (t in b ==> b[t] == s.building[t])
  {
    DeliverIs(sent, s, d);
    var c := Chunks(sent[d.timestamp]);
    if |c| == 1 {
      OnlyTheOldestGoes(lo, s, d.timestamp);
      NotedKeeps(s, d.timestamp);
    } else {
      GrownIsSound(s, d.timestamp, d.index, |c|, c[d.index]);
      var g := Grown(s, d.timestamp, d.index, |c|, c[d.index]);
      OnlyTheOldestGoes(lo, g, d.timestamp);
      NotedKeeps(g, d.timestamp);
    }
  }

  lemma HeldGrown(sent: Sent, s: State, d: Delivery)
    requires Healthy(s) && Genuine(sent, s.building) && IsSent(sent, d) && |Chunks(sent[d.timestamp])| > 1
    ensures var c := Chunks(sent[d.timestamp]);
            var p := Grown(s, d.timestamp, d.index, |c|, c[d.index]).building[d.timestamp];
            && HeldOf(p) == Held(s.building, d.timestamp) + {d.index}
            && (HeldOf(p) == AllOf(sent, d.timestamp) <==> p.have == |p.pieces|)
  {
    var c := Chunks(sent[d.timestamp]);
    GrownIsSound(s, d.timestamp, d.index, |c|, c[d.index]);
    var partial := if d.timestamp in s.building then s.building[d.timestamp] else Empty(|c|);
    HeldPlaced(partial, d.index, c[d.index]);
    assert HeldOf(Empty(|c|)) == {};
    HeldFull(Place(partial, d.index, c[d.index]));
  }

  /** A delivery of an undisturbed picture adds its fragment to what is held, or completes it. */
  lemma OwnGrowsHeld(lo: Word, sent: Sent, s: State, d: Delivery)
    requires Good(lo, sent, s) && IsSent(sent, d) && Age(lo, d.timestamp) < HALF && |Chunks(sent[d.timestamp])| > 1
    requires Undisturbed(lo, sent, s, d, d.timestamp)
    ensures var held := Held(s.building, d.timestamp) + {d.index};
            var o := Deliver(sent, s, d);
            if held == AllOf(sent, d.timestamp) then o.picture == Some(sent[d.timestamp])
            else Held(o.state.building, d.timestamp) == held
  {
    DeliverIs(sent, s, d);
    DeliverIsExact(sent, s, d);
    OwnStays(lo, sent, s, d);
    HeldGrown(sent, s, d);
  }

  lemma OwnStays(lo: Word, sent: Sent, s: State, d: Delivery)
    requires Good(lo, sent, s) && IsSent(sent, d) && Age(lo, d.timestamp) < HALF && |Chunks(sent[d.timestamp])| > 1
    requires Undisturbed(lo, sent, s, d, d.timestamp)
    ensures var c := Chunks(sent[d.timestamp]);
            var g := Grown(s, d.timestamp, d.index, |c|, c[d.index]);
            var b := Noted(g, d.timestamp).building;
            d.timestamp in b && b[d.timestamp] == g.building[d.timestamp]
  {
    var c := Chunks(sent[d.timestamp]);
    GrownIsSound(s, d.timestamp, d.index, |c|, c[d.index]);
    var g := Grown(s, d.timestamp, d.index, |c|, c[d.index]);
    OnlyTheOldestGoes(lo, g, d.timestamp);
    NotedKeeps(g, d.timestamp);
  }

  ghost function Advance(sent: Sent, s: State, ds: seq<Delivery>): State
    requires forall k :: 0 <= k < |ds| ==> IsSent(sent, ds[k])
    decreases |ds|
  {
    if ds == [] then s else Deliver(sent, Advance(sent, s, ds[..|ds| - 1]), ds[|ds| - 1]).state
  }

  ghost function Seen(ds: seq<Delivery>, t: Word): set<nat> {
    set k | 0 <= k < |ds| && ds[k].timestamp == t :: ds[k].index
  }

  /** The conditions of a run: everything sent, stamped inside the window, and `t` undisturbed at every step. */
  ghost predicate Calm(lo: Word, sent: Sent, s: State, ds: seq<Delivery>, t: Word) {
    && (forall k :: 0 <= k < |ds| ==> IsSent(sent, ds[k]) && Age(lo, ds[k].timestamp) < HALF)
    && (forall k :: 0 <= k < |ds| ==> Undisturbed(lo, sent, Advance(sent, s, ds[..k]), ds[k], t))
  }

  lemma CalmPrefix(lo: Word, sent: Sent, s: State, ds: seq<Delivery>, d: Delivery, t: Word)
    requires Calm(lo, sent, s, ds + [d], t)
    ensures Calm(lo, sent, s, ds, t)
    ensures IsSent(sent, d) && Age(lo, d.timestamp) < HALF && Undisturbed(lo, sent, Advance(sent, s, ds), d, t)
  {
    var all := ds + [d];
    assert forall k :: 0 <= k < |ds| ==> all[k] == ds[k] && all[..k] == ds[..k];
    assert all[|ds|] == d && all[..|ds|] == ds;
  }

  /** Up to the last missing fragment, what is held of an undisturbed picture is what has been seen of it. */
  lemma {:induction false} HeldIsSeen(lo: Word, sent: Sent, s: State, ds: seq<Delivery>, t: Word)
    requires Good(lo, sent, s) && t in sent && |Chunks(sent[t])| > 1 && t !in s.building
    requires Calm(lo, sent, s, ds, t) && Seen(ds, t) < AllOf(sent, t)
    ensures var e := Advance(sent, s, ds); Good(lo, sent, e) && Held(e.building, t) == Seen(ds, t)
    decreases |ds|
  {
    if ds != [] {
      var before, d := ds[..|ds| - 1], ds[|ds| - 1];
      LastApart(ds);
      CalmPrefix(lo, sent, s, before, d, t);
      SeenGrows(before, d, t);
      HeldIsSeen(lo, sent, s, before, t);
      OneMoreHeld(lo, sent, s, before, d, t);
    }
  }

  lemma OneMoreHeld(lo: Word, sent: Sent, s: State, ds: seq<Delivery>, d: Delivery, t: Word)
    requires t in sent && |Chunks(sent[t])| > 1 && forall k :: 0 <= k < |ds| ==> IsSent(sent, ds[k])
    requires var m := Advance(sent, s, ds);
             && Good(lo, sent, m) && Held(m.building, t) == Seen(ds, t)
             && IsSent(sent, d) && Age(lo, d.timestamp) < HALF && Undisturbed(lo, sent, m, d, t)
    requires Seen(ds + [d], t) < AllOf(sent, t)
    ensures forall k :: 0 <= k < |ds + [d]| ==> IsSent(sent, (ds + [d])[k])
    ensures var e := Advance(sent, s, ds + [d]); Good(lo, sent, e) && Held(e.building, t) == Seen(ds + [d], t)
  {
    SeenGrows(ds, d, t);
    HeldStep(lo, sent, Advance(sent, s, ds), d, t, Seen(ds, t));
    AdvanceOne(sent, s, ds, d);
  }

  lemma AdvanceOne(sent: Sent, s: State, ds: seq<Delivery>, d: Delivery)
    requires IsSent(sent, d) && forall k :: 0 <= k < |ds| ==> IsSent(sent, ds[k])
    ensures forall k :: 0 <= k < |ds + [d]| ==> IsSent(sent, (ds + [d])[k])
    ensures Advance(sent, s, ds + [d]) == Deliver(sent, Advance(sent, s, ds), d).state
  {
    assert (ds + [d])[..|ds|] == ds;
  }

  /** One delivery, short of the last missing fragment. */
  lemma HeldStep(lo: Word, sent: Sent, m: State, d: Delivery, t: Word, seen: set<nat>)
    requires Good(lo, sent, m) && IsSent(sent, d) && Age(lo, d.timestamp) < HALF && Undisturbed(lo, sent, m, d, t)
    requires t in sent && |Chunks(sent[t])| > 1 && Held(m.building, t) == seen
    requires seen + (if d.timestamp == t then {d.index} else {}) < AllOf(sent, t)
    ensures var e := Deliver(sent, m, d).state;
      Good(lo, sent, e) && Held(e.building, t) == seen + if d.timestamp == t then {d.index} else {}
  {
    DeliverIsGood(lo, sent, m, d);
    if d.timestamp == t { OwnGrowsHeld(lo, sent, m, d); } else { OthersLeaveHeld(lo, sent, m, d, t); }
  }

  lemma SeenGrows(ds: seq<Delivery>, d: Delivery, t: Word)
    ensures Seen(ds + [d], t) == Seen(ds, t) + (if d.timestamp == t then {d.index} else {})
  {
    var more := ds + [d];
    forall i | i in Seen(ds, t)
      ensures i in Seen(more, t)
    {
      var k :| 0 <= k < |ds| && ds[k].timestamp == t && ds[k].index == i;
      assert more[k] == ds[k];
    }
    if d.timestamp == t { assert more[|ds|] == d && d.index in Seen(more, t); }
    forall i | i in Seen(more, t)
      ensures i in Seen(ds, t) + (if d.timestamp == t then {d.index} else {})
    {
      var k :| 0 <= k < |more| && more[k].timestamp == t && more[k].index == i;
      if k < |ds| { assert ds[k] == more[k]; }
    }
  }

  /** A picture that never has two newer ones part-built beside it is returned, whole and exact, by the very
      delivery that brings its last missing fragment, in whatever order and however often the others came. */
  lemma LastFragmentDelivers(lo: Word, sent: Sent, s: State, ds: seq<Delivery>, d: Delivery)
    requires Good(lo, sent, s) && d.timestamp in sent && |Chunks(sent[d.timestamp])| > 1 && d.timestamp !in s.building
    requires Calm(lo, sent, s, ds + [d], d.timestamp)
    requires Seen(ds, d.timestamp) < AllOf(sent, d.timestamp) == Seen(ds + [d], d.timestamp)
    ensures forall k :: 0 <= k < |ds| ==> IsSent(sent, ds[k])
    ensures IsSent(sent, d) && Deliver(sent, Advance(sent, s, ds), d).picture == Some(sent[d.timestamp])
  {
    CalmPrefix(lo, sent, s, ds, d, d.timestamp);
    SeenGrows(ds, d, d.timestamp);
    HeldIsSeen(lo, sent, s, ds, d.timestamp);
    OwnGrowsHeld(lo, sent, Advance(sent, s, ds), d);
  }

  // ------------------------------------------------------------------ one newer picture at a time

  /** Nothing newer than `t` has several fragments, but for `u`. */
  ghost predicate OneNewer(lo: Word, sent: Sent, d: Delivery, t: Word, u: Word)
    requires IsSent(sent, d)
  {
    Age(lo, d.timestamp) <= Age(lo, t) || d.timestamp == u || |Chunks(sent[d.timestamp])| == 1
  }

  ghost predicate OneNewerBuilt(lo: Word, b: Building, t: Word, u: Word) {
    forall x :: x in b ==> Age(lo, x) <= Age(lo, t) || x == u
  }

  lemma StillOneNewer(lo: Word, sent: Sent, s: State, d: Delivery, t: Word, u: Word)
    requires Sendable(sent) && IsSent(sent, d) && OneNewer(lo, sent, d, t, u) && OneNewerBuilt(lo, s.building, t, u)
    ensures OneNewerBuilt(lo, Deliver(sent, s, d).state.building, t, u)
  {
    DeliverIs(sent, s, d);
  }

  lemma {:induction false} AlwaysOneNewer(lo: Word, sent: Sent, s: State, ds: seq<Delivery>, t: Word, u: Word)
    requires Sendable(sent) && OneNewerBuilt(lo, s.building, t, u)
    requires forall k :: 0 <= k < |ds| ==> IsSent(sent, ds[k]) && OneNewer(lo, sent, ds[k], t, u)
    ensures OneNewerBuilt(lo, Advance(sent, s, ds).building, t, u)
    decreases |ds|
  {
    if ds != [] {
      AlwaysOneNewer(lo, sent, s, ds[..|ds| - 1], t, u);
      StillOneNewer(lo, sent, Advance(sent, s, ds[..|ds| - 1]), ds[|ds| - 1], t, u);
    }
  }

  lemma OneIsFew(lo: Word, b: Building, t: Word, u: Word)
    requires OneNewerBuilt(lo, b, t, u)
    ensures |NewerOnes(lo, b, t)| < IN_FLIGHT
  {
    CardinalityBound(NewerOnes(lo, b, t), {u});
  }

  lemma UndisturbedByOne(lo: Word, sent: Sent, s: State, d: Delivery, t: Word, u: Word)
    requires IsSent(sent, d) && OneNewer(lo, sent, d, t, u) && OneNewerBuilt(lo, s.building, t, u)
    ensures Undisturbed(lo, sent, s, d, t)
  {
    var c := Chunks(sent[d.timestamp]);
    OneIsFew(lo, s.building, t, u);
    if !(|c| == 1 || (d.timestamp in s.building && |s.building[d.timestamp].pieces| != |c|)) {
      OneIsFew(lo, Grown(s, d.timestamp, d.index, |c|, c[d.index]).building, t, u);
    }
  }

  /** As long as the fragments that arrive are of at most one newer picture of several, and of any number of older ones
      or of single fragments, a picture comes out with its last missing fragment, whatever is lost, repeated or out of
      order. */
  lemma ArrivesBesideOneNewer(lo: Word, sent: Sent, s: State, ds: seq<Delivery>, d: Delivery, u: Word)
    requires Good(lo, sent, s) && d.timestamp in sent && |Chunks(sent[d.timestamp])| > 1 && d.timestamp !in s.building
    requires OneNewerBuilt(lo, s.building, d.timestamp, u)
    requires forall k :: 0 <= k < |ds + [d]| ==>
      IsSent(sent, (ds + [d])[k]) && Age(lo, (ds + [d])[k].timestamp) < HALF
      && OneNewer(lo, sent, (ds + [d])[k], d.timestamp, u)
    requires Seen(ds, d.timestamp) < AllOf(sent, d.timestamp) == Seen(ds + [d], d.timestamp)
    ensures forall k :: 0 <= k < |ds| ==> IsSent(sent, ds[k])
    ensures IsSent(sent, d) && Deliver(sent, Advance(sent, s, ds), d).picture == Some(sent[d.timestamp])
  {
    var all, t := ds + [d], d.timestamp;
    forall k | 0 <= k < |all|
      ensures Undisturbed(lo, sent, Advance(sent, s, all[..k]), all[k], t)
    {
      AlwaysOneNewer(lo, sent, s, all[..k], t, u);
      UndisturbedByOne(lo, sent, Advance(sent, s, all[..k]), all[k], t, u);
    }
    LastFragmentDelivers(lo, sent, s, ds, d);
  }
}
