/** Fragments back into pictures, over a network that loses, reorders and duplicates them. */
module Reassembler {
  import opened Arith
  import opened Common
  import opened Media

  const IN_FLIGHT := 2
  /** `u32::MAX / 2`. */
  const HALF := 0x7FFF_FFFF

  /** `a.wrapping_sub(b)` on 32-bit words: how far `b` is behind `a`, going round. */
  function Behind(a: int, b: int): (d: nat)
    ensures d < U32
  {
    (a - b) % U32
  }

  // ------------------------------------------------------------------ one picture being put together

  datatype Partial = Partial(pieces: seq<Option<seq<Byte>>>, have: nat)

  function Empty(count: nat): Partial { Partial(seq(count, i => None), 0) }

  function Place(p: Partial, index: nat, data: seq<Byte>): Partial
    requires index < |p.pieces|
  {
    if p.pieces[index].None? then Partial(p.pieces[index := Some(data)], p.have + 1) else p
  }

  /** The pieces that are there, end to end. */
  function Assembled(pieces: seq<Option<seq<Byte>>>): seq<Byte> {
    if pieces == [] then []
    else (match pieces[0] case None => [] case Some(d) => d) + Assembled(pieces[1..])
  }

  ghost function Count(pieces: seq<Option<seq<Byte>>>): (n: nat)
    ensures n <= |pieces|
    ensures n == |pieces| ==> forall i :: 0 <= i < |pieces| ==> pieces[i].Some?
  {
    if pieces == [] then 0 else (if pieces[0].Some? then 1 else 0) + Count(pieces[1..])
  }

  lemma {:induction false} CountPlaced(pieces: seq<Option<seq<Byte>>>, i: nat, d: seq<Byte>)
    requires i < |pieces| && pieces[i].None?
    ensures Count(pieces[i := Some(d)]) == Count(pieces) + 1
    decreases |pieces|
  {
    if i > 0 {
      assert pieces[i := Some(d)][1..] == pieces[1..][i - 1 := Some(d)];
      CountPlaced(pieces[1..], i - 1, d);
    } else {
      assert pieces[i := Some(d)][1..] == pieces[1..];
    }
  }

  lemma {:induction false} CountEmpty(count: nat)
    ensures Count(Empty(count).pieces) == 0
  {
    if count > 0 {
      CountEmpty(count - 1);
      assert Empty(count).pieces[1..] == Empty(count - 1).pieces;
    }
  }

  /** A partial picture as it is kept: at least two fragments, some missing, and an honest count. */
  ghost predicate Unfinished(p: Partial) {
    |p.pieces| >= 2 && p.have == Count(p.pieces) < |p.pieces|
  }

  // ------------------------------------------------------------------ which pictures are given up on

  type Building = map<Word, Partial>

  /** Those of `keys` that are nearer to `newest` than `t` is. */
  ghost function Nearer(keys: set<Word>, newest: Word, t: Word): set<Word> {
    set u | u in keys && Behind(newest, u) < Behind(newest, t)
  }

  /** At most two pictures stay: those fewest steps behind the newest. */
  ghost function Kept(b: Building, newest: Word): Building {
    if |b| <= IN_FLIGHT then b else map t | t in b && |Nearer(b.Keys, newest, t)| < IN_FLIGHT :: b[t]
  }

  function Newer(newest: Option<Word>, timestamp: Word): Word {
    if newest.None? || Behind(timestamp, newest.value) < HALF then timestamp else newest.value
  }

  datatype State = State(building: Building, newest: Option<Word>)

  const INITIAL := State(map[], None)

  datatype Outcome = Outcome(state: State, picture: Option<seq<Byte>>, dropped: nat)

  ghost function Noted(s: State, timestamp: Word): State {
    var newest := Newer(s.newest, timestamp);
    State(Kept(s.building, newest), Some(newest))
  }

  lemma KeptIsSmaller(b: Building, newest: Word)
    ensures |Kept(b, newest)| <= |b|
  {
    CardinalityBound(Kept(b, newest).Keys, b.Keys);
  }

  lemma {:induction false} CardinalityBound(a: set<Word>, b: set<Word>)
    requires a <= b
    ensures |a| <= |b| && (|a| == |b| ==> a == b)
  {
    if a != {} {
      var x :| x in a;
      CardinalityBound(a - {x}, b - {x});
    }
  }

  /** A new fragment put in its place, before anything is given up on. */
  ghost function Grown(s: State, timestamp: Word, index: nat, count: nat, data: seq<Byte>): State
    requires index < count
    requires timestamp in s.building ==> |s.building[timestamp].pieces| == count
  {
    var partial := if timestamp in s.building then s.building[timestamp] else Empty(count);
    s.(building := s.building[timestamp := Place(partial, index, data)])
  }

  /** One of several fragments of a picture. */
  ghost function FedPiece(s: State, timestamp: Word, index: nat, count: nat, data: seq<Byte>): Outcome
    requires index < count
  {
    if timestamp in s.building && |s.building[timestamp].pieces| != count then
      Outcome(s.(building := s.building - {timestamp}), None, 1)
    else
      var grown := Grown(s, timestamp, index, count, data);
      var placed := grown.building[timestamp];
      var t := Noted(grown, timestamp);
      if placed.have == |placed.pieces| && timestamp in t.building then
        Outcome(t.(building := t.building - {timestamp}), Some(Assembled(placed.pieces)), GivenUp(grown, timestamp))
      else
        Outcome(t, None, GivenUp(grown, timestamp))
  }

  ghost function GivenUp(s: State, timestamp: Word): nat {
    KeptIsSmaller(s.building, Newer(s.newest, timestamp));
    |s.building| - |Noted(s, timestamp).building|
  }

  /** One payload, with everything the call does stated on values. */
  ghost function Fed(s: State, timestamp: Word, payload: seq<Byte>): Outcome {
    match ReadFragment(payload)
    case None => Outcome(s, None, 0)
    case Some((index, count, data)) =>
      if count == 1 then Outcome(Noted(s, timestamp), Some(data), GivenUp(s, timestamp))
      else FedPiece(s, timestamp, index, count, data)
  }

  // ------------------------------------------------------------------ the code

  /** `newest.wrapping_sub(*t)` in order, whatever order the map gives its keys in. */
  ghost predicate Ordered(ts: seq<Word>, newest: Word) {
    forall i, j :: 0 <= i < j < |ts| ==> Behind(newest, ts[i]) <= Behind(newest, ts[j])
  }

  lemma InsertKeeps(sorted: seq<Word>, newest: Word, t: Word, n: nat)
    requires Ordered(sorted, newest) && Distinct(sorted) && t !in sorted && n <= |sorted|
    requires forall i :: 0 <= i < n ==> Behind(newest, sorted[i]) <= Behind(newest, t)
    requires n < |sorted| ==> Behind(newest, t) <= Behind(newest, sorted[n])
    ensures var with := sorted[..n] + [t] + sorted[n..];
            Ordered(with, newest) && Distinct(with) && forall x :: x in with <==> x in sorted || x == t
  {
    InsertedOrder(sorted, newest, t, n);
    var with := sorted[..n] + [t] + sorted[n..];
    forall x
      ensures x in with <==> x in sorted || x == t
    {
      InsertedMembers(sorted, t, n, x);
    }
  }

  lemma InsertedMembers(sorted: seq<Word>, t: Word, n: nat, x: Word)
    requires n <= |sorted|
    ensures x in sorted[..n] + [t] + sorted[n..] <==> x in sorted || x == t
  {
    if i :| 0 <= i < |sorted| && sorted[i] == x {
      assert if i < n then sorted[..n][i] == x else sorted[n..][i - n] == x;
    }
  }

  lemma InsertedOrder(sorted: seq<Word>, newest: Word, t: Word, n: nat)
    requires Ordered(sorted, newest) && Distinct(sorted) && t !in sorted && n <= |sorted|
    requires forall i :: 0 <= i < n ==> Behind(newest, sorted[i]) <= Behind(newest, t)
    requires n < |sorted| ==> Behind(newest, t) <= Behind(newest, sorted[n])
    ensures Ordered(sorted[..n] + [t] + sorted[n..], newest) && Distinct(sorted[..n] + [t] + sorted[n..])
  {
    var with := sorted[..n] + [t] + sorted[n..];
    forall i, j | 0 <= i < j < |with|
      ensures Behind(newest, with[i]) <= Behind(newest, with[j]) && with[i] != with[j]
    {
      InsertedAt(sorted, t, n, i);
      InsertedAt(sorted, t, n, j);
      if i == n && j - 1 != n { assert Behind(newest, sorted[n]) <= Behind(newest, sorted[j - 1]); }
    }
  }

  lemma InsertedAt(sorted: seq<Word>, t: Word, n: nat, i: nat)
    requires n <= |sorted| && i <= |sorted|
    ensures (sorted[..n] + [t] + sorted[n..])[i] == if i < n then sorted[i] else if i == n then t else sorted[i - 1]
  {
  }

  method SortByAge(keys: set<Word>, newest: Word) returns (sorted: seq<Word>)
    ensures Ordered(sorted, newest) && Enumerates(sorted, keys)
  {
    sorted := [];
    var rest := keys;
    while rest != {}
      invariant rest <= keys && |sorted| + |rest| == |keys|
      invariant forall t :: t in sorted <==> t in keys && t !in rest
      invariant Ordered(sorted, newest)
      invariant Distinct(sorted)
      decreases |rest|
    {
      var t :| t in rest;
      rest := rest - {t};
      var n := 0;
      while n < |sorted| && Behind(newest, sorted[n]) <= Behind(newest, t)
        invariant n <= |sorted|
        invariant forall i :: 0 <= i < n ==> Behind(newest, sorted[i]) <= Behind(newest, t)
      {
        n := n + 1;
      }
      InsertKeeps(sorted, newest, t, n);
      sorted := sorted[..n] + [t] + sorted[n..];
    }
  }

  class Assembler {
    var building: Building
    var newest: Option<Word>

    ghost function Abs(): State
      reads this
    {
      State(building, newest)
    }

    constructor ()
      ensures Abs() == INITIAL
    {
      building, newest := map[], None;
    }

    method NoteNewest(timestamp: Word) returns (dropped: nat)
      modifies this
      ensures Abs() == Noted(old(Abs()), timestamp)
      ensures dropped == old(|building|) - |building|
    {
      dropped := 0;
      if newest.None? || Behind(timestamp, newest.value) < HALF {
        newest := Some(timestamp);
      }
      if |building| > IN_FLIGHT { dropped := DropStale(newest.value); }
    }

    /** Give up on all but the two nearest `latest`. */
    method DropStale(latest: Word) returns (dropped: nat)
      requires |building| > IN_FLIGHT
      modifies `building
      ensures building == Kept(old(building), latest) && dropped == |old(building)| - |building|
    {
      ghost var before := building;
      var timestamps := SortByAge(building.Keys, latest);
      ghost var gone: seq<Word> := [];
      dropped := 0;
      for n := IN_FLIGHT to |timestamps|
        invariant dropped + |building| == |before|
        invariant gone == timestamps[IN_FLIGHT..n] && building == Without(before, gone)
      {
        var stale := timestamps[n];
        WithoutOneMore(before, timestamps, n);
        building := building - {stale};
        gone := gone + [stale];
        dropped := dropped + 1;
      }
      assert timestamps[IN_FLIGHT..|timestamps|] == timestamps[IN_FLIGHT..];
      KeptBySorting(before, latest, timestamps);
    }

    method Feed(timestamp: Word, payload: seq<Byte>) returns (picture: Option<seq<Byte>>, dropped: nat)
      modifies this
      ensures Outcome(Abs(), picture, dropped) == Fed(old(Abs()), timestamp, payload)
    {
      picture, dropped := None, 0;
      var fragment := ReadFragment(payload);
      if fragment.None? {
        return;
      }
      var (index, count, data) := fragment.value;
      if count == 1 {
        dropped := NoteNewest(timestamp);
        return Some(data), dropped;
      }
      if timestamp !in building {
        building := building[timestamp := Empty(count)];
      }
      var partial := building[timestamp];
      if |partial.pieces| != count {
        building := building - {timestamp};
        return None, 1;
      }
      partial := Place(partial, index, data);
      building := building[timestamp := partial];
      assert Abs() == Grown(old(Abs()), timestamp, index, count, data);
      var complete := partial.have == |partial.pieces|;
      dropped := NoteNewest(timestamp);
      if !complete || timestamp !in building {
        return;
      }
      building := building - {timestamp};
      picture := Some(Assembled(partial.pieces));
    }
  }

  /** Distinct 32-bit words are at distinct distances. */
  lemma BehindDistinct(newest: Word, a: Word, b: Word)
    requires a != b
    ensures Behind(newest, a) != Behind(newest, b)
  {
    if a < b { ModDistinct(newest - a, newest - b, U32); } else { ModDistinct(newest - b, newest - a, U32); }
  }

  ghost function Without(b: Building, gone: seq<Word>): Building {
    map t | t in b && t !in gone :: b[t]
  }

  lemma WithoutOneMore(b: Building, ts: seq<Word>, n: nat)
    requires Enumerates(ts, b.Keys) && IN_FLIGHT <= n < |ts|
    ensures ts[n] in Without(b, ts[IN_FLIGHT..n])
    ensures Without(b, ts[IN_FLIGHT..n]) - {ts[n]} == Without(b, ts[IN_FLIGHT..n] + [ts[n]])
    ensures ts[IN_FLIGHT..n + 1] == ts[IN_FLIGHT..n] + [ts[n]]
  {
    assert ts[n] in ts && ts[n] !in ts[IN_FLIGHT..n];
  }

  ghost predicate Distinct(ts: seq<Word>) {
    forall i, j :: 0 <= i < j < |ts| ==> ts[i] != ts[j]
  }

  ghost predicate Enumerates(ts: seq<Word>, keys: set<Word>) {
    Distinct(ts) && |ts| == |keys| && forall t :: t in ts <==> t in keys
  }

  ghost function SetOf(ts: seq<Word>): set<Word> { set t | t in ts }

  lemma {:induction false} PrefixSize(ts: seq<Word>)
    requires Distinct(ts)
    ensures |SetOf(ts)| == |ts|
    decreases |ts|
  {
    if ts != [] {
      var init, last := ts[..|ts| - 1], ts[|ts| - 1];
      PrefixSize(init);
      LastApart(ts);
      assert SetOf(ts) == SetOf(init) + {last} && last !in SetOf(init);
    }
  }

  lemma RankInOrder(keys: set<Word>, newest: Word, ts: seq<Word>, n: nat)
    requires Ordered(ts, newest) && Enumerates(ts, keys) && n < |ts|
    ensures |Nearer(keys, newest, ts[n])| == n
  {
    var nearer := Nearer(keys, newest, ts[n]);
    forall i | 0 <= i < |ts|
      ensures ts[i] in nearer <==> i < n
    {
      if i != n { BehindDistinct(newest, ts[i], ts[n]); }
    }
    assert nearer == SetOf(ts[..n]);
    PrefixSize(ts[..n]);
  }

  /** Sorting and keeping the first two is keeping those with fewer than two nearer ones: the order the map gives
      its keys in makes no difference. */
  lemma KeptBySorting(b: Building, newest: Word, ts: seq<Word>)
    requires Ordered(ts, newest) && Enumerates(ts, b.Keys) && |ts| > IN_FLIGHT
    ensures Without(b, ts[IN_FLIGHT..]) == Kept(b, newest)
  {
    forall t | t in b
      ensures t in ts[IN_FLIGHT..] <==> |Nearer(b.Keys, newest, t)| >= IN_FLIGHT
    {
      KeptByRank(b.Keys, newest, ts, t);
    }
  }

  lemma KeptByRank(keys: set<Word>, newest: Word, ts: seq<Word>, t: Word)
    requires Ordered(ts, newest) && Enumerates(ts, keys) && |ts| > IN_FLIGHT && t in keys
    ensures t in ts[IN_FLIGHT..] <==> |Nearer(keys, newest, t)| >= IN_FLIGHT
  {
    var n :| 0 <= n < |ts| && ts[n] == t;
    RankInOrder(keys, newest, ts, n);
    if n >= IN_FLIGHT { assert ts[IN_FLIGHT..][n - IN_FLIGHT] == t; }
    forall k: nat | k < |ts| && ts[k] == t
      ensures k == n
    {
      RankInOrder(keys, newest, ts, k);
    }
    assert forall k :: 0 <= k < |ts[IN_FLIGHT..]| ==> ts[IN_FLIGHT..][k] == ts[k + IN_FLIGHT];
  }
}
