/** `Ring` under two threads: the same operations, one atomic load or store at a time.

    A step belongs to the producer or to the consumer, and every order of steps is allowed. Loads and stores
    take effect in the order they are issued, which is what the release stores of the indices and the acquire
    loads facing them give the cells in between. */
module RingInterleaving {
  import opened Arith
  import Common
  import opened Ring

  /** Where the producer is inside `push`. */
  datatype Producer =
    | Idle
    | HaveWrite(samples: seq<Bits>, write: nat)
    | Storing(samples: seq<Bits>, write: nat, taken: nat, done: nat)

  /** Where the consumer is inside `pop` or `clear`. */
  datatype Consumer =
    | Resting
    | HaveRead(room: nat, read: nat)
    | Loading(read: nat, taken: nat, out: seq<Bits>)
    | Clearing(write: nat)

  /** What one finished call of the consumer did. */
  datatype Event = Popped(out: seq<Bits>) | Discarded(count: nat)

  /** The shared words, both threads, and what has happened so far. */
  datatype Sys = Sys(
    cells: seq<Bits>, read: nat, write: nat,
    producer: Producer, consumer: Consumer,
    accepted: seq<Bits>, log: seq<Event>)

  datatype Action = StartPush(samples: seq<Bits>) | StartPop(room: nat) | StartClear | Produce | Consume

  ghost predicate WellFormed(s: Sys) {
    var cap := |s.cells|;
    && Capacity(cap) && s.read < cap && s.write < cap
    && (match s.producer
        case Idle => true
        case HaveWrite(_, w) => w < cap
        case Storing(x, w, taken, done) => w < cap && done <= taken <= |x| && taken < cap)
    && (match s.consumer
        case Resting => true
        case HaveRead(_, r) => r < cap
        case Loading(r, taken, out) => r < cap && |out| <= taken < cap
        case Clearing(w) => w < cap)
  }

  ghost function Start(cap: nat): (s: Sys)
    requires Capacity(cap)
    ensures WellFormed(s)
  {
    Sys(seq(cap, i => 0), 0, 0, Idle, Resting, [], [])
  }

  /** One atomic access. An action that does not apply where its thread stands changes nothing. */
  ghost function Next(s: Sys, a: Action): (t: Sys)
    requires WellFormed(s)
    ensures WellFormed(t) && |t.cells| == |s.cells|
  {
    var cap := |s.cells|;
    match a
    case StartPush(x) => if s.producer.Idle? then s.(producer := HaveWrite(x, s.write)) else s
    case StartPop(room) => if s.consumer.Resting? then s.(consumer := HaveRead(room, s.read)) else s
    case StartClear => if s.consumer.Resting? then s.(consumer := Clearing(s.write)) else s
    case Produce => (
      match s.producer
      case Idle => s
      case HaveWrite(x, w) =>
        s.(producer := Storing(x, w, Min(|x|, cap - 1 - Occupied(w, s.read, cap)), 0))
      case Storing(x, w, taken, done) =>
        if done < taken then
          s.(cells := s.cells[Slot(w + done, cap) := x[done]], producer := Storing(x, w, taken, done + 1))
        else
          s.(write := Slot(w + taken, cap), producer := Idle, accepted := s.accepted + x[..taken]))
    case Consume => (
      match s.consumer
      case Resting => s
      case HaveRead(room, r) =>
        s.(consumer := Loading(r, Min(room, Occupied(s.write, r, cap)), []))
      case Loading(r, taken, out) =>
        if |out| < taken then
          s.(consumer := Loading(r, taken, out + [s.cells[Slot(r + |out|, cap)]]))
        else
          s.(read := Slot(r + taken, cap), consumer := Resting, log := s.log + [Popped(out)])
      case Clearing(w) =>
        s.(read := w, consumer := Resting, log := s.log + [Discarded(Occupied(w, s.read, cap))]))
  }

  ghost function Run(s: Sys, actions: seq<Action>): (t: Sys)
    requires WellFormed(s)
    ensures WellFormed(t) && |t.cells| == |s.cells|
    decreases |actions|
  {
    if actions == [] then s else Next(Run(s, actions[..|actions| - 1]), actions[|actions| - 1])
  }

  // ------------------------------------------------------------------ what the consumer got

  /** How many accepted samples the consumer has gone past. */
  ghost function Consumed(log: seq<Event>): nat
    decreases |log|
  {
    if log == [] then 0
    else Consumed(log[..|log| - 1]) + (match log[|log| - 1] case Popped(out) => |out| case Discarded(n) => n)
  }

  /** The log walks through the accepted samples from the first one on: what is popped is exactly what stands
      there, and what is discarded is passed over in place. */
  ghost predicate Faithful(log: seq<Event>, accepted: seq<Bits>)
    decreases |log|
  {
    log == [] ||
    var before := log[..|log| - 1];
    && Faithful(before, accepted)
    && Consumed(log) <= |accepted|
    && (match log[|log| - 1]
        case Popped(out) => accepted[Consumed(before)..Consumed(log)] == out
        case Discarded(_) => true)
  }

  lemma {:induction false} FaithfulGrows(log: seq<Event>, accepted: seq<Bits>, more: seq<Bits>)
    requires Faithful(log, accepted)
    ensures Faithful(log, accepted + more)
    decreases |log|
  {
    if log != [] {
      var before := log[..|log| - 1];
      FaithfulGrows(before, accepted, more);
      assert (accepted + more)[Consumed(before)..Consumed(log)] == accepted[Consumed(before)..Consumed(log)];
    }
  }

  lemma FaithfulAppend(log: seq<Event>, accepted: seq<Bits>, e: Event)
    requires Faithful(log, accepted)
    requires match e
             case Popped(out) =>
               Consumed(log) + |out| <= |accepted| && accepted[Consumed(log)..Consumed(log) + |out|] == out
             case Discarded(n) => Consumed(log) + n <= |accepted|
    ensures Faithful(log + [e], accepted)
    ensures Consumed(log + [e]) == Consumed(log) + (match e case Popped(out) => |out| case Discarded(n) => n)
  {
    assert (log + [e])[..|log|] == log;
  }

  // ------------------------------------------------------------------ the invariant

  /** Samples accepted and not yet gone past. */
  ghost function Unread(s: Sys): (n: int) { |s.accepted| - Consumed(s.log) }

  /** The unread window holds the unread samples, and the two words say how many there are. */
  ghost predicate SharedInv(s: Sys)
    requires WellFormed(s)
  {
    && Faithful(s.log, s.accepted)
    && 0 <= Unread(s) < |s.cells| && Unread(s) == Occupied(s.write, s.read, |s.cells|)
    && Window(s.cells, s.read, Unread(s)) == s.accepted[Consumed(s.log)..]
  }

  /** The producer's copy of the write index is current, what it means to store fits, and what it has stored
      follows the unread samples. */
  ghost predicate ProducerInv(s: Sys)
    requires WellFormed(s) && SharedInv(s)
  {
    match s.producer
    case Idle => true
    case HaveWrite(_, w) => w == s.write
    case Storing(x, w, taken, done) =>
      && w == s.write && Unread(s) + taken < |s.cells|
      && Window(s.cells, s.read, Unread(s) + done) == s.accepted[Consumed(s.log)..] + x[..done]
  }

  /** The consumer's copy of the read index is current, and what it means to take is there. */
  ghost predicate ConsumerInv(s: Sys)
    requires WellFormed(s) && SharedInv(s)
  {
    match s.consumer
    case Resting => true
    case HaveRead(_, r) => r == s.read
    case Loading(r, taken, out) => r == s.read && taken <= Unread(s) && out == Window(s.cells, r, |out|)
    case Clearing(w) => Occupied(w, s.read, |s.cells|) <= Unread(s)
  }

  ghost predicate Inv(s: Sys) {
    WellFormed(s) && SharedInv(s) && ProducerInv(s) && ConsumerInv(s)
  }

  lemma StartInv(cap: nat)
    requires Capacity(cap)
    ensures Inv(Start(cap))
  {
  }

  lemma WindowPrefix(cells: seq<Bits>, from: nat, n: nat, k: nat)
    requires from < |cells| && k <= n <= |cells|
    ensures Window(cells, from, n)[..k] == Window(cells, from, k)
  {
  }

  /** The cell a push stores into is outside the unread window and outside what it has already stored, however
      old the indices it works from are. */
  lemma StoreMissesUnread(s: Sys, k: nat)
    requires Inv(s) && s.producer.Storing? && s.producer.done < s.producer.taken
    requires k < Unread(s) + s.producer.done
    ensures Slot(s.producer.write + s.producer.done, |s.cells|) != Wrap(s.read + k, |s.cells|)
    ensures Slot(s.producer.write + s.producer.done, |s.cells|)
         == Wrap(s.read + (Unread(s) + s.producer.done), |s.cells|)
  {
  }

  /** The system one store later, the slot being the cell just past what is stored already. */
  ghost function Stored(s: Sys): Sys
    requires Inv(s) && s.producer.Storing? && s.producer.done < s.producer.taken
  {
    var Storing(x, w, taken, done) := s.producer;
    s.(cells := s.cells[Wrap(s.read + (Unread(s) + done), |s.cells|) := x[done]],
       producer := Storing(x, w, taken, done + 1))
  }

  lemma StoreIsStored(s: Sys)
    requires Inv(s) && s.producer.Storing? && s.producer.done < s.producer.taken
    ensures Next(s, Produce) == Stored(s)
  {
    assert Slot(s.producer.write + s.producer.done, |s.cells|)
        == Wrap(s.read + (Unread(s) + s.producer.done), |s.cells|);
  }

  lemma StoredShared(s: Sys)
    requires Inv(s) && s.producer.Storing? && s.producer.done < s.producer.taken
    ensures WellFormed(Stored(s)) && SharedInv(Stored(s))
  {
    var Storing(x, w, taken, done) := s.producer;
    WindowKept(s.cells, s.read, Unread(s) + done, x[done], Unread(s));
  }

  lemma StoredProducer(s: Sys)
    requires Inv(s) && s.producer.Storing? && s.producer.done < s.producer.taken
    requires WellFormed(Stored(s)) && SharedInv(Stored(s))
    ensures ProducerInv(Stored(s))
  {
    var Storing(x, w, taken, done) := s.producer;
    WindowAppend(s.cells, s.read, Unread(s) + done, x[done]);
    Common.TakeMore(s.accepted[Consumed(s.log)..], x, done);
  }

  lemma StoreKeeps(s: Sys)
    requires Inv(s) && s.producer.Storing? && s.producer.done < s.producer.taken
    ensures Inv(Next(s, Produce))
  {
    StoreIsStored(s);
    StoredShared(s);
    StoredProducer(s);
    if s.consumer.Loading? {
      WindowKept(s.cells, s.read, Unread(s) + s.producer.done, s.producer.samples[s.producer.done], |s.consumer.out|);
    }
  }

  lemma PublishKeeps(s: Sys)
    requires Inv(s) && s.producer.Storing? && s.producer.done == s.producer.taken
    ensures Inv(Next(s, Produce))
  {
    var Storing(x, w, taken, _) := s.producer;
    FaithfulGrows(s.log, s.accepted, x[..taken]);
    var t := Next(s, Produce);
    Common.DropFront(s.accepted, x[..taken], Consumed(s.log));
    assert Unread(t) == Unread(s) + taken;
  }

  lemma ProduceKeeps(s: Sys)
    requires Inv(s)
    ensures Inv(Next(s, Produce))
  {
    match s.producer
    case Idle =>
    case HaveWrite(x, w) =>
      assert s.accepted[Consumed(s.log)..] + x[..0] == s.accepted[Consumed(s.log)..];
    case Storing(x, w, taken, done) =>
      if done < taken { StoreKeeps(s); } else { PublishKeeps(s); }
  }

  /** The read index may move on by `k`: what stays unread is still where the window says. */
  lemma AdvanceWindow(s: Sys, k: nat)
    requires Inv(s) && k <= Unread(s)
    ensures var r, rest := Wrap(s.read + k, |s.cells|), Unread(s) - k;
            && rest == Occupied(s.write, r, |s.cells|)
            && Window(s.cells, r, rest) == s.accepted[Consumed(s.log) + k..]
  {
    WindowDrop(s.cells, s.read, Unread(s), k);
    assert s.accepted[Consumed(s.log) + k..] == s.accepted[Consumed(s.log)..][k..];
  }

  lemma AdvanceStored(s: Sys, k: nat)
    requires Inv(s) && k <= Unread(s) && s.producer.Storing?
    ensures var r, rest, done := Wrap(s.read + k, |s.cells|), Unread(s) - k, s.producer.done;
            Window(s.cells, r, rest + done) == s.accepted[Consumed(s.log) + k..] + s.producer.samples[..done]
  {
    WindowMovesOn(s.cells, s.read, s.accepted, Consumed(s.log), s.producer.samples[..s.producer.done], k);
  }

  lemma LogKeeps(s: Sys, k: nat, e: Event)
    requires Inv(s) && k <= Unread(s)
    requires match e case Popped(out) => |out| == k && out == Window(s.cells, s.read, k) case Discarded(m) => m == k
    ensures Faithful(s.log + [e], s.accepted) && Consumed(s.log + [e]) == Consumed(s.log) + k
  {
    var c := Consumed(s.log);
    WindowPrefix(s.cells, s.read, Unread(s), k);
    assert s.accepted[c..c + k] == s.accepted[c..][..k];
    FaithfulAppend(s.log, s.accepted, e);
  }

  /** Moving the read index on, with the log saying so, keeps everything the producer relies on. */
  lemma AdvanceKeeps(s: Sys, k: nat, e: Event)
    requires Inv(s) && k <= Unread(s)
    requires match e case Popped(out) => |out| == k && out == Window(s.cells, s.read, k) case Discarded(m) => m == k
    ensures Inv(s.(read := Wrap(s.read + k, |s.cells|), consumer := Resting, log := s.log + [e]))
  {
    LogKeeps(s, k, e);
    AdvanceShared(s, k, e);
    if s.producer.Storing? { AdvanceStored(s, k); }
  }

  lemma AdvanceShared(s: Sys, k: nat, e: Event)
    requires Inv(s) && k <= Unread(s)
    requires Faithful(s.log + [e], s.accepted) && Consumed(s.log + [e]) == Consumed(s.log) + k
    ensures var t := s.(read := Wrap(s.read + k, |s.cells|), consumer := Resting, log := s.log + [e]);
            WellFormed(t) && SharedInv(t) && Unread(t) == Unread(s) - k
  {
    AdvanceWindow(s, k);
  }

  lemma WindowExtend(cells: seq<Bits>, from: nat, n: nat)
    requires from < |cells| && n < |cells|
    ensures Window(cells, from, n + 1) == Window(cells, from, n) + [cells[Wrap(from + n, |cells|)]]
  {
  }

  lemma PopKeeps(s: Sys)
    requires Inv(s) && s.consumer.Loading? && |s.consumer.out| == s.consumer.taken
    ensures Inv(Next(s, Consume))
  {
    AdvanceKeeps(s, s.consumer.taken, Popped(s.consumer.out));
  }

  lemma ClearKeeps(s: Sys)
    requires Inv(s) && s.consumer.Clearing?
    ensures Inv(Next(s, Consume))
  {
    var k := Occupied(s.consumer.write, s.read, |s.cells|);
    assert Wrap(s.read + k, |s.cells|) == s.consumer.write;
    AdvanceKeeps(s, k, Discarded(k));
  }

  lemma BeginLoadKeeps(s: Sys)
    requires Inv(s) && s.consumer.HaveRead?
    ensures Inv(Next(s, Consume))
  {
    assert Window(s.cells, s.read, 0) == [];
  }

  lemma LoadKeeps(s: Sys)
    requires Inv(s) && s.consumer.Loading? && |s.consumer.out| < s.consumer.taken
    ensures Inv(Next(s, Consume))
  {
    var Loading(r, taken, out) := s.consumer;
    WindowExtend(s.cells, r, |out|);
    var more := out + [s.cells[Wrap(r + |out|, |s.cells|)]];
    assert Next(s, Consume) == s.(consumer := Loading(r, taken, more));
    assert more == Window(s.cells, r, |more|);
  }

  lemma ConsumeKeeps(s: Sys)
    requires Inv(s)
    ensures Inv(Next(s, Consume))
  {
    match s.consumer
    case Resting =>
    case HaveRead(_, _) => BeginLoadKeeps(s);
    case Loading(_, taken, out) => if |out| < taken { LoadKeeps(s); } else { PopKeeps(s); }
    case Clearing(_) => ClearKeeps(s);
  }

  lemma NextKeeps(s: Sys, a: Action)
    requires Inv(s)
    ensures Inv(Next(s, a))
  {
    match a
    case Produce => ProduceKeeps(s);
    case Consume => ConsumeKeeps(s);
    case StartPush(_) =>
    case StartPop(_) =>
    case StartClear =>
  }

  /** Every interleaving, of any length, from an empty ring: the consumer's pops and discards walk the accepted
      samples in order from the first, and the occupancy computed from the two words is the true one. */
  lemma {:induction false} EveryInterleaving(cap: nat, actions: seq<Action>)
    requires Capacity(cap)
    ensures var s := Run(Start(cap), actions);
            && Inv(s) && Faithful(s.log, s.accepted)
            && |s.accepted| - Consumed(s.log) == Occupied(s.write, s.read, cap) <= cap - 1
    decreases |actions|
  {
    if actions == [] {
      StartInv(cap);
    } else {
      EveryInterleaving(cap, actions[..|actions| - 1]);
      NextKeeps(Run(Start(cap), actions[..|actions| - 1]), actions[|actions| - 1]);
    }
  }

  /** Whatever any thread does next, at any point of any interleaving, the unread samples stay in their cells. */
  lemma UnreadNeverOverwritten(cap: nat, actions: seq<Action>, a: Action)
    requires Capacity(cap)
    ensures var s := Run(Start(cap), actions);
            0 <= Unread(s) < cap && Window(Next(s, a).cells, s.read, Unread(s)) == s.accepted[Consumed(s.log)..]
  {
    EveryInterleaving(cap, actions);
    NextLeavesUnread(Run(Start(cap), actions), a);
  }

  lemma NextLeavesUnread(s: Sys, a: Action)
    requires Inv(s)
    ensures Window(Next(s, a).cells, s.read, Unread(s)) == s.accepted[Consumed(s.log)..]
  {
    if a.Produce? && s.producer.Storing? && s.producer.done < s.producer.taken {
      StoreIsStored(s);
      StoredShared(s);
    }
  }

  // ------------------------------------------------------------------ the length, as either thread reads it

  /** What `len` computes when the write index is loaded in one state and the read index in a later one. */
  ghost function LenAcross(s: Sys, t: Sys): nat
    requires WellFormed(s) && WellFormed(t) && |s.cells| == |t.cells|
  {
    Occupied(s.write, t.read, |s.cells|)
  }

  ghost predicate ConsumerOnly(actions: seq<Action>) {
    forall i :: 0 <= i < |actions| ==> actions[i].StartPop? || actions[i].StartClear? || actions[i].Consume?
  }

  ghost predicate ProducerOnly(actions: seq<Action>) {
    forall i :: 0 <= i < |actions| ==> actions[i].StartPush? || actions[i].Produce?
  }

  lemma {:induction false} WriteStands(s: Sys, actions: seq<Action>)
    requires Inv(s) && ConsumerOnly(actions)
    ensures var t := Run(s, actions); Inv(t) && t.write == s.write
    decreases |actions|
  {
    if actions != [] {
      WriteStands(s, actions[..|actions| - 1]);
      NextKeeps(Run(s, actions[..|actions| - 1]), actions[|actions| - 1]);
    }
  }

  lemma {:induction false} ReadStands(s: Sys, actions: seq<Action>)
    requires Inv(s) && ProducerOnly(actions)
    ensures var t := Run(s, actions); Inv(t) && t.read == s.read
    decreases |actions|
  {
    if actions != [] {
      ReadStands(s, actions[..|actions| - 1]);
      NextKeeps(Run(s, actions[..|actions| - 1]), actions[|actions| - 1]);
    }
  }

  /** Between the two loads of the producer's thread the consumer may do anything: the length is the true one at the
      second. */
  lemma LenByProducer(cap: nat, before: seq<Action>, between: seq<Action>)
    requires Capacity(cap) && ConsumerOnly(between)
    ensures var s := Run(Start(cap), before);
            var t := Run(s, between);
            LenAcross(s, t) == |t.accepted| - Consumed(t.log)
  {
    EveryInterleaving(cap, before);
    WriteStands(Run(Start(cap), before), between);
  }

  /** Between the two loads of the consumer's thread the producer may do anything: the length is the true one at the
      first. */
  lemma LenByConsumer(cap: nat, before: seq<Action>, between: seq<Action>)
    requires Capacity(cap) && ProducerOnly(between)
    ensures var s := Run(Start(cap), before);
            var t := Run(s, between);
            LenAcross(s, t) == |s.accepted| - Consumed(s.log)
  {
    EveryInterleaving(cap, before);
    ReadStands(Run(Start(cap), before), between);
  }

  // ------------------------------------------------------------------ a call nobody interrupts

  /** The producer's steps until its call returns. */
  ghost function FinishPush(s: Sys): (t: Sys)
    requires WellFormed(s)
    decreases match s.producer case Idle => 0 case HaveWrite(x, _) => |x| + 2 case Storing(_, _, n, k) => n - k + 1
  {
    if s.producer.Idle? then s else FinishPush(Next(s, Produce))
  }

  /** The consumer's steps until its call returns. */
  ghost function FinishPop(s: Sys): (t: Sys)
    requires WellFormed(s)
    decreases match s.consumer
              case Resting => 0 case HaveRead(m, _) => m + 2
              case Loading(_, n, out) => n - |out| + 1 case Clearing(_) => 1
  {
    if s.consumer.Resting? then s else FinishPop(Next(s, Consume))
  }

  lemma {:induction false} StoringFinishes(s: Sys)
    requires Inv(s) && s.producer.Storing?
    ensures var t := FinishPush(s);
            && Inv(t) && t.accepted == s.accepted + s.producer.samples[..s.producer.taken]
            && t.log == s.log && t.consumer == s.consumer
    decreases s.producer.taken - s.producer.done
  {
    ProduceKeeps(s);
    if s.producer.done < s.producer.taken {
      StoringFinishes(Next(s, Produce));
    }
  }

  /** A push nobody interrupts does what `Ring.Push` promises. */
  lemma PushAlone(s: Sys, x: seq<Bits>)
    requires Inv(s) && s.producer.Idle?
    ensures var t := FinishPush(Next(s, StartPush(x)));
            && Inv(t) && t.accepted == s.accepted + x[..Min(|x|, |s.cells| - 1 - Unread(s))]
            && t.log == s.log && t.consumer == s.consumer
  {
    var s1 := Next(s, StartPush(x));
    NextKeeps(s, StartPush(x));
    ProduceKeeps(s1);
    StoringFinishes(Next(s1, Produce));
  }

  lemma {:induction false} LoadingFinishes(s: Sys)
    requires Inv(s) && s.consumer.Loading?
    ensures var t := FinishPop(s);
            && Inv(t) && t.accepted == s.accepted && t.producer == s.producer
            && t.log == s.log + [Popped(s.accepted[Consumed(s.log)..][..s.consumer.taken])]
    decreases s.consumer.taken - |s.consumer.out|
  {
    ConsumeKeeps(s);
    if |s.consumer.out| < s.consumer.taken {
      LoadingFinishes(Next(s, Consume));
    } else {
      WindowPrefix(s.cells, s.read, Unread(s), s.consumer.taken);
    }
  }

  /** A pop nobody interrupts does what `Ring.Pop` promises. */
  lemma PopAlone(s: Sys, room: nat)
    requires Inv(s) && s.consumer.Resting?
    ensures var t := FinishPop(Next(s, StartPop(room)));
            && Inv(t) && t.accepted == s.accepted && t.producer == s.producer
            && t.log == s.log + [Popped(s.accepted[Consumed(s.log)..][..Min(room, Unread(s))])]
  {
    var s1 := Next(s, StartPop(room));
    NextKeeps(s, StartPop(room));
    ConsumeKeeps(s1);
    LoadingFinishes(Next(s1, Consume));
  }

  /** A clear nobody interrupts goes past everything waiting, as `Ring.Clear` promises. */
  lemma ClearAlone(s: Sys)
    requires Inv(s) && s.consumer.Resting?
    ensures var t := FinishPop(Next(s, StartClear));
            && Inv(t) && t.accepted == s.accepted && t.producer == s.producer
            && t.log == s.log + [Discarded(Unread(s))] && Unread(t) == 0
  {
    var s1 := Next(s, StartClear);
    NextKeeps(s, StartClear);
    ConsumeKeeps(s1);
  }
}
