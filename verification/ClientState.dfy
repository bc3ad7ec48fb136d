/** The client's side: message logs, pending messages and voice states, folded from the server's frames. */
module ClientState {
  import opened Common
  import opened Control
  import opened ClientVoice

  // ------------------------------------------------------------------ a channel's messages

  /** Ids strictly rising. */
  ghost predicate Sorted(ms: seq<Message>) {
    forall i, j :: 0 <= i < j < |ms| ==> ms[i].id < ms[j].id
  }

  ghost function AsSet(ms: seq<Message>): set<Message> { set m | m in ms }

  /** What a log holds once `m` has been put into it: `m`, and everything else with another id. */
  ghost predicate IsInserted(ms: seq<Message>, m: Message, after: seq<Message>) {
    Sorted(after) && AsSet(after) == (set x | x in ms && x.id != m.id) + {m}
  }

  /** There is only one sorted log with given messages. */
  lemma {:induction false} SortedUnique(a: seq<Message>, b: seq<Message>)
    requires Sorted(a) && Sorted(b) && AsSet(a) == AsSet(b)
    ensures a == b
    decreases |a|
  {
    assert a != [] ==> a[0] in AsSet(a);
    assert b != [] ==> b[0] in AsSet(b);
    if a != [] && b != [] {
      var x, y := a[|a| - 1], b[|b| - 1];
      assert x in AsSet(b) && y in AsSet(a);
      assert x == y;
      var c, d := a[..|a| - 1], b[..|b| - 1];
      assert AsSet(c) == AsSet(a) - {x} by {
        assert forall m :: m in a <==> m in c || m == x;
      }
      assert AsSet(d) == AsSet(b) - {y} by {
        assert forall m :: m in b <==> m in d || m == y;
      }
      SortedUnique(c, d);
    }
  }

  /** `binary_search_by_key`: where the id is, or where it would go. */
  method Search(ms: seq<Message>, id: Id) returns (found: bool, at: nat)
    requires Sorted(ms)
    ensures at <= |ms|
    ensures found ==> at < |ms| && ms[at].id == id
    ensures !found ==> (forall i :: 0 <= i < at ==> ms[i].id < id) && (forall i :: at <= i < |ms| ==> id < ms[i].id)
  {
    var low, high := 0, |ms|;
    while low < high
      invariant low <= high <= |ms|
      invariant forall i :: 0 <= i < low ==> ms[i].id < id
      invariant forall i :: high <= i < |ms| ==> id < ms[i].id
    {
      var mid := (low + high) / 2;
      if ms[mid].id == id {
        return true, mid;
      } else if ms[mid].id < id {
        low := mid + 1;
      } else {
        high := mid;
      }
    }
    return false, low;
  }

  method InsertInto(ms: seq<Message>, m: Message) returns (after: seq<Message>)
    requires Sorted(ms)
    ensures IsInserted(ms, m, after)
  {
    var found, at := Search(ms, m.id);
    if found {
      after := ms[at := m];
      Replaced(ms, at, m);
    } else {
      after := ms[..at] + [m] + ms[at..];
      PutBetween(ms, at, m);
    }
  }

  lemma Replaced(ms: seq<Message>, at: nat, m: Message)
    requires Sorted(ms) && at < |ms| && ms[at].id == m.id
    ensures IsInserted(ms, m, ms[at := m])
  {
    var after := ms[at := m];
    forall x
      ensures x in AsSet(after) <==> x == m || (x in ms && x.id != m.id)
    {
      if x in ms && x.id != m.id {
        var i :| 0 <= i < |ms| && ms[i] == x;
        assert after[i] == x;
      }
      assert after[at] == m;
    }
  }

  lemma PutBetween(ms: seq<Message>, at: nat, m: Message)
    requires Sorted(ms) && at <= |ms|
    requires (forall i :: 0 <= i < at ==> ms[i].id < m.id) && (forall i :: at <= i < |ms| ==> m.id < ms[i].id)
    ensures IsInserted(ms, m, ms[..at] + [m] + ms[at..])
  {
    var low, high := ms[..at], ms[at..];
    assert ms == low + high;
    assert forall x :: x in low ==> x.id < m.id;
    assert forall x :: x in high ==> m.id < x.id;
    JoinedIsSorted(low, m, high);
    assert AsSet(low + [m] + high) == (set x | x in ms && x.id != m.id) + {m};
  }

  lemma JoinedIsSorted(low: seq<Message>, m: Message, high: seq<Message>)
    requires Sorted(low) && Sorted(high)
    requires (forall x :: x in low ==> x.id < m.id) && (forall x :: x in high ==> m.id < x.id)
    ensures Sorted(low + [m] + high)
  {
  }

  /** The log with `m` in its place. */
  ghost function Inserted(ms: seq<Message>, m: Message): (after: seq<Message>)
    requires Sorted(ms)
    ensures IsInserted(ms, m, after)
  {
    InsertedExists(ms, m);
    var after :| IsInserted(ms, m, after);
    after
  }

  lemma InsertedExists(ms: seq<Message>, m: Message)
    requires Sorted(ms)
    ensures exists after :: IsInserted(ms, m, after)
  {
    var smaller, larger := Below(ms, m.id), Above(ms, m.id);
    var after := smaller + [m] + larger;
    JoinedIsSorted(smaller, m, larger);
    assert AsSet(after) == AsSet(smaller) + {m} + AsSet(larger);
    assert IsInserted(ms, m, after);
  }

  ghost function Below(ms: seq<Message>, id: Id): (r: seq<Message>)
    requires Sorted(ms)
    ensures Sorted(r) && forall x :: x in r <==> x in ms && x.id < id
    decreases |ms|
  {
    if ms == [] then []
    else
      var r := Below(ms[..|ms| - 1], id);
      assert forall x :: x in ms <==> x in ms[..|ms| - 1] || x == ms[|ms| - 1];
      if ms[|ms| - 1].id < id then r + [ms[|ms| - 1]] else r
  }

  ghost function Above(ms: seq<Message>, id: Id): (r: seq<Message>)
    requires Sorted(ms)
    ensures Sorted(r) && forall x :: x in r <==> x in ms && x.id > id
    decreases |ms|
  {
    if ms == [] then []
    else
      var r := Above(ms[..|ms| - 1], id);
      assert forall x :: x in ms <==> x in ms[..|ms| - 1] || x == ms[|ms| - 1];
      if ms[|ms| - 1].id > id then r + [ms[|ms| - 1]] else r
  }

  ghost function InsertedAll(ms: seq<Message>, page: seq<Message>): (after: seq<Message>)
    requires Sorted(ms)
    ensures Sorted(after)
    decreases |page|
  {
    if page == [] then ms else Inserted(InsertedAll(ms, page[..|page| - 1]), page[|page| - 1])
  }

  function Without(ms: seq<Message>, id: Id): seq<Message> {
    if ms == [] then [] else (if ms[0].id != id then [ms[0]] else []) + Without(ms[1..], id)
  }

  lemma {:induction false} WithoutIs(ms: seq<Message>, id: Id, m: Message)
    ensures m in Without(ms, id) <==> m in ms && m.id != id
    decreases |ms|
  {
    if ms != [] {
      WithoutIs(ms[1..], id, m);
      assert ms == [ms[0]] + ms[1..];
    }
  }

  lemma {:induction false} WithoutIsSorted(ms: seq<Message>, id: Id)
    requires Sorted(ms)
    ensures Sorted(Without(ms, id)) && AsSet(Without(ms, id)) == set m | m in ms && m.id != id
    decreases |ms|
  {
    forall m
      ensures m in Without(ms, id) <==> m in ms && m.id != id
    {
      WithoutIs(ms, id, m);
    }
    if ms != [] {
      WithoutIsSorted(ms[1..], id);
      forall i | 0 <= i < |Without(ms[1..], id)|
        ensures ms[0].id < Without(ms[1..], id)[i].id
      {
        WithoutIs(ms[1..], id, Without(ms[1..], id)[i]);
      }
    }
  }

  // ------------------------------------------------------------------ the whole state

  datatype Log = Log(messages: seq<Message>, complete: bool, loading: bool, visited: bool)

  const EMPTY_LOG := Log([], false, false, false)

  type Logs = map<Id, Log>

  ghost predicate AllSorted(logs: Logs) {
    forall c :: c in logs ==> Sorted(logs[c].messages)
  }

  function LogOf(logs: Logs, channel: Id): Log {
    if channel in logs then logs[channel] else EMPTY_LOG
  }

  /** Of a channel nothing has come from yet nothing is known: neither messages nor that there are none. */
  lemma NothingKnownYet(channel: Id)
    ensures var log := LogOf(map[], channel); log.messages == [] && !log.complete && !log.loading && !log.visited
  {
  }

  ghost function AppliedLogs(logs: Logs, msg: ServerMsg): Logs
    requires AllSorted(logs)
  {
    match msg
    case MessageCreate(m) =>
      var log := LogOf(logs, m.channel);
      logs[m.channel := log.(messages := Inserted(log.messages, m))]
    case MessageUpdate(m) =>
      var log := LogOf(logs, m.channel);
      logs[m.channel := log.(messages := Inserted(log.messages, m))]
    case MessageDelete(channel, id) =>
      var log := LogOf(logs, channel);
      logs[channel := log.(messages := Without(log.messages, id))]
    case History(channel, messages, complete) =>
      var log := LogOf(logs, channel);
      logs[channel := Log(InsertedAll(log.messages, messages), log.complete || complete, false, log.visited)]
    case _ => logs
  }

  lemma AppliedLogsSorted(logs: Logs, msg: ServerMsg)
    requires AllSorted(logs)
    ensures AllSorted(AppliedLogs(logs, msg))
  {
    if msg.MessageDelete? { WithoutIsSorted(LogOf(logs, msg.channel).messages, msg.id); }
  }

  datatype Pending = Pending(nonce: string, channel: Id, content: string)

  /** A message of one's own coming back takes its optimistic copy away. */
  function AppliedPending(pending: seq<Pending>, msg: ServerMsg): seq<Pending> {
    if !msg.MessageCreate? || msg.message.nonce.None? then pending else Unconfirmed(pending, msg.message.nonce.value)
  }

  function Unconfirmed(pending: seq<Pending>, nonce: string): seq<Pending> {
    if pending == [] then []
    else (if pending[0].nonce != nonce then [pending[0]] else []) + Unconfirmed(pending[1..], nonce)
  }

  /** One by one: what is pending in two parts stays pending in two parts. */
  lemma {:induction false} PendingInParts(a: seq<Pending>, b: seq<Pending>, nonce: string)
    ensures Unconfirmed(a + b, nonce) == Unconfirmed(a, nonce) + Unconfirmed(b, nonce)
    decreases |a|
  {
    if a == [] {
      assert a + b == b;
    } else {
      DropFront(a, b, 1);
      PendingInParts(a[1..], b, nonce);
      Associative(if a[0].nonce != nonce then [a[0]] else [], Unconfirmed(a[1..], nonce), Unconfirmed(b, nonce));
    }
  }

  /** A confirmed nonce takes its own out, and nothing from before or after it. */
  lemma ConfirmedGoes(a: seq<Pending>, p: Pending, b: seq<Pending>, nonce: string)
    ensures Unconfirmed(a + [p] + b, nonce)
         == Unconfirmed(a, nonce) + (if p.nonce == nonce then [] else [p]) + Unconfirmed(b, nonce)
    ensures (forall q :: q in a ==> q.nonce != nonce) ==> Unconfirmed(a, nonce) == a
  {
    PendingInParts(a + [p], b, nonce);
    PendingInParts(a, [p], nonce);
    assert [p][1..] == [];
    NoneConfirmed(a, nonce);
  }

  lemma {:induction false} NoneConfirmed(a: seq<Pending>, nonce: string)
    ensures (forall q :: q in a ==> q.nonce != nonce) ==> Unconfirmed(a, nonce) == a
    decreases |a|
  {
    if a != [] && forall q :: q in a ==> q.nonce != nonce {
      assert a[0] in a;
      NoneConfirmed(a[1..], nonce);
    }
  }

  /** A page's messages, one after the other. */
  method InsertPage(ms: seq<Message>, page: seq<Message>) returns (after: seq<Message>)
    requires Sorted(ms)
    ensures after == InsertedAll(ms, page)
  {
    after := ms;
    for n := 0 to |page|
      invariant after == InsertedAll(ms, page[..n])
    {
      var more := InsertInto(after, page[n]);
      assert page[..n + 1][..n] == page[..n];
      SortedUnique(more, Inserted(after, page[n]));
      after := more;
    }
    assert page[..|page|] == page;
  }

  class State {
    var me: Option<Id>
    var voice: map<Id, VoiceState>
    var logs: Logs
    var pending: seq<Pending>

    constructor ()
      ensures voice == map[] && logs == map[] && pending == []
    {
      me, voice, logs, pending := None, map[], map[], [];
    }

    /** One frame: the voice map as `ClientVoice.Applied`, logs that stay sorted, and a `Ready` that leaves
        logs and pending messages as they are. */
    method Apply(msg: ServerMsg)
      requires AllSorted(logs)
      modifies this
      ensures voice == Applied(old(voice), msg)
      ensures AllSorted(logs) && logs == AppliedLogs(old(logs), msg)
      ensures pending == AppliedPending(old(pending), msg)
    {
      AppliedLogsSorted(logs, msg);
      match msg {
        case Ready(user, states) =>
          me, voice := Some(user), states;
        case MessageCreate(m) =>
          if m.nonce.Some? { pending := Unconfirmed(pending, m.nonce.value); }
          Insert(m);
        case MessageUpdate(m) =>
          Insert(m);
        case MessageDelete(channel, id) =>
          var log := LogOf(logs, channel);
          logs := logs[channel := log.(messages := Without(log.messages, id))];
        case History(channel, messages, complete) =>
          var log := LogOf(logs, channel).(loading := false);
          log := log.(complete := log.complete || complete);
          var after := InsertPage(log.messages, messages);
          logs := logs[channel := log.(messages := after)];
        case VoiceChanged(state) =>
          voice := voice[state.user := state];
        case VoiceLeave(user, channel) =>
          if user in voice && voice[user].channel == channel { voice := voice - {user}; }
        case ScreenStart(user, share) =>
          if user in voice { voice := voice[user := voice[user].(screen := Some(share))]; }
        case ScreenStop(user) =>
          if user in voice { voice := voice[user := voice[user].(screen := None)]; }
        case _ =>
      }
    }

    /** Put a message into its channel's log, which is made if there is none. */
    method Insert(m: Message)
      requires AllSorted(logs)
      modifies `logs
      ensures AllSorted(logs)
      ensures var log := LogOf(old(logs), m.channel);
              logs == old(logs)[m.channel := log.(messages := Inserted(log.messages, m))]
    {
      var log := LogOf(logs, m.channel);
      var after := InsertInto(log.messages, m);
      SortedUnique(after, Inserted(log.messages, m));
      logs := logs[m.channel := log.(messages := after)];
    }
  }
}
