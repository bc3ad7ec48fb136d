/** Paging backwards through a channel, and what the client's log is once the pages have arrived. */
module History {
  import opened Arith
  import opened Common
  import opened Control
  import opened ClientState

  const HISTORY_MAX := 200

  /** The rows of a channel below an id, in the order of their ids. */
  function Older(table: seq<Message>, channel: Id, before: Option<Id>): (r: seq<Message>)
    ensures forall m :: m in r <==> m in table && m.channel == channel && (before.None? || m.id < before.value)
    decreases |table|
  {
    if table == [] then []
    else
      var last := table[|table| - 1];
      assert table == table[..|table| - 1] + [last];
      var r := Older(table[..|table| - 1], channel, before);
      if last.channel == channel && (before.None? || last.id < before.value) then r + [last] else r
  }

  lemma {:induction false} OlderIsSorted(table: seq<Message>, channel: Id, before: Option<Id>)
    requires Sorted(table)
    ensures Sorted(Older(table, channel, before))
    decreases |table|
  {
    if table != [] { OlderIsSorted(table[..|table| - 1], channel, before); }
  }

  function Reversed(ms: seq<Message>): (r: seq<Message>)
    ensures |r| == |ms| && forall i :: 0 <= i < |ms| ==> r[i] == ms[|ms| - 1 - i]
  {
    seq(|ms|, i requires 0 <= i < |ms| => ms[|ms| - 1 - i])
  }

  /** `ORDER BY id DESC LIMIT n`. */
  function Query(table: seq<Message>, channel: Id, before: Option<Id>, n: nat): seq<Message> {
    var rows := Reversed(Older(table, channel, before));
    rows[..Min(n, |rows|)]
  }

  function Clamped(limit: nat): (n: nat)
    ensures 1 <= n <= HISTORY_MAX
  {
    Max(1, Min(limit, HISTORY_MAX))
  }

  /** A limit from 1 to 200 is kept; none at all is one, and more is 200. */
  lemma LimitsWithinReason(limit: nat)
    ensures 1 <= limit <= 200 ==> Clamped(limit) == limit
    ensures Clamped(0) == 1 && (limit > 200 ==> Clamped(limit) == 200)
  {
  }

  /** A page is the newest `limit` of the older messages, oldest first, and complete when those are all of them. */
  ghost function Page(older: seq<Message>, limit: nat): (seq<Message>, bool) {
    (older[|older| - Min(limit, |older|)..], |older| <= limit)
  }

  /** A message as a row gives it back, and as everybody but its author is sent it: without the author's nonce. */
  function Bare(m: Message): Message { m.(nonce := None) }

  /** Nothing but the nonce is looked past. */
  lemma OnlyNoncesAside(a: Message, b: Message)
    ensures Bare(a) == Bare(b) <==>
      a.id == b.id && a.channel == b.channel && a.author == b.author && a.content == b.content
    ensures Bare(a).nonce.None? && (a.nonce.None? ==> Bare(a) == a)
  {
  }

  function Strip(ms: seq<Message>): (r: seq<Message>)
    ensures |r| == |ms| && forall i :: 0 <= i < |ms| ==> r[i] == Bare(ms[i])
  {
    seq(|ms|, i requires 0 <= i < |ms| => Bare(ms[i]))
  }

  lemma StripAppend(a: seq<Message>, b: seq<Message>)
    ensures Strip(a + b) == Strip(a) + Strip(b)
  {
  }

  lemma {:induction false} StripOlder(table: seq<Message>, channel: Id, before: Option<Id>)
    ensures Strip(Older(table, channel, before)) == Older(Strip(table), channel, before)
    decreases |table|
  {
    if table == [] {
      assert Strip(table) == [];
    } else {
      var init, last := table[..|table| - 1], table[|table| - 1];
      StripOlder(init, channel, before);
      assert Strip(table)[..|table| - 1] == Strip(init);
      StripAppend(Older(init, channel, before), [last]);
      assert Strip([last]) == [Bare(last)];
    }
  }

  /** The page of the channel as it reads back, whatever nonces its rows were stored with. */
  method ReadHistory(table: seq<Message>, channel: Id, before: Option<Id>, limit: nat)
    returns (rows: seq<Message>, complete: bool)
    ensures (rows, complete) == Page(Older(Strip(table), channel, before), Clamped(limit))
  {
    var n := Clamped(limit);
    rows := Strip(Query(table, channel, before, n + 1));
    QueryStripped(table, channel, before, n + 1);
    PageReversed(Older(Strip(table), channel, before), n);
    complete := |rows| <= n;
    rows := Reversed(rows[..Min(n, |rows|)]);
  }

  lemma QueryStripped(table: seq<Message>, channel: Id, before: Option<Id>, n: nat)
    ensures Strip(Query(table, channel, before, n)) == Query(Strip(table), channel, before, n)
  {
    StripOlder(table, channel, before);
    StripReversed(Older(table, channel, before), n);
  }

  lemma StripReversed(ms: seq<Message>, n: nat)
    ensures Strip(Reversed(ms)[..Min(n, |ms|)]) == Reversed(Strip(ms))[..Min(n, |ms|)]
  {
  }

  /** One row more than a page is asked for, and whether it comes says whether there is more. */
  lemma PageReversed(older: seq<Message>, n: nat)
    ensures var rows := Reversed(older)[..Min(n + 1, |older|)];
      (Reversed(rows[..Min(n, |rows|)]), |rows| <= n) == Page(older, n)
  {
    var got := Reversed(older)[..Min(n + 1, |older|)];
    assert got[..Min(n, |got|)] == Reversed(older)[..Min(n, |older|)];
    NewestReversed(older, Min(n, |older|));
  }

  lemma NewestReversed(older: seq<Message>, m: nat)
    requires m <= |older|
    ensures Reversed(Reversed(older)[..m]) == older[|older| - m..]
  {
    var back := Reversed(older);
    forall i | 0 <= i < m
      ensures Reversed(back[..m])[i] == older[|older| - m + i]
    {
      assert Reversed(back[..m])[i] == back[m - 1 - i];
    }
  }

  // ------------------------------------------------------------------ all the pages

  /** The pages got by asking for what is before the oldest message received so far, until one is complete. */
  ghost function Pages(table: seq<Message>, channel: Id, before: Option<Id>, limit: nat)
    : (pages: seq<(seq<Message>, bool)>)
    requires Sorted(table) && limit >= 1
    ensures pages != []
    decreases |Older(table, channel, before)|
  {
    var older := Older(table, channel, before);
    var (page, complete) := Page(older, limit);
    if complete then [(page, complete)]
    else
      OlderThanPage(table, channel, before, page[0].id);
      [(page, complete)] + Pages(table, channel, Some(page[0].id), limit)
  }

  /** The first `n` are below the id, and the others are not. */
  ghost predicate Splits(ms: seq<Message>, id: Id, n: nat) {
    n <= |ms| && (forall i :: 0 <= i < n ==> ms[i].id < id) && (forall i :: n <= i < |ms| ==> ms[i].id >= id)
  }

  ghost function IndexBelow(ms: seq<Message>, id: Id): (n: nat)
    requires Sorted(ms)
    ensures Splits(ms, id, n)
  {
    if ms == [] then 0
    else
      var n := IndexBelow(ms[..|ms| - 1], id);
      if ms[|ms| - 1].id < id then |ms| else n
  }

  lemma SplitsOnce(ms: seq<Message>, id: Id, n: nat, k: nat)
    requires Splits(ms, id, n) && Splits(ms, id, k)
    ensures n == k
  {
    var atN := if n < |ms| then ms[n].id else id;
    var atK := if k < |ms| then ms[k].id else id;
    assert atN >= id && atK >= id;
  }

  lemma IndexOf(ms: seq<Message>, k: nat)
    requires Sorted(ms) && k < |ms|
    ensures IndexBelow(ms, ms[k].id) == k
  {
    assert Splits(ms, ms[k].id, k);
    SplitsOnce(ms, ms[k].id, IndexBelow(ms, ms[k].id), k);
  }

  /** Asking for less gives a beginning of what asking for more gives. */
  lemma OlderIsPrefix(table: seq<Message>, channel: Id, before: Option<Id>, id: Id)
    requires Sorted(table) && (before.None? || id <= before.value)
    ensures var all := Older(table, channel, before);
            Sorted(all) && Older(table, channel, Some(id)) == all[..IndexBelow(all, id)]
  {
    var all, less := Older(table, channel, before), Older(table, channel, Some(id));
    OlderIsSorted(table, channel, before);
    OlderIsSorted(table, channel, Some(id));
    var prefix := all[..IndexBelow(all, id)];
    SplitMembers(all, id, IndexBelow(all, id));
    assert forall m :: m in less <==> m in prefix;
    SortedUnique(less, prefix);
  }

  lemma SplitMembers(ms: seq<Message>, id: Id, n: nat)
    requires Splits(ms, id, n)
    ensures forall m :: m in ms[..n] <==> m in ms && m.id < id
  {
    assert ms == ms[..n] + ms[n..];
    assert forall m :: m in ms[n..] ==> m.id >= id;
  }

  lemma OlderThanPage(table: seq<Message>, channel: Id, before: Option<Id>, id: Id)
    requires Sorted(table) && exists m :: m in Older(table, channel, before) && m.id == id
    ensures |Older(table, channel, Some(id))| < |Older(table, channel, before)|
  {
    var all := Older(table, channel, before);
    var m :| m in all && m.id == id;
    OlderIsPrefix(table, channel, before, id);
    var i :| 0 <= i < |all| && all[i] == m;
    assert i >= IndexBelow(all, id);
  }

  /** Oldest page first, end to end. */
  ghost function Stacked(pages: seq<(seq<Message>, bool)>): seq<Message> {
    if pages == [] then [] else Stacked(pages[1..]) + pages[0].0
  }

  /** Paging comes to an end; the pages are the channel cut up, nothing twice and nothing missing; and `complete` is
      on the last page and on no other. */
  lemma {:induction false} PagesAreTheChannel(table: seq<Message>, channel: Id, before: Option<Id>, limit: nat)
    requires Sorted(table) && limit >= 1
    ensures var pages := Pages(table, channel, before, limit);
            && Stacked(pages) == Older(table, channel, before)
            && forall k :: 0 <= k < |pages| ==> (pages[k].1 <==> k == |pages| - 1)
    decreases |Older(table, channel, before)|
  {
    var older := Older(table, channel, before);
    var (page, complete) := Page(older, limit);
    var pages := Pages(table, channel, before, limit);
    if complete {
      OnlyPage(older, limit);
    } else {
      var rest := PagesAfter(table, channel, before, limit);
      PagesAreTheChannel(table, channel, Some(page[0].id), limit);
      OnePageMore(page, rest);
    }
  }

  lemma OnlyPage(older: seq<Message>, limit: nat)
    requires Page(older, limit).1
    ensures Stacked([Page(older, limit)]) == older
  {
    assert Stacked([Page(older, limit)][1..]) == [];
  }

  lemma OnePageMore(page: seq<Message>, rest: seq<(seq<Message>, bool)>)
    requires rest != [] && forall k :: 0 <= k < |rest| ==> (rest[k].1 <==> k == |rest| - 1)
    ensures var pages := [(page, false)] + rest;
      && Stacked(pages) == Stacked(rest) + page
      && forall k :: 0 <= k < |pages| ==> (pages[k].1 <==> k == |pages| - 1)
  {
    assert ([(page, false)] + rest)[1..] == rest;
  }

  lemma CutAt<T>(s: seq<T>, n: nat)
    requires n <= |s|
    ensures s == s[..n] + s[n..]
  {
  }

  /** The pages after one that is not the last, and where they start. */
  lemma PagesAfter(table: seq<Message>, channel: Id, before: Option<Id>, limit: nat)
    returns (rest: seq<(seq<Message>, bool)>)
    requires Sorted(table) && limit >= 1 && !Page(Older(table, channel, before), limit).1
    ensures var older := Older(table, channel, before);
      var page := Page(older, limit).0;
      && rest == Pages(table, channel, Some(page[0].id), limit)
      && Pages(table, channel, before, limit) == [(page, false)] + rest
      && |Older(table, channel, Some(page[0].id))| < |older|
      && older == Older(table, channel, Some(page[0].id)) + page
  {
    var page := Page(Older(table, channel, before), limit).0;
    OlderThanPage(table, channel, before, page[0].id);
    BeforePage(table, channel, before, limit);
    rest := Pages(table, channel, Some(page[0].id), limit);
  }

  /** What is left to fetch is what comes before the page. */
  lemma BeforePage(table: seq<Message>, channel: Id, before: Option<Id>, limit: nat)
    requires Sorted(table) && limit >= 1 && |Older(table, channel, before)| > limit
    ensures var older := Older(table, channel, before);
      older == Older(table, channel, Some(older[|older| - limit].id)) + older[|older| - limit..]
  {
    var older := Older(table, channel, before);
    OlderIsSorted(table, channel, before);
    OlderIsPrefix(table, channel, before, older[|older| - limit].id);
    IndexOf(older, |older| - limit);
    CutAt(older, |older| - limit);
  }

  /** Messages stored after the first page was read do not change the pages that follow it. */
  lemma {:induction false} NewMessagesDoNotDisturb(table: seq<Message>, more: seq<Message>, channel: Id, before: Id)
    requires forall m :: m in more ==> m.id >= before
    ensures Older(table + more, channel, Some(before)) == Older(table, channel, Some(before))
    decreases |more|
  {
    if more == [] {
      assert table + more == table;
    } else {
      var last := more[|more| - 1];
      assert (table + more)[..|table + more| - 1] == table + more[..|more| - 1];
      assert last in more;
      NewMessagesDoNotDisturb(table, more[..|more| - 1], channel, before);
    }
  }

  /** The same pages when messages are stored between the requests: request `k` finds the first `grown(k)` of `more`
      stored, and the first request none. */
  ghost function PagesMeanwhile(table: seq<Message>, more: seq<Message>, grown: nat -> nat, channel: Id,
                                before: Option<Id>, limit: nat, k: nat)
    : (pages: seq<(seq<Message>, bool)>)
    requires Sorted(table) && limit >= 1
    requires if before.None? then grown(k) == 0 else forall m :: m in more ==> m.id >= before.value
    requires Follows(table, more)
    decreases |Older(table, channel, before)|
  {
    var (page, complete) := Page(Older(Meanwhile(table, more, grown(k)), channel, before), limit);
    MeanwhileIsSame(table, more, grown(k), channel, before);
    if complete then [(page, complete)]
    else
      OlderThanPage(table, channel, before, page[0].id);
      [(page, complete)] + PagesMeanwhile(table, more, grown, channel, Some(page[0].id), limit, k + 1)
  }

  /** Stored later, with larger ids. */
  ghost predicate Follows(table: seq<Message>, more: seq<Message>) {
    forall m, x :: m in more && x in table ==> x.id < m.id
  }

  ghost function Meanwhile(table: seq<Message>, more: seq<Message>, n: nat): seq<Message> {
    table + more[..Min(n, |more|)]
  }

  lemma MeanwhileIsSame(table: seq<Message>, more: seq<Message>, n: nat, channel: Id, before: Option<Id>)
    requires if before.None? then n == 0 else forall m :: m in more ==> m.id >= before.value
    ensures Older(Meanwhile(table, more, n), channel, before) == Older(table, channel, before)
  {
    if before.None? {
      assert Meanwhile(table, more, n) == table;
    } else {
      NewMessagesDoNotDisturb(table, more[..Min(n, |more|)], channel, before.value);
    }
  }

  /** Messages stored while paging change none of its pages. */
  lemma {:induction false} GrowingTableSamePages(table: seq<Message>, more: seq<Message>, grown: nat -> nat,
                                                 channel: Id, before: Option<Id>, limit: nat, k: nat)
    requires Sorted(table) && limit >= 1
    requires if before.None? then grown(k) == 0 else forall m :: m in more ==> m.id >= before.value
    requires Follows(table, more)
    ensures PagesMeanwhile(table, more, grown, channel, before, limit, k) == Pages(table, channel, before, limit)
    decreases |Older(table, channel, before)|
  {
    MeanwhileIsSame(table, more, grown(k), channel, before);
    var (page, complete) := Page(Older(table, channel, before), limit);
    if !complete {
      OlderThanPage(table, channel, before, page[0].id);
      GrowingTableSamePages(table, more, grown, channel, Some(page[0].id), limit, k + 1);
    }
  }

  // ------------------------------------------------------------------ the client's log

  /** Every frame that brings messages of the channel, live or from history, in the order they arrive. */
  ghost function Refilled(log: seq<Message>, batches: seq<seq<Message>>): (after: seq<Message>)
    requires Sorted(log)
    ensures Sorted(after)
    decreases |batches|
  {
    if batches == [] then log else InsertedAll(Refilled(log, batches[..|batches| - 1]), batches[|batches| - 1])
  }

  ghost predicate AllFrom(batch: seq<Message>, all: seq<Message>) { forall m :: m in batch ==> m in all }

  lemma {:induction false} InsertedAllGrows(log: seq<Message>, batch: seq<Message>, all: seq<Message>)
    requires Sorted(log) && Sorted(all) && AllFrom(log, all) && AllFrom(batch, all)
    ensures AsSet(InsertedAll(log, batch)) == AsSet(log) + AsSet(batch)
    ensures AllFrom(InsertedAll(log, batch), all)
    decreases |batch|
  {
    if batch != [] {
      var init, m := batch[..|batch| - 1], batch[|batch| - 1];
      LastApart(batch);
      InsertedAllGrows(log, init, all);
      InsertGrows(InsertedAll(log, init), m, all);
      assert AsSet(batch) == AsSet(init) + {m};
      var after := InsertedAll(log, batch);
      assert forall x :: x in after ==> x in AsSet(after);
    }
  }

  /** Two messages of one channel with the same id are the same message, so an insertion only adds. */
  lemma InsertGrows(log: seq<Message>, m: Message, all: seq<Message>)
    requires Sorted(log) && Sorted(all) && AllFrom(log, all) && m in all
    ensures AsSet(Inserted(log, m)) == AsSet(log) + {m}
  {
    forall x | x in log && x.id == m.id
      ensures x == m
    {
      var i :| 0 <= i < |all| && all[i] == x;
      var j :| 0 <= j < |all| && all[j] == m;
    }
  }

  ghost function Everything(batches: seq<seq<Message>>): set<Message> {
    set k, m | 0 <= k < |batches| && m in batches[k] :: m
  }

  lemma {:induction false} RefilledHolds(log: seq<Message>, batches: seq<seq<Message>>, all: seq<Message>)
    requires Sorted(log) && Sorted(all) && AllFrom(log, all)
    requires forall k :: 0 <= k < |batches| ==> AllFrom(batches[k], all)
    ensures AllFrom(Refilled(log, batches), all)
    ensures AsSet(Refilled(log, batches)) == AsSet(log) + Everything(batches)
    decreases |batches|
  {
    if batches != [] {
      var init, last := batches[..|batches| - 1], batches[|batches| - 1];
      RefilledHolds(log, init, all);
      InsertedAllGrows(Refilled(log, init), last, all);
      assert Everything(batches) == Everything(init) + AsSet(last) by {
        LastApart(batches);
        forall m | m in Everything(batches)
          ensures m in Everything(init) + AsSet(last)
        {
          var k :| 0 <= k < |batches| && m in batches[k];
          if k < |init| { assert m in init[k]; }
        }
        forall m | m in Everything(init)
          ensures m in Everything(batches)
        {
          var k :| 0 <= k < |init| && m in init[k];
          assert m in batches[k];
        }
        forall m | m in last
          ensures m in Everything(batches)
        {
          assert m in batches[|batches| - 1];
        }
      }
    }
  }

  lemma BareLogIsTheChannel(log: seq<Message>, batches: seq<seq<Message>>, all: seq<Message>)
    requires Sorted(log) && Sorted(all) && AllFrom(log, all)
    requires forall k :: 0 <= k < |batches| ==> AllFrom(batches[k], all)
    requires forall m :: m in all ==> m in log || m in Everything(batches)
    ensures Refilled(log, batches) == all
  {
    RefilledHolds(log, batches, all);
    var after := Refilled(log, batches);
    forall m | m in all
      ensures m in AsSet(after)
    {
      if m in log { assert m in AsSet(log); }
    }
    assert AsSet(after) == AsSet(all);
    SortedUnique(after, all);
  }

  // ------------------------------------------------------------------ nonces

  /** Putting a copy with a nonce into a log, and looking past nonces, commute. */
  lemma StripInserted(ms: seq<Message>, m: Message)
    requires Sorted(ms)
    ensures Sorted(Strip(ms)) && Strip(Inserted(ms, m)) == Inserted(Strip(ms), Bare(m))
  {
    var after, bare := Inserted(ms, m), Inserted(Strip(ms), Bare(m));
    forall x
      ensures x in AsSet(Strip(after)) <==> x in AsSet(bare)
    {
      StripMembers(after, x);
      StripMembers(ms, x);
      StripReplaced(ms, m, after, x);
    }
    SortedUnique(Strip(after), bare);
  }

  lemma StripMembers(ms: seq<Message>, x: Message)
    ensures x in Strip(ms) <==> exists y :: y in ms && Bare(y) == x
  {
    if y :| y in ms && Bare(y) == x {
      var i :| 0 <= i < |ms| && ms[i] == y;
      assert Strip(ms)[i] == x;
    }
    if x in Strip(ms) {
      var i :| 0 <= i < |ms| && Strip(ms)[i] == x;
      assert ms[i] in ms && Bare(ms[i]) == x;
    }
  }

  lemma StripReplaced(ms: seq<Message>, m: Message, after: seq<Message>, x: Message)
    requires Sorted(ms) && IsInserted(ms, m, after)
    ensures (exists y :: y in after && Bare(y) == x)
      <==> x == Bare(m) || (x.id != m.id && exists y :: y in ms && Bare(y) == x)
  {
    assert forall y :: y in after <==> y in AsSet(after);
    if x == Bare(m) { assert m in after; }
    if y :| y in ms && Bare(y) == x {
      if x.id != m.id { assert y in after; }
    }
  }

  lemma {:induction false} StripInsertedAll(ms: seq<Message>, page: seq<Message>)
    requires Sorted(ms)
    ensures Sorted(Strip(ms)) && Strip(InsertedAll(ms, page)) == InsertedAll(Strip(ms), Strip(page))
    decreases |page|
  {
    if page == [] {
      assert Strip(page) == [];
    } else {
      StripInsertedAll(ms, page[..|page| - 1]);
      StripInserted(InsertedAll(ms, page[..|page| - 1]), page[|page| - 1]);
      assert Strip(page)[..|page| - 1] == Strip(page[..|page| - 1]);
    }
  }

  ghost function StripAll(batches: seq<seq<Message>>): (r: seq<seq<Message>>)
    ensures |r| == |batches| && forall k :: 0 <= k < |batches| ==> r[k] == Strip(batches[k])
  {
    seq(|batches|, k requires 0 <= k < |batches| => Strip(batches[k]))
  }

  lemma {:induction false} StripRefilled(log: seq<Message>, batches: seq<seq<Message>>)
    requires Sorted(log)
    ensures Sorted(Strip(log)) && Strip(Refilled(log, batches)) == Refilled(Strip(log), StripAll(batches))
    decreases |batches|
  {
    if batches == [] {
      assert StripAll(batches) == [];
    } else {
      StripRefilled(log, batches[..|batches| - 1]);
      StripInsertedAll(Refilled(log, batches[..|batches| - 1]), batches[|batches| - 1]);
      assert StripAll(batches)[..|batches| - 1] == StripAll(batches[..|batches| - 1]);
    }
  }

  /** Once every message of the channel has come in some page or as a live message, the log is, nonces aside, the
      channel: in whatever order pages and live messages came, however often, and whichever copies carried a nonce. */
  lemma LogIsTheChannel(log: seq<Message>, batches: seq<seq<Message>>, all: seq<Message>)
    requires Sorted(log) && Sorted(all) && AllFrom(Strip(log), all)
    requires forall k :: 0 <= k < |batches| ==> AllFrom(Strip(batches[k]), all)
    requires forall m :: m in all ==> m in Strip(log) || m in Everything(StripAll(batches))
    ensures Sorted(Refilled(log, batches)) && Strip(Refilled(log, batches)) == all
  {
    StripRefilled(log, batches);
    BareLogIsTheChannel(Strip(log), StripAll(batches), all);
  }

  // ------------------------------------------------------------------ frame by frame

  ghost function AfterFrames(logs: Logs, frames: seq<ServerMsg>): (after: Logs)
    requires AllSorted(logs)
    ensures AllSorted(after)
    decreases |frames|
  {
    if frames == [] then logs
    else
      var before := AfterFrames(logs, frames[..|frames| - 1]);
      AppliedLogsSorted(before, frames[|frames| - 1]);
      AppliedLogs(before, frames[|frames| - 1])
  }

  /** No edit of the channel's messages, and no deletion. */
  ghost predicate OnlyAdds(frame: ServerMsg, channel: Id) {
    (frame.MessageUpdate? ==> frame.edited.channel != channel) && (frame.MessageDelete? ==> frame.channel != channel)
  }

  /** What a frame brings into the channel's log. */
  ghost function Batch(frame: ServerMsg, channel: Id): seq<Message> {
    match frame
    case MessageCreate(m) => if m.channel == channel then [m] else []
    case History(c, messages, _) => if c == channel then messages else []
    case _ => []
  }

  ghost function Batches(frames: seq<ServerMsg>, channel: Id): (r: seq<seq<Message>>)
    ensures |r| == |frames| && forall k :: 0 <= k < |frames| ==> r[k] == Batch(frames[k], channel)
  {
    seq(|frames|, k requires 0 <= k < |frames| => Batch(frames[k], channel))
  }

  lemma OneFrame(logs: Logs, frame: ServerMsg, channel: Id)
    requires AllSorted(logs) && OnlyAdds(frame, channel)
    ensures var log, after := LogOf(logs, channel), LogOf(AppliedLogs(logs, frame), channel);
      && after.messages == InsertedAll(log.messages, Batch(frame, channel))
      && (after.complete <==> log.complete || (frame.History? && frame.channel == channel && frame.complete))
  {
    if frame.MessageCreate? && frame.message.channel == channel {
      var ms := LogOf(logs, channel).messages;
      assert [frame.message][..0] == [] && InsertedAll(ms, []) == ms;
    }
  }

  lemma {:induction false} FramesRefill(logs: Logs, frames: seq<ServerMsg>, channel: Id)
    requires AllSorted(logs) && forall k :: 0 <= k < |frames| ==> OnlyAdds(frames[k], channel)
    ensures LogOf(AfterFrames(logs, frames), channel).messages ==
        Refilled(LogOf(logs, channel).messages, Batches(frames, channel))
    ensures LogOf(AfterFrames(logs, frames), channel).complete <==>
        LogOf(logs, channel).complete || Completes(frames, channel)
    decreases |frames|
  {
    if frames != [] {
      var init, last := frames[..|frames| - 1], frames[|frames| - 1];
      FramesRefill(logs, init, channel);
      OneFrame(AfterFrames(logs, init), last, channel);
      BatchesBefore(frames, channel);
      LastApart(frames);
      CompletesStep(init, last, channel);
    }
  }

  lemma BatchesBefore(frames: seq<ServerMsg>, channel: Id)
    requires frames != []
    ensures Batches(frames, channel)[..|frames| - 1] == Batches(frames[..|frames| - 1], channel)
  {
  }

  /** Some frame says the channel's history goes no further back. */
  ghost predicate Completes(frames: seq<ServerMsg>, channel: Id) {
    exists k :: 0 <= k < |frames| && SaysComplete(frames[k], channel)
  }

  ghost predicate SaysComplete(frame: ServerMsg, channel: Id) {
    frame.History? && frame.channel == channel && frame.complete
  }

  lemma CompletesStep(frames: seq<ServerMsg>, last: ServerMsg, channel: Id)
    ensures Completes(frames + [last], channel) <==> Completes(frames, channel) || SaysComplete(last, channel)
  {
    var all := frames + [last];
    if k :| 0 <= k < |frames| && SaysComplete(frames[k], channel) { assert all[k] == frames[k]; }
    if SaysComplete(last, channel) { assert all[|frames|] == last; }
  }

  // ------------------------------------------------------------------ fetching, with live messages

  /** Of the channel, the frames hold only pages asked for and messages it has, and they hold every page and every
      message stored since the first request; in any order, any number of times, with or without the author's nonce. */
  ghost predicate Delivered(pages: seq<(seq<Message>, bool)>, more: seq<Message>, channel: Id, all: seq<Message>,
                            frames: seq<ServerMsg>) {
    && (forall k :: 0 <= k < |frames| ==> OnlyAdds(frames[k], channel) && BringsKnown(pages, channel, all, frames[k]))
    && (forall p :: 0 <= p < |pages| ==> ServerMsg.History(channel, pages[p].0, pages[p].1) in frames)
    && forall m :: m in more && m.channel == channel ==> ArrivesLive(frames, m)
  }

  ghost predicate BringsKnown(pages: seq<(seq<Message>, bool)>, channel: Id, all: seq<Message>, frame: ServerMsg) {
    match frame
    case MessageCreate(m) => m.channel == channel ==> Bare(m) in all
    case History(c, messages, complete) => c == channel ==> (messages, complete) in pages
    case _ => true
  }

  ghost predicate ArrivesLive(frames: seq<ServerMsg>, m: Message) {
    exists k :: 0 <= k < |frames| && IsCopy(frames[k], m)
  }

  ghost predicate IsCopy(frame: ServerMsg, m: Message) { frame.MessageCreate? && Bare(frame.message) == Bare(m) }

  /** Rows as they read back. */
  ghost predicate AllBare(ms: seq<Message>) { forall m :: m in ms ==> Bare(m) == m }

  /** Fetching back to the beginning while messages are stored, one's own among them, and arrive live: the log ends up
      sorted and, nonces aside, is the channel as it then is, and it is known to be complete. */
  lemma FetchedAndLive(table: seq<Message>, more: seq<Message>, grown: nat -> nat, channel: Id, limit: nat, logs: Logs,
                       frames: seq<ServerMsg>)
    requires Sorted(table) && Sorted(table + more) && Follows(table, more) && AllBare(table + more)
    requires limit >= 1 && grown(0) == 0 && AllSorted(logs)
    requires AllFrom(Strip(LogOf(logs, channel).messages), Older(table + more, channel, None))
    requires Delivered(PagesMeanwhile(table, more, grown, channel, None, limit, 0), more, channel,
                       Older(table + more, channel, None), frames)
    ensures var log := LogOf(AfterFrames(logs, frames), channel);
      Sorted(log.messages) && Strip(log.messages) == Older(table + more, channel, None) && log.complete
  {
    var pages, all := Pages(table, channel, None, limit), Older(table + more, channel, None);
    var batches := Batches(frames, channel);
    GrowingTableSamePages(table, more, grown, channel, None, limit, 0);
    PagesAreTheChannel(table, channel, None, limit);
    FramesRefill(logs, frames, channel);
    LastPageCompletes(pages, more, channel, all, frames);
    PagesComeFrom(table, more, channel, pages);
    NothingElseArrives(pages, more, channel, all, frames);
    assert AllBare(more) && AllBare(Stacked(pages)) by { assert forall m :: m in more ==> m in table + more; }
    EverythingArrives(pages, more, channel, all, frames);
    RefilledNoncesAside(LogOf(logs, channel).messages, batches, table, more, channel);
  }

  lemma PagesComeFrom(table: seq<Message>, more: seq<Message>, channel: Id, pages: seq<(seq<Message>, bool)>)
    requires AllBare(table + more) && Stacked(pages) == Older(table, channel, None)
    ensures forall m :: m in Stacked(pages) ==> m in Older(table + more, channel, None) && Bare(m) == m
  {
    forall m | m in Stacked(pages)
      ensures m in Older(table + more, channel, None) && Bare(m) == m
    {
      assert m in table + more;
    }
  }

  lemma RefilledNoncesAside(log: seq<Message>, batches: seq<seq<Message>>, table: seq<Message>, more: seq<Message>,
                            channel: Id)
    requires Sorted(log) && Sorted(table + more) && AllBare(table + more)
    requires AllFrom(Strip(log), Older(table + more, channel, None))
    requires forall k :: 0 <= k < |batches| ==> AllFrom(StripAll(batches)[k], Older(table + more, channel, None))
    requires forall m :: m in Older(table, channel, None) ==> m in Everything(StripAll(batches))
    requires forall m :: m in more && m.channel == channel ==> m in Everything(StripAll(batches))
    ensures Strip(Refilled(log, batches)) == Older(table + more, channel, None)
  {
    var all := Older(table + more, channel, None);
    OlderIsSorted(table + more, channel, None);
    forall m | m in all
      ensures m in Everything(StripAll(batches))
    {
      OldOrNew(table, more, channel, m);
    }
    forall k | 0 <= k < |batches|
      ensures AllFrom(Strip(batches[k]), all)
    {
      assert StripAll(batches)[k] == Strip(batches[k]);
    }
    LogIsTheChannel(log, batches, all);
  }

  lemma OldOrNew(table: seq<Message>, more: seq<Message>, channel: Id, m: Message)
    requires m in Older(table + more, channel, None)
    ensures m in Older(table, channel, None) || (m in more && m.channel == channel)
  {
  }

  lemma LastPageCompletes(pages: seq<(seq<Message>, bool)>, more: seq<Message>, channel: Id, all: seq<Message>,
                          frames: seq<ServerMsg>)
    requires Delivered(pages, more, channel, all, frames) && pages != [] && pages[|pages| - 1].1
    ensures Completes(frames, channel)
  {
    var frame := ServerMsg.History(channel, pages[|pages| - 1].0, true);
    assert frame in frames;
    var k :| 0 <= k < |frames| && frames[k] == frame;
    assert SaysComplete(frames[k], channel);
  }

  lemma NothingElseArrives(pages: seq<(seq<Message>, bool)>, more: seq<Message>, channel: Id, all: seq<Message>,
                           frames: seq<ServerMsg>)
    requires Delivered(pages, more, channel, all, frames)
    requires forall m :: m in Stacked(pages) ==> m in all && Bare(m) == m
    ensures forall k :: 0 <= k < |frames| ==> AllFrom(StripAll(Batches(frames, channel))[k], all)
  {
    forall k | 0 <= k < |frames|
      ensures AllFrom(Strip(Batch(frames[k], channel)), all)
    {
      assert BringsKnown(pages, channel, all, frames[k]);
      match frames[k]
      case History(c, messages, complete) =>
        if c == channel {
          var p :| 0 <= p < |pages| && pages[p] == (messages, complete);
          StackedHolds(pages, p);
          forall m | m in Strip(messages)
            ensures m in all
          {
            StripMembers(messages, m);
          }
        }
      case _ =>
    }
  }

  lemma EverythingArrives(pages: seq<(seq<Message>, bool)>, more: seq<Message>, channel: Id, all: seq<Message>,
                          frames: seq<ServerMsg>)
    requires Delivered(pages, more, channel, all, frames) && AllBare(more) && AllBare(Stacked(pages))
    ensures forall m :: m in Stacked(pages) ==> m in Everything(StripAll(Batches(frames, channel)))
    ensures forall m :: m in more && m.channel == channel ==> m in Everything(StripAll(Batches(frames, channel)))
  {
    forall m | m in Stacked(pages)
      ensures m in Everything(StripAll(Batches(frames, channel)))
    {
      var p := StackedFrom(pages, m);
      var k :| 0 <= k < |frames| && frames[k] == ServerMsg.History(channel, pages[p].0, pages[p].1);
      ComesIn(frames, channel, k, m, m);
    }
    forall m | m in more && m.channel == channel
      ensures m in Everything(StripAll(Batches(frames, channel)))
    {
      assert ArrivesLive(frames, m);
      var k :| 0 <= k < |frames| && IsCopy(frames[k], m);
      ComesIn(frames, channel, k, frames[k].message, m);
    }
  }

  lemma ComesIn(frames: seq<ServerMsg>, channel: Id, k: nat, copy: Message, m: Message)
    requires k < |frames| && copy in Batch(frames[k], channel) && Bare(copy) == m
    ensures m in Everything(StripAll(Batches(frames, channel)))
  {
    StripMembers(Batch(frames[k], channel), m);
    assert m in StripAll(Batches(frames, channel))[k];
  }

  lemma {:induction false} StackedHolds(pages: seq<(seq<Message>, bool)>, p: nat)
    requires p < |pages|
    ensures forall m :: m in pages[p].0 ==> m in Stacked(pages)
  {
    if p > 0 { StackedHolds(pages[1..], p - 1); }
  }

  lemma {:induction false} StackedFrom(pages: seq<(seq<Message>, bool)>, m: Message) returns (p: nat)
    requires m in Stacked(pages)
    ensures p < |pages| && m in pages[p].0
  {
    if m in pages[0].0 {
      p := 0;
    } else {
      var q := StackedFrom(pages[1..], m);
      p := q + 1;
    }
  }
}
