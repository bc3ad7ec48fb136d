/** Attachments kept by content, and a janitor that may die between any two things it does. */
module Blobs {
  import opened Common

  type Sha = nat
  type Content = seq<Byte>

  /** One attachment row, as far as the janitor sees it. */
  datatype Row = Row(sha: Sha, expires: int, blobDeleted: bool)

  type Rows = map<nat, Row>

  datatype Disk = Disk(rows: Rows, files: map<Sha, Content>)

  // ------------------------------------------------------------------ the queries

  /** Hashes some attachment still needs. */
  function Live(rows: Rows, now: int): set<Sha> {
    set id | id in rows && rows[id].expires > now :: rows[id].sha
  }

  /** Hashes whose time is up, not marked yet, and needed by nobody. */
  function Expired(rows: Rows, now: int): set<Sha> {
    (set id | id in rows && rows[id].expires <= now && !rows[id].blobDeleted :: rows[id].sha) - Live(rows, now)
  }

  function Referenced(rows: Rows): set<Sha> { set id | id in rows :: rows[id].sha }

  /** Files with no row at all. */
  function Orphans(d: Disk): set<Sha> { d.files.Keys - Referenced(d.rows) }

  /** `UPDATE attachments SET blob_deleted = 1`, for each hash of a set. */
  function Marked(rows: Rows, gone: set<Sha>): Rows {
    map id | id in rows :: if rows[id].sha in gone then rows[id].(blobDeleted := true) else rows[id]
  }

  // ------------------------------------------------------------------ one thing at a time

  datatype Step = Remove(sha: Sha) | Mark(sha: Sha)

  function Apply(d: Disk, step: Step): Disk {
    match step
    case Remove(sha) => d.(files := d.files - {sha})
    case Mark(sha) => d.(rows := Marked(d.rows, {sha}))
  }

  function After(d: Disk, steps: seq<Step>): Disk {
    if steps == [] then d else Apply(After(d, steps[..|steps| - 1]), steps[|steps| - 1])
  }

  ghost function Removed(steps: seq<Step>): set<Sha> {
    if steps == [] then {}
    else Removed(steps[..|steps| - 1]) + if steps[|steps| - 1].Remove? then {steps[|steps| - 1].sha} else {}
  }

  /** How many files were removed, or found gone already. */
  ghost function Removals(steps: seq<Step>): nat {
    if steps == [] then 0 else Removals(steps[..|steps| - 1]) + if steps[|steps| - 1].Remove? then 1 else 0
  }

  ghost function Marks(steps: seq<Step>): set<Sha> {
    if steps == [] then {}
    else Marks(steps[..|steps| - 1]) + if steps[|steps| - 1].Mark? then {steps[|steps| - 1].sha} else {}
  }

  /** A beginning of some pass: only what the two queries give is removed, and a row is marked straight after its
      file has gone. */
  ghost predicate OfSweep(d: Disk, now: int, steps: seq<Step>) {
    forall i :: 0 <= i < |steps| ==> Justified(d, now, steps, i)
  }

  ghost predicate Justified(d: Disk, now: int, steps: seq<Step>, i: nat)
    requires i < |steps|
  {
    match steps[i]
    case Remove(sha) => sha in Expired(d.rows, now) || sha in Orphans(d)
    case Mark(sha) => sha in Expired(d.rows, now) && i > 0 && steps[i - 1] == Remove(sha)
  }

  lemma OneStep(steps: seq<Step>, step: Step)
    ensures Removed(steps + [step]) == Removed(steps) + (if step.Remove? then {step.sha} else {})
    ensures Marks(steps + [step]) == Marks(steps) + (if step.Mark? then {step.sha} else {})
  {
    assert (steps + [step])[..|steps|] == steps;
  }

  lemma StepJustified(d: Disk, now: int, steps: seq<Step>, step: Step)
    requires OfSweep(d, now, steps) && Justified(d, now, steps + [step], |steps|)
    ensures OfSweep(d, now, steps + [step])
  {
    forall i | 0 <= i < |steps|
      ensures Justified(d, now, steps + [step], i)
    {
      assert Justified(d, now, steps, i);
    }
  }

  lemma PrefixOfSweep(d: Disk, now: int, steps: seq<Step>, k: nat)
    requires OfSweep(d, now, steps) && k <= |steps|
    ensures OfSweep(d, now, steps[..k])
  {
    forall i | 0 <= i < k
      ensures Justified(d, now, steps[..k], i)
    {
      assert Justified(d, now, steps, i);
    }
  }

  /** Only which files went and which rows were marked matters. */
  lemma {:induction false} AfterIs(d: Disk, steps: seq<Step>)
    ensures After(d, steps) == Disk(Marked(d.rows, Marks(steps)), d.files - Removed(steps))
    decreases |steps|
  {
    if steps == [] {
      assert Marked(d.rows, {}) == d.rows && d.files - {} == d.files;
    } else {
      var init, last := steps[..|steps| - 1], steps[|steps| - 1];
      AfterIs(d, init);
      OneStep(init, last);
      assert init + [last] == steps;
      if last.Mark? { MarkedMore(d.rows, Marks(init), last.sha); }
    }
  }

  lemma MarkedMore(rows: Rows, gone: set<Sha>, sha: Sha)
    ensures Marked(Marked(rows, gone), {sha}) == Marked(rows, gone + {sha})
  {
  }

  lemma {:induction false} MarksFollowRemovals(d: Disk, now: int, steps: seq<Step>)
    requires OfSweep(d, now, steps)
    ensures Marks(steps) <= Removed(steps) && Marks(steps) <= Expired(d.rows, now)
    ensures Removed(steps) <= Expired(d.rows, now) + Orphans(d)
    decreases |steps|
  {
    if steps != [] {
      var n := |steps| - 1;
      PrefixOfSweep(d, now, steps, n);
      MarksFollowRemovals(d, now, steps[..n]);
      assert Justified(d, now, steps, n);
      if steps[n].Mark? {
        assert steps[..n][n - 1] == Remove(steps[n].sha);
        assert steps[n].sha in Removed(steps[..n]);
      }
    }
  }

  // ------------------------------------------------------------------ what holds at every point of a pass

  /** Nobody loses what they still need: every unexpired attachment has the row it had and the bytes it had. Nothing
      about an attachment is forgotten but that its bytes are gone, and that only once they are. */
  ghost predicate Safe(d: Disk, s: Disk, now: int) {
    && s.rows.Keys == d.rows.Keys
    && (forall id :: id in d.rows && d.rows[id].expires > now ==> s.rows[id] == d.rows[id])
    && (forall id :: id in d.rows && d.rows[id].expires > now && d.rows[id].sha in d.files ==>
          d.rows[id].sha in s.files && s.files[d.rows[id].sha] == d.files[d.rows[id].sha])
    && (forall id :: id in d.rows ==> s.rows[id] == d.rows[id] || IsGone(d.rows[id], s.rows[id], s.files))
    && (forall sha :: sha in s.files ==> sha in d.files && s.files[sha] == d.files[sha])
  }

  ghost predicate IsGone(before: Row, after: Row, files: map<Sha, Content>) {
    after == before.(blobDeleted := true) && after.sha !in files
  }

  /** Wherever the janitor stops, also between a file and its rows, nobody has lost anything. */
  lemma EveryPointIsSafe(d: Disk, now: int, steps: seq<Step>, k: nat)
    requires OfSweep(d, now, steps) && k <= |steps|
    ensures Safe(d, After(d, steps[..k]), now)
  {
    PrefixOfSweep(d, now, steps, k);
    AfterIs(d, steps[..k]);
    MarksFollowRemovals(d, now, steps[..k]);
    NeededIsNotRemoved(d, now, steps[..k]);
  }

  lemma NeededIsNotRemoved(d: Disk, now: int, steps: seq<Step>)
    requires OfSweep(d, now, steps)
    ensures forall id :: id in d.rows && d.rows[id].expires > now ==>
      d.rows[id].sha !in Removed(steps) && d.rows[id].sha !in Marks(steps)
  {
    MarksFollowRemovals(d, now, steps);
    forall id | id in d.rows && d.rows[id].expires > now
      ensures d.rows[id].sha !in Removed(steps)
    {
      assert d.rows[id].sha in Live(d.rows, now) && d.rows[id].sha in Referenced(d.rows);
    }
  }

  // ------------------------------------------------------------------ starting again

  /** What a pass that is not stopped, and whose every removal works, comes to. */
  function Swept(d: Disk, now: int): Disk {
    Disk(Marked(d.rows, Expired(d.rows, now)), d.files - (Expired(d.rows, now) + Orphans(d)))
  }

  lemma MarkingKeepsQueries(rows: Rows, gone: set<Sha>, now: int)
    ensures Live(Marked(rows, gone), now) == Live(rows, now)
    ensures Referenced(Marked(rows, gone)) == Referenced(rows)
    ensures Expired(Marked(rows, gone), now) == Expired(rows, now) - gone
  {
    var after := Marked(rows, gone);
    assert after.Keys == rows.Keys;
    assert forall id :: id in rows ==> after[id].sha == rows[id].sha && after[id].expires == rows[id].expires;
    forall sha
      ensures sha in Live(after, now) <==> sha in Live(rows, now)
      ensures sha in Referenced(after) <==> sha in Referenced(rows)
      ensures sha in Expired(after, now) <==> sha in Expired(rows, now) - gone
    {
      if sha in Live(rows, now) {
        var id :| id in rows && rows[id].expires > now && rows[id].sha == sha;
        assert after[id].sha == sha;
      }
      if sha in Referenced(rows) { var id :| id in rows && rows[id].sha == sha; assert after[id].sha == sha; }
      if sha in Expired(rows, now) - gone {
        var id :| id in rows && rows[id].expires <= now && !rows[id].blobDeleted && rows[id].sha == sha;
        assert after[id] == rows[id];
      }
    }
  }

  /** What was expired stays expired, as long as it is not marked. */
  lemma ExpiredGrows(rows: Rows, now: int, later: int)
    requires now <= later
    ensures Expired(rows, now) <= Expired(rows, later)
  {
    forall sha | sha in Expired(rows, now)
      ensures sha in Expired(rows, later)
    {
      var id :| id in rows && rows[id].expires <= now && !rows[id].blobDeleted && rows[id].sha == sha;
      assert rows[id].expires <= later;
    }
  }

  /** A pass begun and broken off anywhere, and then another at any later time, come to what the later pass alone would
      have come to. In particular, run again at once it comes to what it would have come to. */
  lemma StoppedAndRunAgain(d: Disk, now: int, steps: seq<Step>, k: nat, later: int)
    requires OfSweep(d, now, steps) && k <= |steps| && now <= later
    ensures Swept(After(d, steps[..k]), later) == Swept(d, later)
  {
    var begun := steps[..k];
    PrefixOfSweep(d, now, steps, k);
    AfterIs(d, begun);
    MarksFollowRemovals(d, now, begun);
    MarkingKeepsQueries(d.rows, Marks(begun), later);
    ExpiredGrows(d.rows, now, later);
    var s := After(d, begun);
    assert Orphans(s) == Orphans(d) - Removed(begun);
    assert Marked(Marked(d.rows, Marks(begun)), Expired(d.rows, later) - Marks(begun))
        == Marked(d.rows, Expired(d.rows, later));
    assert s.files - (Expired(s.rows, later) + Orphans(s)) == d.files - (Expired(d.rows, later) + Orphans(d));
  }

  /** What a whole pass leaves that nobody needs is exactly what it cannot see: files whose every row is marked as
      having none. */
  lemma LeftBehind(d: Disk, now: int, sha: Sha)
    ensures sha in Swept(d, now).files && sha !in Live(d.rows, now) <==>
      && sha in d.files && sha in Referenced(d.rows)
      && forall id :: id in d.rows && d.rows[id].sha == sha ==> d.rows[id].expires <= now && d.rows[id].blobDeleted
  {
    if forall id :: id in d.rows && d.rows[id].sha == sha ==> d.rows[id].expires <= now && d.rows[id].blobDeleted {
      assert sha !in Live(d.rows, now) && sha !in Expired(d.rows, now);
    } else {
      var id :| id in d.rows && d.rows[id].sha == sha && !(d.rows[id].expires <= now && d.rows[id].blobDeleted);
      if d.rows[id].expires > now { assert sha in Live(d.rows, now); }
      else if sha !in Live(d.rows, now) { assert sha in Expired(d.rows, now); }
    }
  }

  // ------------------------------------------------------------------ the server

  class Server {
    const hash: Content -> Sha
    var rows: Rows
    var files: map<Sha, Content>
    /** Half-written files, which no query and no reader sees. */
    var parts: map<Sha, Content>

    ghost function State(): Disk
      reads this
    {
      Disk(rows, files)
    }

    /** Every file is the whole of what its name is the hash of. */
    ghost predicate Addressed()
      reads this
    {
      forall sha :: sha in files ==> hash(files[sha]) == sha
    }

    /** Storing may be cut off after any number of `writes`; what is under a final name is then still whole. */
    method Store(bytes: Content, writes: nat) returns (sha: Option<Sha>)
      requires Addressed()
      modifies `files, `parts
      ensures Addressed() && forall s :: s in old(files) ==> s in files && files[s] == old(files)[s]
      ensures sha.None? ==> files == old(files)
      ensures sha.Some? ==> files.Keys == old(files).Keys + {sha.value} && sha.value == hash(bytes)
      ensures sha.Some? && (forall other :: hash(other) == hash(bytes) ==> other == bytes) ==> files[sha.value] == bytes
      ensures writes >= 2 ==> sha.Some?
    {
      var name := hash(bytes);
      if name in files { return Some(name); }
      if writes == 0 { return None; }
      parts := parts[name := bytes];
      if writes == 1 { return None; }
      files := files[name := parts[name]];
      parts := parts - {name};
      return Some(name);
    }

    /** One pass. `refused` are the files the system will not let go of this time; `writes` is how many changes to disk
        or database are made before the process dies. */
    method Sweep(now: int, refused: set<Sha>, writes: nat)
      returns (removed: nat, finished: bool, ghost steps: seq<Step>)
      modifies `rows, `files
      ensures OfSweep(old(State()), now, steps) && State() == After(old(State()), steps)
      ensures !finished ==> |steps| == writes
      ensures finished ==> Marks(steps) == Expired(old(rows), now) - refused
      ensures finished ==> Removed(steps) == Expired(old(rows), now) + Orphans(old(State())) - refused
      ensures finished ==> removed == Removals(steps)
      ensures finished && refused == {} ==> State() == Swept(old(State()), now)
    {
      ghost var d := State();
      var left;
      removed, left, steps := SweepExpired(now, refused, writes);
      finished := false;
      if left.None? { return; }
      OrphansRemain(d, now, steps);
      var orphans;
      orphans, finished, steps := SweepOrphans(d, now, steps, refused, left.value);
      removed := removed + orphans;
      if finished {
        ExpiredAreReferenced(d, now);
        WholePass(d, now, steps, refused);
      }
    }

    /** Already gone counts as removed. */
    method RemoveFile(ghost d: Disk, now: int, ghost steps: seq<Step>, sha: Sha) returns (ghost after: seq<Step>)
      requires OfSweep(d, now, steps) && State() == After(d, steps)
      requires sha in Expired(d.rows, now) || sha in Orphans(d)
      modifies `files
      ensures after == steps + [Remove(sha)] && OfSweep(d, now, after) && State() == After(d, after)
      ensures Removed(after) == Removed(steps) + {sha} && Marks(after) == Marks(steps)
      ensures Removals(after) == Removals(steps) + 1
    {
      after := Did(d, now, steps, Remove(sha));
      files := files - {sha};
    }

    method MarkRows(ghost d: Disk, now: int, ghost steps: seq<Step>, sha: Sha) returns (ghost after: seq<Step>)
      requires OfSweep(d, now, steps) && State() == After(d, steps)
      requires sha in Expired(d.rows, now) && steps != [] && steps[|steps| - 1] == Remove(sha)
      modifies `rows
      ensures after == steps + [Mark(sha)] && OfSweep(d, now, after) && State() == After(d, after)
      ensures Removed(after) == Removed(steps) && Marks(after) == Marks(steps) + {sha}
      ensures Removals(after) == Removals(steps)
    {
      after := Did(d, now, steps, Mark(sha));
      rows := Marked(rows, {sha});
    }

    /** One expired hash: the file first, the rows second. */
    method Expire(ghost d: Disk, now: int, ghost steps: seq<Step>, sha: Sha, writes: nat)
      returns (left: Option<nat>, ghost after: seq<Step>)
      requires OfSweep(d, now, steps) && State() == After(d, steps) && sha in Expired(d.rows, now)
      modifies `rows, `files
      ensures OfSweep(d, now, after) && State() == After(d, after)
      ensures left.None? ==> |after| == |steps| + writes
      ensures left.Some? ==> left.value + |after| == |steps| + writes
      ensures left.Some? ==> Removed(after) == Removed(steps) + {sha} && Marks(after) == Marks(steps) + {sha}
      ensures left.Some? ==> Removals(after) == Removals(steps) + 1
    {
      after := steps;
      if writes == 0 { return None, after; }
      after := RemoveFile(d, now, after, sha);
      if writes == 1 { return None, after; }
      after := MarkRows(d, now, after, sha);
      left := Some(writes - 2);
    }

    method SweepExpired(now: int, refused: set<Sha>, writes: nat)
      returns (removed: nat, left: Option<nat>, ghost steps: seq<Step>)
      modifies `rows, `files
      ensures OfSweep(old(State()), now, steps) && State() == After(old(State()), steps)
      ensures left.None? ==> |steps| == writes
      ensures left.Some? ==> Marks(steps) == Removed(steps) == Expired(old(rows), now) - refused
      ensures left.Some? ==> removed == Removals(steps) && left.value + |steps| == writes
    {
      ghost var d, all := State(), Expired(rows, now);
      removed, left, steps := 0, Some(writes), [];
      var todo := Expired(rows, now);
      while todo != {}
        invariant todo <= all && OfSweep(d, now, steps) && State() == After(d, steps)
        invariant left.Some? && left.value + |steps| == writes
        invariant Marks(steps) == Removed(steps) == Done(all, todo, refused) && removed == Removals(steps)
        decreases todo
      {
        var sha :| sha in todo;
        TakeOne(all, todo, refused, sha);
        todo := todo - {sha};
        if sha !in refused {
          left, steps := Expire(d, now, steps, sha, left.value);
          if left.None? { return; }
          removed := removed + 1;
        }
      }
      assert Done(all, {}, refused) == all - refused;
    }

    /** The files without rows. */
    method SweepOrphans(ghost d: Disk, now: int, ghost before: seq<Step>, refused: set<Sha>, writes: nat)
      returns (removed: nat, finished: bool, ghost steps: seq<Step>)
      requires OfSweep(d, now, before) && State() == After(d, before) && Orphans(State()) == Orphans(d)
      modifies `files
      ensures OfSweep(d, now, steps) && State() == After(d, steps) && Marks(steps) == Marks(before)
      ensures !finished ==> |steps| == |before| + writes
      ensures finished ==> Removed(steps) == Removed(before) + (Orphans(d) - refused)
      ensures finished ==> Removals(steps) == Removals(before) + removed
    {
      var rest: nat := writes;
      removed, finished, steps := 0, false, before;
      ghost var all, gone := Orphans(d), Removed(before);
      var todo := files.Keys - Referenced(rows);
      while todo != {}
        invariant todo <= all && OfSweep(d, now, steps) && State() == After(d, steps) && Marks(steps) == Marks(before)
        invariant rest + |steps| == |before| + writes
        invariant Removed(steps) == Plus(gone, Done(all, todo, refused))
        invariant Removals(steps) == Removals(before) + removed
        decreases todo
      {
        var sha :| sha in todo;
        TakeOne(all, todo, refused, sha);
        PlusOne(gone, Done(all, todo, refused), sha);
        todo := todo - {sha};
        if sha !in refused {
          if rest == 0 { return; }
          steps := RemoveFile(d, now, steps, sha);
          rest, removed := rest - 1, removed + 1;
        }
      }
      assert Done(all, {}, refused) == all - refused;
      finished := true;
    }
  }

  ghost function Plus(a: set<Sha>, b: set<Sha>): set<Sha> { a + b }

  lemma PlusOne(a: set<Sha>, b: set<Sha>, sha: Sha)
    ensures Plus(a, b + {sha}) == Plus(a, b) + {sha}
  {
  }

  lemma ExpiredAreReferenced(d: Disk, now: int)
    ensures Expired(d.rows, now) <= Referenced(d.rows)
  {
  }

  lemma WholePass(d: Disk, now: int, steps: seq<Step>, refused: set<Sha>)
    requires Marks(steps) == Expired(d.rows, now) - refused
    requires Removed(steps) == (Expired(d.rows, now) - refused) + (Orphans(d) - refused)
    ensures Removed(steps) == Expired(d.rows, now) + Orphans(d) - refused
    ensures refused == {} ==> After(d, steps) == Swept(d, now)
  {
    AfterIs(d, steps);
    if refused == {} {
      assert Marks(steps) == Expired(d.rows, now) && Removed(steps) == Expired(d.rows, now) + Orphans(d);
    }
  }

  /** Of `all`, what a loop over it has dealt with. */
  ghost function Done(all: set<Sha>, todo: set<Sha>, refused: set<Sha>): set<Sha> { all - todo - refused }

  lemma TakeOne(all: set<Sha>, todo: set<Sha>, refused: set<Sha>, sha: Sha)
    requires sha in todo && todo <= all
    ensures sha in refused ==> Done(all, todo - {sha}, refused) == Done(all, todo, refused)
    ensures sha !in refused ==> Done(all, todo - {sha}, refused) == Done(all, todo, refused) + {sha}
  {
  }

  /** One more justified step. */
  lemma Did(d: Disk, now: int, steps: seq<Step>, step: Step) returns (after: seq<Step>)
    requires OfSweep(d, now, steps) && Justified(d, now, steps + [step], |steps|)
    ensures after == steps + [step] && OfSweep(d, now, after) && After(d, after) == Apply(After(d, steps), step)
    ensures Removed(after) == Removed(steps) + (if step.Remove? then {step.sha} else {})
    ensures Marks(after) == Marks(steps) + (if step.Mark? then {step.sha} else {})
    ensures Removals(after) == Removals(steps) + (if step.Remove? then 1 else 0)
  {
    after := steps + [step];
    StepJustified(d, now, steps, step);
    OneStep(steps, step);
    assert after[..|steps|] == steps;
  }

  /** Removing what rows refer to, and marking rows, makes no orphans and takes none away. */
  lemma OrphansRemain(d: Disk, now: int, steps: seq<Step>)
    requires OfSweep(d, now, steps) && Removed(steps) <= Expired(d.rows, now)
    ensures Orphans(After(d, steps)) == Orphans(d)
  {
    AfterIs(d, steps);
    MarkingKeepsQueries(d.rows, Marks(steps), now);
    assert Expired(d.rows, now) <= Referenced(d.rows);
  }
}
