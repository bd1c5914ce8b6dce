/** Applying and recovering file transactions. */
module FileTransaction {
  // A project's process may fail or die at any write, and others may edit its files in between.

  import opened Prelude
  import opened FilePlan

  /** What becomes of one coming write; once the list is used up, writes succeed. */
  datatype Fault = Fine | Fails | Dies

  datatype Outcome<+T> = Done(value: T) | Failed(error: Error) | Died

  /** One change made to a target: what was there, and what was put there. */
  datatype Change = Change(path: Path, was: Option<Node>, now: Option<Node>)

  /** A project's files and journals, and what has been done to them. */
  datatype Moment = Moment(files: Files, journals: seq<Journal>, log: seq<Change>, written: seq<Record>)

  /** One change of the journals: what was on disk of them then, and the files at that moment. */
  datatype Record = Record(files: Files, journals: seq<Journal>)

  type Edit = map<Path, Option<Node>>

  /**
   * `edits` is what others do to the files: at 2i just before step i, and at 2i + 1 between its write
   * and its read-back; the step after the last mutation is the final verification. `throws` lists the
   * steps after which the caller's hook throws.
   */
  datatype Options = Options(leavePreparedOnError: bool, edits: map<nat, Edit>, throws: set<nat>)
  {
    function EditAt(i: nat): Edit {
      if i in edits then edits[i] else map[]
    }
  }

  function Edited(files: Files, edit: Edit): (r: Files)
    ensures forall p :: At(r, p) == if p in edit then edit[p] else At(files, p)
    ensures edit == map[] ==> r == files
  {
    var kept := map p | p in files && p !in edit :: files[p];
    kept + (map p | p in edit && edit[p].Some? :: edit[p].value)
  }

  ghost predicate FirstError<U>(n: nat, error: Error, observe: int -> Result<U, Error>) {
    exists i :: 0 <= i < n && observe(i) == Err(error) && forall j :: 0 <= j < i ==> observe(j).Ok?
  }

  ghost predicate PlanFails(files: Files, ms: seq<Mutation>, error: Error) {
    exists i ::
      0 <= i < |ms| && PlanAt(files, ms, i) == Err(error) &&
      forall j :: 0 <= j < i ==> PlanAt(files, ms, j).Ok?
  }

  ghost predicate VerifyFails(files: Files, entries: seq<Entry>, error: Error) {
    exists i ::
      0 <= i < |entries| && VerifyAt(files, entries, i) == Err(error) &&
      forall j :: 0 <= j < i ==> VerifyAt(files, entries, j).Ok?
  }

  /** Bounded batches of assertions read side by side; results and the first error keep input order. */
  method ObserveAssertions<U>(asserts: seq<bool>, observe: int -> Result<U, Error>) returns (r: Result<seq<U>, Error>)
    ensures r.Ok? ==> |r.value| == |asserts| && forall i :: 0 <= i < |asserts| ==> observe(i) == Ok(r.value[i])
    ensures r.Err? ==> FirstError(|asserts|, r.error, observe)
  {
    var values := [];
    var index := 0;
    while index < |asserts|
      invariant 0 <= index <= |asserts| && |values| == index
      invariant forall i :: 0 <= i < index ==> observe(i) == Ok(values[i])
    {
      var start := index;
      index := index + 1;
      while asserts[start] && index - start < 4 && index < |asserts| && asserts[index]
        invariant start < index <= |asserts|
      {
        index := index + 1;
      }
      var results := seq(index - start, (k: int) => observe(start + k));
      for k := 0 to |results|
        invariant |values| == start + k
        invariant forall i :: 0 <= i < start + k ==> observe(i) == Ok(values[i])
      {
        if results[k].Err? {
          return Err(results[k].error);
        }
        values := values + [results[k].value];
      }
    }
    return Ok(values);
  }

  /** A path component that is a link is refused unless the caller means the link itself. */
  predicate Writable(there: Option<Node>, linkItself: bool) {
    there != Some(Other) && (linkItself || there.None? || !there.value.Link?)
  }

  /** An apply write: over the entry's pre-image, to its post-image. */
  ghost predicate Stepped(was: Files, wasLog: seq<Change>, log: seq<Change>, e: Entry) {
    && !e.kind.Assert?
    && At(was, e.path) == BeforeImage(e)
    && log == wasLog + [Change(e.path, BeforeImage(e), AfterImage(e))]
  }

  /** A rollback write: over one of the entry's own two contents, back to its pre-image. */
  predicate RollsBack(change: Change, entries: seq<Entry>) {
    var owner := Owner(entries, change.path);
    && owner.Some?
    && (SameContent(change.was, BeforeImage(owner.value)) || SameContent(change.was, AfterImage(owner.value)))
    && change.now == BeforeImage(owner.value)
  }

  /** What readers may count on: everything as planned once committed, everything as before until then. */
  ghost predicate Atomic(files: Files, journals: seq<Journal>, base: Files, plan: seq<Entry>, committed: bool) {
    && Settled(files, journals) == (if committed then Completed(base, plan) else base)
    && Recoverable(files, journals)
  }

  ghost predicate AllAfter(files: Files, plan: seq<Entry>) {
    forall e :: e in plan ==> At(files, e.path) == AfterImage(e)
  }

  ghost predicate OwnWrites(was: seq<Change>, log: seq<Change>, plan: seq<Entry>) {
    was <= log && forall k :: |was| <= k < |log| ==> OwnWrite(log[k], plan)
  }

  ghost predicate Rollbacks(was: seq<Change>, log: seq<Change>, plan: seq<Entry>) {
    was <= log && forall k :: |was| <= k < |log| ==> RollsBack(log[k], plan)
  }

  /** Every write puts a target of one of these journals back. */
  ghost predicate RollsBackThese(was: seq<Change>, log: seq<Change>, journals: seq<Journal>) {
    && was <= log
    && forall k :: |was| <= k < |log| ==> RollsBackOne(log[k], journals)
  }

  ghost predicate RollsBackOne(change: Change, journals: seq<Journal>) {
    exists j :: j in journals && j.phase.Prepared? && RollsBack(change, j.entries)
  }

  /** Journals were only removed. */
  ghost predicate OnlyRemoved(was: seq<Record>, written: seq<Record>, journals: seq<Journal>) {
    && was <= written
    && forall k :: |was| <= k < |written| ==>
         |written[k].journals| < |journals| && forall j :: j in written[k].journals ==> j in journals
  }

  ghost predicate Verified(files: Files, entries: seq<Entry>) {
    forall i :: 0 <= i < |entries| ==> VerifyAt(files, entries, i).Ok?
  }

  /** This journal alone was on disk at some moment since `was`. */
  ghost predicate Written(was: seq<Record>, written: seq<Record>, journal: Journal) {
    exists k :: |was| <= k < |written| && written[k].journals == [journal]
  }

  /** Whether the committed record was written since `was`; and it was only over targets that verified. */
  ghost predicate CommitIs(was: seq<Record>, written: seq<Record>, journal: Journal, committed: bool) {
    && was <= written
    && (committed <==> Written(was, written, journal))
    && forall k :: |was| <= k < |written| && written[k].journals == [journal] ==>
         Verified(written[k].files, journal.entries)
  }

  /** No journal of another transaction can be taken for this one's; the source draws a random id. */
  predicate Unmistakable(id: nat, journals: seq<Journal>) {
    |journals| <= 1 || forall j :: j in journals ==> j.id != id
  }

  /** The transaction is over: carried out or rolled back, but for a target that others left in a third state. */
  ghost predicate AtOnce(
    files: Files, journals: seq<Journal>, base: Files, plan: seq<Entry>, committed: bool, options: Options)
  {
    if options.edits == map[] then journals == [] && files == if committed then Completed(base, plan) else base
    else journals == [] || (!committed && !Classified(files, plan))
  }

  /** Recovery would find a target it can place nowhere. */
  predicate Blocks(files: Files, journal: Journal) {
    journal.phase.Prepared? && !Classified(files, journal.entries)
  }

  predicate Blocked(files: Files, journals: seq<Journal>) {
    journals != [] && Blocks(files, journals[0])
  }

  /** What recovering one journal leaves, and what it leaves when it is interrupted. */
  predicate Recovered(was: Files, files: Files, journal: Journal, done: bool) {
    if journal.phase.Committed? then files == was
    else
      && Rewound(files, journal.entries) == Rewound(was, journal.entries)
      && (Classified(was, journal.entries) ==> Classified(files, journal.entries))
      && (done ==> Classified(was, journal.entries) && files == Rewound(was, journal.entries))
  }

  ghost predicate Undisturbed(options: Options) {
    options.edits == map[] && options.throws == {}
  }

  ghost predicate Plannable(base: Files, ms: seq<Mutation>) {
    forall i :: 0 <= i < |ms| ==> PlanAt(base, ms, i).Ok?
  }

  /** A write by the transaction itself: forward over its pre-image, or a rollback write. */
  predicate OwnWrite(change: Change, entries: seq<Entry>) {
    var owner := Owner(entries, change.path);
    || RollsBack(change, entries)
    || (owner.Some? && change.was == BeforeImage(owner.value) && change.now == AfterImage(owner.value))
  }

  class Project {
    var files: Files
    var journals: seq<Journal>
    var faults: seq<Fault>
    /** The transactions this process is working on. */
    var active: set<nat>
    ghost var log: seq<Change>
    ghost var written: seq<Record>

    method NextFault() returns (f: Fault)
      modifies `faults
      ensures old(faults) == [] ==> f == Fine && faults == []
    {
      if faults == [] {
        return Fine;
      }
      f := faults[0];
      faults := faults[1..];
    }

    /** One write to a target: it happens as a whole or not at all. */
    method Replace(path: Path, node: Option<Node>, allowed: bool) returns (r: Outcome<()>)
      modifies `files, `faults, `log
      ensures r.Done? ==> files == Put(old(files), path, node)
      ensures r.Done? ==> log == old(log) + [Change(path, At(old(files), path), node)]
      ensures !r.Done? ==> files == old(files) && log == old(log)
      ensures old(faults) == [] ==> faults == [] && !r.Died? && (allowed ==> r.Done?)
    {
      var fault := NextFault();
      if fault == Dies {
        return Died;
      }
      if fault == Fails || !allowed {
        return Failed(Io);
      }
      log := log + [Change(path, At(files, path), node)];
      files := Put(files, path, node);
      return Done(());
    }

    method WriteBytes(path: Path, bytes: Bytes, mode: nat, replaceLink: bool) returns (r: Outcome<()>)
      modifies `files, `faults, `log
      ensures r.Done? ==> files == Put(old(files), path, Some(Regular(bytes, mode)))
      ensures r.Done? ==> log == old(log) + [Change(path, At(old(files), path), Some(Regular(bytes, mode)))]
      ensures !r.Done? ==> files == old(files) && log == old(log)
      ensures old(faults) == [] ==> faults == [] && !r.Died?
      ensures old(faults) == [] && Writable(At(old(files), path), replaceLink) ==> r.Done?
    {
      r := Replace(path, Some(Regular(bytes, mode)), Writable(At(files, path), replaceLink));
    }

    method WriteSymlink(path: Path, target: Bytes) returns (r: Outcome<()>)
      modifies `files, `faults, `log
      ensures r.Done? ==> files == Put(old(files), path, Some(Link(target)))
      ensures r.Done? ==> log == old(log) + [Change(path, At(old(files), path), Some(Link(target)))]
      ensures !r.Done? ==> files == old(files) && log == old(log)
      ensures old(faults) == [] ==> faults == [] && !r.Died? && (At(old(files), path) != Some(Other) ==> r.Done?)
    {
      r := Replace(path, Some(Link(target)), At(files, path) != Some(Other));
    }

    method RemoveFile(path: Path, removeLink: bool) returns (r: Outcome<()>)
      modifies `files, `faults, `log
      ensures r.Done? ==> files == Put(old(files), path, None)
      ensures r.Done? ==> log == old(log) + [Change(path, At(old(files), path), None)]
      ensures !r.Done? ==> files == old(files) && log == old(log)
      ensures old(faults) == [] ==> faults == [] && !r.Died?
      ensures old(faults) == [] && Writable(At(old(files), path), removeLink) ==> r.Done?
    {
      r := Replace(path, None, Writable(At(files, path), removeLink));
    }

    method WriteJournals(next: seq<Journal>) returns (r: Outcome<()>)
      modifies `journals, `faults, `written
      ensures journals == if r.Done? then next else old(journals)
      ensures written == if r.Done? then old(written) + [Record(files, next)] else old(written)
      ensures old(faults) == [] ==> faults == [] && r.Done?
    {
      var fault := NextFault();
      if fault == Dies {
        return Died;
      }
      if fault == Fails {
        return Failed(Io);
      }
      journals := next;
      written := written + [Record(files, next)];
      return Done(());
    }

    /** One target back to its pre-image. */
    method RestoreEntry(e: Entry) returns (r: Outcome<()>)
      requires WellFormed(e) && !e.kind.Assert?
      requires Classify(files, e) == Ok(Applied)
      modifies `files, `faults, `log
      ensures r.Done? ==> files == Put(old(files), e.path, BeforeImage(e))
      ensures r.Done? ==> log == old(log) + [Change(e.path, At(old(files), e.path), BeforeImage(e))]
      ensures !r.Done? ==> files == old(files) && log == old(log)
      ensures old(faults) == [] ==> faults == [] && r.Done?
    {
      ClassifiedExactly(files, e);
      if e.before.Absent? {
        r := RemoveFile(e.path, e.kind.WriteLink?);
      } else if e.before.symlink {
        r := WriteSymlink(e.path, e.before.content.value);
      } else {
        r := WriteBytes(e.path, e.before.content.value, e.before.mode, e.kind.WriteLink?);
      }
    }

    /** Classifies every target before touching any, then puts the applied ones back, last first. */
    method RestoreJournal(entries: seq<Entry>) returns (r: Outcome<()>)
      requires WellFormedPlan(entries)
      modifies `files, `faults, `log
      ensures !Classified(old(files), entries) ==>
                r.Failed? && files == old(files) && log == old(log) && faults == old(faults)
      ensures r.Done? ==> files == Rewound(old(files), entries)
      ensures Rewound(files, entries) == Rewound(old(files), entries)
      ensures Classified(old(files), entries) ==> Classified(files, entries)
      ensures Rollbacks(old(log), log, entries)
      ensures old(faults) == [] && Classified(old(files), entries) ==> r.Done? && faults == []
    {
      var applied: seq<Entry> := [];
      for i := 0 to |entries|
        invariant files == old(files) && log == old(log) && faults == old(faults)
        invariant Classified(files, entries[..i])
        invariant AppliedAmong(files, entries, applied, i)
      {
        var e := entries[i];
        if !e.kind.Assert? {
          var status := Classify(files, e);
          if status.Err? {
            return Failed(status.error);
          }
          ClassifiedExactly(files, e);
          if status.value == Applied {
            applied := applied + [e];
          }
        }
      }
      assert entries[..|entries|] == entries;
      var left := |applied|;
      while left > 0
        invariant 0 <= left <= |applied|
        invariant RewoundFrom(old(files), files, applied, left)
        invariant Rollbacks(old(log), log, entries)
        invariant old(faults) == [] ==> faults == []
      {
        left := left - 1;
        PendingIsStillApplied(old(files), files, entries, applied, left);
        ClassifiedExactly(files, applied[left]);
        r := RestoreEntry(applied[left]);
        if !r.Done? {
          PartlyRewound(old(files), files, entries, applied, left + 1);
          return;
        }
      }
      PartlyRewound(old(files), files, entries, applied, 0);
      FullyRewound(old(files), files, entries, applied);
      r := Done(());
    }

    /** One journal of `recoverLocked`: its targets go back if it is prepared, then it is removed. */
    method RecoverOne(kept: seq<Journal>, journal: Journal, rest: seq<Journal>) returns (r: Outcome<()>)
      requires journals == kept + [journal] + rest && WellFormedPlan(journal.entries)
      modifies `files, `journals, `faults, `log, `written
      ensures journals == if r.Done? then kept + rest else old(journals)
      ensures Recovered(old(files), files, journal, r.Done?)
      ensures Blocks(old(files), journal) ==> r.Failed? && files == old(files) && log == old(log)
      ensures if journal.phase.Prepared? then Rollbacks(old(log), log, journal.entries) else log == old(log)
      ensures written == if r.Done? then old(written) + [Record(files, kept + rest)] else old(written)
      ensures old(faults) == [] ==> faults == [] && (r.Done? <==> !Blocks(old(files), journal))
    {
      if journal.phase.Prepared? {
        r := RestoreJournal(journal.entries);
        if !r.Done? {
          return;
        }
      }
      r := WriteJournals(kept + rest);
    }

    /**
     * `recoverLocked`: prepared journals are rolled back, then every journal is removed; those of transactions this
     * process is working on are passed over.
     */
    method Recover() returns (r: Outcome<()>)
      requires forall j :: j in journals ==> WellFormedPlan(j.entries)
      modifies `files, `journals, `faults, `log, `written
      ensures r.Done? ==> journals == Busy(old(journals), active)
                          && files == Settled(old(files), Idle(old(journals), active))
      ensures Busy(journals, active) == Busy(old(journals), active)
      ensures Settled(files, Idle(journals, active)) == Settled(old(files), Idle(old(journals), active))
      ensures |journals| <= |old(journals)| && forall j :: j in journals ==> j in old(journals)
      ensures Recoverable(old(files), Idle(old(journals), active)) ==> Recoverable(files, Idle(journals, active))
      ensures old(faults) == [] ==>
                faults == [] && (r.Done? <==> Recoverable(old(files), Idle(old(journals), active)))
      ensures Blocked(old(files), Idle(old(journals), active)) ==>
                r.Failed? && files == old(files) && journals == old(journals) && log == old(log)
      ensures Idle(old(journals), active) == [] ==>
                r.Done? && files == old(files) && journals == old(journals) && log == old(log)
      // Every write puts a target of a prepared journal back over one of its two contents.
      ensures RollsBackThese(old(log), log, Idle(old(journals), active))
      ensures OnlyRemoved(old(written), written, old(journals))
    {
      hide *;
      var listed, kept := journals, [];
      ghost var was := Moment(files, journals, log, written);
      NothingDone(was, active);
      assert listed[0..] == listed;
      for i := 0 to |listed|
        invariant Underway(was, Moment(files, journals, log, written), kept, listed[i..], active)
        invariant old(faults) == [] ==> faults == []
      {
        var journal := listed[i];
        ghost var before := Moment(files, journals, log, written);
        assert listed[i..] == [journal] + listed[i + 1..];
        UnderwaySays(was, before, kept, journal, listed[i + 1..], active);
        if journal.id in active {
          kept := kept + [journal];
          PassedOver(was, before, kept[..|kept| - 1], journal, listed[i + 1..], active);
          continue;
        }
        r := RecoverOne(kept, journal, listed[i + 1..]);
        OneRecovered(was, before, Moment(files, journals, log, written), kept, journal, listed[i + 1..], active,
                     r.Done?);
        if !r.Done? {
          StoppedSays(was, Moment(files, journals, log, written), active);
          return;
        }
      }
      assert listed[|listed|..] == [];
      AllDone(was, Moment(files, journals, log, written), kept, active);
      StoppedSays(was, Moment(files, journals, log, written), active);
      r := Done(());
    }

    /** One planned change, if the target still holds what planning saw; then it is read back. */
    method ApplyStep(m: Mutation, e: Entry, late: Edit) returns (r: Outcome<()>)
      requires WellFormed(e) && e.kind == m.kind && e.path == m.path
      requires m.kind.WriteFile? || m.kind.WriteLink? ==> e.afterHash == Some(Sha256(m.content))
      modifies `files, `faults, `log
      ensures log == old(log) || Stepped(old(files), old(log), log, e)
      ensures r.Done? && !e.kind.Assert? ==> At(files, e.path) == AfterImage(e)
      ensures late == map[] && r.Done? ==>
                files == if e.kind.Assert? then old(files) else Put(old(files), e.path, AfterImage(e))
      ensures late == map[] && !r.Done? ==> files == old(files)
      ensures old(faults) == [] ==> faults == [] && !r.Died?
      ensures old(faults) == [] && late == map[] && At(old(files), e.path) == BeforeImage(e) ==> r.Done?
    {
      if m.kind.Assert? {
        return Done(());
      }
      MatchesAreImages(files, e);
      var same := MatchesSnapshot(files, e.path, e.before, false);
      if same.Err? {
        return Failed(same.error);
      }
      if !same.value {
        return Failed(ChangedWhileUpdating(e.path));
      }
      if AlreadyInPlace(e) {
        SameFiles(files, Put(files, e.path, AfterImage(e)));
        r := Done(());
      } else if m.kind.Remove? {
        r := RemoveFile(e.path, e.before.Present? && e.before.symlink);
      } else if m.kind.WriteLink? {
        r := WriteSymlink(e.path, m.content);
      } else {
        r := WriteBytes(e.path, m.content, e.afterMode.value, e.before.Present? && e.before.symlink);
      }
      if !r.Done? {
        return;
      }
      files := Edited(files, late);
      MatchesAreImages(files, e);
      var verified := MatchesAfter(files, e, false);
      if verified.Err? {
        return Failed(verified.error);
      }
      if !verified.value {
        return Failed(Unverified(e.path));
      }
    }

    /** A failed apply rolls back at once, unless it stands in for a process that died. */
    method HandleApplyFailure(entries: seq<Entry>, failure: Error, leavePrepared: bool) returns (r: Outcome<nat>)
      requires WellFormedPlan(entries)
      modifies `files, `journals, `faults, `log, `written
      ensures !r.Done?
      ensures leavePrepared ==>
                r == Failed(failure) && files == old(files) && journals == old(journals) && log == old(log)
      // A normal error is rolled back at once: without faults it is only a target in a third state that stops it.
      ensures old(faults) == [] && !leavePrepared && Classified(old(files), entries) ==>
                r == Failed(failure) && journals == [] && files == Rewound(old(files), entries)
      ensures !leavePrepared && !Classified(old(files), entries) ==> r == Failed(RollbackFailed)
      ensures journals == old(journals) || journals == []
      ensures journals == [] && old(journals) != [] ==> files == Rewound(old(files), entries)
      ensures Rewound(files, entries) == Rewound(old(files), entries)
      ensures Classified(old(files), entries) ==> Classified(files, entries)
      ensures !Classified(old(files), entries) ==> files == old(files) && journals == old(journals) && log == old(log)
      ensures Rollbacks(old(log), log, entries)
      ensures written == old(written) || (exists f :: written == old(written) + [Record(f, [])])
      ensures old(faults) == [] ==> faults == [] && !r.Died?
    {
      if leavePrepared {
        return Failed(failure);
      }
      var rolledBack := RestoreJournal(entries);
      if rolledBack.Died? {
        return Died;
      }
      if rolledBack.Failed? {
        return Failed(RollbackFailed);
      }
      var removed := WriteJournals([]);
      r := if removed.Died? then Died else if removed.Failed? then Failed(Io) else Failed(failure);
    }

    /**
     * `applyLocked`. `started` says the new journal was recorded and `committed` that its committed
     * record was; `base` is what recovery left, `plan` the new journal's entries, and `mine` the
     * change log when they were recorded.
     */
    method Apply(id: nat, ms: seq<Mutation>, options: Options)
      returns (r: Outcome<nat>, ghost started: bool, ghost committed: bool, ghost base: Files, ghost plan: seq<Entry>,
               ghost mine: seq<Change>)
      requires forall j :: j in journals ==> WellFormedPlan(j.entries)
      requires active == {}
      modifies this
      ensures active == {}
      // Until the transaction is recorded, what recovery would leave stays as it was.
      ensures base == Settled(old(files), old(journals))
      ensures !started ==> Settled(files, journals) == base && !committed
      ensures !started && Recoverable(old(files), old(journals)) ==> Recoverable(files, journals)
      ensures Blocked(old(files), old(journals)) ==>
                !started && r.Failed? && files == old(files) && journals == old(journals)
      ensures started ==> Planned(base, ms, plan)
      // The committed record tells, and it was written only over targets that all verified.
      ensures Unmistakable(id, old(journals)) ==>
                CommitIs(old(written), written, Journal(id, Committed, plan), committed) && Unmistakable(id, journals)
      // Atomicity, when nobody else touches the files meanwhile.
      ensures started && options.edits == map[] ==> Atomic(files, journals, base, plan, committed)
      ensures r.Failed? && committed ==> |journals| == 1 && journals[0].phase.Committed?
      ensures r.Done? ==> journals == [] && (if started then committed else ms == [] && files == base)
      // Success means every target was at its post-image, whatever others did.
      ensures r.Done? && started ==> AllAfter(files, plan) && r.value == CountChanges(ms)
      // Every write is over the transaction's own pre-image, or a rollback over one of its two contents.
      ensures started ==> OwnWrites(mine, log, plan) && RollsBackThese(old(log), mine, old(journals))
      ensures !started ==> RollsBackThese(old(log), log, old(journals))
      // Without faults a transaction is carried out or rolled back at once, unless others
      // left a target in a third state.
      ensures old(faults) == [] && Recoverable(old(files), old(journals)) && !options.leavePreparedOnError ==>
                if started then AtOnce(files, journals, base, plan, committed, options)
                else journals == [] && files == base
      // Without faults, a plan that fits is carried out.
      ensures old(faults) == [] && Recoverable(old(files), old(journals)) && Plannable(base, ms) && Undisturbed(options)
              ==> r.Done?
    {
      base, plan, started, committed, mine := Settled(files, journals), [], false, false, log;
      ghost var atFirst, others := written, journals;
      AllIdle(journals);
      var recovered := Recover();
      AllIdle(journals);
      RecoveryTellsNothing(atFirst, written, others, Journal(id, Committed, []));
      if !recovered.Done? {
        r := if recovered.Died? then Died else Failed(recovered.error);
        return;
      }
      if ms == [] {
        return Done(0), false, false, base, [], log;
      }
      mine := log;
      ghost var since := written;
      r, started, committed, plan := Begin(id, ms, options);
      RecoveryTellsNothing(atFirst, since, others, Journal(id, Committed, plan));
      CommitSinceStart(atFirst, since, written, Journal(id, Committed, plan), committed);
    }

    /** The part of `applyLocked` after recovery: plan, record, apply. */
    method Begin(id: nat, ms: seq<Mutation>, options: Options)
      returns (r: Outcome<nat>, ghost started: bool, ghost committed: bool, ghost plan: seq<Entry>)
      requires journals == [] && active == {}
      modifies this
      ensures active == {}
      ensures !started ==> files == old(files) && journals == [] && log == old(log) && !committed && !r.Done?
      ensures started ==> Planned(old(files), ms, plan)
      ensures CommitIs(old(written), written, Journal(id, Committed, plan), committed)
      ensures started && options.edits == map[] ==> Atomic(files, journals, old(files), plan, committed)
      ensures r.Failed? && committed ==> |journals| == 1 && journals[0].phase.Committed?
      ensures r.Done? ==> committed && journals == [] && AllAfter(files, plan) && r.value == CountChanges(ms)
      ensures started ==> OwnWrites(old(log), log, plan) && |journals| <= 1
      ensures old(faults) == [] && started && !options.leavePreparedOnError ==>
                AtOnce(files, journals, old(files), plan, committed, options)
      ensures old(faults) == [] && Plannable(old(files), ms) && Undisturbed(options) ==> r.Done?
    {
      hide CommitIs;
      started, committed, plan := false, false, [];
      ghost var since := written;
      NotWrittenYet(written, Journal(id, Committed, []));
      var planned := PrepareJournal(ms);
      if planned.Err? {
        return Failed(planned.error), false, false, [];
      }
      PlannedIsWellFormed(files, ms, planned.value);
      active := active + {id};
      var recorded := WriteJournals([Journal(id, Prepared, planned.value)]);
      if !recorded.Done? {
        r := if recorded.Died? then Died else Failed(Io);
      } else {
        started, plan := true, planned.value;
        ghost var atRecord := written;
        PreparedTellsNothing(since, written, files, id, plan);
        r, committed := ApplyRecorded(id, ms, options, files, planned.value);
        CommitSinceStart(since, atRecord, written, Journal(id, Committed, plan), committed);
      }
      active := active - {id};
    }

    /** The part of `applyLocked` after the prepared journal has been written. */
    method ApplyRecorded(id: nat, ms: seq<Mutation>, options: Options, ghost base: Files, entries: seq<Entry>)
      returns (r: Outcome<nat>, ghost committed: bool)
      requires Planned(base, ms, entries) && WellFormedPlan(entries)
      requires files == base && journals == [Journal(id, Prepared, entries)]
      modifies `files, `journals, `faults, `log, `written
      ensures CommitIs(old(written), written, Journal(id, Committed, entries), committed)
      ensures options.edits == map[] ==> Atomic(files, journals, base, entries, committed)
      ensures r.Done? && options.edits == map[] ==> files == Completed(base, entries)
      ensures r.Failed? && committed ==> |journals| == 1 && journals[0].phase.Committed?
      ensures r.Done? ==> committed && journals == [] && AllAfter(files, entries) && r.value == CountChanges(ms)
      ensures OwnWrites(old(log), log, entries) && |journals| <= 1
      ensures old(faults) == [] && !options.leavePreparedOnError ==>
                AtOnce(files, journals, base, entries, committed, options)
      ensures old(faults) == [] && Undisturbed(options) ==> r.Done?
    {
      ghost var reached;
      var applied;
      committed := false;
      NotWrittenYet(written, Journal(id, Committed, entries));
      applied, reached := ApplyPrepared(ms, options, base, entries);
      PlannedIsWellFormed(base, ms, entries);
      CompletedRewinds(base, ms, entries, reached);
      if applied.Died? {
        return Died, false;
      }
      if applied.Failed? {
        r := HandleApplyFailure(entries, applied.error, options.leavePreparedOnError);
        return;
      }
      assert entries[..|ms|] == entries;
      r, committed := Commit(id, ms, options, base, entries);
    }

    /** `applyPreparedMutations`: the steps in order; `reached` counts those carried out. */
    method ApplyPrepared(ms: seq<Mutation>, options: Options, ghost base: Files, entries: seq<Entry>)
      returns (r: Outcome<()>, ghost reached: nat)
      requires Planned(base, ms, entries) && WellFormedPlan(entries) && files == base
      modifies `files, `faults, `log
      ensures reached <= |ms| && (r.Done? ==> reached == |ms|)
      ensures options.edits == map[] ==> files == Completed(base, entries[..reached])
      ensures OwnWrites(old(log), log, entries)
      ensures old(faults) == [] ==> faults == [] && !r.Died?
      ensures old(faults) == [] && Undisturbed(options) ==> r.Done?
    {
      hide WellFormed, AfterImage, BeforeImage, Completed, OwnWrites, Stepped;
      NoWritesYet(log, entries);
      NothingCompleted(base, entries);
      for i := 0 to |ms|
        invariant options.edits == map[] ==> files == Completed(base, entries[..i])
        invariant OwnWrites(old(log), log, entries)
        invariant old(faults) == [] ==> faults == []
      {
        files := Edited(files, options.EditAt(2 * i));
        PlannedEntry(base, ms[i], entries[i]);
        CompletedStep(base, ms, entries, i);
        ghost var was, wasLog := files, log;
        r := ApplyStep(ms[i], entries[i], options.EditAt(2 * i + 1));
        OneMoreWrite(old(log), wasLog, log, was, entries, i);
        if !r.Done? {
          return r, i;
        }
        if i in options.throws {
          return Failed(HookThrew), i + 1;
        }
      }
      return Done(()), |ms|;
    }

    /** `prepareJournal`: what every target holds now, in the order of the mutations. */
    method PrepareJournal(ms: seq<Mutation>) returns (r: Result<seq<Entry>, Error>)
      ensures r.Ok? ==> Planned(files, ms, r.value)
      ensures r.Err? ==> PlanFails(files, ms, r.error)
    {
      var seen := files;
      var asserts := seq(|ms|, i requires 0 <= i < |ms| => ms[i].kind.Assert?);
      var observe := i => PlanAt(seen, ms, i);
      r := ObserveAssertions(asserts, observe);
      assert forall i {:trigger PlanAt(files, ms, i)} :: PlanAt(files, ms, i) == observe(i);
    }

    /** `verifyAppliedJournal`: every target at its post-image, every assertion as it was planned. */
    method VerifyApplied(entries: seq<Entry>) returns (r: Result<seq<()>, Error>)
      ensures r.Ok? ==> forall i :: 0 <= i < |entries| ==> VerifyAt(files, entries, i).Ok?
      ensures r.Err? ==> VerifyFails(files, entries, r.error)
    {
      var seen := files;
      var asserts := seq(|entries|, i requires 0 <= i < |entries| => entries[i].kind.Assert?);
      var observe := i => VerifyAt(seen, entries, i);
      r := ObserveAssertions(asserts, observe);
      assert forall i {:trigger VerifyAt(files, entries, i)} :: VerifyAt(files, entries, i) == observe(i);
    }

    /** Verification of every target and assertion, then the committed record, then no record. */
    method Commit(id: nat, ms: seq<Mutation>, options: Options, ghost base: Files, entries: seq<Entry>)
      returns (r: Outcome<nat>, ghost committed: bool)
      requires Planned(base, ms, entries) && WellFormedPlan(entries)
      requires options.edits == map[] ==> files == Completed(base, entries)
      requires journals == [Journal(id, Prepared, entries)]
      modifies `files, `journals, `faults, `log, `written
      // The committed record was written if and only if `committed` says so, and every target verified then.
      ensures CommitIs(old(written), written, Journal(id, Committed, entries), committed)
      ensures options.edits == map[] ==> Atomic(files, journals, base, entries, committed)
      ensures r.Done? && options.edits == map[] ==> files == Completed(base, entries)
      ensures r.Failed? && committed ==> |journals| == 1 && journals[0].phase.Committed?
      ensures r.Done? ==> committed && journals == [] && AllAfter(files, entries) && r.value == CountChanges(ms)
      ensures OwnWrites(old(log), log, entries) && |journals| <= 1
      ensures old(faults) == [] && !options.leavePreparedOnError ==>
                AtOnce(files, journals, base, entries, committed, options)
      ensures old(faults) == [] && options.edits == map[] ==> r.Done?
    {
      hide CommitIs, Written, Verified;
      ghost var journal := Journal(id, Committed, entries);
      committed := false;
      PlannedIsWellFormed(base, ms, entries);
      CompletedRewinds(base, ms, entries, |entries|);
      assert entries[..|entries|] == entries;
      CompletedVerifies(base, ms, entries);
      files := Edited(files, options.EditAt(2 * |ms|));
      OneJournal(files, journals[0]);
      OneJournal(files, journal);
      var verified := VerifyApplied(entries);
      if verified.Err? {
        r := HandleApplyFailure(entries, verified.error, options.leavePreparedOnError);
        NoJournalTellsNothing(old(written), written, journal);
        return;
      }
      AllVerified(files, entries);
      VerifiedMeansCompleted(files, entries);
      var marked := WriteJournals([Journal(id, Committed, entries)]);
      if !marked.Done? {
        NotWrittenYet(written, journal);
      }
      if marked.Died? {
        return Died, false;
      }
      if marked.Failed? {
        r := HandleApplyFailure(entries, Io, options.leavePreparedOnError);
        NoJournalTellsNothing(old(written), written, journal);
        return;
      }
      committed := true;
      ghost var tells := written;
      JustWritten(old(written), tells, files, journal);
      var removed := WriteJournals([]);
      NoJournalTellsNothing(tells, written, journal);
      CommitUntilEnd(old(written), tells, written, journal, true);
      if !removed.Done? {
        r := if removed.Died? then Died else Failed(Io);
        return;
      }
      return Done(CountChanges(ms)), true;
    }

    /** Later processes recover in turn, each failing or dying where its own list of faults says. */
    method Restart(lives: seq<seq<Fault>>)
      requires Recoverable(files, journals)
      modifies this
      ensures Recoverable(files, journals) && Settled(files, journals) == Settled(old(files), old(journals))
      ensures lives != [] && lives[|lives| - 1] == [] ==> journals == []
      ensures RollsBackThese(old(log), log, old(journals)) && OnlyRemoved(old(written), written, old(journals))
    {
      for i := 0 to |lives|
        invariant Recoverable(files, journals) && Settled(files, journals) == Settled(old(files), old(journals))
        invariant |journals| <= |old(journals)| && forall j :: j in journals ==> j in old(journals)
        invariant 0 < i && lives[i - 1] == [] ==> journals == []
        invariant RollsBackThese(old(log), log, old(journals)) && OnlyRemoved(old(written), written, old(journals))
      {
        ghost var before := Moment(files, journals, log, written);
        faults, active := lives[i], {};
        RecoverableIsWellFormed(files, journals);
        AllIdle(journals);
        var r := Recover();
        AllIdle(journals);
        MoreRollbacks(old(log), before.log, log, old(journals), before.journals);
        MoreRemoved(old(written), before.written, written, old(journals), before.journals);
      }
    }

    /**
     * A whole life of one transaction: it may die anywhere, and so may any number of recoveries after
     * it. Once no journal is left the targets are all as before or all as planned, and the latter
     * exactly when the committed record was written; a recovery that runs through leaves no journal.
     */
    method Lifetime(id: nat, ms: seq<Mutation>, options: Options, lives: seq<seq<Fault>>)
      returns (ghost started: bool, ghost committed: bool, ghost base: Files, ghost plan: seq<Entry>)
      requires Recoverable(files, journals) && options.edits == map[]
      requires active == {}
      modifies this
      ensures base == Settled(old(files), old(journals)) && (started ==> Planned(base, ms, plan))
      ensures Unmistakable(id, old(journals)) ==>
                CommitIs(old(written), written, Journal(id, Committed, plan), committed)
      ensures committed ==> started
      ensures journals == [] ==> files == if committed then Completed(base, plan) else base
      ensures lives != [] && lives[|lives| - 1] == [] ==> journals == []
    {
      var r;
      ghost var mine;
      ghost var since := written;
      RecoverableIsWellFormed(files, journals);
      r, started, committed, base, plan, mine := Apply(id, ms, options);
      ghost var applied, left := written, journals;
      Restart(lives);
      RecoveryTellsNothing(applied, written, left, Journal(id, Committed, plan));
      if CommitIs(since, applied, Journal(id, Committed, plan), committed) && Unmistakable(id, left) {
        CommitUntilEnd(since, applied, written, Journal(id, Committed, plan), committed);
      }
    }
  }

  function CountChanges(ms: seq<Mutation>): nat {
    if ms == [] then 0 else (if ms[0].kind.Assert? then 0 else 1) + CountChanges(ms[1..])
  }

  ghost predicate Planned(base: Files, ms: seq<Mutation>, plan: seq<Entry>) {
    |plan| == |ms| && forall i :: 0 <= i < |ms| ==> PlanAt(base, ms, i) == Ok(plan[i])
  }

  lemma {:induction false} OwnerInPrefix(entries: seq<Entry>, i: nat, p: Path)
    requires i < |entries|
    ensures Owner(entries[..i + 1], p) ==
            if Owner(entries[..i], p).Some? then Owner(entries[..i], p)
            else if !entries[i].kind.Assert? && entries[i].path == p then Some(entries[i]) else None
  {
    if i > 0 {
      assert entries[..i + 1][1..] == entries[1..][..i] && entries[..i][1..] == entries[1..][..i - 1];
      OwnerInPrefix(entries[1..], i - 1, p);
    } else {
      assert entries[..1][1..] == [];
    }
  }

  // ---------------------------------------------------------------------------------------------
  // Recovery, journal by journal
  // ---------------------------------------------------------------------------------------------

  /** From these files, `left` settles and recovers as all did from the files there were. */
  ghost predicate Ahead(was: Files, idle: seq<Journal>, files: Files, left: seq<Journal>) {
    Settled(files, left) == Settled(was, idle) && (Recoverable(was, idle) <==> Recoverable(files, left))
  }

  /** Recovery has kept the journals in `kept`, and those in `left` are still to come. */
  ghost predicate Underway(was: Moment, now: Moment, kept: seq<Journal>, left: seq<Journal>, active: set<nat>) {
    var idle := Idle(was.journals, active);
    && now.journals == kept + left && |now.journals| <= |was.journals|
    && (forall j :: j in now.journals ==> j in was.journals) && (forall j :: j in kept ==> j.id in active)
    && Busy(was.journals, active) == kept + Busy(left, active)
    && Ahead(was.files, idle, now.files, Idle(left, active))
    && (Blocked(was.files, idle) || idle == [] ==> now == was)
    && RollsBackThese(was.log, now.log, idle) && OnlyRemoved(was.written, now.written, was.journals)
  }

  /** Wherever recovery stops. */
  ghost predicate Stopped(was: Moment, now: Moment, active: set<nat>) {
    var (idle, left) := (Idle(was.journals, active), Idle(now.journals, active));
    && |now.journals| <= |was.journals| && (forall j :: j in now.journals ==> j in was.journals)
    && Busy(now.journals, active) == Busy(was.journals, active)
    && Settled(now.files, left) == Settled(was.files, idle)
    && (Recoverable(was.files, idle) ==> Recoverable(now.files, left))
    && (Blocked(was.files, idle) || idle == [] ==> now == was)
    && RollsBackThese(was.log, now.log, idle) && OnlyRemoved(was.written, now.written, was.journals)
  }

  lemma StoppedSays(was: Moment, now: Moment, active: set<nat>)
    requires Stopped(was, now, active)
    ensures var (idle, left) := (Idle(was.journals, active), Idle(now.journals, active));
            && |now.journals| <= |was.journals| && (forall j :: j in now.journals ==> j in was.journals)
            && Busy(now.journals, active) == Busy(was.journals, active)
            && Settled(now.files, left) == Settled(was.files, idle)
            && (Recoverable(was.files, idle) ==> Recoverable(now.files, left))
            && (Blocked(was.files, idle) || idle == [] ==> now == was)
            && RollsBackThese(was.log, now.log, idle) && OnlyRemoved(was.written, now.written, was.journals)
  {
    hide Settled, Recoverable, RollsBackThese, OnlyRemoved, Idle, Busy, Blocked;
  }

  lemma NothingDone(was: Moment, active: set<nat>)
    ensures Underway(was, was, [], was.journals, active)
  {
    hide Idle, Busy, Settled, Recoverable, Blocked;
    assert [] + was.journals == was.journals && [] + Busy(was.journals, active) == Busy(was.journals, active);
  }

  lemma AllDone(was: Moment, now: Moment, kept: seq<Journal>, active: set<nat>)
    requires Underway(was, now, kept, [], active)
    ensures now.journals == Busy(was.journals, active) && now.files == Settled(was.files, Idle(was.journals, active))
    ensures Stopped(was, now, active) && Recoverable(was.files, Idle(was.journals, active))
    ensures !Blocked(was.files, Idle(was.journals, active))
  {
    hide RollsBackThese, OnlyRemoved;
    BusyFirst(kept, [], active);
    assert kept + [] == kept;
  }

  lemma UnderwaySays(
    was: Moment, now: Moment, kept: seq<Journal>, journal: Journal, rest: seq<Journal>, active: set<nat>)
    requires Underway(was, now, kept, [journal] + rest, active)
    requires forall j :: j in was.journals ==> WellFormedPlan(j.entries)
    ensures now.journals == kept + [journal] + rest && WellFormedPlan(journal.entries)
    ensures kept + ([journal] + rest) == kept + [journal] + rest
    ensures (kept + [journal])[..|kept|] == kept
  {
    hide WellFormedPlan, RollsBackThese, OnlyRemoved, Ahead, Blocked;
    assert journal in now.journals by {
      assert now.journals[|kept|] == journal;
    }
  }

  lemma PassedOver(
    was: Moment, now: Moment, kept: seq<Journal>, journal: Journal, rest: seq<Journal>, active: set<nat>)
    requires Underway(was, now, kept, [journal] + rest, active) && journal.id in active
    ensures Underway(was, now, kept + [journal], rest, active)
  {
    hide RollsBackThese, OnlyRemoved, Ahead, Blocked, Busy, Idle;
    IdleStep(journal, rest, active);
    assert kept + ([journal] + rest) == kept + [journal] + rest;
    assert kept + ([journal] + Busy(rest, active)) == kept + [journal] + Busy(rest, active);
  }

  /** One journal's recovery, complete or interrupted. */
  lemma OneRecovered(
    was: Moment, before: Moment, now: Moment, kept: seq<Journal>, journal: Journal, rest: seq<Journal>,
    active: set<nat>, done: bool)
    requires Underway(was, before, kept, [journal] + rest, active) && journal.id !in active
    requires WellFormedPlan(journal.entries) && Recovered(before.files, now.files, journal, done)
    requires now.journals == if done then kept + rest else before.journals
    requires if journal.phase.Prepared? then Rollbacks(before.log, now.log, journal.entries) else now.log == before.log
    requires now.written == if done then before.written + [Record(now.files, kept + rest)] else before.written
    requires Blocks(before.files, journal) ==> !done && now.files == before.files && now.log == before.log
    ensures done ==> Underway(was, now, kept, rest, active)
    ensures !done ==> Stopped(was, now, active) && Idle(was.journals, active) != []
    ensures Recoverable(was.files, Idle(was.journals, active)) ==> !Blocks(before.files, journal)
    ensures Blocked(was.files, Idle(was.journals, active)) ==> Blocks(before.files, journal)
  {
    hide Settled, Recoverable, Classified, WellFormedPlan, Rollbacks, RollsBackThese, OnlyRemoved, Ahead, Idle, Busy,
         Blocked, Blocks, Recovered;
    var idle := Idle(was.journals, active);
    assert kept + ([journal] + rest) == kept + [journal] + rest;
    assert journal in before.journals by {
      assert before.journals[|kept|] == journal;
    }
    IdleStep(journal, rest, active);
    IdleMembers(was.journals, active);
    BusyFirst(kept, [journal] + rest, active);
    BusyFirst(kept, rest, active);
    AheadByOne(was.files, idle, before.files, now.files, journal, Idle(rest, active), done);
    OneMoreRollback(was.log, before.log, now.log, idle, journal);
    OneLess(was.written, before.written, now.written, was.journals, kept + rest, now.files);
  }

  /** What one journal's recovery, complete or interrupted, means for all that were ahead. */
  lemma AheadByOne(
    was: Files, idle: seq<Journal>, before: Files, files: Files, journal: Journal, rest: seq<Journal>, done: bool)
    requires Ahead(was, idle, before, [journal] + rest) && WellFormedPlan(journal.entries)
    requires Recovered(before, files, journal, done)
    ensures done ==> Ahead(was, idle, files, rest)
    ensures Settled(files, [journal] + rest) == Settled(was, idle)
    ensures Recoverable(was, idle) ==> Recoverable(files, [journal] + rest) && !Blocks(before, journal)
    ensures Blocked(was, idle) && [journal] + rest == idle && before == was ==> Blocks(before, journal)
  {
    assert ([journal] + rest)[1..] == rest;
  }

  lemma MoreRollbacks(
    was: seq<Change>, before: seq<Change>, log: seq<Change>, journals: seq<Journal>, fewer: seq<Journal>)
    requires RollsBackThese(was, before, journals) && RollsBackThese(before, log, fewer)
    requires forall j :: j in fewer ==> j in journals
    ensures RollsBackThese(was, log, journals)
  {
    hide RollsBack;
    forall k | |was| <= k < |log|
      ensures RollsBackOne(log[k], journals)
    {
      if k < |before| {
        assert log[k] == before[k];
      } else {
        assert RollsBackOne(log[k], fewer);
      }
    }
  }

  lemma MoreRemoved(
    was: seq<Record>, before: seq<Record>, written: seq<Record>, journals: seq<Journal>, fewer: seq<Journal>)
    requires OnlyRemoved(was, before, journals) && OnlyRemoved(before, written, fewer)
    requires |fewer| <= |journals| && forall j :: j in fewer ==> j in journals
    ensures OnlyRemoved(was, written, journals)
  {
    forall k | |was| <= k < |written|
      ensures |written[k].journals| < |journals| && forall j :: j in written[k].journals ==> j in journals
    {
      if k < |before| {
        assert written[k] == before[k];
      }
    }
  }

  // ---------------------------------------------------------------------------------------------
  // The committed record
  // ---------------------------------------------------------------------------------------------

  lemma NotWrittenYet(written: seq<Record>, journal: Journal)
    ensures CommitIs(written, written, journal, false)
  {
  }

  lemma PreparedTellsNothing(was: seq<Record>, written: seq<Record>, files: Files, id: nat, plan: seq<Entry>)
    requires written == was + [Record(files, [Journal(id, Prepared, plan)])]
    ensures CommitIs(was, written, Journal(id, Committed, plan), false)
  {
  }

  lemma AllVerified(files: Files, entries: seq<Entry>)
    requires forall i :: 0 <= i < |entries| ==> VerifyAt(files, entries, i).Ok?
    ensures Verified(files, entries)
  {
  }

  lemma JustWritten(was: seq<Record>, written: seq<Record>, files: Files, journal: Journal)
    requires written == was + [Record(files, [journal])] && Verified(files, journal.entries)
    ensures CommitIs(was, written, journal, true)
  {
    assert written[|was|].journals == [journal];
  }

  /** Removing journals writes no record that could be taken for the committed one. */
  lemma RecoveryTellsNothing(was: seq<Record>, written: seq<Record>, others: seq<Journal>, journal: Journal)
    requires OnlyRemoved(was, written, others)
    ensures Unmistakable(journal.id, others) ==> CommitIs(was, written, journal, false)
  {
    forall k | |was| <= k < |written| && written[k].journals == [journal]
      ensures !Unmistakable(journal.id, others)
    {
      assert journal in written[k].journals;
    }
  }

  lemma CommitUntilEnd(
    was: seq<Record>, before: seq<Record>, written: seq<Record>, journal: Journal, committed: bool)
    requires CommitIs(was, before, journal, committed) && CommitIs(before, written, journal, false)
    ensures CommitIs(was, written, journal, committed)
  {
    forall k | 0 <= k < |before| ensures written[k] == before[k] {
      assert written[..|before|] == before;
    }
    if k :| |was| <= k < |before| && before[k].journals == [journal] {
      assert written[k].journals == [journal];
    }
  }

  lemma NoJournalTellsNothing(was: seq<Record>, written: seq<Record>, journal: Journal)
    requires written == was || exists f :: written == was + [Record(f, [])]
    ensures CommitIs(was, written, journal, false)
  {
  }

  lemma CommitSinceStart(
    was: seq<Record>, before: seq<Record>, written: seq<Record>, journal: Journal, committed: bool)
    requires was <= before && CommitIs(before, written, journal, committed)
    ensures CommitIs(was, before, journal, false) ==> CommitIs(was, written, journal, committed)
  {
    if CommitIs(was, before, journal, false) {
      forall k | |was| <= k < |before| ensures written[k] == before[k] && written[k].journals != [journal] {
        assert written[..|before|] == before;
      }
    }
  }

  lemma OneLess(
    was: seq<Record>, previous: seq<Record>, written: seq<Record>, listed: seq<Journal>, next: seq<Journal>,
    files: Files)
    requires OnlyRemoved(was, previous, listed) && (written == previous || written == previous + [Record(files, next)])
    requires |next| < |listed| && forall j :: j in next ==> j in listed
    ensures OnlyRemoved(was, written, listed)
  {
  }

  lemma OneMoreRollback(
    was: seq<Change>, before: seq<Change>, log: seq<Change>, journals: seq<Journal>, journal: Journal)
    requires RollsBackThese(was, before, journals) && journal in journals
    requires if journal.phase.Prepared? then Rollbacks(before, log, journal.entries) else log == before
    ensures RollsBackThese(was, log, journals)
  {
    hide RollsBack;
    forall k | |was| <= k < |log|
      ensures RollsBackOne(log[k], journals)
    {
      if k < |before| {
        assert log[k] == before[k];
      } else {
        assert RollsBack(log[k], journal.entries);
      }
    }
  }

  lemma NoWritesYet(log: seq<Change>, entries: seq<Entry>)
    ensures OwnWrites(log, log, entries)
  {
  }

  lemma NothingCompleted(base: Files, entries: seq<Entry>)
    ensures Completed(base, entries[..0]) == base
  {
    assert entries[..0] == [];
    SameFiles(Completed(base, entries[..0]), base);
  }

  lemma OneMoreWrite(was: seq<Change>, log: seq<Change>, after: seq<Change>, files: Files, entries: seq<Entry>, i: nat)
    requires WellFormedPlan(entries) && i < |entries| && OwnWrites(was, log, entries)
    requires after == log || Stepped(files, log, after, entries[i])
    ensures OwnWrites(was, after, entries)
  {
    hide BeforeImage, AfterImage, WellFormed;
    if Stepped(files, log, after, entries[i]) {
      OwnerOfTarget(entries, i);
    }
  }

  lemma CompletedStep(base: Files, ms: seq<Mutation>, entries: seq<Entry>, i: nat)
    requires Planned(base, ms, entries) && WellFormedPlan(entries) && i < |entries|
    ensures var e, done := entries[i], Completed(base, entries[..i]);
            && At(done, e.path) == BeforeImage(e)
            && Completed(base, entries[..i + 1]) == if e.kind.Assert? then done else Put(done, e.path, AfterImage(e))
  {
    PlannedIsWellFormed(base, ms, entries);
    var e, done := entries[i], Completed(base, entries[..i]);
    assert Owner(entries[..i], e.path).None?;
    var next := if e.kind.Assert? then done else Put(done, e.path, AfterImage(e));
    forall p
      ensures At(Completed(base, entries[..i + 1]), p) == At(next, p)
    {
      OwnerInPrefix(entries, i, p);
    }
    SameFiles(Completed(base, entries[..i + 1]), next);
  }

  /** However far an undisturbed apply has come, the journal takes it back to where it started. */
  lemma CompletedRewinds(base: Files, ms: seq<Mutation>, entries: seq<Entry>, i: nat)
    requires Planned(base, ms, entries) && WellFormedPlan(entries) && i <= |entries|
    ensures Rewound(Completed(base, entries[..i]), entries) == base
    ensures Classified(Completed(base, entries[..i]), entries)
  {
    PlannedIsWellFormed(base, ms, entries);
    var done := Completed(base, entries[..i]);
    forall p | Owner(entries, p).None?
      ensures At(done, p) == At(base, p)
    {
      assert forall e :: e in entries[..i] ==> e in entries;
    }
    RewoundIgnoresTargets(done, base, entries);
    forall k | 0 <= k < |entries| && !entries[k].kind.Assert?
      ensures Classify(done, entries[k]).Ok?
    {
      CompletedTarget(base, ms, entries, i, k);
      ClassifiedExactly(done, entries[k]);
    }
  }

  lemma CompletedTarget(base: Files, ms: seq<Mutation>, entries: seq<Entry>, i: nat, k: nat)
    requires Planned(base, ms, entries) && WellFormedPlan(entries) && i <= |entries| && k < |entries|
    ensures At(Completed(base, entries[..i]), entries[k].path)
            == if k < i then AfterImage(entries[k]) else BeforeImage(entries[k])
  {
    PlannedIsWellFormed(base, ms, entries);
    assert entries[k] in entries;
    var o := Owner(entries[..i], entries[k].path);
    if o.Some? {
      var j :| 0 <= j < i && entries[j] == o.value;
      assert j == k;
    } else if k < i {
      assert entries[k] in entries[..i];
    }
  }

  lemma CompletedVerifies(base: Files, ms: seq<Mutation>, entries: seq<Entry>)
    requires Planned(base, ms, entries) && WellFormedPlan(entries)
    ensures forall i :: 0 <= i < |entries| ==> VerifyAt(Completed(base, entries), entries, i) == Ok(())
  {
    assert entries[..|entries|] == entries;
    forall i | 0 <= i < |entries|
      ensures VerifyAt(Completed(base, entries), entries, i) == Ok(())
    {
      CompletedTarget(base, ms, entries, |entries|, i);
      MatchesAreImages(Completed(base, entries), entries[i]);
    }
  }

  lemma VerifiedMeansCompleted(files: Files, entries: seq<Entry>)
    requires WellFormedPlan(entries)
    requires forall i :: 0 <= i < |entries| ==> VerifyAt(files, entries, i).Ok?
    ensures forall e :: e in entries ==> At(files, e.path) == AfterImage(e)
  {
    forall e | e in entries
      ensures At(files, e.path) == AfterImage(e)
    {
      var i :| 0 <= i < |entries| && entries[i] == e;
      assert VerifyAt(files, entries, i).Ok?;
      MatchesAreImages(files, e);
    }
  }

  /** `applied` lists the targets among the first `n` that are not at their pre-image, each once. */
  ghost predicate AppliedAmong(files: Files, entries: seq<Entry>, applied: seq<Entry>, n: nat)
    requires n <= |entries|
  {
    && (forall e :: e in applied ==> e in entries[..n] && !e.kind.Assert? && Classify(files, e) == Ok(Applied))
    && (forall e :: e in entries[..n] && !e.kind.Assert? && e !in applied ==> At(files, e.path) == BeforeImage(e))
    && (forall i, j :: 0 <= i < j < |applied| ==> applied[i].path != applied[j].path)
  }

  /** From `left` on the applied targets are back at their pre-images; all else is as it was. */
  ghost predicate RewoundFrom(was: Files, files: Files, applied: seq<Entry>, left: nat) {
    && (forall i :: left <= i < |applied| ==> At(files, applied[i].path) == BeforeImage(applied[i]))
    && (forall p :: (forall i :: left <= i < |applied| ==> applied[i].path != p) ==> At(files, p) == At(was, p))
  }

  lemma AppliedIsOwner(files: Files, entries: seq<Entry>, applied: seq<Entry>, i: nat)
    requires WellFormedPlan(entries) && AppliedAmong(files, entries, applied, |entries|) && i < |applied|
    ensures WellFormed(applied[i]) && !applied[i].kind.Assert?
    ensures Owner(entries, applied[i].path) == Some(applied[i])
  {
    assert applied[i] in entries[..|entries|];
    var k :| 0 <= k < |entries| && entries[k] == applied[i];
    OwnerOfTarget(entries, k);
  }

  lemma PendingIsStillApplied(was: Files, files: Files, entries: seq<Entry>, applied: seq<Entry>, left: nat)
    requires WellFormedPlan(entries) && AppliedAmong(was, entries, applied, |entries|)
    requires left < |applied| && RewoundFrom(was, files, applied, left + 1)
    ensures WellFormed(applied[left]) && !applied[left].kind.Assert?
    ensures Owner(entries, applied[left].path) == Some(applied[left])
    ensures Classify(files, applied[left]) == Ok(Applied)
  {
    AppliedIsOwner(was, entries, applied, left);
    assert applied[left] in applied;
    assert At(files, applied[left].path) == At(was, applied[left].path);
  }

  lemma PartlyRewound(was: Files, files: Files, entries: seq<Entry>, applied: seq<Entry>, left: nat)
    requires WellFormedPlan(entries) && AppliedAmong(was, entries, applied, |entries|)
    requires left <= |applied| && RewoundFrom(was, files, applied, left) && Classified(was, entries)
    ensures Rewound(files, entries) == Rewound(was, entries)
    ensures Classified(files, entries)
  {
    forall p | Owner(entries, p).None?
      ensures At(files, p) == At(was, p)
    {
      forall i | left <= i < |applied| ensures applied[i].path != p {
        AppliedIsOwner(was, entries, applied, i);
      }
    }
    RewoundIgnoresTargets(files, was, entries);
    forall k | 0 <= k < |entries| && !entries[k].kind.Assert?
      ensures Classify(files, entries[k]).Ok?
    {
      RewoundTargetIsClassified(was, files, entries, applied, left, k);
    }
  }

  lemma RewoundTargetIsClassified(
    was: Files, files: Files, entries: seq<Entry>, applied: seq<Entry>, left: nat, k: nat)
    requires WellFormedPlan(entries) && AppliedAmong(was, entries, applied, |entries|)
    requires left <= |applied| && RewoundFrom(was, files, applied, left) && Classified(was, entries)
    requires k < |entries| && !entries[k].kind.Assert?
    ensures Classify(files, entries[k]).Ok?
  {
    var e := entries[k];
    ClassifiedExactly(was, e);
    ClassifiedExactly(files, e);
    if i :| left <= i < |applied| && applied[i].path == e.path {
      AppliedIsOwner(was, entries, applied, i);
      OwnerOfTarget(entries, k);
    }
  }

  lemma FullyRewound(was: Files, files: Files, entries: seq<Entry>, applied: seq<Entry>)
    requires WellFormedPlan(entries) && AppliedAmong(was, entries, applied, |entries|)
    requires RewoundFrom(was, files, applied, 0)
    ensures files == Rewound(was, entries)
  {
    forall p
      ensures At(files, p) == At(Rewound(was, entries), p)
    {
      if i :| 0 <= i < |applied| && applied[i].path == p {
        AppliedIsOwner(was, entries, applied, i);
      } else if Owner(entries, p).Some? {
        assert Owner(entries, p).value in entries[..|entries|];
      }
    }
    SameFiles(files, Rewound(was, entries));
  }
}
