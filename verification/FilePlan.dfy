/** What a file transaction plans and compares. */
module FilePlan {
  import opened Prelude

  type Path = string
  type Bytes = string

  /** A project path holds a regular file, a symbolic link, or something a transaction refuses. */
  datatype Node = Regular(bytes: Bytes, mode: nat) | Link(target: Bytes) | Other

  type Files = map<Path, Node>

  /** SHA-256, taken as injective. */
  datatype Digest = Sha256(preimage: Bytes)

  datatype Snapshot = Absent | Present(symlink: bool, hash: Digest, mode: nat, content: Option<Bytes>)

  datatype Precondition = NotThere | There(hash: Digest, mode: Option<nat>, symlink: bool)

  datatype Kind = WriteFile | WriteLink | Remove | Assert

  datatype Mutation = Mutation(
    kind: Kind, path: Path, content: Bytes, mode: Option<nat>, expected: Option<Precondition>)

  datatype Entry = Entry(
    kind: Kind, path: Path, before: Snapshot, afterHash: Option<Digest>, afterMode: Option<nat>)

  datatype Phase = Prepared | Committed

  datatype Journal = Journal(id: nat, phase: Phase, entries: seq<Entry>)

  datatype Error =
    | DuplicateTarget(path: Path)
    | NotAFile(path: Path)
    | LinkNeedsPrecondition(path: Path)
    | ChangedWhilePlanning(path: Path)
    | ChangedWhileUpdating(path: Path)
    | Unverified(path: Path)
    | ChangedBeforeCommit(path: Path)
    | Divergent(path: Path)
    | HookThrew
    | Io
    | RollbackFailed

  function At(files: Files, path: Path): Option<Node> {
    if path in files then Some(files[path]) else None
  }

  function Put(files: Files, path: Path, node: Option<Node>): (r: Files)
    ensures forall p :: At(r, p) == if p == path then node else At(files, p)
  {
    if node.Some? then files[path := node.value] else files - {path}
  }

  lemma SameFiles(f: Files, g: Files)
    requires forall p :: At(f, p) == At(g, p)
    ensures f == g
  {
    forall p
      ensures p in f <==> p in g
      ensures p in f && p in g ==> f[p] == g[p]
    {
      assert At(f, p) == At(g, p);
    }
  }

  /** `readEntrySnapshot`: a link is read itself, never followed. */
  function Observe(files: Files, path: Path, retain: bool): Result<Snapshot, Error> {
    match At(files, path)
    case None => Ok(Absent)
    case Some(Link(target)) => Ok(Present(true, Sha256(target), 0x1FF, if retain then Some(target) else None))
    case Some(Regular(bytes, mode)) => Ok(Present(false, Sha256(bytes), mode, if retain then Some(bytes) else None))
    case Some(Other) => Err(NotAFile(path))
  }

  predicate Matches(actual: Snapshot, expected: Precondition) {
    match expected
    case NotThere => actual.Absent?
    case There(hash, mode, symlink) =>
      actual.Present? && actual.symlink == symlink && actual.hash == hash && (mode.None? || Some(actual.mode) == mode)
  }

  function AsPrecondition(s: Snapshot, ignoreMode: bool): Precondition {
    if s.Absent? then NotThere else There(s.hash, if ignoreMode then None else Some(s.mode), s.symlink)
  }

  function MatchesSnapshot(files: Files, path: Path, expected: Snapshot, ignoreMode: bool): Result<bool, Error> {
    match Observe(files, path, false)
    case Err(e) => Err(e)
    case Ok(current) => Ok(Matches(current, AsPrecondition(expected, ignoreMode)))
  }

  function MatchesAfter(files: Files, e: Entry, ignoreMode: bool): Result<bool, Error> {
    if e.kind.Assert? then MatchesSnapshot(files, e.path, e.before, false)
    else match Observe(files, e.path, true)
      case Err(error) => Err(error)
      case Ok(current) =>
        if e.kind.Remove? then Ok(current.Absent?)
        else Ok(&& current.Present?
                && current.symlink == e.kind.WriteLink?
                && (ignoreMode || Some(current.mode) == e.afterMode)
                && Some(current.hash) == e.afterHash)
  }

  predicate AlreadyInPlace(e: Entry) {
    if e.kind.Remove? then e.before.Absent?
    else && e.before.Present?
         && e.before.symlink == e.kind.WriteLink?
         && Some(e.before.hash) == e.afterHash
         && Some(e.before.mode) == e.afterMode
  }

  function PlanEntry(files: Files, m: Mutation): Result<Entry, Error> {
    match Observe(files, m.path, !m.kind.Assert?)
    case Err(e) => Err(e)
    case Ok(before) =>
      if before.Present? && before.symlink && !m.kind.Assert? &&
         !(m.expected.Some? && m.expected.value.There? && m.expected.value.symlink) then
        Err(LinkNeedsPrecondition(m.path))
      else if m.expected.Some? && !Matches(before, m.expected.value) then Err(ChangedWhilePlanning(m.path))
      else if m.kind.Remove? || m.kind.Assert? then Ok(Entry(m.kind, m.path, before, None, None))
      else
        var mode :=
          if m.kind.WriteLink? then 0x1FF
          else if m.mode.Some? then m.mode.value
          else if before.Present? && !before.symlink then before.mode
          else 0x1A4;
        Ok(Entry(m.kind, m.path, before, Some(Sha256(m.content)), Some(mode)))
  }

  /** `prepareEntry` for the i-th mutation: a path an earlier one names is refused. */
  function PlanAt(files: Files, ms: seq<Mutation>, i: int): Result<Entry, Error> {
    if !(0 <= i < |ms|) then Err(Io)
    else if exists j :: 0 <= j < i && ms[j].path == ms[i].path then Err(DuplicateTarget(ms[i].path))
    else PlanEntry(files, ms[i])
  }

  function VerifyAt(files: Files, entries: seq<Entry>, i: int): Result<(), Error> {
    if !(0 <= i < |entries|) then Err(Io)
    else match MatchesAfter(files, entries[i], false)
      case Err(e) => Err(e)
      case Ok(same) => if same then Ok(()) else Err(ChangedBeforeCommit(entries[i].path))
  }

  datatype Status = Restored | Applied

  /** `classifyRecoveryEntry`: where a target stands between its two images. */
  function Classify(files: Files, e: Entry): Result<Status, Error> {
    match MatchesSnapshot(files, e.path, e.before, false)
    case Err(error) => Err(error)
    case Ok(restored) =>
      if restored then Ok(Restored)
      else if MatchesAfter(files, e, true) == Ok(true) then Ok(Applied)
      else if MatchesSnapshot(files, e.path, e.before, true) == Ok(true) then Ok(Applied)
      else Err(Divergent(e.path))
  }

  // ---------------------------------------------------------------------------------------------
  // Images
  // ---------------------------------------------------------------------------------------------

  /** What parsing a journal checks of an entry: a retained pre-image that hashes to its hash. */
  predicate WellFormed(e: Entry) {
    && (e.before.Present? && !e.kind.Assert? ==> e.before.content == Some(e.before.hash.preimage))
    && (e.before.Present? && e.before.symlink ==> e.before.mode == 0x1FF)
    && (e.kind.WriteFile? || e.kind.WriteLink? <==> e.afterHash.Some?)
    && (e.afterHash.Some? <==> e.afterMode.Some?)
    && (e.kind.WriteLink? ==> e.afterMode == Some(0x1FF))
  }

  predicate WellFormedPlan(entries: seq<Entry>) {
    && (forall i :: 0 <= i < |entries| ==> WellFormed(entries[i]))
    && (forall i, j :: 0 <= i < j < |entries| ==> entries[i].path != entries[j].path)
  }

  function BeforeImage(e: Entry): Option<Node> {
    if e.before.Absent? then None
    else if e.before.symlink then Some(Link(e.before.hash.preimage))
    else Some(Regular(e.before.hash.preimage, e.before.mode))
  }

  function AfterImage(e: Entry): Option<Node> {
    if e.kind.Assert? then BeforeImage(e)
    else if e.kind.Remove? || e.afterHash.None? || e.afterMode.None? then None
    else if e.kind.WriteLink? then Some(Link(e.afterHash.value.preimage))
    else Some(Regular(e.afterHash.value.preimage, e.afterMode.value))
  }

  /** The entry that owns `path`; assertions own nothing. */
  function Owner(entries: seq<Entry>, path: Path): (r: Option<Entry>)
    ensures r.Some? ==> r.value in entries && r.value.path == path && !r.value.kind.Assert?
    ensures r.None? ==> forall e :: e in entries && !e.kind.Assert? ==> e.path != path
  {
    if entries == [] then None
    else if !entries[0].kind.Assert? && entries[0].path == path then Some(entries[0])
    else Owner(entries[1..], path)
  }

  /** Every target put back to its pre-image. */
  function Rewound(files: Files, entries: seq<Entry>): (r: Files)
    ensures forall p :: At(r, p) == if Owner(entries, p).Some? then BeforeImage(Owner(entries, p).value)
            else At(files, p)
  {
    if entries == [] then files
    else if entries[0].kind.Assert? then Rewound(files, entries[1..])
    else Put(Rewound(files, entries[1..]), entries[0].path, BeforeImage(entries[0]))
  }

  /** Every target at its post-image. */
  function Completed(files: Files, entries: seq<Entry>): (r: Files)
    ensures forall p :: At(r, p) == if Owner(entries, p).Some? then AfterImage(Owner(entries, p).value)
            else At(files, p)
  {
    if entries == [] then files
    else if entries[0].kind.Assert? then Completed(files, entries[1..])
    else Put(Completed(files, entries[1..]), entries[0].path, AfterImage(entries[0]))
  }

  /** The files a reader may count on: those that recovery would leave. */
  function Settled(files: Files, journals: seq<Journal>): Files
    decreases |journals|
  {
    if journals == [] then files
    else if journals[0].phase.Committed? then Settled(files, journals[1..])
    else Settled(Rewound(files, journals[0].entries), journals[1..])
  }

  /** Recovery can place every target of the journal. */
  predicate Classified(files: Files, entries: seq<Entry>) {
    forall i :: 0 <= i < |entries| && !entries[i].kind.Assert? ==> Classify(files, entries[i]).Ok?
  }

  /** Recovery can place every target of each prepared journal once the journals before it are dealt with. */
  predicate Recoverable(files: Files, journals: seq<Journal>)
    decreases |journals|
  {
    journals == [] ||
    var entries := journals[0].entries;
    && WellFormedPlan(entries)
    && if journals[0].phase.Committed? then Recoverable(files, journals[1..])
       else Classified(files, entries) && Recoverable(Rewound(files, entries), journals[1..])
  }

  lemma OneJournal(files: Files, journal: Journal)
    requires WellFormedPlan(journal.entries)
    ensures Settled(files, [journal]) == if journal.phase.Committed? then files else Rewound(files, journal.entries)
    ensures Recoverable(files, [journal]) <==> journal.phase.Committed? || Classified(files, journal.entries)
  {
    assert [journal][1..] == [];
  }

  lemma {:induction false} RecoverableIsWellFormed(files: Files, journals: seq<Journal>)
    requires Recoverable(files, journals)
    ensures forall j :: j in journals ==> WellFormedPlan(j.entries)
    decreases |journals|
  {
    hide WellFormedPlan;
    if journals != [] {
      var done := if journals[0].phase.Committed? then files else Rewound(files, journals[0].entries);
      RecoverableIsWellFormed(done, journals[1..]);
    }
  }

  /** The journals that no running transaction works on. */
  function Idle(journals: seq<Journal>, active: set<nat>): seq<Journal> {
    if journals == [] then []
    else if journals[0].id in active then Idle(journals[1..], active)
    else [journals[0]] + Idle(journals[1..], active)
  }

  /** The journals of running transactions. */
  function Busy(journals: seq<Journal>, active: set<nat>): seq<Journal> {
    if journals == [] then []
    else if journals[0].id in active then [journals[0]] + Busy(journals[1..], active)
    else Busy(journals[1..], active)
  }

  lemma {:induction false} IdleMembers(journals: seq<Journal>, active: set<nat>)
    ensures |Idle(journals, active)| <= |journals|
    ensures forall j :: j in Idle(journals, active) <==> j in journals && j.id !in active
  {
    if journals != [] {
      IdleMembers(journals[1..], active);
    }
  }

  lemma {:induction false} AllIdle(journals: seq<Journal>)
    ensures Idle(journals, {}) == journals && Busy(journals, {}) == []
  {
    if journals != [] {
      AllIdle(journals[1..]);
    }
  }

  lemma IdleStep(journal: Journal, rest: seq<Journal>, active: set<nat>)
    ensures var (idle, busy) := (Idle([journal] + rest, active), Busy([journal] + rest, active));
            if journal.id in active then idle == Idle(rest, active) && busy == [journal] + Busy(rest, active)
            else idle == [journal] + Idle(rest, active) && busy == Busy(rest, active)
  {
    assert ([journal] + rest)[1..] == rest;
  }

  lemma {:induction false} BusyFirst(kept: seq<Journal>, rest: seq<Journal>, active: set<nat>)
    requires forall j :: j in kept ==> j.id in active
    ensures Idle(kept + rest, active) == Idle(rest, active)
    ensures Busy(kept + rest, active) == kept + Busy(rest, active)
  {
    hide *;
    if kept == [] {
      assert kept + rest == rest && kept + Busy(rest, active) == Busy(rest, active);
    } else {
      var first, later := kept[0], kept[1..];
      assert kept == [first] + later && kept + rest == [first] + (later + rest);
      IdleStep(first, later + rest, active);
      BusyFirst(later, rest, active);
      assert [first] + (later + Busy(rest, active)) == kept + Busy(rest, active);
    }
  }

  lemma PlannedEntry(files: Files, m: Mutation, e: Entry)
    requires PlanEntry(files, m) == Ok(e)
    ensures WellFormed(e) && e.kind == m.kind && e.path == m.path
    ensures BeforeImage(e) == At(files, e.path)
  {
  }

  /** Planning records exactly what is there, so rewinding at once changes nothing. */
  lemma PlannedIsWellFormed(files: Files, ms: seq<Mutation>, entries: seq<Entry>)
    requires |entries| == |ms| && forall i :: 0 <= i < |ms| ==> PlanAt(files, ms, i) == Ok(entries[i])
    ensures WellFormedPlan(entries)
    ensures forall e :: e in entries ==> BeforeImage(e) == At(files, e.path)
    ensures Rewound(files, entries) == files
  {
    forall i | 0 <= i < |ms|
      ensures WellFormed(entries[i]) && entries[i].path == ms[i].path
      ensures BeforeImage(entries[i]) == At(files, entries[i].path)
    {
      assert PlanAt(files, ms, i) == Ok(entries[i]);
      PlannedEntry(files, ms[i], entries[i]);
    }
    forall i, j | 0 <= i < j < |entries|
      ensures entries[i].path != entries[j].path
    {
      assert PlanAt(files, ms, j).Ok?;
    }
    SameFiles(Rewound(files, entries), files);
  }

  /** Equal up to the mode of a regular file. */
  predicate SameContent(a: Option<Node>, b: Option<Node>) {
    match (a, b)
    case (None, None) => true
    case (Some(Regular(x, _)), Some(Regular(y, _))) => x == y
    case (Some(Link(x)), Some(Link(y))) => x == y
    case _ => false
  }

  lemma MatchesAreImages(files: Files, e: Entry)
    requires WellFormed(e)
    ensures MatchesSnapshot(files, e.path, e.before, false) == Ok(true) <==> At(files, e.path) == BeforeImage(e)
    ensures MatchesAfter(files, e, false) == Ok(true) <==> At(files, e.path) == AfterImage(e)
  {
  }

  /** Recovery places a target exactly when it holds the content of one of its two images. */
  lemma ClassifiedExactly(files: Files, e: Entry)
    requires WellFormed(e) && !e.kind.Assert?
    ensures Classify(files, e) == Ok(Restored) <==> At(files, e.path) == BeforeImage(e)
    ensures Classify(files, e).Ok? <==>
              SameContent(At(files, e.path), BeforeImage(e)) || SameContent(At(files, e.path), AfterImage(e))
  {
  }

  lemma OwnerOfTarget(entries: seq<Entry>, i: nat)
    requires WellFormedPlan(entries) && i < |entries| && !entries[i].kind.Assert?
    ensures Owner(entries, entries[i].path) == Some(entries[i])
  {
    var o := Owner(entries, entries[i].path);
    var j :| 0 <= j < |entries| && entries[j] == o.value;
    assert j == i;
  }

  /** A file tree that differs from another only at targets rewinds to the same tree. */
  lemma RewoundIgnoresTargets(f: Files, g: Files, entries: seq<Entry>)
    requires forall p :: Owner(entries, p).None? ==> At(f, p) == At(g, p)
    ensures Rewound(f, entries) == Rewound(g, entries)
  {
    SameFiles(Rewound(f, entries), Rewound(g, entries));
  }
}
