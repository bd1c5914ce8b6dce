/** The state lock across processes. */
module StateLock {
  // The lock as a system of interleaved steps: any number of contenders, each inside some
  // operating-system process, share a lock directory holding `owner.json`, a recovery directory, and
  // whatever temporary files interrupted writers left behind. Every step below is one system call (or
  // one synchronous stretch of code); processes may die between any two of them.

  import opened Prelude

  /** The random token of one acquisition; a retry reuses it. */
  type Token = nat
  type Process = nat

  /** The lock directory: its inode, the token in owner.json if there is one, and temporary files. */
  datatype Dir = Dir(inode: nat, owner: Option<Token>, temps: set<nat>)

  /** Where a contender is: what it is about to do next. */
  datatype Pc =
    | Idle                                  // about to mkdir the lock directory
    | Made                                  // made it; about to note its token as active
    | Noted                                 // about to write its temporary file
    | Written(temp: nat)                    // about to publish the temporary file as owner.json
    | Checked(temp: nat)                    // rename fallback only: saw no owner.json, about to rename
    | Linked(temp: nat)                     // published; about to unlink the temporary file
    | Unlucky(temp: nat)                    // not published; about to unlink the temporary file
    | Broken(temp: nat)                     // publishing failed with another error: unlink, then rmdir
    | BrokenDir                             // about to rmdir after such an error
    | Withdrawn(failed: bool)               // about to forget its token: then retry, or give up
    | Held                                  // the operation runs
    | Releasing                             // read its own token back; about to unlink owner.json
    | Unlinked                              // about to rmdir the lock directory
    | Released                              // about to forget its token
    | Observing                             // mkdir found a directory: about to read owner.json
    | Judging(seen: Option<Token>)          // about to decide whether the lock is abandoned
    | Judged(seen: Option<Token>)           // decided it is; about to mkdir the recovery directory
    | Guarded(seen: Option<Token>)          // holds the recovery mutex; about to read owner.json again
    | Rechecked(dead: Token)                // read the same owner again; about to judge it again
    | Condemned(dead: Token)                // about to unlink that owner.json
    | Emptied                               // about to rmdir the lock directory
    | Listing                               // ownerless: about to list an aged directory
    | Sweeping(inode: nat, names: set<nat>) // unlinking the leftovers of that listing
    | Swept                                 // same inode as listed: about to rmdir
    | Unguarding                            // about to rmdir the recovery directory
    | Finished

  datatype State = State(
    lock: Option<Dir>,
    recovery: Option<Token>,
    pc: map<Token, Pc>,
    home: map<Token, Process>,
    alive: set<Process>,
    active: set<Token>,
    nextId: nat)
  {
    function At(c: Token, next: Pc): State {
      this.(pc := pc[c := next])
    }

    function WithoutTemp(temp: nat): State {
      match lock
      case None => this
      case Some(dir) => this.(lock := Some(dir.(temps := dir.temps - {temp})))
    }

    /** rmdir removes only an empty directory. */
    function Rmdir(): State {
      if lock.Some? && lock.value.owner.None? && lock.value.temps == {} then this.(lock := None) else this
    }

    function UnlinkOwner(): State {
      match lock
      case None => this
      case Some(dir) => this.(lock := Some(dir.(owner := None)))
    }

    function Owner(): Option<Token> {
      if lock.Some? then lock.value.owner else None
    }

    predicate Lives(c: Token) {
      c in pc && c in home && home[c] in alive
    }

    /** Published and not yet withdrawn: the stretch in which the contender owns the worktree. */
    predicate Owns(c: Token) {
      c in pc && (pc[c].Linked? || pc[c].Held? || pc[c].Releasing?)
    }
  }

  /** `ownerState`: a dead process, or a token its own live process no longer counts as active. */
  predicate Abandoned(s: State, judge: Token, owner: Token) {
    && owner in s.home && judge in s.home
    && (s.home[owner] !in s.alive || (s.home[owner] == s.home[judge] && owner !in s.active))
  }

  /** Publishing: `link` refuses an existing owner.json; the `rename` fallback only looks beforehand. */
  ghost predicate Publish(s: State, t: State, c: Token, temp: nat, hardLinks: bool)
    requires c in s.pc
  {
    if s.lock.None? || temp !in s.lock.value.temps then t == s.At(c, Unlucky(temp))
    else if s.lock.value.owner.Some? then t == s.At(c, Unlucky(temp))
    else if hardLinks then t == s.At(c, Linked(temp)).(lock := Some(s.lock.value.(owner := Some(c))))
    else t == s.At(c, Checked(temp))
  }

  ghost predicate Replace(s: State, t: State, c: Token, temp: nat)
    requires c in s.pc
  {
    if s.lock.None? || temp !in s.lock.value.temps then t == s.At(c, Unlucky(temp))
    else
      var held := s.lock.value.(owner := Some(c), temps := s.lock.value.temps - {temp});
      t == s.At(c, Linked(temp)).(lock := Some(held))
  }

  /** One try at the lock: make the directory, note the token, write a temporary file. */
  ghost predicate MakeMove(s: State, t: State, c: Token)
    requires c in s.pc
  {
    match s.pc[c]
    case Idle =>
      || (s.lock.None? && t == s.At(c, Made).(lock := Some(Dir(s.nextId, None, {})), nextId := s.nextId + 1))
      || t == s.At(c, Observing)
      || t == s.At(c, Finished)
    case Made => t == s.At(c, Noted).(active := s.active + {c})
    case Noted =>
      || (s.lock.Some? && t == s.At(c, Written(s.nextId)).(
             lock := Some(s.lock.value.(temps := s.lock.value.temps + {s.nextId})), nextId := s.nextId + 1))
      || (s.lock.None? && t == s.At(c, Withdrawn(false)))
      || t == s.At(c, Broken(s.nextId)).(nextId := s.nextId + 1)
    case Withdrawn(failed) => t == s.At(c, if failed then Finished else Observing).(active := s.active - {c})
    case _ => false
  }

  /** Publishing the temporary file as owner.json, and cleaning up after it. */
  ghost predicate PublishMove(s: State, t: State, c: Token, hardLinks: bool)
    requires c in s.pc
  {
    match s.pc[c]
    case Written(temp) => Publish(s, t, c, temp, hardLinks) || t == s.At(c, Broken(temp))
    case Checked(temp) => Replace(s, t, c, temp)
    case Linked(temp) => t == s.WithoutTemp(temp).At(c, Held) || t == s.At(c, Held)
    case Unlucky(temp) => t == s.WithoutTemp(temp).At(c, Withdrawn(false)) || t == s.At(c, Withdrawn(false))
    case Broken(temp) => t == s.WithoutTemp(temp).At(c, BrokenDir) || t == s.At(c, BrokenDir)
    case BrokenDir => t == s.Rmdir().At(c, Withdrawn(true))
    case _ => false
  }

  /** Giving the lock back, after reading that owner.json still carries the contender's own token. */
  ghost predicate ReleaseMove(s: State, t: State, c: Token)
    requires c in s.pc
  {
    match s.pc[c]
    case Held => t == s.At(c, if s.Owner() == Some(c) then Releasing else Released) || t == s.At(c, Released)
    case Releasing => t == s.UnlinkOwner().At(c, Unlinked) || t == s.At(c, Released)
    case Unlinked => t == s.Rmdir().At(c, Released)
    case Released => t == s.At(c, Finished).(active := s.active - {c})
    case _ => false
  }

  /** Deciding that a lock is abandoned, and taking the recovery mutex to clear it. */
  ghost predicate JudgeMove(s: State, t: State, c: Token)
    requires c in s.pc
  {
    match s.pc[c]
    case Observing => t == s.At(c, Judging(s.Owner())) || t == s.At(c, Idle)
    case Judging(None) => t == s.At(c, Judged(None)) || t == s.At(c, Idle)
    case Judging(Some(o)) => t == s.At(c, if Abandoned(s, c, o) then Judged(Some(o)) else Idle)
    case Judged(seen) =>
      if s.recovery.None? then t == s.At(c, Guarded(seen)).(recovery := Some(c)) else t == s.At(c, Idle)
    case _ => false
  }

  /** Under the recovery mutex: reading and judging the owner once more, then removing it. */
  ghost predicate ReclaimMove(s: State, t: State, c: Token)
    requires c in s.pc
  {
    match s.pc[c]
    case Guarded(None) => t == s.At(c, if s.Owner().Some? then Unguarding else Listing)
    case Guarded(Some(o)) => t == s.At(c, if s.Owner() == Some(o) then Rechecked(o) else Unguarding)
    case Rechecked(o) => t == s.At(c, if Abandoned(s, c, o) then Condemned(o) else Unguarding)
    case Condemned(_) => t == s.UnlinkOwner().At(c, Emptied) || t == s.At(c, Unguarding)
    case Emptied => t == s.Rmdir().At(c, Unguarding)
    case Unguarding => t == s.At(c, Idle).(recovery := None)
    case _ => false
  }

  /** Under the recovery mutex: clearing a lock directory that never got an owner. */
  ghost predicate SweepMove(s: State, t: State, c: Token)
    requires c in s.pc
  {
    match s.pc[c]
    case Listing =>
      || (s.lock.Some? && s.lock.value.owner.None? && t == s.At(c, Sweeping(s.lock.value.inode, s.lock.value.temps)))
      || t == s.At(c, Unguarding)
    case Sweeping(inode, names) =>
      || (exists name :: name in names && t == s.WithoutTemp(name).At(c, Sweeping(inode, names - {name})))
      || (names == {} && t == s.At(c, if s.lock.Some? && s.lock.value.inode == inode then Swept else Unguarding))
    case Swept => t == s.Rmdir().At(c, Unguarding)
    case _ => false
  }

  ghost predicate Move(s: State, t: State, c: Token, hardLinks: bool)
    requires c in s.pc
  {
    || MakeMove(s, t, c)
    || PublishMove(s, t, c, hardLinks)
    || ReleaseMove(s, t, c)
    || JudgeMove(s, t, c)
    || ReclaimMove(s, t, c)
    || SweepMove(s, t, c)
  }

  ghost predicate Spawn(s: State, t: State, c: Token, p: Process) {
    && c !in s.pc && c !in s.home
    && t == s.(pc := s.pc[c := Idle], home := s.home[c := p], alive := s.alive + {p})
    && (p in s.alive || forall d :: d in s.home ==> s.home[d] != p)
  }

  ghost predicate Crash(s: State, t: State, p: Process) {
    t == s.(alive := s.alive - {p})
  }

  /** A stale recovery mutex goes only once the reclaimer that took it is dead. */
  ghost predicate ClearStale(s: State, t: State) {
    s.recovery.Some? && !s.Lives(s.recovery.value) && t == s.(recovery := None)
  }

  ghost predicate Next(s: State, t: State, hardLinks: bool) {
    || (exists c, p :: Spawn(s, t, c, p))
    || (exists p :: Crash(s, t, p))
    || ClearStale(s, t)
    || (exists c :: s.Lives(c) && Move(s, t, c, hardLinks))
  }

  const UNLOCKED := State(None, None, map[], map[], {}, {}, 0)

  /** Every run from a worktree nobody has locked: any interleaving, any deaths. */
  ghost predicate IsRun(run: seq<State>, hardLinks: bool) {
    IsPath(run, hardLinks) && run[0] == UNLOCKED
  }

  ghost predicate IsPath(run: seq<State>, hardLinks: bool) {
    && run != []
    && forall i :: 0 <= i < |run| - 1 ==> Next(run[i], run[i + 1], hardLinks)
  }

  // ---------------------------------------------------------------------------------------------
  // The invariant
  // ---------------------------------------------------------------------------------------------

  /** owner.json has named this contender at some time. */
  predicate Published(pc: Pc) {
    pc.Linked? || pc.Held? || pc.Releasing? || pc.Unlinked? || pc.Released? || pc.Finished?
  }

  /** The stretch between noting the token as active and forgetting it. */
  predicate Noting(pc: Pc) {
    || pc.Noted? || pc.Written? || pc.Linked?
    || pc.Held? || pc.Releasing? || pc.Unlinked? || pc.Released?
  }

  /** The contender will never again act on owner.json. */
  predicate Over(s: State, c: Token) {
    c in s.pc && c in s.home && (s.home[c] !in s.alive || s.pc[c].Finished?)
  }

  predicate UnderMutex(pc: Pc) {
    || pc.Guarded? || pc.Rechecked? || pc.Condemned? || pc.Emptied?
    || pc.Listing? || pc.Sweeping? || pc.Swept? || pc.Unguarding?
  }

  /** The owner a reclaimer has read, before it has judged it. */
  function Read(pc: Pc): Option<Token> {
    match pc
    case Judging(seen) => seen
    case _ => None
  }

  /** The owner a reclaimer has judged abandoned. */
  function Doomed(pc: Pc): Option<Token> {
    match pc
    case Judged(seen) => seen
    case Guarded(seen) => seen
    case Rechecked(o) => Some(o)
    case Condemned(o) => Some(o)
    case _ => None
  }

  predicate Settled(s: State, o: Token) {
    o in s.pc && o in s.home && Published(s.pc[o])
  }

  ghost predicate InvFor(s: State, c: Token)
    requires c in s.pc
  {
    && c in s.home
    && !s.pc[c].Checked?
    && (s.Lives(c) && s.Owns(c) ==> s.Owner() == Some(c))
    && (Noting(s.pc[c]) ==> c in s.active)
    && (Read(s.pc[c]).Some? ==> Settled(s, Read(s.pc[c]).value))
    && (Doomed(s.pc[c]).Some? ==> Settled(s, Doomed(s.pc[c]).value) && Over(s, Doomed(s.pc[c]).value))
    && (s.Lives(c) && UnderMutex(s.pc[c]) ==> s.recovery == Some(c))
    && (s.Lives(c) && s.pc[c].Rechecked? ==> s.Owner() == Some(s.pc[c].dead))
    && (s.Lives(c) && s.pc[c].Condemned? ==> s.Owner() == Some(s.pc[c].dead))
  }

  ghost predicate Known(s: State) {
    s.home.Keys == s.pc.Keys && (s.Owner().Some? ==> Settled(s, s.Owner().value))
  }

  ghost predicate Inv(s: State) {
    && Known(s)
    && forall c :: c in s.pc ==> InvFor(s, c)
  }

  /** What a step of `c` leaves alone, as far as the invariant of any other contender goes. */
  ghost predicate Framed(s: State, t: State, c: Token) {
    && s.Lives(c) && !s.pc[c].Finished?
    && c in t.pc && t.pc == s.pc[c := t.pc[c]] && t.home == s.home && t.alive == s.alive
    && (t.active == s.active || t.active == s.active + {c} || t.active == s.active - {c})
    && (Published(s.pc[c]) ==> Published(t.pc[c]))
    && OwnerFramed(s, t, c)
    && (t.recovery == s.recovery || (s.recovery.None? && t.recovery == Some(c)) || s.recovery == Some(c))
  }

  /** owner.json changes only by an exclusive publish, the owner's release, or a reclaim under the mutex. */
  ghost predicate OwnerFramed(s: State, t: State, c: Token)
    requires c in s.pc && c in t.pc
  {
    || t.Owner() == s.Owner()
    || (s.Owner().None? && t.Owner() == Some(c) && t.pc[c].Linked?)
    || (s.Owner() == Some(c) && t.Owner().None?)
    || (s.Owner().Some? && Over(s, s.Owner().value) && UnderMutex(s.pc[c]) && t.Owner().None?)
  }

  lemma OthersKeepInv(s: State, t: State, c: Token, d: Token)
    requires Inv(s) && Framed(s, t, c) && d in s.pc && d != c
    ensures InvFor(t, d)
  {
    assert InvFor(s, d) && InvFor(s, c);
  }

  lemma MakeFrames(s: State, t: State, c: Token)
    requires c in s.pc && Known(s) && InvFor(s, c) && s.Lives(c) && MakeMove(s, t, c)
    ensures Framed(s, t, c) && InvFor(t, c)
  {
  }

  lemma PublishFrames(s: State, t: State, c: Token)
    requires c in s.pc && Known(s) && InvFor(s, c) && s.Lives(c) && PublishMove(s, t, c, true)
    ensures Framed(s, t, c) && InvFor(t, c)
  {
  }

  lemma ReleaseFrames(s: State, t: State, c: Token)
    requires c in s.pc && Known(s) && InvFor(s, c) && s.Lives(c) && ReleaseMove(s, t, c)
    ensures Framed(s, t, c) && InvFor(t, c)
  {
  }

  lemma JudgeFrames(s: State, t: State, c: Token)
    requires Inv(s) && s.Lives(c) && JudgeMove(s, t, c)
    ensures Framed(s, t, c) && InvFor(t, c)
  {
    assert InvFor(s, c);
    match s.pc[c]
    case Observing =>
    case Judging(seen) =>
      assert seen.Some? ==> InvFor(s, seen.value);
    case Judged(seen) =>
  }

  lemma ReclaimFrames(s: State, t: State, c: Token)
    requires c in s.pc && Known(s) && InvFor(s, c) && s.Lives(c) && ReclaimMove(s, t, c)
    ensures Framed(s, t, c) && InvFor(t, c)
  {
  }

  lemma SweepFrames(s: State, t: State, c: Token)
    requires c in s.pc && Known(s) && InvFor(s, c) && s.Lives(c) && SweepMove(s, t, c)
    ensures Framed(s, t, c) && InvFor(t, c)
  {
  }

  lemma FramedKeepsInv(s: State, t: State, c: Token)
    requires Inv(s) && Framed(s, t, c) && InvFor(t, c)
    ensures Inv(t)
  {
    forall d | d in t.pc
      ensures InvFor(t, d)
    {
      if d != c {
        OthersKeepInv(s, t, c, d);
      }
    }
  }

  lemma MoveKeepsInv(s: State, t: State, c: Token)
    requires Inv(s) && s.Lives(c) && Move(s, t, c, true)
    ensures Framed(s, t, c) && Inv(t)
  {
    assert InvFor(s, c);
    if MakeMove(s, t, c) {
      MakeFrames(s, t, c);
    } else if PublishMove(s, t, c, true) {
      PublishFrames(s, t, c);
    } else if ReleaseMove(s, t, c) {
      ReleaseFrames(s, t, c);
    } else if JudgeMove(s, t, c) {
      JudgeFrames(s, t, c);
    } else if ReclaimMove(s, t, c) {
      ReclaimFrames(s, t, c);
    } else {
      SweepFrames(s, t, c);
    }
    FramedKeepsInv(s, t, c);
  }

  lemma WorldKeepsInv(s: State, t: State, c: Token, p: Process)
    requires Inv(s) && (Spawn(s, t, c, p) || Crash(s, t, p) || ClearStale(s, t))
    ensures Inv(t)
  {
    forall d | d in t.pc
      ensures InvFor(t, d)
    {
      assert d in s.pc ==> InvFor(s, d);
    }
  }

  lemma NextKeepsInv(s: State, t: State)
    requires Inv(s) && Next(s, t, true)
    ensures Inv(t)
  {
    if c, p :| Spawn(s, t, c, p) {
      WorldKeepsInv(s, t, c, p);
    } else if p :| Crash(s, t, p) {
      WorldKeepsInv(s, t, 0, p);
    } else if ClearStale(s, t) {
      WorldKeepsInv(s, t, 0, 0);
    } else {
      var c :| s.Lives(c) && Move(s, t, c, true);
      MoveKeepsInv(s, t, c);
    }
  }

  lemma {:induction false} RunKeepsInv(run: seq<State>, i: nat)
    requires IsRun(run, true) && i < |run|
    ensures Inv(run[i])
  {
    if i > 0 {
      RunKeepsInv(run, i - 1);
      assert Next(run[i - 1], run[i - 1 + 1], true);
      NextKeepsInv(run[i - 1], run[i]);
    }
  }

  // ---------------------------------------------------------------------------------------------
  // What the invariant is for
  // ---------------------------------------------------------------------------------------------

  /** At most one live contender ever owns the worktree, whatever was reaped and recreated meanwhile. */
  lemma MutualExclusion(run: seq<State>, i: nat, c: Token, d: Token)
    requires IsRun(run, true) && i < |run|
    requires run[i].Lives(c) && run[i].Owns(c) && run[i].Lives(d) && run[i].Owns(d)
    ensures c == d
    ensures run[i].Owner() == Some(c) && c in run[i].active
  {
    RunKeepsInv(run, i);
    assert InvFor(run[i], c) && InvFor(run[i], d);
  }

  /** owner.json stops naming a contender only by its own release or once that contender is over. */
  lemma OwnershipEndsOnlyByReleaseOrDeath(run: seq<State>, i: nat, c: Token)
    requires IsRun(run, true) && i + 1 < |run|
    requires run[i].Owner() == Some(c) && run[i + 1].Owner() != Some(c)
    ensures c in run[i].pc && (run[i].pc[c].Releasing? || Over(run[i], c))
  {
    RunKeepsInv(run, i);
    var s, t := run[i], run[i + 1];
    assert Next(s, t, true);
    var d :| s.Lives(d) && Move(s, t, d, true);
    MoveKeepsInv(s, t, d);
    assert InvFor(s, d) && InvFor(s, c);
    if d == c && !s.pc[c].Releasing? {
      assert false;
    }
  }

  /** The lock directory is only ever removed, or remade, while it holds no owner.json. */
  lemma OnlyOwnerlessDirectoriesAreReaped(run: seq<State>, i: nat)
    requires IsRun(run, true) && i + 1 < |run| && run[i].lock.Some?
    requires run[i + 1].lock.None? || run[i + 1].lock.value.inode != run[i].lock.value.inode
    ensures run[i].lock.value.owner.None? && run[i].lock.value.temps == {}
  {
    assert Next(run[i], run[i + 1], true);
  }

  /** A live reclaimer inside the recovery mutex is alone in it. */
  lemma RecoveryIsExclusive(run: seq<State>, i: nat, c: Token, d: Token)
    requires IsRun(run, true) && i < |run|
    requires run[i].Lives(c) && UnderMutex(run[i].pc[c]) && run[i].Lives(d) && UnderMutex(run[i].pc[d])
    ensures c == d
  {
    RunKeepsInv(run, i);
    assert InvFor(run[i], c) && InvFor(run[i], d);
  }

  // ---------------------------------------------------------------------------------------------
  // What a waiting contender can do about an abandoned lock
  // ---------------------------------------------------------------------------------------------

  /** Some steps lead from one state to the other. */
  ghost predicate Leads(from: State, to: State, hardLinks: bool) {
    exists run :: IsPath(run, hardLinks) && run[0] == from && run[|run| - 1] == to
  }

  lemma LeadsNowhere(s: State, hardLinks: bool)
    ensures Leads(s, s, hardLinks)
  {
    assert IsPath([s], hardLinks) && [s][0] == s && [s][|[s]| - 1] == s;
  }

  lemma Extend(from: State, s: State, t: State, hardLinks: bool)
    requires Leads(from, s, hardLinks) && Next(s, t, hardLinks)
    ensures Leads(from, t, hardLinks)
  {
    hide Next;
    var run :| IsPath(run, hardLinks) && run[0] == from && run[|run| - 1] == s;
    var longer := run + [t];
    assert forall i :: 0 <= i < |longer| - 1 ==> longer[i] == run[i];
    assert IsPath(longer, hardLinks) && longer[0] == from && longer[|longer| - 1] == t;
  }

  lemma LeadsOn(from: State, s: State, t: State, hardLinks: bool)
    requires Leads(from, s, hardLinks) && Leads(s, t, hardLinks)
    ensures Leads(from, t, hardLinks)
  {
    hide Next;
    var first :| IsPath(first, hardLinks) && first[0] == from && first[|first| - 1] == s;
    var second :| IsPath(second, hardLinks) && second[0] == s && second[|second| - 1] == t;
    var run := first + second[1..];
    forall i | 0 <= i < |run| - 1 ensures Next(run[i], run[i + 1], hardLinks) {
      if i + 1 < |first| {
        assert run[i] == first[i] && run[i + 1] == first[i + 1];
      } else {
        var j := i + 1 - |first|;
        assert run[i] == second[j] && run[i + 1] == second[j + 1];
      }
    }
    assert IsPath(run, hardLinks) && run[0] == from && run[|run| - 1] == t;
  }

  lemma MoveTo(from: State, s: State, t: State, c: Token, hardLinks: bool)
    requires Leads(from, s, hardLinks) && s.Lives(c) && Move(s, t, c, hardLinks)
    ensures Leads(from, t, hardLinks)
  {
    hide Move, Leads;
    Extend(from, s, t, hardLinks);
  }

  /** Nobody alive holds the recovery mutex. */
  predicate MutexFree(s: State) {
    s.recovery.None? || !s.Lives(s.recovery.value)
  }

  lemma MutexCanBeCleared(s: State, hardLinks: bool)
    requires MutexFree(s)
    ensures Leads(s, s.(recovery := None), hardLinks)
  {
    hide Leads;
    LeadsNowhere(s, hardLinks);
    if s.recovery.Some? {
      assert ClearStale(s, s.(recovery := None));
      Extend(s, s, s.(recovery := None), hardLinks);
    }
  }

  lemma Again(s: State, c: Token, a: Pc, b: Pc)
    ensures s.At(c, a).At(c, b) == s.At(c, b)
  {
  }

  lemma Back(s: State, c: Token, a: Pc)
    requires c in s.pc
    ensures s.At(c, a).At(c, s.pc[c]) == s
  {
    assert s.pc[c := a][c := s.pc[c]] == s.pc;
  }

  /** A waiting contender can take the recovery mutex over an aged directory without an owner and list it. */
  lemma OwnerlessCanBeGuarded(s: State, c: Token, hardLinks: bool)
    requires s.Lives(c) && s.pc[c].Idle? && s.Owner().None? && s.recovery.None?
    ensures Leads(s, s.At(c, Listing).(recovery := Some(c)), hardLinks)
  {
    hide Leads;
    LeadsNowhere(s, hardLinks);
    MoveTo(s, s, s.At(c, Observing), c, hardLinks);
    MoveTo(s, s.At(c, Observing), s.At(c, Judging(None)), c, hardLinks);
    MoveTo(s, s.At(c, Judging(None)), s.At(c, Judged(None)), c, hardLinks);
    MoveTo(s, s.At(c, Judged(None)), s.At(c, Guarded(None)).(recovery := Some(c)), c, hardLinks);
    MoveTo(s, s.At(c, Guarded(None)).(recovery := Some(c)), s.At(c, Listing).(recovery := Some(c)), c, hardLinks);
  }

  /** The leftovers of the listing go one by one. */
  lemma {:induction false} LeftoversCanBeSwept(s: State, c: Token, inode: nat, names: set<nat>, hardLinks: bool)
    requires s.Lives(c) && s.lock == Some(Dir(inode, None, names)) && s.pc[c] == Sweeping(inode, names)
    ensures Leads(s, s.At(c, Sweeping(inode, {})).(lock := Some(Dir(inode, None, {}))), hardLinks)
    decreases |names|
  {
    hide Leads;
    LeadsNowhere(s, hardLinks);
    if names == {} {
      assert s.pc[c := s.pc[c]] == s.pc && s.At(c, Sweeping(inode, {})).(lock := Some(Dir(inode, None, {}))) == s;
    } else {
      var name :| name in names;
      var t := s.WithoutTemp(name).At(c, Sweeping(inode, names - {name}));
      MoveTo(s, s, t, c, hardLinks);
      LeftoversCanBeSwept(t, c, inode, names - {name}, hardLinks);
      Again(s.(lock := Some(Dir(inode, None, {}))), c, Sweeping(inode, names - {name}), Sweeping(inode, {}));
      LeadsOn(s, t, s.At(c, Sweeping(inode, {})).(lock := Some(Dir(inode, None, {}))), hardLinks);
    }
  }

  lemma ListedCanBeSwept(s: State, c: Token, inode: nat, names: set<nat>, hardLinks: bool)
    requires s.Lives(c) && s.lock == Some(Dir(inode, None, names)) && s.pc[c].Listing?
    ensures Leads(s, s.At(c, Unguarding).(lock := None), hardLinks)
  {
    hide Leads;
    LeadsNowhere(s, hardLinks);
    var listed := s.At(c, Sweeping(inode, names));
    MoveTo(s, s, listed, c, hardLinks);
    LeftoversCanBeSwept(listed, c, inode, names, hardLinks);
    var empty := s.At(c, Sweeping(inode, {})).(lock := Some(Dir(inode, None, {})));
    Again(s.(lock := Some(Dir(inode, None, {}))), c, Sweeping(inode, names), Sweeping(inode, {}));
    LeadsOn(s, listed, empty, hardLinks);
    var swept := s.At(c, Swept).(lock := Some(Dir(inode, None, {})));
    MoveTo(s, empty, swept, c, hardLinks);
    MoveTo(s, swept, s.At(c, Unguarding).(lock := None), c, hardLinks);
  }

  /** A waiting contender can clear a directory without an owner, leftovers and all, even while its maker is alive. */
  lemma OwnerlessCanBeReaped(s: State, c: Token, hardLinks: bool)
    requires s.Lives(c) && s.pc[c].Idle? && s.lock.Some? && s.Owner().None? && MutexFree(s)
    ensures Leads(s, s.(lock := None, recovery := None), hardLinks)
  {
    hide Leads;
    var free := s.(recovery := None);
    MutexCanBeCleared(s, hardLinks);
    OwnerlessCanBeGuarded(free, c, hardLinks);
    var held := free.At(c, Listing).(recovery := Some(c));
    LeadsOn(s, free, held, hardLinks);
    ListedCanBeSwept(held, c, s.lock.value.inode, s.lock.value.temps, hardLinks);
    var swept := held.At(c, Unguarding).(lock := None);
    LeadsOn(s, held, swept, hardLinks);
    Back(free, c, Listing);
    Again(free.(recovery := Some(c), lock := None), c, Listing, Unguarding);
    Back(s.(lock := None, recovery := None), c, Unguarding);
    MoveTo(s, swept, s.(lock := None, recovery := None), c, hardLinks);
  }

  /** A waiting contender that finds the owner abandoned can take the recovery mutex ... */
  lemma AbandonedCanBeGuarded(s: State, c: Token, o: Token, hardLinks: bool)
    requires s.Lives(c) && s.pc[c].Idle? && s.Owner() == Some(o) && Abandoned(s, c, o) && s.recovery.None?
    ensures Leads(s, s.At(c, Guarded(Some(o))).(recovery := Some(c)), hardLinks)
  {
    hide Leads;
    LeadsNowhere(s, hardLinks);
    MoveTo(s, s, s.At(c, Observing), c, hardLinks);
    MoveTo(s, s.At(c, Observing), s.At(c, Judging(Some(o))), c, hardLinks);
    MoveTo(s, s.At(c, Judging(Some(o))), s.At(c, Judged(Some(o))), c, hardLinks);
    MoveTo(s, s.At(c, Judged(Some(o))), s.At(c, Guarded(Some(o))).(recovery := Some(c)), c, hardLinks);
  }

  lemma GuardedCanRemove(s: State, c: Token, o: Token, hardLinks: bool)
    requires s.Lives(c) && s.pc[c] == Guarded(Some(o)) && s.Owner() == Some(o) && Abandoned(s, c, o)
    ensures Leads(s, s.UnlinkOwner().Rmdir().At(c, Unguarding), hardLinks)
  {
    hide Leads;
    LeadsNowhere(s, hardLinks);
    MoveTo(s, s, s.At(c, Rechecked(o)), c, hardLinks);
    Again(s, c, Rechecked(o), Condemned(o));
    MoveTo(s, s.At(c, Rechecked(o)), s.At(c, Condemned(o)), c, hardLinks);
    Again(s.UnlinkOwner(), c, Condemned(o), Emptied);
    MoveTo(s, s.At(c, Condemned(o)), s.UnlinkOwner().At(c, Emptied), c, hardLinks);
    Again(s.UnlinkOwner().Rmdir(), c, Emptied, Unguarding);
    MoveTo(s, s.UnlinkOwner().At(c, Emptied), s.UnlinkOwner().Rmdir().At(c, Unguarding), c, hardLinks);
  }

  /** ... and remove its owner.json, and with nothing else in it the directory. */
  lemma AbandonedCanBeRemoved(s: State, c: Token, o: Token, hardLinks: bool)
    requires s.Lives(c) && s.pc[c].Idle? && s.Owner() == Some(o) && Abandoned(s, c, o) && MutexFree(s)
    ensures Leads(s, s.UnlinkOwner().Rmdir().(recovery := None), hardLinks)
  {
    hide Leads;
    var free := s.(recovery := None);
    MutexCanBeCleared(s, hardLinks);
    AbandonedCanBeGuarded(free, c, o, hardLinks);
    var guarded := free.At(c, Guarded(Some(o))).(recovery := Some(c));
    LeadsOn(s, free, guarded, hardLinks);
    GuardedCanRemove(guarded, c, o, hardLinks);
    var removed := guarded.UnlinkOwner().Rmdir().At(c, Unguarding);
    LeadsOn(s, guarded, removed, hardLinks);
    var done := s.UnlinkOwner().Rmdir().(recovery := None);
    assert removed.pc[c := Idle] == s.pc;
    MoveTo(s, removed, done, c, hardLinks);
  }

  /** A free lock can be taken. */
  lemma FreeCanBeTaken(s: State, c: Token, hardLinks: bool)
    requires s.Lives(c) && s.pc[c].Idle? && s.lock.None?
    ensures exists t :: Leads(s, t, hardLinks) && t.Lives(c) && t.pc[c].Held? && t.Owner() == Some(c)
  {
    hide Leads;
    LeadsNowhere(s, hardLinks);
    var n := s.nextId;
    var made := s.At(c, Made).(lock := Some(Dir(n, None, {})), nextId := n + 1);
    MoveTo(s, s, made, c, hardLinks);
    var noted := made.At(c, Noted).(active := s.active + {c});
    MoveTo(s, made, noted, c, hardLinks);
    var written := noted.At(c, Written(n + 1)).(lock := Some(Dir(n, None, {} + {n + 1})), nextId := n + 2);
    MoveTo(s, noted, written, c, hardLinks);
    assert {} + {n + 1} == {n + 1};
    Publishes(s, written, c, n, hardLinks);
  }

  lemma Publishes(from: State, s: State, c: Token, inode: nat, hardLinks: bool)
    requires Leads(from, s, hardLinks) && s.Lives(c) && s.lock == Some(Dir(inode, None, {inode + 1}))
             && s.pc[c] == Written(inode + 1)
    ensures exists t :: Leads(from, t, hardLinks) && t.Lives(c) && t.pc[c].Held? && t.Owner() == Some(c)
  {
    hide Leads;
    var linked := s.At(c, Linked(inode + 1)).(lock := Some(Dir(inode, Some(c), if hardLinks then {inode + 1} else {})));
    if hardLinks {
      MoveTo(from, s, linked, c, hardLinks);
    } else {
      MoveTo(from, s, s.At(c, Checked(inode + 1)), c, hardLinks);
      assert {inode + 1} - {inode + 1} == {};
      MoveTo(from, s.At(c, Checked(inode + 1)), linked, c, hardLinks);
    }
    var held := linked.At(c, Held);
    MoveTo(from, linked, held, c, hardLinks);
    assert held.Lives(c) && held.pc[c].Held? && held.Owner() == Some(c);
  }

  /** Whatever died, and whatever it left, a waiting contender can come to own a lock that nobody alive is using. */
  lemma AbandonedCanBeTaken(s: State, c: Token, hardLinks: bool)
    requires s.Lives(c) && s.pc[c].Idle? && MutexFree(s)
    requires s.Owner().Some? ==> Abandoned(s, c, s.Owner().value)
    ensures exists t :: Leads(s, t, hardLinks) && t.Lives(c) && t.pc[c].Held? && t.Owner() == Some(c)
  {
    hide Leads, Abandoned;
    LeadsNowhere(s, hardLinks);
    var cleared := s;
    if s.Owner().Some? {
      AbandonedCanBeRemoved(s, c, s.Owner().value, hardLinks);
      cleared := s.UnlinkOwner().Rmdir().(recovery := None);
    }
    assert Leads(s, cleared, hardLinks) && cleared.Owner().None? && MutexFree(cleared) && cleared.Lives(c)
           && cleared.pc[c].Idle?;
    if cleared.lock.Some? {
      OwnerlessCanBeReaped(cleared, c, hardLinks);
      LeadsOn(s, cleared, cleared.(lock := None, recovery := None), hardLinks);
      cleared := cleared.(lock := None, recovery := None);
    }
    FreeCanBeTaken(cleared, c, hardLinks);
    var t :| Leads(cleared, t, hardLinks) && t.Lives(c) && t.pc[c].Held? && t.Owner() == Some(c);
    LeadsOn(s, cleared, t, hardLinks);
  }

  // ---------------------------------------------------------------------------------------------
  // A stalled contender whose directory is reaped and remade, with and without hard links
  // ---------------------------------------------------------------------------------------------

  /** Contender 0 made directory 0 and stalled; contender 1 reaped it, made directory 1, and both wrote. */
  const STALLED := State(
    Some(Dir(1, None, {2, 3})), None,
    map[0 := Written(3), 1 := Written(2)], map[0 := 0, 1 := 1], {0, 1}, {0, 1}, 4)

  lemma StalledIsReachable(hardLinks: bool)
    ensures Leads(UNLOCKED, STALLED, hardLinks)
  {
    hide Leads;
    LeadsNowhere(UNLOCKED, hardLinks);
    var a := UNLOCKED.(pc := map[0 := Idle], home := map[0 := 0], alive := {0});
    assert Spawn(UNLOCKED, a, 0, 0);
    Extend(UNLOCKED, UNLOCKED, a, hardLinks);
    var b := a.(pc := map[0 := Idle, 1 := Idle], home := map[0 := 0, 1 := 1], alive := {0, 1});
    assert Spawn(a, b, 1, 1);
    Extend(UNLOCKED, a, b, hardLinks);
    var made := b.At(0, Made).(lock := Some(Dir(0, None, {})), nextId := 1);
    MoveTo(UNLOCKED, b, made, 0, hardLinks);
    var noted := made.At(0, Noted).(active := {0});
    MoveTo(UNLOCKED, made, noted, 0, hardLinks);
    OwnerlessCanBeReaped(noted, 1, hardLinks);
    LeadsOn(UNLOCKED, noted, noted.(lock := None), hardLinks);
    var again := noted.At(1, Made).(lock := Some(Dir(1, None, {})), nextId := 2);
    MoveTo(UNLOCKED, noted.(lock := None), again, 1, hardLinks);
    var both := again.At(1, Noted).(active := {0, 1});
    MoveTo(UNLOCKED, again, both, 1, hardLinks);
    var one := both.At(1, Written(2)).(lock := Some(Dir(1, None, {2})), nextId := 3);
    assert {} + {2} == {2} && {2} + {3} == {2, 3};
    MoveTo(UNLOCKED, both, one, 1, hardLinks);
    MoveTo(UNLOCKED, one, STALLED, 0, hardLinks);
  }

  /** With hard links the late contender's publish fails: it forgets its token and is back to waiting. */
  lemma StalledContenderRetries()
    ensures exists s :: Leads(UNLOCKED, s, true) && s.Lives(0) && s.pc[0].Observing? && 0 !in s.active
                        && s.Lives(1) && s.Owns(1) && s.Owner() == Some(1)
  {
    hide Leads;
    StalledIsReachable(true);
    var won := STALLED.At(1, Linked(2)).(lock := Some(Dir(1, Some(1), {2, 3})));
    MoveTo(UNLOCKED, STALLED, won, 1, true);
    MoveTo(UNLOCKED, won, won.At(0, Unlucky(3)), 0, true);
    var gone := won.At(0, Withdrawn(false)).(lock := Some(Dir(1, Some(1), {2})));
    assert {2, 3} - {3} == {2};
    MoveTo(UNLOCKED, won.At(0, Unlucky(3)), gone, 0, true);
    var waiting := gone.At(0, Observing).(active := {1});
    assert {0, 1} - {0} == {1};
    MoveTo(UNLOCKED, gone, waiting, 0, true);
    assert waiting.Lives(0) && waiting.pc[0].Observing? && waiting.Lives(1) && waiting.Owns(1)
           && waiting.Owner() == Some(1);
  }

  /** The rename fallback really is weaker: the same stall ends with two live owners. */
  lemma RenameFallbackAdmitsTwoOwners()
    ensures exists s :: Leads(UNLOCKED, s, false) && s.Lives(0) && s.Owns(0) && s.Lives(1) && s.Owns(1)
  {
    hide Leads;
    StalledIsReachable(false);
    var looked := STALLED.At(0, Checked(3));
    MoveTo(UNLOCKED, STALLED, looked, 0, false);
    var both := looked.At(1, Checked(2));
    MoveTo(UNLOCKED, looked, both, 1, false);
    var won := both.At(1, Linked(2)).(lock := Some(Dir(1, Some(1), {3})));
    assert {2, 3} - {2} == {3} && {3} - {3} == {};
    MoveTo(UNLOCKED, both, won, 1, false);
    var two := won.At(0, Linked(3)).(lock := Some(Dir(1, Some(0), {})));
    MoveTo(UNLOCKED, won, two, 0, false);
    assert two.Lives(0) && two.Owns(0) && two.Lives(1) && two.Owns(1);
  }
}
