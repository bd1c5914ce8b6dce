/** What an index run parses, what it carries over, what it publishes. */
module Refresh {
  import opened Prelude
  import opened Ordering
  import opened GraphFacts
  import opened Projection
  import opened Merge

  datatype Snapshot =
    Snapshot(root: string, fingerprint: string, extraction: Option<string>, files: seq<FileEntry>, facts: Facts)

  datatype Diff = Diff(added: seq<string>, changed: seq<string>, deleted: seq<string>, same: seq<string>)

  /** Walked files come once each. */
  predicate UniquePaths(files: seq<FileEntry>) {
    forall i, j :: 0 <= i < j < |files| ==> files[i].path != files[j].path
  }

  function Paths(files: seq<FileEntry>): (paths: seq<string>)
    ensures |paths| == |files| && forall i :: 0 <= i < |files| ==> paths[i] == files[i].path
  {
    seq(|files|, i requires 0 <= i < |files| => files[i].path)
  }

  /** The hashes of a snapshot's files, by path. */
  ghost predicate HashesAre(before: map<string, string>, files: seq<FileEntry>) {
    (forall p :: p in before <==> p in Paths(files))
    && forall f :: f in files ==> f.path in before && before[f.path] == f.hash
  }

  method HashesOf(files: seq<FileEntry>) returns (hashes: map<string, string>)
    requires UniquePaths(files)
    ensures HashesAre(hashes, files)
  {
    hashes := map[];
    for i := 0 to |files|
      invariant forall path :: path in hashes <==> exists j :: 0 <= j < i && files[j].path == path
      invariant forall j :: 0 <= j < i ==> files[j].path in hashes && hashes[files[j].path] == files[j].hash
    {
      hashes := hashes[files[i].path := files[i].hash];
    }
    forall path ensures path in hashes <==> path in Paths(files) {
      if path in hashes {
        var j :| 0 <= j < |files| && files[j].path == path;
        assert Paths(files)[j] == path;
      }
    }
  }

  /** The file is there now as it was before. */
  predicate Same(files: seq<FileEntry>, before: map<string, string>, path: string) {
    exists i :: 0 <= i < |files| && files[i].path == path && path in before && before[path] == files[i].hash
  }

  predicate Moved(files: seq<FileEntry>, before: map<string, string>, path: string) {
    exists i :: 0 <= i < |files| && files[i].path == path && path in before && before[path] != files[i].hash
  }

  predicate New(files: seq<FileEntry>, before: map<string, string>, path: string) {
    exists i :: 0 <= i < |files| && files[i].path == path && path !in before
  }

  method DiffFiles(files: seq<FileEntry>, before: map<string, string>) returns (diff: Diff)
    ensures forall path :: path in diff.same <==> Same(files, before, path)
    ensures forall path :: path in diff.changed <==> Moved(files, before, path)
    ensures forall path :: path in diff.added <==> New(files, before, path)
    ensures forall path :: path in diff.deleted <==> path in before && path !in Paths(files)
    ensures IsSorted(diff.added, NotAfter) && IsSorted(diff.changed, NotAfter)
    ensures IsSorted(diff.deleted, NotAfter) && IsSorted(diff.same, NotAfter)
  {
    hide NotAfter;
    var added: seq<string>, changed: seq<string>, same: seq<string>, seen: set<string> := [], [], [], {};
    for i := 0 to |files|
      invariant forall path :: path in seen <==> exists j :: 0 <= j < i && files[j].path == path
      invariant forall path :: path in same <==>
                  exists j :: 0 <= j < i && files[j].path == path && path in before && before[path] == files[j].hash
      invariant forall path :: path in changed <==>
                  exists j :: 0 <= j < i && files[j].path == path && path in before && before[path] != files[j].hash
      invariant forall path :: path in added <==> exists j :: 0 <= j < i && files[j].path == path && path !in before
    {
      var f := files[i];
      seen := seen + {f.path};
      if f.path !in before {
        added := added + [f.path];
      } else if before[f.path] == f.hash {
        same := same + [f.path];
      } else {
        changed := changed + [f.path];
      }
    }
    var deleted := SortedSet(before.Keys - seen);
    var a := SortStrings(added);
    var c := SortStrings(changed);
    var u := SortStrings(same);
    SameElements(a, added);
    SameElements(c, changed);
    SameElements(u, same);
    SeenPaths(files, seen);
    diff := Diff(a, c, deleted, u);
  }

  lemma SeenPaths(files: seq<FileEntry>, seen: set<string>)
    requires forall path :: path in seen <==> exists j :: 0 <= j < |files| && files[j].path == path
    ensures forall path :: path in seen <==> path in Paths(files)
  {
    forall path ensures path in seen <==> path in Paths(files) {
      if path in seen {
        var j :| 0 <= j < |files| && files[j].path == path;
        assert Paths(files)[j] == path;
      }
    }
  }

  function Slashes(module_: string): string {
    if module_ == "" then "" else (if module_[0] == '.' then "/" else [module_[0]]) + Slashes(module_[1..])
  }

  /** An added Python file that an import of this module may now resolve to. */
  predicate Provides(path: string, suffix: string) {
    || path == suffix + ".py" || EndsWith(path, "/" + suffix + ".py")
    || path == suffix + "/__init__.py" || EndsWith(path, "/" + suffix + "/__init__.py")
  }

  /** The text after the prefix of a module outside the repository. */
  function ModuleOf(r: Relation): string {
    if |r.target| < |EXTERNAL_PREFIX| then "" else r.target[|EXTERNAL_PREFIX|..]
  }

  predicate MayResolve(r: Relation, path: string) {
    r.kind.External? && EndsWith(path, ".py") && Provides(path, Slashes(ModuleOf(r)))
  }

  predicate MayResolveNow(r: Relation, added: seq<string>) {
    exists i :: 0 <= i < |added| && MayResolve(r, added[i])
  }

  /** The seeds of an incremental refresh. */
  predicate Seed(diff: Diff, previous: Option<Projection>, path: string) {
    || path in diff.added || path in diff.changed || path in diff.deleted
    || (diff.added != [] && previous.Some?
        && (UnresolvedIn(previous.value.unknowns, path)
            || exists r :: r in previous.value.relations && MayResolveNow(r, diff.added) && r.path == path))
  }

  predicate UnresolvedIn(unknowns: seq<Unknown>, path: string) {
    exists u :: u in unknowns && u.kind.UnresolvedImport? && u.path == path
  }

  method ParseSet(diff: Diff, previous: Option<Projection>) returns (seeds: seq<string>)
    ensures IsSorted(seeds, NotAfter) && Distinct(seeds) && forall path :: path in seeds <==> Seed(diff, previous, path)
  {
    hide NotAfter, MayResolveNow;
    var list := diff.added + diff.changed + diff.deleted;
    if diff.added != [] && previous.Some? {
      var unknowns, relations := previous.value.unknowns, previous.value.relations;
      for i := 0 to |unknowns|
        invariant forall path :: path in list <==>
                    path in diff.added || path in diff.changed || path in diff.deleted
                        || UnresolvedIn(unknowns[..i], path)
      {
        assert unknowns[..i + 1] == unknowns[..i] + [unknowns[i]];
        if unknowns[i].kind.UnresolvedImport? {
          list := list + [unknowns[i].path];
        }
      }
      assert unknowns[..|unknowns|] == unknowns;
      for i := 0 to |relations|
        invariant forall path :: path in list <==>
                    || path in diff.added || path in diff.changed || path in diff.deleted
                        || UnresolvedIn(unknowns, path)
                    || exists r :: r in relations[..i] && MayResolveNow(r, diff.added) && r.path == path
      {
        assert relations[..i + 1] == relations[..i] + [relations[i]];
        if MayResolveNow(relations[i], diff.added) {
          list := list + [relations[i].path];
        }
      }
      assert relations[..|relations|] == relations;
    }
    var _, files := Dedupe(list);
    seeds := SortedSet(files);
  }

  // ---------------------------------------------------------------------------------------------
  // The plan
  // ---------------------------------------------------------------------------------------------

  datatype Mode = Full | Incremental

  datatype Plan = NoChange | Parse(reparse: set<string>, reusable: set<string>)

  function ProjectionOf(s: Snapshot): Projection {
    Projection(s.facts.relations, Paths(s.files), s.facts.unknowns)
  }

  /** The snapshot a run may build on: an incremental run's, when it belongs to this checkout. */
  function Baseline(mode: Mode, head: Option<Snapshot>, root: string): Option<Snapshot> {
    if mode.Incremental? && head.Some? && head.value.root == root then head else None
  }

  /** The file is there now as it was in the snapshot. */
  predicate Unmoved(files: seq<FileEntry>, earlier: seq<FileEntry>, path: string) {
    exists f, g :: f in files && g in earlier && f.path == path && g.path == path && f.hash == g.hash
  }

  predicate Added(files: seq<FileEntry>, earlier: seq<FileEntry>, path: string) {
    path in Paths(files) && path !in Paths(earlier)
  }

  /** Added, changed or deleted. */
  predicate Touched(files: seq<FileEntry>, earlier: seq<FileEntry>, path: string) {
    (path in Paths(files) || path in Paths(earlier)) && !Unmoved(files, earlier, path)
  }

  /** Touched, or the source of an import that may resolve now that a file was added. */
  ghost predicate IsSeed(files: seq<FileEntry>, s: Snapshot, path: string) {
    || Touched(files, s.files, path)
    || ((exists q :: Added(files, s.files, q)) && UnresolvedIn(s.facts.unknowns, path))
    || exists r, q :: r in s.facts.relations && Added(files, s.files, q) && MayResolve(r, q) && r.path == path
  }

  ghost predicate Unchanged(files: seq<FileEntry>, s: Snapshot, fingerprint: string, extraction: string) {
    s.extraction == Some(extraction) && s.fingerprint == fingerprint && forall path :: !Touched(files, s.files, path)
  }

  /** What is parsed again: the refresh set of the seeds, or of every file when extraction itself changed. */
  ghost predicate Reparses(files: seq<FileEntry>, s: Snapshot, extraction: string, reparse: set<string>) {
    exists seeds: seq<string> :: IsRefreshSet(s.facts.relations, seeds, reparse) && SeedsOf(files, s, extraction, seeds)
  }

  ghost predicate SeedsOf(files: seq<FileEntry>, s: Snapshot, extraction: string, seeds: seq<string>) {
    forall path :: path in seeds <==> if s.extraction == Some(extraction) then IsSeed(files, s, path)
           else path in Paths(files)
  }

  function Current(files: seq<FileEntry>): (paths: set<string>)
    ensures forall path :: path in paths <==> path in Paths(files)
  {
    set path | path in Paths(files)
  }

  /** The plan of a run: nothing to do, or what to parse again and what to carry over. */
  ghost predicate IsPlan(files: seq<FileEntry>, baseline: Option<Snapshot>, fingerprint: string, extraction: string,
                         plan: Plan) {
    if baseline.None? then plan == Parse(Current(files), {})
    else if Unchanged(files, baseline.value, fingerprint, extraction) then plan == NoChange
    else
      && plan.Parse? && Reparses(files, baseline.value, extraction, plan.reparse)
      && forall path :: path in plan.reusable <==> Unmoved(files, baseline.value.files, path) && path !in plan.reparse
  }

  /** A run has one plan. */
  lemma PlanIsOne(files: seq<FileEntry>, baseline: Option<Snapshot>, fingerprint: string, extraction: string,
                  plan: Plan, other: Plan)
    requires IsPlan(files, baseline, fingerprint, extraction, plan)
             && IsPlan(files, baseline, fingerprint, extraction, other)
    ensures plan == other
  {
    hide Unchanged, Unmoved, IsRefreshSet, SeedsOf;
    if plan.Parse? && baseline.Some? {
      var s := baseline.value;
      var seeds: seq<string> :| IsRefreshSet(s.facts.relations, seeds, plan.reparse)
          && SeedsOf(files, s, extraction, seeds);
      var more: seq<string> :| IsRefreshSet(s.facts.relations, more, other.reparse)
          && SeedsOf(files, s, extraction, more);
      SameSeeds(files, s, extraction, seeds, more);
      RefreshSetIsOne(s.facts.relations, seeds, more, plan.reparse, other.reparse);
      assert plan.reusable == other.reusable;
    }
  }

  lemma SameSeeds(files: seq<FileEntry>, s: Snapshot, extraction: string, seeds: seq<string>, more: seq<string>)
    requires SeedsOf(files, s, extraction, seeds) && SeedsOf(files, s, extraction, more)
    ensures forall path :: path in seeds <==> path in more
  {
    hide IsSeed;
  }

  /** A chain of imports the relations draw, whether or not the file graph has all of them. */
  ghost predicate DrawnChain(relations: seq<Relation>, chain: seq<string>) {
    && |chain| >= 2
    && (forall i, j :: 0 <= i < j < |chain| && j == i + 1 ==>
          FileEdge(chain[i], chain[j]) in EdgesOf(relations, Imports))
    && (forall i, j :: 1 <= i < j < |chain| && j == i + 1 ==> Reexports(relations, chain[i], chain[j]))
  }

  /**
   * What every plan keeps to: a current file is parsed or carried over, never both; what is
   * carried over is as it was, and no chain of imports leads from it to a touched file.
   */
  ghost predicate Sound(files: seq<FileEntry>, baseline: Option<Snapshot>, plan: Plan) {
    plan.Parse? ==>
      && (forall path :: path in Paths(files) ==> (path in plan.reparse) != (path in plan.reusable))
      && (forall path :: path in plan.reusable ==>
            baseline.Some? && path in Paths(files) && Unmoved(files, baseline.value.files, path))
      && (baseline.Some? ==>
            forall chain ::
              ImportChain(baseline.value.facts.relations, chain)
              && Touched(files, baseline.value.files, chain[|chain| - 1]) ==>
              chain[0] !in plan.reusable)
  }

  lemma InPaths(files: seq<FileEntry>, path: string)
    ensures path in Paths(files) <==> exists f :: f in files && f.path == path
  {
    if path in Paths(files) {
      var i :| 0 <= i < |files| && Paths(files)[i] == path;
      assert files[i] in files;
    }
    if f :| f in files && f.path == path {
      var i :| 0 <= i < |files| && files[i] == f;
      assert Paths(files)[i] == path;
    }
  }

  lemma UnmovedIsCurrent(files: seq<FileEntry>, earlier: seq<FileEntry>, path: string)
    requires Unmoved(files, earlier, path)
    ensures path in Paths(files) && path in Paths(earlier)
  {
    InPaths(files, path);
    InPaths(earlier, path);
  }

  lemma TouchedAreSeeds(files: seq<FileEntry>, s: Snapshot, extraction: string, seeds: seq<string>, path: string)
    requires SeedsOf(files, s, extraction, seeds) && Touched(files, s.files, path)
    ensures path in seeds || (s.extraction != Some(extraction) && path !in Paths(files))
  {
    hide Touched, UnresolvedIn, MayResolve, Added;
  }

  /** The plan of a run is sound. */
  lemma PlanIsSound(files: seq<FileEntry>, baseline: Option<Snapshot>, fingerprint: string, extraction: string,
                    plan: Plan)
    requires IsPlan(files, baseline, fingerprint, extraction, plan)
    ensures Sound(files, baseline, plan)
  {
    hide Unchanged, Unmoved, IsRefreshSet, SeedsOf, IsSeed, Reexports, RecordedEdges;
    if plan.Parse? && baseline.Some? {
      var s := baseline.value;
      var seeds: seq<string> :| IsRefreshSet(s.facts.relations, seeds, plan.reparse)
          && SeedsOf(files, s, extraction, seeds);
      SeedsSelected(s.facts.relations, seeds, plan.reparse);
      forall path | path in plan.reusable ensures path in Paths(files) {
        UnmovedIsCurrent(files, s.files, path);
      }
      forall path | path in Paths(files) ensures (path in plan.reparse) != (path in plan.reusable) {
        if !Unmoved(files, s.files, path) {
          TouchedAreSeeds(files, s, extraction, seeds, path);
        }
      }
      forall chain | ImportChain(s.facts.relations, chain) && Touched(files, s.files, chain[|chain| - 1])
        ensures chain[0] !in plan.reusable {
        TouchedAreSeeds(files, s, extraction, seeds, chain[|chain| - 1]);
        if chain[|chain| - 1] in seeds {
          ChainIsSelected(s.facts.relations, seeds, plan.reparse, chain);
        } else {
          EveryFileParsed(files, s, extraction, seeds, chain[0], plan);
        }
      }
    }
  }

  lemma EveryFileParsed(files: seq<FileEntry>, s: Snapshot, extraction: string, seeds: seq<string>, path: string,
                        plan: Plan)
    requires SeedsOf(files, s, extraction, seeds) && s.extraction != Some(extraction) && plan.Parse?
    requires (forall p :: p in seeds ==> p in plan.reparse)
             && (path in plan.reusable ==> Unmoved(files, s.files, path) && path !in plan.reparse)
    ensures path !in plan.reusable
  {
    hide Unmoved;
    if path in plan.reusable {
      UnmovedIsCurrent(files, s.files, path);
    }
  }

  /**
   * Without two imports that share a key, no chain of drawn imports leads from a file carried over to a touched one.
   */
  lemma DrawnChainsAreSound(files: seq<FileEntry>, s: Snapshot, plan: Plan, chain: seq<string>)
    requires Sound(files, Some(s), plan) && plan.Parse? && DistinctKeys(EdgesOf(s.facts.relations, Imports))
    requires DrawnChain(s.facts.relations, chain) && Touched(files, s.files, chain[|chain| - 1])
    ensures chain[0] !in plan.reusable
  {
    hide Touched, Unmoved, Reexports, EdgesOf, RecordedEdges;
    DistinctAreRecorded(s.facts.relations, Imports);
  }

  // How the code's maps and lists say the same.

  lemma SameIsUnmoved(files: seq<FileEntry>, earlier: seq<FileEntry>, before: map<string, string>, path: string)
    requires UniquePaths(files) && UniquePaths(earlier) && HashesAre(before, earlier)
    ensures Same(files, before, path) <==> Unmoved(files, earlier, path)
  {
    if Same(files, before, path) {
      var i :| 0 <= i < |files| && files[i].path == path && path in before && before[path] == files[i].hash;
      InPaths(earlier, path);
      var g :| g in earlier && g.path == path;
      assert files[i] in files && files[i].hash == g.hash;
    }
    if Unmoved(files, earlier, path) {
      var f, g :| f in files && g in earlier && f.path == path && g.path == path && f.hash == g.hash;
      var i :| 0 <= i < |files| && files[i] == f;
      assert files[i].path == path && before[path] == files[i].hash;
    }
  }

  lemma NewIsAdded(files: seq<FileEntry>, earlier: seq<FileEntry>, before: map<string, string>, path: string)
    requires HashesAre(before, earlier)
    ensures New(files, before, path) <==> Added(files, earlier, path)
  {
    InPaths(files, path);
    if Added(files, earlier, path) {
      var f :| f in files && f.path == path;
      var i :| 0 <= i < |files| && files[i] == f;
    }
    if New(files, before, path) {
      var i :| 0 <= i < |files| && files[i].path == path && path !in before;
      assert files[i] in files;
    }
  }

  lemma MovedIsTouched(files: seq<FileEntry>, earlier: seq<FileEntry>, before: map<string, string>, path: string)
    requires UniquePaths(files) && UniquePaths(earlier) && HashesAre(before, earlier)
    ensures Moved(files, before, path) <==>
              Touched(files, earlier, path) && path in Paths(files) && path in Paths(earlier)
  {
    SameIsUnmoved(files, earlier, before, path);
    InPaths(files, path);
    if path in Paths(files) && path in Paths(earlier) {
      var f :| f in files && f.path == path;
      var i :| 0 <= i < |files| && files[i] == f;
      assert before[path] == f.hash || before[path] != f.hash;
    }
    if Moved(files, before, path) {
      var i :| 0 <= i < |files| && files[i].path == path && path in before && before[path] != files[i].hash;
      assert files[i] in files;
    }
  }

  /** The lists of a diff hold exactly the added, changed, deleted and unmoved files. */
  ghost predicate DiffIs(files: seq<FileEntry>, earlier: seq<FileEntry>, diff: Diff) {
    && (forall path :: path in diff.same <==> Unmoved(files, earlier, path))
    && (forall path :: path in diff.added <==> Added(files, earlier, path))
    && (forall path ::
          path in diff.added || path in diff.changed || path in diff.deleted <==> Touched(files, earlier, path))
  }

  lemma DiffSays(files: seq<FileEntry>, earlier: seq<FileEntry>, before: map<string, string>, diff: Diff)
    requires UniquePaths(files) && UniquePaths(earlier) && HashesAre(before, earlier)
    requires forall path :: path in diff.same <==> Same(files, before, path)
    requires forall path :: path in diff.changed <==> Moved(files, before, path)
    requires forall path :: path in diff.added <==> New(files, before, path)
    requires forall path :: path in diff.deleted <==> path in before && path !in Paths(files)
    ensures DiffIs(files, earlier, diff)
  {
    hide Same, Moved, New, Unmoved, UniquePaths;
    forall path ensures path in diff.same <==> Unmoved(files, earlier, path) {
      SameIsUnmoved(files, earlier, before, path);
    }
    forall path ensures path in diff.added <==> Added(files, earlier, path) {
      NewIsAdded(files, earlier, before, path);
    }
    forall path ensures path in diff.added || path in diff.changed || path in diff.deleted
           <==> Touched(files, earlier, path) {
      NewIsAdded(files, earlier, before, path);
      MovedIsTouched(files, earlier, before, path);
      if Unmoved(files, earlier, path) {
        UnmovedIsCurrent(files, earlier, path);
      }
    }
  }

  lemma SeedIs(files: seq<FileEntry>, s: Snapshot, diff: Diff, path: string)
    requires DiffIs(files, s.files, diff)
    ensures Seed(diff, Some(ProjectionOf(s)), path) <==> IsSeed(files, s, path)
  {
    hide Touched, Unmoved, Added, MayResolve, UnresolvedIn;
    assert diff.added != [] <==> exists q :: Added(files, s.files, q) by {
      if diff.added != [] {
        assert Added(files, s.files, diff.added[0]);
      }
    }
    forall r ensures MayResolveNow(r, diff.added) <==> exists q :: Added(files, s.files, q) && MayResolve(r, q) {
      if MayResolveNow(r, diff.added) {
        var i :| 0 <= i < |diff.added| && MayResolve(r, diff.added[i]);
        assert Added(files, s.files, diff.added[i]);
      }
      if q :| Added(files, s.files, q) && MayResolve(r, q) {
        var i :| 0 <= i < |diff.added| && diff.added[i] == q;
      }
    }
  }

  /** Which files an index run parses and which it carries over. */
  method PlanRun(files: seq<FileEntry>, head: Option<Snapshot>, root: string, mode: Mode, fingerprint: string,
                 extraction: string)
    returns (plan: Plan)
    requires UniquePaths(files) && (head.Some? ==> UniquePaths(head.value.files))
    ensures IsPlan(files, Baseline(mode, head, root), fingerprint, extraction, plan)
    ensures plan.NoChange? <==>
              Baseline(mode, head, root).Some?
                  && Unchanged(files, Baseline(mode, head, root).value, fingerprint, extraction)
    ensures Sound(files, Baseline(mode, head, root), plan)
  {
    hide Same, Moved, New, Touched, Unmoved, Added, IsRefreshSet, IsSeed, Seed, IsSorted, Distinct, NotAfter, Sound,
         UniquePaths;
    var previous := Baseline(mode, head, root);
    if previous.None? {
      plan := Parse(Current(files), {});
      PlanIsSound(files, previous, fingerprint, extraction, plan);
      return;
    }
    var s := previous.value;
    var before := HashesOf(s.files);
    var diff := DiffFiles(files, before);
    DiffSays(files, s.files, before, diff);
    var extractionChanged := s.extraction != Some(extraction);
    if !extractionChanged && diff.added == [] && diff.changed == [] && diff.deleted == []
       && s.fingerprint == fingerprint {
      plan := NoChange;
      PlanIsSound(files, previous, fingerprint, extraction, plan);
      return;
    }
    assert !Unchanged(files, s, fingerprint, extraction) by { SomethingTouched(files, s, diff); }
    var seeds := Paths(files);
    if !extractionChanged {
      seeds := ParseSet(diff, Some(ProjectionOf(s)));
      forall path ensures path in seeds <==> IsSeed(files, s, path) {
        SeedIs(files, s, diff, path);
      }
    }
    var list := RefreshDependencySet(ProjectionOf(s), seeds);
    var reparse := set path | path in list;
    var reusable := set path | path in diff.same && path !in reparse;
    plan := Parse(reparse, reusable);
    assert Reparses(files, s, extraction, reparse) by { assert SeedsOf(files, s, extraction, seeds); }
    PlanIsSound(files, previous, fingerprint, extraction, plan);
  }

  lemma SomethingTouched(files: seq<FileEntry>, s: Snapshot, diff: Diff)
    requires DiffIs(files, s.files, diff)
    ensures diff.added == [] && diff.changed == [] && diff.deleted == [] <==>
              forall path :: !Touched(files, s.files, path)
  {
    hide Touched, Unmoved, Added;
    if diff.added != [] {
      assert Touched(files, s.files, diff.added[0]);
    } else if diff.changed != [] {
      assert Touched(files, s.files, diff.changed[0]);
    } else if diff.deleted != [] {
      assert Touched(files, s.files, diff.deleted[0]);
    }
  }

  // ---------------------------------------------------------------------------------------------
  // The run
  // ---------------------------------------------------------------------------------------------

  /** Entities and relations of these files only, each relation filed under its source's file. */
  predicate FactsOf(facts: Facts, files: set<string>) {
    && (forall e :: e in facts.entities ==> e.path in files)
    && (forall r :: r in facts.relations ==> r.path in files)
  }

  /**
   * Gaps of these files, or reported by extraction: it does so for files that were skipped and
   * for configuration it cannot read, too.
   */
  predicate GapsOf(facts: Facts, reported: seq<Unknown>, files: set<string>) {
    forall u :: u in facts.unknowns ==> u in reported || u.path in files
  }

  /** What a run has at hand: the facts it parses and those of the files it reuses. */
  function Gathered(parsed: Facts, baseline: Option<Snapshot>, reusable: set<string>): Facts {
    Joined(parsed, Reused(if baseline.Some? then Some(baseline.value.facts) else None, reusable))
  }

  /**
   * What is published of the facts at hand: of the entities with one id the first, of the relations
   * those with both ends, and the gaps with one more for every relation dropped from a current file.
   */
  ghost predicate Publishes(files: seq<FileEntry>, all: Facts, facts: Facts) {
    && (forall e :: e in facts.entities <==> FirstWithId(all.entities, e)) && Ids(facts.entities) == Ids(all.entities)
    && (forall r :: r in facts.relations <==> r in all.relations && IsLive(r, Ids(facts.entities)))
    && Reports(facts.unknowns, Gaps(all, Current(files)))
  }

  /**
   * One run: nothing when nothing changed; else what its plan says is parsed, restricted
   * to the files there are, and what it carries over is merged and published.
   */
  method WithStore(files: seq<FileEntry>, head: Option<Snapshot>, root: string, mode: Mode, fingerprint: string,
                   extraction: string,
                   extract: set<string> -> Facts)
    returns (published: Option<Merged>, ghost plan: Plan)
    requires UniquePaths(files) && (head.Some? ==> UniquePaths(head.value.files))
    ensures IsPlan(files, Baseline(mode, head, root), fingerprint, extraction, plan)
    ensures Sound(files, Baseline(mode, head, root), plan)
    ensures published.None? <==> plan.NoChange?
    ensures published.None? <==>
              Baseline(mode, head, root).Some?
                  && Unchanged(files, Baseline(mode, head, root).value, fingerprint, extraction)
    ensures published.Some? ==>
              var given := plan.reparse * Current(files);
              var parsed, facts := extract(given), published.value.facts;
              && Publishes(files, Gathered(parsed, Baseline(mode, head, root), plan.reusable), facts)
              && GapsOf(facts, parsed.unknowns, Current(files))
              && (FactsOf(parsed, given) ==> FactsOf(facts, Current(files)))
  {
    hide *;
    var chosen := PlanRun(files, head, root, mode, fingerprint, extraction);
    plan := chosen;
    published := None;
    if chosen.NoChange? {
      return;
    }
    var previous := Baseline(mode, head, root);
    var live := Current(files);
    var parsed := extract(chosen.reparse * live);
    GatheredIsCurrent(files, previous, chosen, parsed);
    var merged := MergeRun(files, parsed, previous, chosen.reusable);
    published := Some(merged);
  }

  method MergeRun(files: seq<FileEntry>, parsed: Facts, baseline: Option<Snapshot>, reusable: set<string>)
    returns (merged: Merged)
    ensures Publishes(files, Gathered(parsed, baseline, reusable), merged.facts)
    ensures GapsOf(Gathered(parsed, baseline, reusable), parsed.unknowns, Current(files)) ==>
              GapsOf(merged.facts, parsed.unknowns, Current(files))
    ensures FactsOf(Gathered(parsed, baseline, reusable), Current(files)) ==> FactsOf(merged.facts, Current(files))
  {
    hide *;
    var carried := if baseline.Some? then Some(baseline.value.facts) else None;
    GatheredIs(parsed, baseline, reusable);
    ghost var all;
    merged, all := MergeFacts(parsed, carried, reusable, Current(files));
    IsPublished(files, all, merged.facts);
    MergedIsCurrent(files, all, merged.facts, parsed.unknowns);
  }

  lemma GatheredIs(parsed: Facts, baseline: Option<Snapshot>, reusable: set<string>)
    ensures Gathered(parsed, baseline, reusable)
            == Joined(parsed, Reused(if baseline.Some? then Some(baseline.value.facts) else None, reusable))
  {
    hide Joined, Reused;
  }

  lemma GatheredIsCurrent(files: seq<FileEntry>, baseline: Option<Snapshot>, plan: Plan, parsed: Facts)
    requires Sound(files, baseline, plan) && plan.Parse?
    ensures var all := Gathered(parsed, baseline, plan.reusable);
            && GapsOf(all, parsed.unknowns, Current(files))
            && (FactsOf(parsed, plan.reparse * Current(files)) ==> FactsOf(all, Current(files)))
  {
    hide Unmoved, Touched, ImportChain;
  }

  lemma IsPublished(files: seq<FileEntry>, all: Facts, facts: Facts)
    requires (forall e :: e in facts.entities <==> FirstWithId(all.entities, e))
             && Ids(facts.entities) == Ids(all.entities)
    requires forall r :: r in facts.relations <==> r in all.relations && IsLive(r, Ids(facts.entities))
    requires Reports(facts.unknowns, Gaps(all, Current(files)))
    ensures Publishes(files, all, facts)
  {
    hide IsLive, Gaps, Reports, FirstWithId, Ids;
  }

  lemma MergedIsCurrent(files: seq<FileEntry>, all: Facts, facts: Facts, reported: seq<Unknown>)
    requires Publishes(files, all, facts)
    ensures GapsOf(all, reported, Current(files)) ==> GapsOf(facts, reported, Current(files))
    ensures FactsOf(all, Current(files)) ==> FactsOf(facts, Current(files))
  {
    hide IsLive, Gaps, Reports, FirstWithId, Ids;
    var current := Current(files);
    forall e | e in facts.entities ensures e in all.entities {
      FirstIsThere(all.entities, e);
    }
    forall u | u in facts.unknowns ensures u in all.unknowns || u.path in current {
      GapIsCurrent(all, facts.unknowns, current, u);
    }
  }

  lemma FirstIsThere(entities: seq<Entity>, e: Entity)
    requires FirstWithId(entities, e)
    ensures e in entities
  {
  }

  lemma GapIsCurrent(all: Facts, unknowns: seq<Unknown>, current: set<string>, u: Unknown)
    requires Reports(unknowns, Gaps(all, current)) && u in unknowns
    ensures u in all.unknowns || u.path in current
  {
    hide IsLive, UnknownKey, TellApart, RelationText;
  }

  /**
   * A published fact that was not parsed now comes from an unmoved
   * file that is not parsed again, as it was in the snapshot.
   */
  lemma CarriedFacts(files: seq<FileEntry>, baseline: Option<Snapshot>, plan: Plan, parsed: Facts, facts: Facts)
    requires Sound(files, baseline, plan) && plan.Parse?
             && Publishes(files, Gathered(parsed, baseline, plan.reusable), facts)
    ensures forall e :: e in facts.entities && e !in parsed.entities ==>
              && baseline.Some? && e in baseline.value.facts.entities
              && e.path in plan.reusable && e.path !in plan.reparse && Unmoved(files, baseline.value.files, e.path)
    ensures forall r :: r in facts.relations && r !in parsed.relations ==>
              && baseline.Some? && r in baseline.value.facts.relations
              && r.path in plan.reusable && r.path !in plan.reparse && Unmoved(files, baseline.value.files, r.path)
  {
    hide Unmoved, Touched, ImportChain, IsLive, Reports, Gaps, FactsOf;
    var all := Gathered(parsed, baseline, plan.reusable);
    forall e | e in facts.entities ensures e in all.entities {
      assert FirstWithId(all.entities, e);
    }
  }
}
