/** The file graph: its edges, what a refresh parses again, and distances. */
module Projection {
  import opened Prelude
  import opened Ordering
  import opened GraphFacts

  datatype FileEdge = FileEdge(from: string, to: string)

  // ---------------------------------------------------------------------------------------------
  // File edges
  // ---------------------------------------------------------------------------------------------

  /** The edge a relation draws between two different files of the repository. */
  function EdgeOf(r: Relation): Option<FileEdge> {
    if r.kind.External? || IsExternal(r.target) || PathOf(r.source) == PathOf(r.target) then None
    else Some(FileEdge(PathOf(r.source), PathOf(r.target)))
  }

  /** The relation is of the kind and draws the edge. */
  predicate Draws(r: Relation, kind: RelationKind, e: FileEdge) {
    r.kind == kind && EdgeOf(r) == Some(e)
  }

  ghost predicate HasEdge(relations: seq<Relation>, kind: RelationKind, e: FileEdge) {
    exists i :: 0 <= i < |relations| && Draws(relations[i], kind, e)
  }

  ghost function EdgesOf(relations: seq<Relation>, kind: RelationKind): iset<FileEdge> {
    iset e | HasEdge(relations, kind, e)
  }

  function Key(e: FileEdge): string {
    e.from + [' '] + e.to
  }

  /** The edge is drawn, and no later relation of the kind draws another one with its key. */
  ghost predicate IsRecorded(relations: seq<Relation>, kind: RelationKind, e: FileEdge) {
    exists i :: 0 <= i < |relations| && Draws(relations[i], kind, e) && NoneHides(relations, kind, e, i)
  }

  ghost predicate NoneHides(relations: seq<Relation>, kind: RelationKind, e: FileEdge, i: nat) {
    forall j, f :: i < j < |relations| && Draws(relations[j], kind, f) && Key(f) == Key(e) ==> f == e
  }

  ghost function RecordedEdges(relations: seq<Relation>, kind: RelationKind): iset<FileEdge> {
    iset e | IsRecorded(relations, kind, e)
  }

  /** No two of the edges share a key. */
  ghost predicate DistinctKeys(edges: iset<FileEdge>) {
    forall e, f :: e in edges && f in edges && Key(e) == Key(f) ==> e == f
  }

  /** Every edge drawn is recorded when no two share a key. */
  lemma DistinctAreRecorded(relations: seq<Relation>, kind: RelationKind)
    requires DistinctKeys(EdgesOf(relations, kind))
    ensures RecordedEdges(relations, kind) == EdgesOf(relations, kind)
  {
    hide Key, EdgeOf;
    forall e ensures e in RecordedEdges(relations, kind) <==> e in EdgesOf(relations, kind) {
      if e in EdgesOf(relations, kind) {
        var i :| 0 <= i < |relations| && Draws(relations[i], kind, e);
        assert NoneHides(relations, kind, e, i);
      }
    }
  }

  /** A map from keys to edges that has every edge's key, and under each key one of the edges with it. */
  ghost predicate Keyed(m: map<string, FileEdge>, edges: iset<FileEdge>) {
    && (forall k :: k in m ==> k == Key(m[k]) && m[k] in edges)
    && (forall e :: e in edges ==> Key(e) in m)
  }

  ghost function Values(m: map<string, FileEdge>): iset<FileEdge> {
    iset k | k in m :: m[k]
  }

  /** Nothing is lost under the keys exactly when no two edges share one. */
  lemma KeyedExactly(m: map<string, FileEdge>, edges: iset<FileEdge>)
    requires Keyed(m, edges)
    ensures Keyed(m, Values(m)) && Values(m) <= edges
    ensures Values(m) == edges <==> DistinctKeys(edges)
  {
    hide Key;
    if Values(m) == edges {
      forall e, f | e in edges && f in edges && Key(e) == Key(f) ensures e == f {
        var k :| k in m && m[k] == e;
        var l :| l in m && m[l] == f;
      }
    }
    if DistinctKeys(edges) {
      forall e | e in edges ensures e in Values(m) {
        assert m[Key(e)] == e;
      }
    }
  }

  /** Edges from files without a space in their paths have keys of their own. */
  lemma SpacelessKeys(edges: iset<FileEdge>)
    requires forall e :: e in edges ==> ' ' !in e.from
    ensures DistinctKeys(edges)
  {
    forall e, f | e in edges && f in edges && Key(e) == Key(f) ensures e == f {
      JoinedBySpace(e.from, e.to, f.from, f.to);
    }
  }

  /** The map holds the recorded edges of the kind, each under its key. */
  ghost predicate Collected(m: map<string, FileEdge>, relations: seq<Relation>, kind: RelationKind) {
    Keyed(m, EdgesOf(relations, kind)) && Values(m) == RecordedEdges(relations, kind)
  }

  lemma EdgesGrow(relations: seq<Relation>, r: Relation, kind: RelationKind, e: FileEdge)
    ensures HasEdge(relations + [r], kind, e) <==> HasEdge(relations, kind, e) || Draws(r, kind, e)
  {
    hide EdgeOf, Draws;
    var more, n := relations + [r], |relations|;
    assert more[n] == r && forall i :: 0 <= i < n ==> more[i] == relations[i];
    if HasEdge(relations, kind, e) {
      var i :| 0 <= i < n && Draws(relations[i], kind, e);
      assert Draws(more[i], kind, e);
    }
  }

  /** The relation draws the edge, or nothing else with its key. */
  ghost predicate Spares(r: Relation, kind: RelationKind, e: FileEdge) {
    forall f :: Draws(r, kind, f) && Key(f) == Key(e) ==> f == e
  }

  lemma HidesGrow(relations: seq<Relation>, r: Relation, kind: RelationKind, e: FileEdge, i: nat)
    requires i < |relations|
    ensures NoneHides(relations + [r], kind, e, i) <==> NoneHides(relations, kind, e, i) && Spares(r, kind, e)
  {
    hide Draws, Key;
    var more, n := relations + [r], |relations|;
    assert more[n] == r && forall j :: 0 <= j < n ==> more[j] == relations[j];
    if NoneHides(more, kind, e, i) {
      forall f | Draws(r, kind, f) && Key(f) == Key(e) ensures f == e {
        assert Draws(more[n], kind, f);
      }
      forall j, f | i < j < n && Draws(relations[j], kind, f) && Key(f) == Key(e) ensures f == e {
        assert Draws(more[j], kind, f);
      }
    }
  }

  lemma RecordedGrows(relations: seq<Relation>, r: Relation, kind: RelationKind, e: FileEdge)
    ensures IsRecorded(relations + [r], kind, e) <==>
              Draws(r, kind, e) || (IsRecorded(relations, kind, e) && Spares(r, kind, e))
  {
    hide Draws, NoneHides, Spares;
    var more, n := relations + [r], |relations|;
    assert more[n] == r && forall i :: 0 <= i < n ==> more[i] == relations[i];
    if Draws(r, kind, e) {
      LastHides(more, kind, e, n);
      assert Draws(more[n], kind, e) && NoneHides(more, kind, e, n);
    } else if IsRecorded(relations, kind, e) && Spares(r, kind, e) {
      var i :| 0 <= i < n && Draws(relations[i], kind, e) && NoneHides(relations, kind, e, i);
      HidesGrow(relations, r, kind, e, i);
      assert Draws(more[i], kind, e) && NoneHides(more, kind, e, i);
    }
    if IsRecorded(more, kind, e) && !Draws(r, kind, e) {
      var i :| 0 <= i <= n && Draws(more[i], kind, e) && NoneHides(more, kind, e, i);
      HidesGrow(relations, r, kind, e, i);
      assert Draws(relations[i], kind, e) && NoneHides(relations, kind, e, i);
    }
  }

  lemma LastHides(relations: seq<Relation>, kind: RelationKind, e: FileEdge, i: nat)
    requires i + 1 == |relations|
    ensures NoneHides(relations, kind, e, i)
  {
  }

  /** One relation more: the edge it draws takes the place of whatever had its key. */
  lemma CollectedGrows(m: map<string, FileEdge>, relations: seq<Relation>, r: Relation, kind: RelationKind)
    requires Collected(m, relations, kind)
    ensures Collected(if r.kind == kind && EdgeOf(r).Some? then m[Key(EdgeOf(r).value) := EdgeOf(r).value] else m,
                      relations + [r], kind)
  {
    hide EdgeOf, Key, HasEdge, IsRecorded, Spares;
    var more := if r.kind == kind && EdgeOf(r).Some? then m[Key(EdgeOf(r).value) := EdgeOf(r).value] else m;
    forall e ensures e in EdgesOf(relations + [r], kind) <==> e in EdgesOf(relations, kind) || Draws(r, kind, e) {
      EdgesGrow(relations, r, kind, e);
    }
    forall e ensures e in Values(more) <==> e in RecordedEdges(relations + [r], kind) {
      RecordedGrows(relations, r, kind, e);
      ValueChanged(m, r, kind, e);
    }
  }

  lemma ValueChanged(m: map<string, FileEdge>, r: Relation, kind: RelationKind, e: FileEdge)
    requires forall k :: k in m ==> k == Key(m[k])
    ensures var more := if r.kind == kind && EdgeOf(r).Some? then m[Key(EdgeOf(r).value) := EdgeOf(r).value] else m;
            e in Values(more) <==> Draws(r, kind, e) || (e in Values(m) && Spares(r, kind, e))
  {
    hide EdgeOf, Key;
    var more := if r.kind == kind && EdgeOf(r).Some? then m[Key(EdgeOf(r).value) := EdgeOf(r).value] else m;
    if Draws(r, kind, e) {
      assert Key(e) in more && more[Key(e)] == e;
    }
    if e in Values(m) && Spares(r, kind, e) {
      assert m[Key(e)] == e && Key(e) in more;
      if r.kind == kind && EdgeOf(r).Some? {
        assert Draws(r, kind, EdgeOf(r).value);
      }
      assert more[Key(e)] == e;
    }
    if e in Values(more) && !Draws(r, kind, e) {
      var k :| k in more && more[k] == e;
      assert k in m && m[k] == e;
    }
  }

  method CollectFileEdges(relations: seq<Relation>)
    returns (dependency: map<string, FileEdge>, test: map<string, FileEdge>, reexport: map<string, FileEdge>)
    ensures Collected(dependency, relations, Imports) && Collected(test, relations, TestedBy)
            && Collected(reexport, relations, Exports)
  {
    hide Collected, EdgeOf, Key;
    dependency, test, reexport := map[], map[], map[];
    NothingCollected();
    assert relations[..0] == [];
    for i := 0 to |relations|
      invariant Collected(dependency, relations[..i], Imports)
      invariant Collected(test, relations[..i], TestedBy)
      invariant Collected(reexport, relations[..i], Exports)
    {
      var r := relations[i];
      assert relations[..i + 1] == relations[..i] + [r];
      CollectedGrows(dependency, relations[..i], r, Imports);
      CollectedGrows(test, relations[..i], r, TestedBy);
      CollectedGrows(reexport, relations[..i], r, Exports);
      var edge := EdgeOf(r);
      if edge.Some? {
        var e := edge.value;
        if r.kind.Imports? {
          dependency := dependency[Key(e) := e];
        } else if r.kind.TestedBy? {
          test := test[Key(e) := e];
        } else if r.kind.Exports? {
          reexport := reexport[Key(e) := e];
        }
      }
    }
    assert relations[..|relations|] == relations;
  }

  lemma NothingCollected()
    ensures Collected(map[], [], Imports) && Collected(map[], [], TestedBy) && Collected(map[], [], Exports)
  {
    assert forall kind :: EdgesOf([], kind) == iset{} && RecordedEdges([], kind) == iset{};
  }

  lemma KeyedGrows(m: map<string, FileEdge>, edges: iset<FileEdge>, e: FileEdge)
    requires Keyed(m, edges)
    ensures Keyed(m[Key(e) := e], edges + iset{e})
  {
  }

  method ValueList(m: map<string, FileEdge>) returns (list: seq<FileEdge>)
    ensures forall e :: e in list <==> e in Values(m)
  {
    list := [];
    var todo := m.Keys;
    while todo != {}
      invariant todo <= m.Keys
      invariant forall e :: e in list <==> exists k :: k in m.Keys - todo && m[k] == e
    {
      var k :| k in todo;
      ghost var was := list;
      list := list + [m[k]];
      forall e ensures e in list <==> exists l :: l in m.Keys - (todo - {k}) && m[l] == e {
        if e == m[k] {
          assert k in m.Keys - (todo - {k});
        } else if e in was {
          var l :| l in m.Keys - todo && m[l] == e;
          assert l in m.Keys - (todo - {k});
        }
      }
      todo := todo - {k};
    }
  }

  /** A test of a file that re-exports another is a test of that other file too. */
  predicate Credits(test: FileEdge, reexport: FileEdge, e: FileEdge) {
    reexport.from == test.from && e == FileEdge(reexport.to, test.to)
  }

  ghost predicate IsCredited(tests: iset<FileEdge>, reexports: iset<FileEdge>, e: FileEdge) {
    exists t, r :: t in tests && r in reexports && Credits(t, r, e)
  }

  ghost function Credited(tests: iset<FileEdge>, reexports: iset<FileEdge>): iset<FileEdge> {
    tests + iset e | IsCredited(tests, reexports, e)
  }

  /** Where a credited edge has a key, a credited edge is what is found under it. */
  ghost predicate CreditsPrevail(m: map<string, FileEdge>, tests: iset<FileEdge>, reexports: iset<FileEdge>) {
    forall e :: IsCredited(tests, reexports, e) ==> Key(e) in m && IsCredited(tests, reexports, m[Key(e)])
  }

  /** Under the key of each of these edges one of them is found. */
  ghost predicate Foremost(m: map<string, FileEdge>, edges: iset<FileEdge>) {
    forall e :: e in edges ==> Key(e) in m && m[Key(e)] in edges
  }

  /** One edge credited more, under its key. */
  lemma CreditMore(m: map<string, FileEdge>, tests: iset<FileEdge>, reexports: iset<FileEdge>, done: iset<FileEdge>,
                   t: FileEdge, r: FileEdge, e: FileEdge)
    requires t in tests && r in reexports && Credits(t, r, e)
    requires Keyed(m, tests + done) && Foremost(m, done)
    ensures Keyed(m[Key(e) := e], tests + (done + iset{e})) && Foremost(m[Key(e) := e], done + iset{e})
    ensures IsCredited(tests, reexports, e)
  {
    hide Key;
    KeyedGrows(m, tests + done, e);
    assert tests + done + iset{e} == tests + (done + iset{e});
  }

  lemma AllCredited(m: map<string, FileEdge>, tests: iset<FileEdge>, reexports: iset<FileEdge>, done: iset<FileEdge>)
    requires Keyed(m, tests + done) && Foremost(m, done)
    requires forall e :: e in done <==> IsCredited(tests, reexports, e)
    ensures Keyed(m, Credited(tests, reexports)) && CreditsPrevail(m, tests, reexports)
  {
    hide Key, Keyed, IsCredited;
    assert tests + done == Credited(tests, reexports);
  }

  method PropagateReexportedTests(test: map<string, FileEdge>, reexport: map<string, FileEdge>)
    returns (credited: map<string, FileEdge>)
    requires Keyed(test, Values(test))
    ensures Keyed(credited, Credited(Values(test), Values(reexport)))
    ensures CreditsPrevail(credited, Values(test), Values(reexport))
  {
    hide Keyed, Key, IsCredited, Foremost;
    credited := test;
    ghost var from, via, done := Values(test), Values(reexport), iset{};
    var tests := ValueList(test);
    var reexports := ValueList(reexport);
    NoneCredited(test);
    for i := 0 to |tests|
      invariant Keyed(credited, from + done) && Foremost(credited, done)
      invariant forall e :: e in done ==> IsCredited(from, via, e)
      invariant forall e, k, r :: 0 <= k < i && r in reexports && Credits(tests[k], r, e) ==> e in done
    {
      for j := 0 to |reexports|
        invariant Keyed(credited, from + done) && Foremost(credited, done)
        invariant forall e :: e in done ==> IsCredited(from, via, e)
        invariant forall e, k, r :: 0 <= k < i && r in reexports && Credits(tests[k], r, e) ==> e in done
        invariant forall e, l :: 0 <= l < j && Credits(tests[i], reexports[l], e) ==> e in done
      {
        if reexports[j].from == tests[i].from {
          var e := FileEdge(reexports[j].to, tests[i].to);
          CreditMore(credited, from, via, done, tests[i], reexports[j], e);
          credited := credited[Key(e) := e];
          done := done + iset{e};
        }
      }
    }
    forall e | IsCredited(from, via, e) ensures e in done {
      CreditedBy(from, via, tests, reexports, e);
    }
    AllCredited(credited, from, via, done);
  }

  lemma NoneCredited(test: map<string, FileEdge>)
    requires Keyed(test, Values(test))
    ensures Keyed(test, Values(test) + iset{}) && Foremost(test, iset{})
  {
    hide Keyed;
    assert Values(test) + iset{} == Values(test);
  }

  lemma CreditedBy(tests: iset<FileEdge>, reexports: iset<FileEdge>, a: seq<FileEdge>, b: seq<FileEdge>, e: FileEdge)
    requires IsCredited(tests, reexports, e)
    requires (forall t :: t in a <==> t in tests) && forall r :: r in b <==> r in reexports
    ensures exists k, r :: 0 <= k < |a| && r in b && Credits(a[k], r, e)
  {
    var t, r :| t in tests && r in reexports && Credits(t, r, e);
    var k :| 0 <= k < |a| && a[k] == t;
    assert r in b && Credits(a[k], r, e);
  }

  predicate EdgeFirst(a: FileEdge, b: FileEdge) {
    if a.from == b.from then NotAfter(a.to, b.to) else NotAfter(a.from, b.from)
  }

  lemma EdgeOrder()
    ensures IsOrder(EdgeFirst)
  {
    forall a, b ensures EdgeFirst(a, b) || EdgeFirst(b, a) {
      NotAfterTotal(a.from, b.from);
      NotAfterTotal(a.to, b.to);
    }
    forall a, b, c | EdgeFirst(a, b) && EdgeFirst(b, c) ensures EdgeFirst(a, c) {
      EdgeFirstTransitive(a, b, c);
    }
  }

  lemma EdgeFirstTransitive(a: FileEdge, b: FileEdge, c: FileEdge)
    requires EdgeFirst(a, b) && EdgeFirst(b, c)
    ensures EdgeFirst(a, c)
  {
    hide NotAfter;
    if a.from == b.from && b.from == c.from {
      NotAfterTransitive(a.to, b.to, c.to);
    } else if a.from != b.from && b.from != c.from {
      NotAfterTransitive(a.from, b.from, c.from);
      NotAfterTotal(a.from, b.from);
      NotAfterTotal(a.from, c.from);
    }
  }

  method SortEdges(m: map<string, FileEdge>) returns (sorted: seq<FileEdge>)
    ensures IsSorted(sorted, EdgeFirst) && forall e :: e in sorted <==> e in Values(m)
  {
    var list := ValueList(m);
    EdgeOrder();
    sorted := Sort(list, EdgeFirst);
    SameElements(sorted, list);
  }

  /** The parts of a snapshot these walks read: its relations, its files, its gaps. */
  datatype Projection = Projection(relations: seq<Relation>, files: seq<string>, unknowns: seq<Unknown>)

  datatype FileGraph = FileGraph(files: seq<string>, dependencyEdges: seq<FileEdge>, testEdges: seq<FileEdge>)

  /** The edges of tests, a test of a re-exporting file counted for what that file re-exports too. */
  ghost function TestEdges(p: Projection): iset<FileEdge> {
    Credited(EdgesOf(p.relations, TestedBy), EdgesOf(p.relations, Exports))
  }

  /** What a re-export hidden by another one credits is credited anyway. */
  ghost predicate NoCreditLost(p: Projection) {
    forall t, r :: t in EdgesOf(p.relations, TestedBy) && r in EdgesOf(p.relations, Exports) && r.from == t.from ==>
      FileEdge(r.to, t.to) in Credited(EdgesOf(p.relations, TestedBy), RecordedEdges(p.relations, Exports))
  }

  lemma RecordedExactly(m: map<string, FileEdge>, relations: seq<Relation>, kind: RelationKind)
    requires Collected(m, relations, kind)
    ensures RecordedEdges(relations, kind) <= EdgesOf(relations, kind) && DistinctKeys(RecordedEdges(relations, kind))
    ensures RecordedEdges(relations, kind) == EdgesOf(relations, kind) <==> DistinctKeys(EdgesOf(relations, kind))
  {
    hide Key, HasEdge, IsRecorded;
    KeyedExactly(m, EdgesOf(relations, kind));
    KeyedExactly(m, Values(m));
  }

  lemma CreditedMore(tests: iset<FileEdge>, less: iset<FileEdge>, more: iset<FileEdge>)
    requires less <= more
    ensures Credited(tests, less) <= Credited(tests, more) && tests <= Credited(tests, less)
  {
  }

  lemma NoCreditLostIs(p: Projection)
    requires RecordedEdges(p.relations, Exports) <= EdgesOf(p.relations, Exports)
    ensures NoCreditLost(p) <==>
              Credited(EdgesOf(p.relations, TestedBy), RecordedEdges(p.relations, Exports)) == TestEdges(p)
  {
    hide HasEdge, IsRecorded, EdgesOf, RecordedEdges;
    var tests, exports, kept := EdgesOf(p.relations, TestedBy), EdgesOf(p.relations, Exports),
        RecordedEdges(p.relations, Exports);
    CreditedMore(tests, kept, exports);
    if NoCreditLost(p) {
      forall e | e in TestEdges(p) ensures e in Credited(tests, kept) {
        if e !in tests {
          var t, r :| t in tests && r in exports && Credits(t, r, e);
        }
      }
    }
    if Credited(tests, kept) == TestEdges(p) {
      forall t, r | t in tests && r in exports && r.from == t.from
        ensures FileEdge(r.to, t.to) in Credited(tests, kept) {
        assert Credits(t, r, FileEdge(r.to, t.to));
      }
    }
  }

  /**
   * The credited edges are all the test edges exactly when these
   * have keys of their own and no re-export's credit is lost.
   */
  lemma CreditedExactly(p: Projection, credited: map<string, FileEdge>)
    requires DistinctKeys(EdgesOf(p.relations, TestedBy)) ==>
               RecordedEdges(p.relations, TestedBy) == EdgesOf(p.relations, TestedBy)
    requires RecordedEdges(p.relations, TestedBy) <= EdgesOf(p.relations, TestedBy)
    requires RecordedEdges(p.relations, Exports) <= EdgesOf(p.relations, Exports)
    requires Keyed(credited, Credited(RecordedEdges(p.relations, TestedBy), RecordedEdges(p.relations, Exports)))
    ensures Values(credited) <= TestEdges(p)
    ensures Values(credited) == TestEdges(p) <==> DistinctKeys(TestEdges(p)) && NoCreditLost(p)
  {
    hide HasEdge, IsRecorded, EdgesOf, RecordedEdges, Key, IsCredited, Keyed, NoCreditLost;
    var tests, exports := EdgesOf(p.relations, TestedBy), EdgesOf(p.relations, Exports);
    var some, kept := RecordedEdges(p.relations, TestedBy), RecordedEdges(p.relations, Exports);
    KeyedExactly(credited, Credited(some, kept));
    CreditedMore(tests, kept, exports);
    FewerTests(some, tests, kept);
    NoCreditLostIs(p);
    if DistinctKeys(TestEdges(p)) {
      assert DistinctKeys(tests);
    }
  }

  lemma FewerTests(less: iset<FileEdge>, more: iset<FileEdge>, reexports: iset<FileEdge>)
    requires less <= more
    ensures Credited(less, reexports) <= Credited(more, reexports)
  {
  }

  /** Of the edges that share a key one is kept, a credited one if there is any. */
  ghost predicate OnePerKey(kept: seq<FileEdge>, tests: iset<FileEdge>, reexports: iset<FileEdge>) {
    && (forall e :: e in kept ==> e in Credited(tests, reexports))
    && (forall e :: e in Credited(tests, reexports) ==> exists f :: f in kept && Key(f) == Key(e))
    && (forall e, f :: e in kept && f in kept && Key(e) == Key(f) ==> e == f)
    && (forall e, f :: e in kept && IsCredited(tests, reexports, f) && Key(e) == Key(f) ==>
          IsCredited(tests, reexports, e))
  }

  lemma CreditedOnePerKey(m: map<string, FileEdge>, kept: seq<FileEdge>, tests: iset<FileEdge>,
                          reexports: iset<FileEdge>)
    requires Keyed(m, Credited(tests, reexports)) && CreditsPrevail(m, tests, reexports)
    requires forall e :: e in kept <==> e in Values(m)
    ensures OnePerKey(kept, tests, reexports)
  {
    hide Key, IsCredited, Credited;
    forall e | e in Credited(tests, reexports) ensures exists f :: f in kept && Key(f) == Key(e) {
      assert m[Key(e)] in Values(m);
    }
  }

  /** The edges of the file graph: the recorded ones, and tests with the credits of recorded re-exports. */
  ghost predicate IsFileGraph(relations: seq<Relation>, graph: FileGraph) {
    && (forall e :: e in graph.dependencyEdges <==> e in RecordedEdges(relations, Imports))
    && OnePerKey(graph.testEdges, RecordedEdges(relations, TestedBy), RecordedEdges(relations, Exports))
  }

  /**
   * Exactly the recorded edges are kept; they are all the relations draw exactly when no two share a key, and all test
   * edges are kept exactly when these share none and no hidden re-export takes a credit along.
   */
  method CollapseToFileGraph(p: Projection) returns (graph: FileGraph)
    ensures multiset(graph.files) == multiset(p.files) && IsSorted(graph.files, NotAfter)
    ensures IsFileGraph(p.relations, graph)
    ensures (forall e :: e in graph.dependencyEdges <==> e in EdgesOf(p.relations, Imports)) <==>
              DistinctKeys(EdgesOf(p.relations, Imports))
    ensures forall e :: e in graph.dependencyEdges ==> e in EdgesOf(p.relations, Imports)
    ensures forall e :: e in graph.testEdges ==> e in TestEdges(p)
    ensures (forall e :: e in graph.testEdges <==> e in TestEdges(p)) <==> DistinctKeys(TestEdges(p)) && NoCreditLost(p)
    ensures IsSorted(graph.dependencyEdges, EdgeFirst) && IsSorted(graph.testEdges, EdgeFirst)
  {
    hide Collected, Keyed, EdgeOf, Key, IsSorted, EdgeFirst, Values, EdgesOf, RecordedEdges, NoCreditLost,
         DistinctKeys, TestEdges, Credited, OnePerKey, CreditsPrevail;
    var dependency, test, reexport := CollectFileEdges(p.relations);
    CollectedParts(dependency, p.relations, Imports);
    CollectedParts(test, p.relations, TestedBy);
    CollectedParts(reexport, p.relations, Exports);
    var credited := PropagateReexportedTests(test, reexport);
    CreditedExactly(p, credited);
    var files := SortStrings(p.files);
    var dependencies := SortEdges(dependency);
    var covers := SortEdges(credited);
    graph := FileGraph(files, dependencies, covers);
    CreditedOnePerKey(credited, covers, Values(test), Values(reexport));
    SameAs(graph.dependencyEdges, Values(dependency), EdgesOf(p.relations, Imports));
    SameAs(graph.testEdges, Values(credited), TestEdges(p));
  }

  lemma SameAs(list: seq<FileEdge>, edges: iset<FileEdge>, all: iset<FileEdge>)
    requires forall e :: e in list <==> e in edges
    ensures (forall e :: e in list <==> e in all) <==> edges == all
  {
  }

  lemma CollectedParts(m: map<string, FileEdge>, relations: seq<Relation>, kind: RelationKind)
    requires Collected(m, relations, kind)
    ensures Keyed(m, Values(m)) && Values(m) == RecordedEdges(relations, kind) <= EdgesOf(relations, kind)
    ensures RecordedEdges(relations, kind) == EdgesOf(relations, kind) <==> DistinctKeys(EdgesOf(relations, kind))
  {
    hide Key, HasEdge, IsRecorded;
    KeyedExactly(m, EdgesOf(relations, kind));
    RecordedExactly(m, relations, kind);
  }

  function ImportOf(from: string, to: string): Relation {
    Relation(from + "#file", to + "#file", Imports, from, 1)
  }

  lemma ImportDraws(from: string, to: string, e: FileEdge)
    requires from != to && !IsExternal(to + "#file")
    ensures Draws(ImportOf(from, to), Imports, e) <==> e == FileEdge(from, to)
  {
    hide PathOf, EntityId;
    PathOfEntity(from, FileEntity, "");
    PathOfEntity(to, FileEntity, "");
  }

  /** With spaces in paths two imports can share a key, and the earlier of the two is lost. */
  method SpacesLoseEdges() returns (graph: FileGraph)
    ensures var relations := [ImportOf("a b", "c"), ImportOf("a", "b c")];
            FileEdge("a b", "c") in EdgesOf(relations, Imports) && FileEdge("a", "b c") in EdgesOf(relations, Imports)
    ensures FileEdge("a b", "c") !in graph.dependencyEdges && FileEdge("a", "b c") in graph.dependencyEdges
  {
    hide *;
    var relations := [ImportOf("a b", "c"), ImportOf("a", "b c")];
    SpacedKeys();
    ImportDraws("a b", "c", FileEdge("a b", "c"));
    ImportDraws("a", "b c", FileEdge("a", "b c"));
    LastOfTwo(relations[0], relations[1], FileEdge("a b", "c"), FileEdge("a", "b c"));
    graph := CollapseToFileGraph(Projection(relations, ["a b", "c", "a", "b c"], []));
    DependenciesAre(relations, graph);
  }

  lemma DependenciesAre(relations: seq<Relation>, graph: FileGraph)
    requires IsFileGraph(relations, graph)
    ensures forall e :: e in graph.dependencyEdges <==> e in RecordedEdges(relations, Imports)
  {
    hide OnePerKey, IsRecorded;
  }

  lemma LastOfTwo(first: Relation, second: Relation, e: FileEdge, f: FileEdge)
    requires Draws(first, Imports, e) && Draws(second, Imports, f) && e != f && Key(e) == Key(f)
    ensures var relations := [first, second];
            && e in EdgesOf(relations, Imports) && f in EdgesOf(relations, Imports)
            && e !in RecordedEdges(relations, Imports) && f in RecordedEdges(relations, Imports)
  {
    hide EdgeOf, Key;
    var relations := [first, second];
    assert Draws(relations[0], Imports, e) && Draws(relations[1], Imports, f);
    assert NoneHides(relations, Imports, f, 1);
  }

  lemma SpacedKeys()
    ensures Key(FileEdge("a b", "c")) == Key(FileEdge("a", "b c")) && !IsExternal("c#file") && !IsExternal("b c#file")
    ensures "c" + "#file" == "c#file" && "b c" + "#file" == "b c#file"
  {
    assert "a b" + [' '] + "c" == "a" + [' '] + "b c";
    assert "external:"[0] != "c#file"[0] && "external:"[0] != "b c#file"[0];
  }

  // ---------------------------------------------------------------------------------------------
  // Which files a refresh parses again
  // ---------------------------------------------------------------------------------------------

  type Links = map<string, set<string>>

  function At(links: Links, a: string): set<string> {
    if a in links then links[a] else {}
  }

  function Link(links: Links, a: string, b: string): (more: Links)
    ensures forall x, y :: y in At(more, x) <==> y in At(links, x) || (x == a && y == b)
    ensures forall x :: x in more <==> x in links || x == a
  {
    links[a := At(links, a) + {b}]
  }

  /** Every file listed has at least one link. */
  predicate Linked(links: Links) {
    forall a :: a in links ==> links[a] != {}
  }

  datatype Maps = Maps(incoming: Links, outgoing: Links, reexports: Links)

  /** A re-export names another place, inside the repository or outside. */
  predicate Reexports(relations: seq<Relation>, a: string, b: string) {
    a != b && exists i ::
      && 0 <= i < |relations| && relations[i].kind.Exports?
      && PathOf(relations[i].source) == a && PathOf(relations[i].target) == b
  }

  /** The maps of a refresh: who imports a file and whom it imports, and which files re-export what. */
  ghost predicate MapsOf(maps: Maps, relations: seq<Relation>) {
    && (forall a, b :: a in At(maps.incoming, b) <==> FileEdge(a, b) in RecordedEdges(relations, Imports))
    && (forall a, b :: b in At(maps.outgoing, a) <==> FileEdge(a, b) in RecordedEdges(relations, Imports))
    && (forall a, b :: b in At(maps.reexports, a) <==> Reexports(relations, a, b))
    && Linked(maps.reexports)
  }

  method RefreshDependencyMaps(p: Projection) returns (maps: Maps)
    ensures MapsOf(maps, p.relations)
  {
    hide RecordedEdges, EdgesOf, DistinctKeys, TestEdges, NoCreditLost, Reexports;
    var collapsed := CollapseToFileGraph(p);
    var edges := collapsed.dependencyEdges;
    var incoming: Links, outgoing: Links := map[], map[];
    for i := 0 to |edges|
      invariant forall a, b :: a in At(incoming, b) <==> FileEdge(a, b) in edges[..i]
      invariant forall a, b :: b in At(outgoing, a) <==> FileEdge(a, b) in edges[..i]
    {
      assert edges[..i + 1] == edges[..i] + [edges[i]];
      incoming := Link(incoming, edges[i].to, edges[i].from);
      outgoing := Link(outgoing, edges[i].from, edges[i].to);
    }
    assert edges[..|edges|] == edges;
    var reexports := ReexportMap(p.relations);
    maps := Maps(incoming, outgoing, reexports);
  }

  method ReexportMap(relations: seq<Relation>) returns (reexports: Links)
    ensures Linked(reexports) && forall a, b :: b in At(reexports, a) <==> Reexports(relations, a, b)
  {
    hide PathOf;
    reexports := map[];
    for i := 0 to |relations|
      invariant Linked(reexports) && forall a, b :: b in At(reexports, a) <==> Reexports(relations[..i], a, b)
    {
      var r := relations[i];
      forall a, b ensures Reexports(relations[..i + 1], a, b)
                          <==>
                          || Reexports(relations[..i], a, b)
                          || (r.kind.Exports? && a != b && PathOf(r.source) == a && PathOf(r.target) == b)
      {
        MoreReexports(relations, i, a, b);
      }
      if r.kind.Exports? {
        var from, to := PathOf(r.source), PathOf(r.target);
        if from != to {
          reexports := Link(reexports, from, to);
        }
      }
    }
    assert relations[..|relations|] == relations;
  }

  lemma MoreReexports(relations: seq<Relation>, i: nat, a: string, b: string)
    requires i < |relations|
    ensures var r := relations[i];
            Reexports(relations[..i + 1], a, b)
            <==>
            || Reexports(relations[..i], a, b)
            || (r.kind.Exports? && a != b && PathOf(r.source) == a && PathOf(r.target) == b)
  {
    hide PathOf;
    var less, more, r := relations[..i], relations[..i + 1], relations[i];
    assert more == less + [r];
    if Reexports(less, a, b) {
      var j :| 0 <= j < |less| && less[j].kind.Exports? && PathOf(less[j].source) == a && PathOf(less[j].target) == b;
      assert more[j] == less[j];
    }
    if r.kind.Exports? && a != b && PathOf(r.source) == a && PathOf(r.target) == b {
      assert more[i] == r;
    }
  }

  /** Closed under: what imports a member of the set and re-exports it is in the set. */
  ghost predicate ReexportClosed(maps: Maps, files: set<string>) {
    forall a, b :: b in files && a in At(maps.incoming, b) && b in At(maps.reexports, a) ==> a in files
  }

  /** The files whose exported names may have changed: the least such set around the seeds. */
  ghost predicate LeastReexportClosure(maps: Maps, seeds: seq<string>, files: set<string>) {
    && (forall s :: s in seeds ==> s in files) && ReexportClosed(maps, files)
    && forall other: set<string> :: (forall s :: s in seeds ==> s in other) && ReexportClosed(maps, other) ==>
          files <= other
  }

  /** The files and whatever imports one of them. */
  ghost predicate WithImporters(maps: Maps, files: set<string>, more: set<string>) {
    forall a :: a in more <==> a in files || exists b :: b in files && a in At(maps.incoming, b)
  }

  /** Closed under: a re-exporting file that a member imports is a member. */
  ghost predicate ForwardClosed(maps: Maps, files: set<string>) {
    forall a, b :: a in files && b in At(maps.outgoing, a) && b in maps.reexports ==> b in files
  }

  ghost predicate LeastForwardClosure(maps: Maps, files: set<string>, closure: set<string>) {
    && files <= closure && ForwardClosed(maps, closure)
    && forall other: set<string> :: files <= other && ForwardClosed(maps, other) ==> closure <= other
  }

  function AllOf(links: Links): set<string> {
    set a, b | a in links && b in links[a] :: b
  }

  lemma AtInAll(links: Links, a: string)
    ensures At(links, a) <= AllOf(links)
  {
  }

  /** A work list of distinct files, as a set. */
  ghost predicate Listed(list: seq<string>, files: set<string>) {
    Distinct(list) && (forall x :: x in list <==> x in files) && |list| == |files|
  }

  lemma ListedMore(list: seq<string>, files: set<string>, x: string)
    requires Listed(list, files) && x !in files
    ensures Listed(list + [x], files + {x})
  {
    assert forall i :: 0 <= i < |list| ==> list[i] in list;
  }

  lemma ListedWithin(list: seq<string>, files: set<string>, all: set<string>)
    requires Listed(list, files) && files <= all
    ensures |list| <= |all|
  {
    SubsetSize(files, all);
  }

  lemma SubsetSize<T>(a: set<T>, b: set<T>)
    requires a <= b
    ensures |a| <= |b|
  {
    assert b == a + (b - a);
  }

  method Dedupe(items: seq<string>) returns (list: seq<string>, files: set<string>)
    ensures Listed(list, files) && forall x :: x in files <==> x in items
  {
    list, files := [], {};
    for i := 0 to |items|
      invariant Listed(list, files) && forall x :: x in files <==> x in items[..i]
    {
      assert items[..i + 1] == items[..i] + [items[i]];
      if items[i] !in files {
        ListedMore(list, files, items[i]);
        list, files := list + [items[i]], files + {items[i]};
      }
    }
    assert items[..|items|] == items;
  }

  /** Every set closed around the seeds holds these files: none of them is there without need. */
  ghost predicate Needed(maps: Maps, seeds: seq<string>, files: set<string>) {
    forall other: set<string> :: (forall s :: s in seeds ==> s in other) && ReexportClosed(maps, other) ==>
             files <= other
  }

  /** Every importer of one of the first `i` listed files is selected, and changed when it re-exports it. */
  ghost predicate Followed(maps: Maps, list: seq<string>, i: nat, selected: set<string>, changed: set<string>)
    requires i <= |list|
  {
    forall k, a :: 0 <= k < i && a in At(maps.incoming, list[k]) ==>
             a in selected && (list[k] in At(maps.reexports, a) ==> a in changed)
  }

  ghost predicate Grounded(maps: Maps, selected: set<string>, changed: set<string>) {
    changed <= selected && forall a :: a in selected ==>
      a in changed || exists b :: b in changed && a in At(maps.incoming, b)
  }

  /** The direct importers of a changed file, and the changed names their re-exports carry on. */
  method FollowImporters(maps: Maps, seeds: seq<string>, list: seq<string>, i: nat, selected: set<string>,
                         changed: set<string>)
    returns (list': seq<string>, selected': set<string>, changed': set<string>)
    requires i < |list| && Listed(list, changed) && Needed(maps, seeds, changed) && Grounded(maps, selected, changed)
    requires Followed(maps, list, i, selected, changed)
    ensures list <= list' && selected <= selected' && changed <= changed' <= changed + AllOf(maps.incoming)
    ensures Listed(list', changed') && Needed(maps, seeds, changed') && Grounded(maps, selected', changed')
    ensures Followed(maps, list', i + 1, selected', changed')
  {
    hide Listed, Needed;
    list', selected', changed' := list, selected, changed;
    var path := list[i];
    InList(list, changed, i);
    var todo := At(maps.incoming, path);
    AtInAll(maps.incoming, path);
    while todo != {}
      invariant todo <= At(maps.incoming, path)
      invariant list <= list' && selected <= selected' && changed <= changed' <= changed + AllOf(maps.incoming)
      invariant Listed(list', changed') && Needed(maps, seeds, changed') && Grounded(maps, selected', changed')
      invariant forall a :: a in At(maps.incoming, path) - todo ==>
                  a in selected' && (path in At(maps.reexports, a) ==> a in changed')
    {
      var importer :| importer in todo;
      selected' := selected' + {importer};
      if path in At(maps.reexports, importer) && importer !in changed' {
        ListedMore(list', changed', importer);
        NeededMore(maps, seeds, changed', path, importer);
        changed' := changed' + {importer};
        list' := list' + [importer];
      }
      todo := todo - {importer};
    }
    assert forall k :: 0 <= k <= i ==> list'[k] == list[k];
  }

  lemma InList(list: seq<string>, files: set<string>, i: nat)
    requires i < |list| && Listed(list, files)
    ensures list[i] in files
  {
  }

  lemma NeededMore(maps: Maps, seeds: seq<string>, files: set<string>, path: string, importer: string)
    requires Needed(maps, seeds, files) && path in files && importer in At(maps.incoming, path)
             && path in At(maps.reexports, importer)
    ensures Needed(maps, seeds, files + {importer})
  {
  }

  lemma AllFollowed(maps: Maps, seeds: seq<string>, list: seq<string>, selected: set<string>, changed: set<string>)
    requires Listed(list, changed) && Needed(maps, seeds, changed) && Grounded(maps, selected, changed)
    requires Followed(maps, list, |list|, selected, changed) && forall s :: s in seeds ==> s in changed
    ensures LeastReexportClosure(maps, seeds, changed) && WithImporters(maps, changed, selected)
  {
    forall a, b | b in changed && a in At(maps.incoming, b) ensures a in selected
        && (b in At(maps.reexports, a) ==> a in changed) {
      var k :| 0 <= k < |list| && list[k] == b;
    }
  }

  /** Around the seeds: what changed names reach, whoever imports that, and the re-exporting files those import. */
  ghost predicate RefreshedFrom(maps: Maps, seeds: seq<string>, files: set<string>) {
    exists changed: set<string>, importers: set<string> ::
      LeastReexportClosure(maps, seeds, changed) && WithImporters(maps, changed, importers)
          && LeastForwardClosure(maps, importers, files)
  }

  /** The files to parse again when the seeds changed in a graph with these relations. */
  ghost predicate IsRefreshSet(relations: seq<Relation>, seeds: seq<string>, files: set<string>) {
    exists maps: Maps :: MapsOf(maps, relations) && RefreshedFrom(maps, seeds, files)
  }

  lemma SameMaps(relations: seq<Relation>, maps: Maps, others: Maps)
    requires MapsOf(maps, relations) && MapsOf(others, relations)
    ensures forall a :: At(maps.incoming, a) == At(others.incoming, a)
    ensures forall a :: At(maps.outgoing, a) == At(others.outgoing, a)
    ensures forall a :: At(maps.reexports, a) == At(others.reexports, a)
    ensures forall a :: a in maps.reexports <==> a in others.reexports
  {
    hide RecordedEdges, Reexports;
    forall a ensures At(maps.reexports, a) == At(others.reexports, a)
        && (a in maps.reexports <==> a in others.reexports) {
      assert a in maps.reexports <==> At(maps.reexports, a) != {};
      assert a in others.reexports <==> At(others.reexports, a) != {};
    }
  }

  lemma SameClosures(maps: Maps, others: Maps, seeds: seq<string>, more: seq<string>,
                     changed: set<string>, alsoChanged: set<string>, importers: set<string>, alsoImporters: set<string>)
    requires forall a ::
               At(maps.incoming, a) == At(others.incoming, a) && At(maps.reexports, a) == At(others.reexports, a)
    requires forall x :: x in seeds <==> x in more
    requires LeastReexportClosure(maps, seeds, changed) && LeastReexportClosure(others, more, alsoChanged)
    requires WithImporters(maps, changed, importers) && WithImporters(others, alsoChanged, alsoImporters)
    ensures changed == alsoChanged && importers == alsoImporters
  {
    assert ReexportClosed(maps, alsoChanged) && ReexportClosed(others, changed);
    assert changed <= alsoChanged && alsoChanged <= changed;
  }

  /** The relations and the seeds, in whatever order, decide which files are parsed again. */
  lemma RefreshSetIsOne(relations: seq<Relation>, seeds: seq<string>, more: seq<string>, files: set<string>,
                        others: set<string>)
    requires IsRefreshSet(relations, seeds, files) && IsRefreshSet(relations, more, others)
             && forall x :: x in seeds <==> x in more
    ensures files == others
  {
    hide MapsOf, LeastReexportClosure, WithImporters, At;
    var m: Maps :| MapsOf(m, relations) && RefreshedFrom(m, seeds, files);
    var n: Maps :| MapsOf(n, relations) && RefreshedFrom(n, more, others);
    SameMaps(relations, m, n);
    var changed: set<string>, importers: set<string> :|
      LeastReexportClosure(m, seeds, changed) && WithImporters(m, changed, importers)
          && LeastForwardClosure(m, importers, files);
    var alsoChanged: set<string>, alsoImporters: set<string> :|
      LeastReexportClosure(n, more, alsoChanged) && WithImporters(n, alsoChanged, alsoImporters)
          && LeastForwardClosure(n, alsoImporters, others);
    SameClosures(m, n, seeds, more, changed, alsoChanged, importers, alsoImporters);
    assert ForwardClosed(m, others) && ForwardClosed(n, files);
  }

  /** The set a refresh parses again, in code-unit order. */
  method RefreshDependencySet(p: Projection, seeds: seq<string>) returns (files: seq<string>)
    ensures IsRefreshSet(p.relations, seeds, set x | x in files)
    ensures IsSorted(files, NotAfter) && Distinct(files)
  {
    hide MapsOf, Listed, Needed, Followed, Grounded, LeastReexportClosure, WithImporters, LeastForwardClosure,
         Distinct, IsSorted;
    var links := RefreshDependencyMaps(p);
    var list, changedSet := Dedupe(seeds);
    var selected := changedSet;
    ghost var all := changedSet + AllOf(links.incoming);
    SeedsNeeded(links, seeds, list, changedSet);
    ListedWithin(list, changedSet, all);
    var i := 0;
    while i < |list|
      invariant i <= |list| <= |all| && changedSet <= all && forall s :: s in seeds ==> s in changedSet
      invariant Listed(list, changedSet) && Needed(links, seeds, changedSet) && Grounded(links, selected, changedSet)
      invariant Followed(links, list, i, selected, changedSet)
      decreases |all| - i
    {
      list, selected, changedSet := FollowImporters(links, seeds, list, i, selected, changedSet);
      ListedWithin(list, changedSet, all);
      i := i + 1;
    }
    AllFollowed(links, seeds, list, selected, changedSet);
    var closure := AddForwardBarrels(links, selected);
    files := SortedSet(closure);
    assert (set x | x in files) == closure;
    assert RefreshedFrom(links, seeds, closure);
  }

  lemma SeedsNeeded(maps: Maps, seeds: seq<string>, list: seq<string>, files: set<string>)
    requires forall x :: x in files <==> x in seeds
    ensures Needed(maps, seeds, files) && Grounded(maps, files, files) && Followed(maps, list, 0, files, files)
  {
  }

  /** The re-exporting files that selected files import, and those they import in turn. */
  method AddForwardBarrels(maps: Maps, files: set<string>) returns (closure: set<string>)
    ensures LeastForwardClosure(maps, files, closure)
  {
    closure := files;
    var forward: seq<string> := [];
    var todo := files;
    while todo != {}
      invariant todo <= files && Listed(forward, files - todo)
    {
      var x :| x in todo;
      ListedMore(forward, files - todo, x);
      assert files - todo + {x} == files - (todo - {x});
      forward := forward + [x];
      todo := todo - {x};
    }
    assert files - todo == files;
    ghost var all := files + AllOf(maps.outgoing);
    ListedWithin(forward, closure, all);
    var i := 0;
    while i < |forward|
      invariant i <= |forward| <= |all| && files <= closure <= all && Listed(forward, closure)
                && FilesNeeded(maps, files, closure)
      invariant Carried(maps, forward, i, closure)
      decreases |all| - i
    {
      forward, closure := FollowImports(maps, files, forward, i, closure);
      ListedWithin(forward, closure, all);
      i := i + 1;
    }
    forall a, b | a in closure && b in At(maps.outgoing, a) && b in maps.reexports ensures b in closure {
      var k :| 0 <= k < |forward| && forward[k] == a;
    }
  }

  ghost predicate FilesNeeded(maps: Maps, files: set<string>, closure: set<string>) {
    forall other: set<string> :: files <= other && ForwardClosed(maps, other) ==> closure <= other
  }

  ghost predicate Carried(maps: Maps, forward: seq<string>, i: nat, closure: set<string>)
    requires i <= |forward|
  {
    forall k, b :: 0 <= k < i && b in At(maps.outgoing, forward[k]) && b in maps.reexports ==> b in closure
  }

  method FollowImports(maps: Maps, files: set<string>, forward: seq<string>, i: nat, closure: set<string>)
    returns (forward': seq<string>, closure': set<string>)
    requires i < |forward| && Listed(forward, closure) && FilesNeeded(maps, files, closure)
             && Carried(maps, forward, i, closure)
    ensures forward <= forward' && closure <= closure' <= closure + AllOf(maps.outgoing)
    ensures Listed(forward', closure') && FilesNeeded(maps, files, closure') && Carried(maps, forward', i + 1, closure')
  {
    hide Listed, FilesNeeded;
    forward', closure' := forward, closure;
    var path := forward[i];
    InList(forward, closure, i);
    AtInAll(maps.outgoing, path);
    var todo := At(maps.outgoing, path);
    while todo != {}
      invariant todo <= At(maps.outgoing, path) && forward <= forward'
                && closure <= closure' <= closure + AllOf(maps.outgoing)
      invariant Listed(forward', closure') && FilesNeeded(maps, files, closure')
      invariant forall b :: b in At(maps.outgoing, path) - todo && b in maps.reexports ==> b in closure'
    {
      var dependency :| dependency in todo;
      if dependency in maps.reexports && dependency !in closure' {
        ListedMore(forward', closure', dependency);
        FilesNeededMore(maps, files, closure', path, dependency);
        closure' := closure' + {dependency};
        forward' := forward' + [dependency];
      }
      todo := todo - {dependency};
    }
    assert forall k :: 0 <= k <= i ==> forward'[k] == forward[k];
  }

  lemma FilesNeededMore(maps: Maps, files: set<string>, closure: set<string>, a: string, b: string)
    requires FilesNeeded(maps, files, closure) && a in closure && b in At(maps.outgoing, a) && b in maps.reexports
    ensures FilesNeeded(maps, files, closure + {b})
  {
  }

  /** The first file of the chain imports the second, and every later one imports and re-exports from the next. */
  ghost predicate ImportChain(relations: seq<Relation>, chain: seq<string>) {
    && |chain| >= 2
    && (forall i, j :: 0 <= i < j < |chain| && j == i + 1 ==>
          FileEdge(chain[i], chain[j]) in RecordedEdges(relations, Imports))
    && (forall i, j :: 1 <= i < j < |chain| && j == i + 1 ==> Reexports(relations, chain[i], chain[j]))
  }

  lemma {:induction false} ChainChanges(maps: Maps, relations: seq<Relation>, changed: set<string>, chain: seq<string>,
                                        i: nat)
    requires MapsOf(maps, relations) && ImportChain(relations, chain) && 1 <= i < |chain|
    requires ReexportClosed(maps, changed) && chain[|chain| - 1] in changed
    ensures chain[i] in changed
    decreases |chain| - i
  {
    hide RecordedEdges, Reexports, At;
    if i + 1 < |chain| {
      ChainChanges(maps, relations, changed, chain, i + 1);
      assert chain[i] in At(maps.incoming, chain[i + 1]) && chain[i + 1] in At(maps.reexports, chain[i]);
    }
  }

  /** What imports a seed, directly or through files that re-export from it, is parsed again, and so are the seeds. */
  lemma ChainIsSelected(relations: seq<Relation>, seeds: seq<string>, files: set<string>, chain: seq<string>)
    requires IsRefreshSet(relations, seeds, files) && ImportChain(relations, chain) && chain[|chain| - 1] in seeds
    ensures chain[0] in files
  {
    hide RecordedEdges, Reexports, At;
    var maps: Maps :| MapsOf(maps, relations) && RefreshedFrom(maps, seeds, files);
    var changed: set<string>, importers: set<string> :|
      LeastReexportClosure(maps, seeds, changed) && WithImporters(maps, changed, importers)
          && LeastForwardClosure(maps, importers, files);
    ChainChanges(maps, relations, changed, chain, 1);
    assert chain[0] in At(maps.incoming, chain[1]);
  }

  lemma SeedsSelected(relations: seq<Relation>, seeds: seq<string>, files: set<string>)
    requires IsRefreshSet(relations, seeds, files)
    ensures forall path :: path in seeds ==> path in files
  {
    hide MapsOf;
  }

  // ---------------------------------------------------------------------------------------------
  // Distances
  // ---------------------------------------------------------------------------------------------

  predicate StepAt(adjacency: Links, walk: seq<string>, i: nat)
    requires i + 1 < |walk|
  {
    walk[i + 1] in At(adjacency, walk[i])
  }

  /** A walk from a seed to `end`, each step to a neighbour. */
  predicate WalkTo(adjacency: Links, seeds: seq<string>, walk: seq<string>, end: string) {
    && walk != [] && walk[0] in seeds && walk[|walk| - 1] == end
    && forall i :: 0 <= i < |walk| - 1 ==> StepAt(adjacency, walk, i)
  }

  ghost predicate WalkOf(adjacency: Links, seeds: seq<string>, end: string, steps: nat) {
    exists walk :: WalkTo(adjacency, seeds, walk, end) && |walk| == steps + 1
  }

  method BuildAdjacency(edges: seq<FileEdge>) returns (adjacency: Links)
    ensures forall x, y :: y in At(adjacency, x) <==> FileEdge(x, y) in edges || FileEdge(y, x) in edges
  {
    adjacency := map[];
    for i := 0 to |edges|
      invariant forall x, y :: y in At(adjacency, x) <==> FileEdge(x, y) in edges[..i] || FileEdge(y, x) in edges[..i]
    {
      assert edges[..i + 1] == edges[..i] + [edges[i]];
      adjacency := Link(adjacency, edges[i].from, edges[i].to);
      adjacency := Link(adjacency, edges[i].to, edges[i].from);
    }
    assert edges[..|edges|] == edges;
  }

  type Distances = map<string, nat>

  /** Every recorded distance is the length of some walk, and at most `hop`. */
  ghost predicate Walked(adjacency: Links, seeds: seq<string>, distances: Distances, hop: nat) {
    forall x :: x in distances ==> distances[x] <= hop && WalkOf(adjacency, seeds, x, distances[x])
  }

  /** The neighbours of every file nearer than `hop` are recorded, one step further at most. */
  ghost predicate Spread(adjacency: Links, distances: Distances, hop: nat) {
    forall x, y :: x in distances && distances[x] < hop && y in At(adjacency, x) ==>
             y in distances && distances[y] <= distances[x] + 1
  }

  predicate Frontier(distances: Distances, frontier: seq<string>, hop: nat) {
    && (forall x :: x in frontier ==> x in distances && distances[x] == hop)
    && (forall x :: x in distances && distances[x] == hop ==> x in frontier)
  }

  lemma WalkMore(adjacency: Links, seeds: seq<string>, x: string, y: string, steps: nat)
    requires WalkOf(adjacency, seeds, x, steps) && y in At(adjacency, x)
    ensures WalkOf(adjacency, seeds, y, steps + 1)
  {
    var walk :| WalkTo(adjacency, seeds, walk, x) && |walk| == steps + 1;
    var longer := walk + [y];
    forall i | 0 <= i < |longer| - 1 ensures StepAt(adjacency, longer, i) {
      if i < |walk| - 1 {
        assert StepAt(adjacency, walk, i);
      }
    }
    assert WalkTo(adjacency, seeds, longer, y);
  }

  lemma SeedWalks(adjacency: Links, seeds: seq<string>, seed: string)
    requires seed in seeds
    ensures WalkOf(adjacency, seeds, seed, 0)
  {
    assert WalkTo(adjacency, seeds, [seed], seed);
  }

  /** No walk is shorter than the recorded distance of where it ends. */
  lemma {:induction false} WalkIsLonger(adjacency: Links, seeds: seq<string>, distances: Distances, walk: seq<string>,
                                        n: nat, hop: nat)
    requires Spread(adjacency, distances, hop) && forall s :: s in seeds ==> s in distances && distances[s] == 0
    requires n < |walk| && WalkTo(adjacency, seeds, walk, walk[|walk| - 1])
             && (n <= hop || forall x :: x in distances ==> distances[x] < hop)
    ensures walk[n] in distances && distances[walk[n]] <= n
  {
    if n > 0 {
      WalkIsLonger(adjacency, seeds, distances, walk, n - 1, hop);
      assert StepAt(adjacency, walk, n - 1);
    }
  }

  /** One hop further: the files next to the frontier that are not recorded yet. */
  method Expand(adjacency: Links, seeds: seq<string>, distances: Distances, frontier: seq<string>, hop: nat)
    returns (further: Distances, next: seq<string>)
    requires hop > 0 && Walked(adjacency, seeds, distances, hop - 1) && Spread(adjacency, distances, hop - 1)
    requires Frontier(distances, frontier, hop - 1)
    ensures forall x :: x in distances ==> x in further && further[x] == distances[x]
    ensures Walked(adjacency, seeds, further, hop) && Spread(adjacency, further, hop) && Frontier(further, next, hop)
  {
    hide Walked, WalkOf;
    further, next := distances, [];
    WalkedLater(adjacency, seeds, distances, hop);
    for i := 0 to |frontier|
      invariant Grown(distances, further, next, hop) && Walked(adjacency, seeds, further, hop)
      invariant forall k, y :: 0 <= k < i && y in At(adjacency, frontier[k]) ==> y in further
    {
      var path := frontier[i];
      var todo := At(adjacency, path);
      while todo != {}
        invariant todo <= At(adjacency, path)
        invariant Grown(distances, further, next, hop) && Walked(adjacency, seeds, further, hop)
        invariant forall k, y :: 0 <= k < i && y in At(adjacency, frontier[k]) ==> y in further
        invariant forall y :: y in At(adjacency, path) - todo ==> y in further
      {
        var neighbour :| neighbour in todo;
        todo := todo - {neighbour};
        if neighbour !in further {
          WalkedMore(adjacency, seeds, further, path, neighbour, hop);
          further := further[neighbour := hop];
          next := next + [neighbour];
        }
      }
    }
    SpreadFurther(adjacency, distances, further, frontier, next, hop);
  }

  /** The new records are all at `hop`, and are the ones listed. */
  ghost predicate Grown(distances: Distances, further: Distances, next: seq<string>, hop: nat) {
    && (forall x :: x in distances ==> x in further && further[x] == distances[x])
    && (forall x :: x in further && x !in distances ==> further[x] == hop && x in next)
    && (forall x :: x in next ==> x in further && x !in distances)
  }

  lemma WalkedLater(adjacency: Links, seeds: seq<string>, distances: Distances, hop: nat)
    requires hop > 0 && Walked(adjacency, seeds, distances, hop - 1)
    ensures Walked(adjacency, seeds, distances, hop) && forall x :: x in distances ==> distances[x] < hop
  {
  }

  lemma WalkedMore(adjacency: Links, seeds: seq<string>, distances: Distances, path: string, neighbour: string,
                   hop: nat)
    requires Walked(adjacency, seeds, distances, hop) && hop > 0 && path in distances && distances[path] == hop - 1
    requires neighbour in At(adjacency, path)
    ensures Walked(adjacency, seeds, distances[neighbour := hop], hop)
  {
    hide WalkOf;
    WalkMore(adjacency, seeds, path, neighbour, hop - 1);
  }

  lemma SpreadFurther(adjacency: Links, distances: Distances, further: Distances, frontier: seq<string>,
                      next: seq<string>, hop: nat)
    requires hop > 0 && Spread(adjacency, distances, hop - 1) && Frontier(distances, frontier, hop - 1)
    requires Grown(distances, further, next, hop) && (forall x :: x in distances ==> distances[x] < hop)
    requires forall k, y :: 0 <= k < |frontier| && y in At(adjacency, frontier[k]) ==> y in further
    ensures Spread(adjacency, further, hop) && Frontier(further, next, hop)
  {
    forall x, y | x in further && further[x] < hop && y in At(adjacency, x) ensures y in further
        && further[y] <= further[x] + 1 {
      if distances[x] == hop - 1 {
        var k :| 0 <= k < |frontier| && frontier[k] == x;
      }
    }
  }

  function Horizon(hops: int): nat {
    if hops < 0 then 0 else hops
  }

  /**
   * What the walk promises: a file is recorded when some walk
   * within the horizon reaches it, with the length of the shortest.
   */
  ghost predicate Shortest(adjacency: Links, seeds: seq<string>, distances: Distances, horizon: nat) {
    && (forall x :: x in distances ==> distances[x] <= horizon && WalkOf(adjacency, seeds, x, distances[x]))
    && (forall x, steps: nat :: steps <= horizon && WalkOf(adjacency, seeds, x, steps) ==>
          x in distances && distances[x] <= steps)
  }

  method WalkDistances(adjacency: Links, seeds: seq<string>, hops: int) returns (distances: Distances)
    ensures Shortest(adjacency, seeds, distances, Horizon(hops))
  {
    hide Walked, Spread, Frontier, WalkOf;
    distances := Seeded(adjacency, seeds);
    var frontier := seeds;
    var hop := 1;
    while hop <= Horizon(hops) && frontier != []
      invariant 1 <= hop <= Horizon(hops) + 1
      invariant Walked(adjacency, seeds, distances, hop - 1) && Spread(adjacency, distances, hop - 1)
                && Frontier(distances, frontier, hop - 1)
      invariant forall s :: s in seeds ==> s in distances && distances[s] == 0
      decreases Horizon(hops) + 1 - hop
    {
      var next;
      distances, next := Expand(adjacency, seeds, distances, frontier, hop);
      frontier := SortStrings(next);
      SameFrontier(distances, next, frontier, hop);
      hop := hop + 1;
    }
    AllShortest(adjacency, seeds, distances, frontier, hop - 1, Horizon(hops));
  }

  lemma SameFrontier(distances: Distances, next: seq<string>, frontier: seq<string>, hop: nat)
    requires Frontier(distances, next, hop) && multiset(frontier) == multiset(next)
    ensures Frontier(distances, frontier, hop)
  {
    SameElements(frontier, next);
  }

  method Seeded(adjacency: Links, seeds: seq<string>) returns (distances: Distances)
    ensures Walked(adjacency, seeds, distances, 0) && Spread(adjacency, distances, 0) && Frontier(distances, seeds, 0)
    ensures forall s :: s in seeds ==> s in distances && distances[s] == 0
  {
    hide WalkOf;
    distances := map[];
    for i := 0 to |seeds|
      invariant forall x :: x in distances <==> x in seeds[..i]
      invariant forall x :: x in distances ==> distances[x] == 0
    {
      assert seeds[..i + 1] == seeds[..i] + [seeds[i]];
      distances := distances[seeds[i] := 0];
    }
    assert seeds[..|seeds|] == seeds;
    forall x | x in distances ensures WalkOf(adjacency, seeds, x, 0) {
      SeedWalks(adjacency, seeds, x);
    }
  }

  lemma AllShortest(adjacency: Links, seeds: seq<string>, distances: Distances, frontier: seq<string>, hop: nat,
                    horizon: nat)
    requires Walked(adjacency, seeds, distances, hop) && Spread(adjacency, distances, hop)
             && Frontier(distances, frontier, hop)
    requires forall s :: s in seeds ==> s in distances && distances[s] == 0
    requires hop <= horizon && (hop == horizon || frontier == [])
    ensures Shortest(adjacency, seeds, distances, horizon)
  {
    hide Spread;
    forall x, steps: nat | steps <= horizon && WalkOf(adjacency, seeds, x, steps) ensures x in distances
        && distances[x] <= steps {
      var walk :| WalkTo(adjacency, seeds, walk, x) && |walk| == steps + 1;
      WalkIsLonger(adjacency, seeds, distances, walk, steps, hop);
    }
  }

  datatype NearFile = NearFile(path: string, hops: nat)

  predicate NearFirst(a: NearFile, b: NearFile) {
    if a.hops == b.hops then NotAfter(a.path, b.path) else a.hops < b.hops
  }

  lemma NearOrder()
    ensures IsOrder(NearFirst)
  {
    hide NotAfter;
    forall a, b ensures NearFirst(a, b) || NearFirst(b, a) {
      NotAfterTotal(a.path, b.path);
    }
    forall a, b, c | NearFirst(a, b) && NearFirst(b, c) ensures NearFirst(a, c) {
      if a.hops == b.hops == c.hops {
        NotAfterTransitive(a.path, b.path, c.path);
      }
    }
  }

  method Entries(distances: Distances) returns (list: seq<NearFile>)
    ensures Distinct(list) && forall f :: f in list <==> f.path in distances && distances[f.path] == f.hops
  {
    list := [];
    var todo := distances.Keys;
    while todo != {}
      invariant todo <= distances.Keys && Distinct(list)
      invariant forall f :: f in list <==> f.path in distances.Keys - todo && distances[f.path] == f.hops
    {
      var x :| x in todo;
      assert forall i :: 0 <= i < |list| ==> list[i] in list;
      list := list + [NearFile(x, distances[x])];
      todo := todo - {x};
    }
  }

  datatype Neighbourhood =
    Neighbourhood(files: seq<NearFile>, absentSeeds: seq<string>, isolatedSeeds: seq<string>, truncated: bool)

  method Filter(items: seq<string>, keep: string -> bool) returns (kept: seq<string>)
    ensures forall x :: x in kept <==> x in items && keep(x)
    ensures IsSorted(kept, NotAfter)
  {
    kept := [];
    for i := 0 to |items|
      invariant forall x :: x in kept <==> x in items[..i] && keep(x)
    {
      assert items[..i + 1] == items[..i] + [items[i]];
      if keep(items[i]) {
        kept := kept + [items[i]];
      }
    }
    assert items[..|items|] == items;
    var list := kept;
    kept := SortStrings(list);
    SameElements(kept, list);
  }

  /** An import or a test joins the two files, in either direction. */
  ghost predicate Joins(p: Projection, x: string, y: string) {
    FileEdge(x, y) in EdgesOf(p.relations, Imports) + TestEdges(p)
        || FileEdge(y, x) in EdgesOf(p.relations, Imports) + TestEdges(p)
  }

  /** An edge of the file graph joins the two files, in either direction. */
  predicate Neighbours(graph: FileGraph, x: string, y: string) {
    || FileEdge(x, y) in graph.dependencyEdges + graph.testEdges
    || FileEdge(y, x) in graph.dependencyEdges + graph.testEdges
  }

  lemma EdgesJoin(p: Projection, graph: FileGraph)
    requires (forall e :: e in graph.dependencyEdges ==> e in EdgesOf(p.relations, Imports))
             && forall e :: e in graph.testEdges ==> e in TestEdges(p)
    requires (forall e :: e in graph.dependencyEdges <==> e in EdgesOf(p.relations, Imports)) <==>
               DistinctKeys(EdgesOf(p.relations, Imports))
    requires (forall e :: e in graph.testEdges <==> e in TestEdges(p)) <==>
               DistinctKeys(TestEdges(p)) && NoCreditLost(p)
    ensures forall x, y :: Neighbours(graph, x, y) ==> Joins(p, x, y)
    ensures KeysTellApart(p) ==> forall x, y :: Joins(p, x, y) ==> Neighbours(graph, x, y)
  {
    hide EdgesOf, TestEdges, NoCreditLost, DistinctKeys;
  }

  /** No edge of the file graph hides another one. */
  ghost predicate KeysTellApart(p: Projection) {
    DistinctKeys(EdgesOf(p.relations, Imports)) && DistinctKeys(TestEdges(p)) && NoCreditLost(p)
  }

  /** The files kept are the nearest, in order: what is cut off is at least as far as anything kept. */
  method StructuralNeighbourhood(p: Projection, seeds: seq<string>, hops: int, maxFiles: int)
    returns (near: Neighbourhood, ghost present: seq<string>, ghost graph: FileGraph, ghost adjacency: Links,
             ghost distances: Distances)
    ensures forall x :: x in present <==> x in seeds && x in p.files
    ensures forall x :: x in near.absentSeeds <==> x in seeds && x !in p.files
    ensures forall x :: x in near.isolatedSeeds <==> x in present && At(adjacency, x) == {}
    ensures IsFileGraph(p.relations, graph) && forall x, y :: y in At(adjacency, x) <==> Neighbours(graph, x, y)
    ensures forall x, y :: Neighbours(graph, x, y) ==> Joins(p, x, y)
    ensures KeysTellApart(p) ==> forall x, y :: Joins(p, x, y) ==> Neighbours(graph, x, y)
    ensures Shortest(adjacency, present, distances, Horizon(hops))
    ensures Distinct(near.files) && forall f :: f in near.files ==> f.path in distances && distances[f.path] == f.hops
    ensures |near.files| <= Horizon(maxFiles) && (near.truncated ==> |near.files| == Horizon(maxFiles))
    ensures forall x, f :: x in distances && NearFile(x, distances[x]) !in near.files && f in near.files ==>
              f.hops <= distances[x]
    ensures !near.truncated <==> forall x :: x in distances ==> NearFile(x, distances[x]) in near.files
    ensures IsSorted(near.files, NearFirst)
  {
    hide Joins, KeysTellApart, EdgesOf, RecordedEdges, TestEdges, NoCreditLost, DistinctKeys, NearFirst, Shortest,
         Distinct, IsSorted, NotAfter, Credited, IsFileGraph;
    var collapsed := CollapseToFileGraph(p);
    SameElements(collapsed.files, p.files);
    var links := BuildAdjacency(collapsed.dependencyEdges + collapsed.testEdges);
    var absent := Filter(seeds, x => x !in collapsed.files);
    var found := Filter(seeds, x => x in collapsed.files);
    var isolated := Filter(found, x => At(links, x) == {});
    var walked := WalkDistances(links, found, hops);
    graph, adjacency, present, distances := collapsed, links, found, walked;
    var list := Entries(walked);
    NearOrder();
    var ordered := Sort(list, NearFirst);
    SameElements(ordered, list);
    DistinctMultiset(list, ordered);
    var limit := Horizon(maxFiles);
    var kept := if limit < |ordered| then ordered[..limit] else ordered;
    near := Neighbourhood(kept, absent, isolated, |ordered| > limit);
    CutIsNearest(ordered, kept, limit);
    SortedCut(ordered, kept, limit);
    EdgesJoin(p, graph);
    assert forall x :: x in distances ==> NearFile(x, distances[x]) in ordered;
  }

  lemma SortedCut(ordered: seq<NearFile>, kept: seq<NearFile>, limit: nat)
    requires IsSorted(ordered, NearFirst) && kept == if limit < |ordered| then ordered[..limit] else ordered
    ensures IsSorted(kept, NearFirst)
  {
    hide NearFirst;
  }

  lemma CutIsNearest(ordered: seq<NearFile>, kept: seq<NearFile>, limit: nat)
    requires IsSorted(ordered, NearFirst) && Distinct(ordered)
    requires kept == if limit < |ordered| then ordered[..limit] else ordered
    ensures Distinct(kept) && forall f :: f in kept ==> f in ordered
    ensures forall f, g :: f in kept && g in ordered && g !in kept ==> f.hops <= g.hops
    ensures (forall g :: g in ordered ==> g in kept) <==> |ordered| <= limit
  {
    assert forall m :: 0 <= m < |kept| ==> kept[m] == ordered[m] && ordered[m] in kept;
    forall f, g | f in kept && g in ordered && g !in kept ensures f.hops <= g.hops {
      var i :| 0 <= i < |kept| && kept[i] == f;
      var j :| 0 <= j < |ordered| && ordered[j] == g;
      assert NearFirst(ordered[i], ordered[j]);
    }
    if |ordered| > limit {
      assert forall m :: 0 <= m < limit ==> kept[m] != ordered[limit];
      assert ordered[limit] in ordered && ordered[limit] !in kept;
    }
  }
}
