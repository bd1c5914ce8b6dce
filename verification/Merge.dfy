/** Merging freshly parsed facts with those of files that did not change. */
module Merge {
  import opened Prelude
  import opened Ordering
  import opened GraphFacts

  datatype Facts = Facts(entities: seq<Entity>, relations: seq<Relation>, unknowns: seq<Unknown>)

  datatype Merged = Merged(facts: Facts, reusedParsedPaths: set<string>, invalidated: nat)

  /** What passes a filter and what passes its opposite are together the list. */
  lemma {:induction false} WhereSplits<T(!new)>(items: seq<T>, keep: T -> bool, drop: T -> bool)
    requires forall x :: drop(x) <==> !keep(x)
    ensures multiset(Where(items, keep)) + multiset(Where(items, drop)) == multiset(items)
    ensures |Where(items, keep)| + |Where(items, drop)| == |items|
  {
    if items != [] {
      WhereSplits(items[1..], keep, drop);
      assert items == [items[0]] + items[1..];
    }
  }

  function Ids(entities: seq<Entity>): set<string> {
    set e | e in entities :: e.id
  }

  predicate IsLive(r: Relation, known: set<string>) {
    r.source in known && (IsExternal(r.target) || r.target in known)
  }

  function RelationText(kind: RelationKind): string {
    match kind
    case Imports => "imports"
    case Exports => "exports"
    case Defines => "defines"
    case Contains => "contains"
    case Calls => "calls"
    case TestedBy => "tested_by"
    case External => "external"
  }

  function UnknownText(kind: UnknownKind): (text: string)
    ensures ' ' !in text
  {
    match kind
    case ParserError => "parser_error"
    case ParseTimeout => "parse_timeout"
    case DynamicImport => "dynamic_import"
    case UnresolvedImport => "unresolved_import"
    case UnresolvedCall => "unresolved_call"
    case UnsupportedLanguage => "unsupported_language"
    case FileSkipped => "file_skipped"
  }

  /** The gap a dropped relation leaves. */
  function GapOf(r: Relation): Unknown {
    Unknown(if r.kind.Calls? then UnresolvedCall else UnresolvedImport, r.path,
            RelationText(r.kind) + " target no longer in graph: " + r.target)
  }

  method DanglingUnknowns(relations: seq<Relation>, known: set<string>, live: set<string>) returns (gaps: seq<Unknown>)
    ensures forall u :: u in gaps <==>
              exists r :: r in relations && !IsLive(r, known) && r.path in live && u == GapOf(r)
  {
    hide GapOf, IsLive;
    gaps := [];
    for i := 0 to |relations|
      invariant forall u :: u in gaps <==>
                  exists r :: r in relations[..i] && !IsLive(r, known) && r.path in live && u == GapOf(r)
    {
      var r := relations[i];
      assert relations[..i + 1] == relations[..i] + [r];
      if !IsLive(r, known) && r.path in live {
        ghost var was := gaps;
        gaps := gaps + [GapOf(r)];
        forall u
          ensures u in gaps <==>
                    exists s :: s in relations[..i + 1] && !IsLive(s, known) && s.path in live && u == GapOf(s)
        {
          if u == GapOf(r) {
            assert r in relations[..i + 1];
          } else if u in was {
            var s :| s in relations[..i] && !IsLive(s, known) && s.path in live && u == GapOf(s);
            assert s in relations[..i + 1];
          }
        }
      }
    }
    assert relations[..|relations|] == relations;
  }

  // ---------------------------------------------------------------------------------------------
  // One record for each key
  // ---------------------------------------------------------------------------------------------

  predicate EntityFirst(a: Entity, b: Entity) {
    if a.path != b.path then NotAfter(a.path, b.path)
    else if a.startLine != b.startLine then a.startLine < b.startLine
    else NotAfter(a.id, b.id)
  }

  lemma EntityOrder()
    ensures IsOrder(EntityFirst)
  {
    hide NotAfter;
    forall a, b ensures EntityFirst(a, b) || EntityFirst(b, a) {
      NotAfterTotal(a.path, b.path);
      NotAfterTotal(a.id, b.id);
    }
    forall a, b, c | EntityFirst(a, b) && EntityFirst(b, c) ensures EntityFirst(a, c) {
      PathsTransitive(a.path, b.path, c.path);
      if a.path == b.path == c.path && a.startLine == b.startLine == c.startLine {
        NotAfterTransitive(a.id, b.id, c.id);
      }
    }
  }

  lemma PathsTransitive(a: string, b: string, c: string)
    ensures NotAfter(a, b) && NotAfter(b, c) ==> NotAfter(a, c)
    ensures NotAfter(a, b) && NotAfter(b, a) ==> a == b
    ensures NotAfter(a, b) && NotAfter(b, c) && a == c ==> a == b
  {
    NotAfterTotal(a, b);
    if NotAfter(a, b) && NotAfter(b, c) {
      NotAfterTransitive(a, b, c);
    }
  }

  /** The first entity with an id is the one kept. */
  predicate FirstWithId(entities: seq<Entity>, e: Entity) {
    exists i :: 0 <= i < |entities| && entities[i] == e && forall j :: 0 <= j < i ==> entities[j].id != e.id
  }

  method DedupeEntities(entities: seq<Entity>) returns (kept: seq<Entity>)
    ensures IsSorted(kept, EntityFirst) && Ids(kept) == Ids(entities)
    ensures forall i, j :: 0 <= i < j < |kept| ==> kept[i].id != kept[j].id
    ensures forall e :: e in kept <==> FirstWithId(entities, e)
  {
    hide EntityFirst;
    var byId: map<string, Entity> := map[];
    for i := 0 to |entities|
      invariant forall id :: id in byId <==> id in Ids(entities[..i])
      invariant forall id :: id in byId ==> byId[id].id == id && FirstWithId(entities, byId[id])
    {
      var e := entities[i];
      assert entities[..i + 1] == entities[..i] + [e];
      if e.id !in byId {
        assert forall j :: 0 <= j < i ==> entities[j] in entities[..i];
        assert FirstWithId(entities, e);
        byId := byId[e.id := e];
      }
    }
    assert entities[..|entities|] == entities;
    var list := ById(byId);
    EntityOrder();
    kept := Sort(list, EntityFirst);
    SameElements(kept, list);
    DistinctMultiset(list, kept);
    forall e ensures e in kept <==> FirstWithId(entities, e) {
      if FirstWithId(entities, e) {
        assert e in entities && e.id in byId && FirstWithId(entities, byId[e.id]);
        FirstIsOne(entities, e, byId[e.id]);
      }
    }
    forall i, j | 0 <= i < j < |kept| ensures kept[i].id != kept[j].id {
      assert kept[i] in list && kept[j] in list;
    }
    assert forall id :: id in Ids(entities) ==> byId[id] in kept;
  }

  lemma FirstIsOne(entities: seq<Entity>, e: Entity, f: Entity)
    requires FirstWithId(entities, e) && FirstWithId(entities, f) && e.id == f.id
    ensures e == f
  {
  }

  method ById(byId: map<string, Entity>) returns (list: seq<Entity>)
    requires forall id :: id in byId ==> byId[id].id == id
    ensures Distinct(list) && forall e :: e in list <==> e.id in byId && byId[e.id] == e
  {
    list := [];
    var todo := byId.Keys;
    while todo != {}
      invariant todo <= byId.Keys && Distinct(list) && forall e :: e in list <==>
                  e.id in byId.Keys - todo && byId[e.id] == e
    {
      var id :| id in todo;
      assert forall i :: 0 <= i < |list| ==> list[i] in list;
      list := list + [byId[id]];
      todo := todo - {id};
    }
  }

  function UnknownKey(u: Unknown): string {
    UnknownText(u.kind) + [' '] + (u.path + [' '] + u.detail)
  }

  lemma KindsDiffer(a: UnknownKind, b: UnknownKind)
    requires UnknownText(a) == UnknownText(b)
    ensures a == b
  {
    assert |UnknownText(a)| == |UnknownText(b)| && UnknownText(a)[2] == UnknownText(b)[2]
           && UnknownText(a)[|UnknownText(a)| - 1] == UnknownText(b)[|UnknownText(b)| - 1];
  }

  /** Keys tell gaps apart when the files have no space in their paths. */
  lemma UnknownKeysDiffer(a: Unknown, b: Unknown)
    requires UnknownKey(a) == UnknownKey(b) && ' ' !in a.path && ' ' !in b.path
    ensures a == b
  {
    JoinedBySpace(UnknownText(a.kind), a.path + [' '] + a.detail, UnknownText(b.kind), b.path + [' '] + b.detail);
    JoinedBySpace(a.path, a.detail, b.path, b.detail);
    KindsDiffer(a.kind, b.kind);
  }

  predicate UnknownFirst(a: Unknown, b: Unknown) {
    if a.path != b.path then NotAfter(a.path, b.path)
    else if a.kind != b.kind then NotAfter(UnknownText(a.kind), UnknownText(b.kind))
    else NotAfter(a.detail, b.detail)
  }

  lemma UnknownOrder()
    ensures IsOrder(UnknownFirst)
  {
    hide NotAfter, UnknownText;
    forall a, b ensures UnknownFirst(a, b) || UnknownFirst(b, a) {
      NotAfterTotal(a.path, b.path);
      NotAfterTotal(UnknownText(a.kind), UnknownText(b.kind));
      NotAfterTotal(a.detail, b.detail);
    }
    forall a, b, c | UnknownFirst(a, b) && UnknownFirst(b, c) ensures UnknownFirst(a, c) {
      PathsTransitive(a.path, b.path, c.path);
      PathsTransitive(UnknownText(a.kind), UnknownText(b.kind), UnknownText(c.kind));
      PathsTransitive(a.detail, b.detail, c.detail);
      if a.kind == c.kind && UnknownText(a.kind) == UnknownText(b.kind) {
        KindsDiffer(a.kind, b.kind);
      }
    }
  }

  /** The last record with its key. */
  predicate LastWithKey(unknowns: seq<Unknown>, u: Unknown) {
    exists i :: 0 <= i < |unknowns| && unknowns[i] == u && NoLaterOne(unknowns, u, i)
  }

  predicate NoLaterOne(unknowns: seq<Unknown>, u: Unknown, i: nat) {
    forall j :: i < j < |unknowns| && UnknownKey(unknowns[j]) == UnknownKey(u) ==> unknowns[j] == u
  }

  lemma LastGrows(unknowns: seq<Unknown>, last: Unknown, u: Unknown)
    ensures LastWithKey(unknowns + [last], u) <==>
              u == last || (LastWithKey(unknowns, u) && UnknownKey(last) != UnknownKey(u))
  {
    hide UnknownKey;
    var more, n := unknowns + [last], |unknowns|;
    assert more[n] == last && forall i :: 0 <= i < n ==> more[i] == unknowns[i];
    if u == last {
      assert NoLaterOne(more, u, n);
    }
    if LastWithKey(unknowns, u) && UnknownKey(last) != UnknownKey(u) {
      var i :| 0 <= i < n && unknowns[i] == u && NoLaterOne(unknowns, u, i);
      assert more[i] == u && NoLaterOne(more, u, i);
    }
    if LastWithKey(more, u) && u != last {
      var i :| 0 <= i <= n && more[i] == u && NoLaterOne(more, u, i);
      assert UnknownKey(more[n]) != UnknownKey(u);
      assert unknowns[i] == u && NoLaterOne(unknowns, u, i);
    }
  }

  ghost predicate TellApart(unknowns: iset<Unknown>) {
    forall u, v :: u in unknowns && v in unknowns && UnknownKey(u) == UnknownKey(v) ==> u == v
  }

  /** Of the records with one key the last is kept; nothing is lost exactly when no two records share a key. */
  method DedupeUnknowns(unknowns: seq<Unknown>) returns (kept: seq<Unknown>)
    ensures IsSorted(kept, UnknownFirst)
    ensures forall u :: u in kept <==> LastWithKey(unknowns, u)
    ensures forall u :: u in kept ==> u in unknowns
    ensures forall u :: u in unknowns ==> exists v :: v in kept && UnknownKey(v) == UnknownKey(u)
    ensures forall i, j :: 0 <= i < j < |kept| ==> UnknownKey(kept[i]) != UnknownKey(kept[j])
    ensures (forall u :: u in unknowns ==> u in kept) <==> TellApart(iset u | u in unknowns)
  {
    hide UnknownFirst, UnknownKey, LastWithKey, IsSorted, NotAfter, TellApart;
    var seen: map<string, Unknown> := map[];
    NoneLast();
    for i := 0 to |unknowns|
      invariant forall u :: u in unknowns[..i] ==> UnknownKey(u) in seen
      invariant forall k :: k in seen ==> UnknownKey(seen[k]) == k && seen[k] in unknowns
      invariant forall u :: LastWithKey(unknowns[..i], u) <==> UnknownKey(u) in seen && seen[UnknownKey(u)] == u
    {
      assert unknowns[..i + 1] == unknowns[..i] + [unknowns[i]];
      forall u ensures LastWithKey(unknowns[..i + 1], u)
                       <==>
                       || u == unknowns[i]
                       || (LastWithKey(unknowns[..i], u) && UnknownKey(unknowns[i]) != UnknownKey(u)) {
        LastGrows(unknowns[..i], unknowns[i], u);
      }
      seen := seen[UnknownKey(unknowns[i]) := unknowns[i]];
    }
    assert unknowns[..|unknowns|] == unknowns;
    var list := BySeen(seen);
    UnknownOrder();
    kept := Sort(list, UnknownFirst);
    SameElements(kept, list);
    DistinctMultiset(list, kept);
    KeptExactly(unknowns, seen, kept);
  }

  lemma NoneLast()
    ensures forall u :: !LastWithKey([], u)
  {
  }

  lemma KeptExactly(unknowns: seq<Unknown>, seen: map<string, Unknown>, kept: seq<Unknown>)
    requires forall u :: u in kept <==> UnknownKey(u) in seen && seen[UnknownKey(u)] == u
    requires forall u :: u in unknowns ==> UnknownKey(u) in seen
    requires forall k :: k in seen ==> UnknownKey(seen[k]) == k && seen[k] in unknowns
    requires Distinct(kept)
    ensures forall u :: u in kept ==> u in unknowns
    ensures forall u :: u in unknowns ==> exists v :: v in kept && UnknownKey(v) == UnknownKey(u)
    ensures forall i, j :: 0 <= i < j < |kept| ==> UnknownKey(kept[i]) != UnknownKey(kept[j])
    ensures (forall u :: u in unknowns ==> u in kept) <==> TellApart(iset u | u in unknowns)
  {
    hide UnknownKey;
    forall u | u in unknowns ensures exists v :: v in kept && UnknownKey(v) == UnknownKey(u) {
      assert seen[UnknownKey(u)] in kept;
    }
    forall i, j | 0 <= i < j < |kept| ensures UnknownKey(kept[i]) != UnknownKey(kept[j]) {
      assert kept[i] in kept && kept[j] in kept;
    }
  }

  /** With spaces in paths two different records can have one key, and the earlier of the two is lost. */
  method UnknownKeysClash() returns (kept: seq<Unknown>)
    ensures Unknown(ParserError, "a b", "c") !in kept && Unknown(ParserError, "a", "b c") in kept
  {
    hide *;
    var u, v := Unknown(ParserError, "a b", "c"), Unknown(ParserError, "a", "b c");
    SpacedRecords();
    LastGrows([u], v, u);
    LastGrows([u], v, v);
    assert [u] + [v] == [u, v];
    kept := DedupeUnknowns([u, v]);
  }

  lemma SpacedRecords()
    ensures UnknownKey(Unknown(ParserError, "a b", "c")) == UnknownKey(Unknown(ParserError, "a", "b c"))
  {
    assert "a b" + [' '] + "c" == "a" + [' '] + "b c";
  }

  method BySeen(seen: map<string, Unknown>) returns (list: seq<Unknown>)
    requires forall k :: k in seen ==> UnknownKey(seen[k]) == k
    ensures Distinct(list) && forall u :: u in list <==> UnknownKey(u) in seen && seen[UnknownKey(u)] == u
  {
    hide UnknownKey;
    list := [];
    var todo := seen.Keys;
    while todo != {}
      invariant todo <= seen.Keys && Distinct(list)
      invariant forall u :: u in list <==> UnknownKey(u) in seen.Keys - todo && seen[UnknownKey(u)] == u
    {
      var k :| k in todo;
      assert forall i :: 0 <= i < |list| ==> list[i] in list;
      list := list + [seen[k]];
      todo := todo - {k};
    }
  }

  // ---------------------------------------------------------------------------------------------
  // The merge
  // ---------------------------------------------------------------------------------------------

  function NoFacts(): Facts {
    Facts([], [], [])
  }

  /** The facts of a snapshot that come from these files. */
  function Reused(previous: Option<Facts>, paths: set<string>): (facts: Facts)
    ensures forall e :: e in facts.entities <==> previous.Some? && e in previous.value.entities && e.path in paths
    ensures forall r :: r in facts.relations <==> previous.Some? && r in previous.value.relations && r.path in paths
    ensures forall u :: u in facts.unknowns <==> previous.Some? && u in previous.value.unknowns && u.path in paths
  {
    if previous.None? then NoFacts()
    else
      Facts(Where(previous.value.entities, (e: Entity) => e.path in paths),
            Where(previous.value.relations, (r: Relation) => r.path in paths),
            Where(previous.value.unknowns, (u: Unknown) => u.path in paths))
  }

  /** The facts at hand: the freshly parsed ones, then those carried over. */
  function Joined(parsed: Facts, carried: Facts): Facts {
    Facts(parsed.entities + carried.entities, parsed.relations + carried.relations, parsed.unknowns + carried.unknowns)
  }

  /** A relation the merge drops although its file is still there. */
  predicate Dropped(r: Relation, all: Facts, live: set<string>) {
    r in all.relations && !IsLive(r, Ids(all.entities)) && r.path in live
  }

  /** The gaps a merge has to report: those at hand, and one for every relation it drops from a live file. */
  ghost function Gaps(all: Facts, live: set<string>): iset<Unknown> {
    iset u | u in all.unknowns || LeftBy(all, live, u)
  }

  /** One record for every key of a gap and no made-up one; all of them exactly when no two gaps share a key. */
  ghost predicate Reports(unknowns: seq<Unknown>, gaps: iset<Unknown>) {
    && (forall u :: u in unknowns ==> u in gaps)
    && (forall u :: u in gaps ==> exists v :: v in unknowns && UnknownKey(v) == UnknownKey(u))
    && ((forall u :: u in gaps ==> u in unknowns) <==> TellApart(gaps))
  }

  ghost predicate LeftBy(all: Facts, live: set<string>, u: Unknown) {
    exists r :: Dropped(r, all, live) && u == GapOf(r)
  }

  method MergeFacts(parsed: Facts, previous: Option<Facts>, reusable: set<string>, live: set<string>)
    returns (merged: Merged, ghost all: Facts)
    ensures all == Joined(parsed, Reused(previous, reusable))
    ensures Ids(merged.facts.entities) == Ids(all.entities)
    ensures forall e :: e in merged.facts.entities <==> FirstWithId(all.entities, e)
    ensures merged.facts.relations == Where(all.relations, (r: Relation) => IsLive(r, Ids(merged.facts.entities)))
    ensures forall r :: r in merged.facts.relations <==> r in all.relations && IsLive(r, Ids(merged.facts.entities))
    ensures var dropped := Where(all.relations, (r: Relation) => !IsLive(r, Ids(merged.facts.entities)));
            multiset(merged.facts.relations) + multiset(dropped) == multiset(all.relations)
                && merged.invalidated == |dropped|
    ensures Reports(merged.facts.unknowns, Gaps(all, live))
    ensures forall path :: path in merged.reusedParsedPaths <==>
              exists e :: e in Reused(previous, reusable).entities && e.kind.FileEntity? && e.path == path
  {
    hide GapOf, IsLive, UnknownKey, FirstWithId, LastWithKey, Reused, TellApart, Dropped, LeftBy, IsSorted,
         UnknownFirst, EntityFirst, Ids, Where;
    var reused := Reused(previous, reusable);
    all := Joined(parsed, reused);
    var entities := parsed.entities;
    var paths: set<string> := {};
    for i := 0 to |reused.entities|
      invariant entities == parsed.entities + reused.entities[..i]
      invariant forall path :: path in paths <==>
                  exists j :: 0 <= j < i && reused.entities[j].kind.FileEntity? && reused.entities[j].path == path
    {
      entities := entities + [reused.entities[i]];
      if reused.entities[i].kind.FileEntity? {
        paths := paths + {reused.entities[i].path};
      }
    }
    assert entities == all.entities;
    var relations := parsed.relations + reused.relations;
    var known := Ids(entities);
    var kept := Where(relations, (r: Relation) => IsLive(r, known));
    var gaps := DanglingUnknowns(relations, known, live);
    var final := DedupeEntities(entities);
    var unknowns := DedupeUnknowns(parsed.unknowns + reused.unknowns + gaps);
    WhereSplits(relations, (r: Relation) => IsLive(r, known), (r: Relation) => !IsLive(r, known));
    merged := Merged(Facts(final, kept, unknowns), paths, |relations| - |kept|);
    forall path ensures path in paths <==> exists e :: e in reused.entities && e.kind.FileEntity? && e.path == path {
      if e :| e in reused.entities && e.kind.FileEntity? && e.path == path {
        var j :| 0 <= j < |reused.entities| && reused.entities[j] == e;
      }
    }
    DroppedOnes(all, relations, gaps, known, live);
    assert (iset u | u in all.unknowns + gaps) == Gaps(all, live);
    assert all.unknowns + gaps == parsed.unknowns + reused.unknowns + gaps;
  }

  lemma DroppedOnes(all: Facts, relations: seq<Relation>, gaps: seq<Unknown>, known: set<string>, live: set<string>)
    requires relations == all.relations && known == Ids(all.entities)
    requires forall u :: u in gaps <==>
               exists r :: r in relations && !IsLive(r, known) && r.path in live && u == GapOf(r)
    ensures forall u :: u in gaps <==> LeftBy(all, live, u)
  {
    hide IsLive, GapOf;
    forall u ensures u in gaps <==> LeftBy(all, live, u) {
      if u in gaps {
        var r :| r in relations && !IsLive(r, known) && r.path in live && u == GapOf(r);
        assert Dropped(r, all, live);
      }
    }
  }
}
