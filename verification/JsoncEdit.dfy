/** The two edits on text, and when one undoes the other. */
module JsoncEdit {
  import opened Prelude
  import opened JsonString
  import opened JsoncSyntax
  import opened JsoncReader
  import opened JsoncLayout
  import opened JsoncTree
  import opened JsoncChange

  function SourceLayout(source: string, d: Document): (l: Layout)
    ensures ValidLayout(l)
  {
    LayoutOf(source, NodeAt(d.root, |d.lead|), Print(d.root))
  }

  function Outer(source: string, stop: Stop): (outer: string)
    requires stop.Stop?
    ensures Blank(outer)
  {
    LineIndent(Before(source, stop.at))
  }

  /** The document of `source` and where an edit of `path` lands in it; None when the edit gives up. */
  function Target(source: string, path: seq<string>): (t: Option<(Document, Stop)>)
    ensures t.Some? ==> ReadDocument(source) == Some(t.value.0) && IsObject(t.value.0.root) && path != []
    ensures t.Some? ==> t.value.1 == Descend(t.value.0.root, |t.value.0.lead|, path) && t.value.1.Stop?
  {
    var d := ReadDocument(source);
    if d.None? || !IsObject(d.value.root) || path == [] then None
    else
      var stop := Descend(d.value.root, |d.value.lead|, path);
      if stop.Blocked? then None else Some((d.value, stop))
  }

  function PutInto(d: Document, path: seq<string>, owner: Value): Document
    requires IsObject(d.root) && path != []
  {
    d.(root := Put(d.root, path, owner))
  }

  function SetDocument(source: string, path: seq<string>, value: Json): Option<Document> {
    var t := Target(source, path);
    if t.None? then None
    else
      var (d, stop) := t.value;
      Some(PutInto(d, path, Edited(SourceLayout(source, d), stop.owner, Outer(source, stop), stop.rest, value)))
  }

  function SetText(source: string, path: seq<string>, value: Json): Option<string> {
    var d := SetDocument(source, path, value);
    if d.None? then None else Some(PrintDocument(d.value))
  }

  function RemoveText(source: string, path: seq<string>, tidy: bool): Option<string> {
    var t := Target(source, path);
    if t.None? then None
    else
      var (d, stop) := t.value;
      var found := Find(Keys(stop.owner.members), stop.rest[0]);
      if !found.Once? then Some(source)
      else Some(PrintDocument(PutInto(d, path, Without(stop.owner, found.index, tidy))))
  }

  // ---------------------------------------------------------------------------------------------
  // What the edited text parses to
  // ---------------------------------------------------------------------------------------------

  lemma ObjectDocument(d: Document, root: Value)
    requires WellFormedDocument(d) && IsObject(root) && WellFormed(root)
    ensures WellFormedDocument(d.(root := root))
  {
    hide WellFormed, Trivia, Skip;
  }

  lemma RootIsWellFormed(d: Document)
    requires WellFormedDocument(d)
    ensures WellFormed(d.root)
  {
  }

  /** A document with another well-formed object in the target's place reads back as just that. */
  lemma PutReadsBack(source: string, path: seq<string>, owner: Value)
    requires Target(source, path).Some? && IsObject(owner) && WellFormed(owner)
    ensures var (d, stop) := Target(source, path).value;
            var after := PutInto(d, path, owner);
            && WellFormedDocument(d) && WellFormedDocument(after) && WellFormed(stop.owner)
            && PrintDocument(d) == source && ReadDocument(PrintDocument(after)) == Some(after)
  {
    hide WellFormed, WellFormedDocument, PrintDocument, ReadDocument, Put, Descend, IsObject;
    var (d, stop) := Target(source, path).value;
    ReadDocumentIsPrinted(source);
    RootIsWellFormed(d);
    PutIsWellFormed(d.root, |d.lead|, path, owner);
    ObjectDocument(d, Put(d.root, path, owner));
    ReadsPrintedDocument(PutInto(d, path, owner));
  }

  /** Setting succeeds exactly on documents whose root is an object and whose way along the path is clear. */
  lemma SettingSucceeds(source: string, path: seq<string>, value: Json)
    ensures SetText(source, path, value).Some?
            <==> && ReadDocument(source).Some? && IsObject(ReadDocument(source).value.root) && path != []
                 && Clear(ReadDocument(source).value.root, path)
  {
    hide ReadDocument, Clear, Descend, Edited, PrintDocument, SourceLayout, Put, Outer;
    var d := ReadDocument(source);
    if d.Some? && IsObject(d.value.root) && path != [] {
      StopsWhenClear(d.value.root, |d.value.lead|, path);
    }
  }

  /** What setting returns parses to the same tree with the value at the path, every other member kept. */
  lemma SettingWorks(source: string, path: seq<string>, value: Json)
    requires ValidJson(value) && SetText(source, path, value).Some?
    ensures ReadDocument(source).Some? && ReadDocument(SetText(source, path, value).value).Some? && path != []
    ensures var before := ReadDocument(source).value;
            var after := ReadDocument(SetText(source, path, value).value).value;
            after.lead == before.lead && after.post == before.post && SetAt(before.root, after.root, path, value)
  {
    hide ReadDocument, Descend, Edited, PrintDocument, SourceLayout, Put, ValidJson, WellFormed, WellFormedDocument,
         SetAt, Find, Keys, ReadValue;
    var (d, stop) := Target(source, path).value;
    StopsWhenClear(d.root, |d.lead|, path);
    ReadDocumentIsPrinted(source);
    RootIsWellFormed(d);
    PutIsWellFormed(d.root, |d.lead|, path, stop.owner);
    var l, outer := SourceLayout(source, d), Outer(source, stop);
    EditedWorks(l, stop.owner, outer, stop.rest, value);
    var owner := Edited(l, stop.owner, outer, stop.rest, value);
    PutReadsBack(source, path, owner);
    PutSets(d.root, |d.lead|, path, owner, value);
  }

  lemma RemovingSucceeds(source: string, path: seq<string>, tidy: bool)
    ensures RemoveText(source, path, tidy).Some?
            <==> && ReadDocument(source).Some? && IsObject(ReadDocument(source).value.root) && path != []
                 && Clear(ReadDocument(source).value.root, path)
  {
    hide ReadDocument, Clear, Descend, Without, PrintDocument, Put, Find, Keys;
    var d := ReadDocument(source);
    if d.Some? && IsObject(d.value.root) && path != [] {
      StopsWhenClear(d.value.root, |d.value.lead|, path);
    }
  }

  /**
   * What removing returns parses to the same tree without the member at the path; the text stays when there is none.
   */
  lemma RemovingWorks(source: string, path: seq<string>, tidy: bool)
    requires RemoveText(source, path, tidy).Some?
    ensures Target(source, path).Some? && ReadDocument(RemoveText(source, path, tidy).value).Some?
    ensures var (before, stop) := Target(source, path).value;
            var after := ReadDocument(RemoveText(source, path, tidy).value).value;
            if Find(Keys(stop.owner.members), stop.rest[0]).Absent? then RemoveText(source, path, tidy) == Some(source)
            else after.lead == before.lead && after.post == before.post && RemovedAt(before.root, after.root, path)
  {
    hide ReadDocument, Descend, Without, PrintDocument, Put, WellFormed, WellFormedDocument, RemovedAt, Find, Keys,
         ReadValue, Lost;
    var (d, stop) := Target(source, path).value;
    StopsWhenClear(d.root, |d.lead|, path);
    ReadDocumentIsPrinted(source);
    RootIsWellFormed(d);
    PutIsWellFormed(d.root, |d.lead|, path, stop.owner);
    var found := Find(Keys(stop.owner.members), stop.rest[0]);
    if found.Once? {
      var owner := Without(stop.owner, found.index, tidy);
      WithoutWorks(stop.owner, found.index, tidy);
      PutReadsBack(source, path, owner);
      RemovedHere(stop.owner, owner, stop.rest, found.index);
      PutRemoves(d.root, |d.lead|, path, owner);
    }
  }

  // ---------------------------------------------------------------------------------------------
  // Undo
  // ---------------------------------------------------------------------------------------------

  lemma AddedKeys(before: seq<Member>, after: seq<Member>, key: string, value: Json)
    requires AddedLast(before, after, key, value) && Find(Keys(before), key).Absent?
    ensures Find(Keys(after), key) == Once(|before|)
  {
    hide Denotes, KeyOf, Find;
    FindMeans(Keys(before), key);
    FindMeans(Keys(after), key);
    assert Keys(after)[|before|] == key;
    forall j | 0 <= j < |after| && j != |before| ensures Keys(after)[j] != key {
      assert Kept(before[j], after[j]);
      assert Keys(before)[j] == KeyOf(before[j]);
    }
  }

  /** The last key of the path is not in the object that the rest of the path leads to. */
  predicate Adds(source: string, path: seq<string>) {
    && Target(source, path).Some?
    && var (d, stop) := Target(source, path).value;
       |stop.rest| == 1 && Find(Keys(stop.owner.members), stop.rest[0]).Absent?
  }

  lemma AddsEdited(l: Layout, o: Value, outer: string, rest: seq<string>, value: Json)
    requires IsObject(o) && |rest| == 1 && Find(Keys(o.members), rest[0]).Absent?
    ensures Edited(l, o, outer, rest, value) == Added(l, o, outer, rest[0], value)
  {
    hide Appended, Filled, Find, Keys;
  }

  lemma SameOwner(d: Document, path: seq<string>, owner: Value, other: Value)
    requires IsObject(d.root) && path != [] && Descend(d.root, |d.lead|, path).Stop?
             && |Descend(d.root, |d.lead|, path).rest| == 1
    requires IsObject(owner) && IsObject(other)
    requires !Find(Keys(owner.members), Descend(d.root, |d.lead|, path).rest[0]).Twice?
    requires !Find(Keys(other.members), Descend(d.root, |d.lead|, path).rest[0]).Twice?
    ensures PutInto(d, path, owner) == PutInto(d, path, other) ==> owner == other
  {
    hide Find, Keys, Put, Descend;
    PutDescends(d.root, |d.lead|, path, owner, other);
    PutDescends(d.root, |d.lead|, path, other, owner);
  }

  lemma RemoveIs(source: string, path: seq<string>, d: Document, stop: Stop, i: nat)
    requires Target(source, path) == Some((d, stop)) && Find(Keys(stop.owner.members), stop.rest[0]) == Once(i)
    ensures RemoveText(source, path, true) == Some(PrintDocument(PutInto(d, path, Without(stop.owner, i, true))))
  {
    hide Target, Find, Keys, Without, PrintDocument, PutInto;
  }

  lemma TargetIs(source: string, path: seq<string>, d: Document, stop: Stop)
    requires ReadDocument(source) == Some(d) && IsObject(d.root) && path != [] && stop.Stop?
    requires Descend(d.root, |d.lead|, path) == stop
    ensures Target(source, path) == Some((d, stop))
  {
    hide ReadDocument, Descend;
  }

  lemma SetIs(source: string, path: seq<string>, value: Json)
    requires Target(source, path).Some?
    ensures var (d, stop) := Target(source, path).value;
            SetText(source, path, value)
            == Some(PrintDocument(PutInto(d, path,
                                          Edited(SourceLayout(source, d), stop.owner, Outer(source, stop), stop.rest,
                                                 value))))
  {
    hide Target, Edited, SourceLayout, Outer, PutInto, PrintDocument;
  }

  lemma PutBack(d: Document, path: seq<string>, owner: Value, other: Value)
    requires IsObject(d.root) && path != [] && IsObject(owner)
    requires Descend(d.root, |d.lead|, path).Stop? && |Descend(d.root, |d.lead|, path).rest| == 1
    requires !Find(Keys(owner.members), Descend(d.root, |d.lead|, path).rest[0]).Twice?
    ensures var after := PutInto(d, path, owner);
            && IsObject(after.root) && after.lead == d.lead
            && Descend(after.root, |after.lead|, path) == Descend(d.root, |d.lead|, path).(owner := owner)
            && PutInto(after, path, other) == PutInto(d, path, other)
    ensures PutInto(d, path, Descend(d.root, |d.lead|, path).owner) == d
  {
    hide Descend, Put, Find, Keys;
    PutDescends(d.root, |d.lead|, path, owner, other);
  }

  /** The object a removal leaves when it follows the addition of a member. */
  function GoneAgain(l: Layout, o: Value, outer: string, key: string, value: Json): Value
    requires IsObject(o)
  {
    Without(Added(l, o, outer, key, value), |o.members|, true)
  }

  lemma GoneAgainIs(l: Layout, o: Value, outer: string, key: string, value: Json)
    requires IsObject(o)
    ensures GoneAgain(l, o, outer, key, value) == Without(Added(l, o, outer, key, value), |o.members|, true)
  {
  }

  lemma ObjectIsGroup(v: Value)
    requires IsObject(v)
    ensures v.Group?
  {
  }

  /** A removal right after an addition: the text of the tree in which the object has lost what it gained. */
  lemma SetThenRemove(source: string, path: seq<string>, value: Json)
    requires ValidJson(value) && Adds(source, path)
    ensures SetText(source, path, value).Some?
    ensures var (d, stop) := Target(source, path).value;
            RemoveText(SetText(source, path, value).value, path, true)
            == Some(PrintDocument(PutInto(d, path,
                                          GoneAgain(SourceLayout(source, d), stop.owner, Outer(source, stop),
                                                    stop.rest[0], value))))
  {
    hide *;
    AddsParts(source, path);
    var (d, stop) := Target(source, path).value;
    TargetParts(source, path);
    var l, outer, key := SourceLayout(source, d), Outer(source, stop), stop.rest[0];
    var owner := Added(l, stop.owner, outer, key, value);
    TargetOwner(source, path);
    SetIs(source, path, value);
    AddsEdited(l, stop.owner, outer, stop.rest, value);
    AddedWorks(l, stop.owner, outer, key, value);
    ObjectIsGroup(stop.owner);
    ObjectIsGroup(owner);
    AddedKeys(stop.owner.members, owner.members, key, value);
    WithoutWorks(owner, |stop.owner.members|, true);
    GoneAgainIs(l, stop.owner, outer, key, value);
    PutReadsBack(source, path, owner);
    var after := PutInto(d, path, owner);
    PutBack(d, path, owner, Without(owner, |stop.owner.members|, true))
        by { OnceIsNotTwice(Find(Keys(owner.members), key), |stop.owner.members|); }
    TargetIs(PrintDocument(after), path, after, Descend(d.root, |d.lead|, path).(owner := owner));
    RemoveIs(PrintDocument(after), path, after, stop.(owner := owner), |stop.owner.members|);
  }

  lemma OnceIsNotTwice(found: Found, i: nat)
    requires found == Once(i) || found.Absent?
    ensures !found.Twice?
  {
  }

  lemma AddsParts(source: string, path: seq<string>)
    requires Adds(source, path)
    ensures Target(source, path).Some?
    ensures var (d, stop) := Target(source, path).value;
            IsObject(stop.owner) && |stop.rest| == 1 && Find(Keys(stop.owner.members), stop.rest[0]).Absent?
  {
    hide Find, Keys, Descend;
  }

  lemma TargetParts(source: string, path: seq<string>)
    requires Target(source, path).Some?
    ensures var (d, stop) := Target(source, path).value;
            && path != [] && IsObject(d.root) && stop == Descend(d.root, |d.lead|, path) && stop.Stop?
            && ValidLayout(SourceLayout(source, d)) && Blank(Outer(source, stop))
  {
    hide Descend, SourceLayout, Outer;
  }

  lemma TargetOwner(source: string, path: seq<string>)
    requires Target(source, path).Some?
    ensures var (d, stop) := Target(source, path).value; IsObject(stop.owner) && WellFormed(stop.owner)
  {
    hide *;
    TargetParts(source, path);
    var (d, stop) := Target(source, path).value;
    TargetReads(source, path);
    ReadDocumentIsPrinted(source);
    RootIsWellFormed(d);
    PutIsWellFormed(d.root, |d.lead|, path, d.root);
  }

  lemma TargetReads(source: string, path: seq<string>)
    requires Target(source, path).Some?
    ensures ReadDocument(source) == Some(Target(source, path).value.0) && IsObject(Target(source, path).value.1.owner)
  {
    hide ReadDocument, Descend;
  }

  /**
   * A tidy removal of the member just added gives back the original
   * text exactly when the object it went into can undo it.
   */
  lemma AdditionUndone(source: string, path: seq<string>, value: Json)
    requires ValidJson(value) && Adds(source, path)
    ensures SetText(source, path, value).Some?
    ensures var (d, stop) := Target(source, path).value;
            RemoveText(SetText(source, path, value).value, path, true) == Some(source)
            <==> CanUndo(SourceLayout(source, d), stop.owner)
  {
    hide *;
    AddsParts(source, path);
    TargetParts(source, path);
    SetThenRemove(source, path, value);
    TargetOwner(source, path);
    var (d, stop) := Target(source, path).value;
    var l, outer, key := SourceLayout(source, d), Outer(source, stop), stop.rest[0];
    ObjectIsGroup(stop.owner);
    var added := Added(l, stop.owner, outer, key, value);
    AddedWorks(l, stop.owner, outer, key, value);
    ObjectIsGroup(added);
    UndoneExactly(l, stop.owner, outer, key, value);
    var left := Without(added, |stop.owner.members|, true);
    GoneAgainIs(l, stop.owner, outer, key, value);
    AddedKeys(stop.owner.members, added.members, key, value);
    WithoutWorks(added, |stop.owner.members|, true);
    LeftKeys(stop.owner.members, added.members, left.members, key, value) by { ObjectIsGroup(left); }
    ObjectIsGroup(left);
    PutReadsBack(source, path, left);
    OnceIsNotTwice(Find(Keys(stop.owner.members), key), 0);
    PutBack(d, path, stop.owner, left);
    SameOwner(d, path, left, stop.owner);
    PutReadsBack(source, path, stop.owner);
  }

  lemma LeftKeys(before: seq<Member>, added: seq<Member>, left: seq<Member>, key: string, value: Json)
    requires AddedLast(before, added, key, value) && Lost(added, left, |before|) && Find(Keys(before), key).Absent?
    ensures !Find(Keys(left), key).Twice?
  {
    hide Denotes, KeyOf, Find;
    FindMeans(Keys(before), key);
    FindMeans(Keys(left), key);
    forall j | 0 <= j < |left| ensures Keys(left)[j] != key {
      assert Kept(added[j], left[j]) && Kept(before[j], added[j]);
      assert Keys(before)[j] == KeyOf(before[j]);
    }
  }

  /**
   * For every edit that succeeds: setting and then removing the same path gives back the original text if and only if
   * just the last key was new and the object it went into can undo the addition. Objects created on the way stay.
   */
  lemma UndoRestores(source: string, path: seq<string>, value: Json)
    requires ValidJson(value) && SetText(source, path, value).Some?
    ensures Target(source, path).Some?
    ensures var (d, stop) := Target(source, path).value;
            RemoveText(SetText(source, path, value).value, path, true) == Some(source)
            <==> Adds(source, path) && CanUndo(SourceLayout(source, d), stop.owner)
  {
    hide *;
    SetHasTarget(source, path, value);
    TargetParts(source, path);
    TargetOwner(source, path);
    TargetReads(source, path);
    if Adds(source, path) {
      AdditionUndone(source, path, value);
    } else if RemoveText(SetText(source, path, value).value, path, true) == Some(source) {
      SettingWorks(source, path, value);
      var text := SetText(source, path, value).value;
      RemovingWorks(text, path, true);
      TargetReads(text, path);
      TargetParts(text, path);
      var before, after := ReadDocument(source).value, ReadDocument(text).value;
      ObjectIsGroup(Target(text, path).value.1.owner);
      if Find(Keys(Target(text, path).value.1.owner.members), Target(text, path).value.1.rest[0]).Absent? {
        SetSameIsThere(before.root, |before.lead|, path, value);
      } else {
        BackMeansAdded(before.root, |before.lead|, after.root, path, value);
      }
      AddsIs(source, path);
      assert false;
    }
  }

  /** An object that has no members and nothing but this text between its braces. */
  function Braces(close: string): Document {
    Document("", Group(true, [], close), "")
  }

  lemma BracesRead(close: string)
    requires Spaces(close)
    ensures ReadDocument("{" + close + "}") == Some(Braces(close))
  {
    hide ReadDocument;
    var d := Braces(close);
    SpacesAreTrivia(close);
    assert WellFormed(d.root) && Bounded(d.root, "") && Skip("") == Some(0);
    ReadsPrintedDocument(d);
    assert Print(d.root) == ['{'] + ("" + (close + ['}']));
    assert PrintDocument(d) == "{" + close + "}";
  }

  lemma BracesTarget(close: string, path: seq<string>, value: Json)
    requires Spaces(close) && path != []
    ensures Target("{" + close + "}", path) == Some((Braces(close), Stop(Braces(close).root, 0, path)))
    ensures SetText("{" + close + "}", path, value).Some?
  {
    hide ReadDocument, SetText;
    BracesRead(close);
    SettingSucceeds("{" + close + "}", path, value);
  }

  /** The space between empty braces is lost: `{ }` comes back as `{}`. */
  lemma SpaceInBracesIsLost(key: string, value: Json)
    requires ValidJson(value)
    ensures SetText("{ }", [key], value).Some?
            && RemoveText(SetText("{ }", [key], value).value, [key], true) != Some("{ }")
  {
    hide SetText, RemoveText, Target, ReadDocument, SourceLayout;
    assert "{" + " " + "}" == "{ }";
    BracesTarget(" ", [key], value);
    UndoRestores("{ }", [key], value);
  }

  /** An object created on the way to the member stays. */
  lemma CreatedObjectStays(outer: string, key: string, value: Json)
    requires ValidJson(value)
    ensures SetText("{}", [outer, key], value).Some?
            && RemoveText(SetText("{}", [outer, key], value).value, [outer, key], true) != Some("{}")
  {
    hide SetText, RemoveText, Target, ReadDocument, SourceLayout;
    assert "{" + "" + "}" == "{}";
    BracesTarget("", [outer, key], value);
    UndoRestores("{}", [outer, key], value);
  }

  lemma SetHasTarget(source: string, path: seq<string>, value: Json)
    requires SetText(source, path, value).Some?
    ensures Target(source, path).Some?
  {
    hide ReadDocument, Descend;
  }

  lemma AddsIs(source: string, path: seq<string>)
    requires Target(source, path).Some?
    ensures var (d, stop) := Target(source, path).value;
            Adds(source, path) <==> |stop.rest| == 1 && Find(Keys(stop.owner.members), stop.rest[0]).Absent?
  {
    hide Target, Find, Keys;
  }

  /** Setting a value that leaves the tree as it is finds its key there. */
  lemma {:induction false} SetSameIsThere(v: Value, at: nat, path: seq<string>, value: Json)
    requires IsObject(v) && path != [] && SetAt(v, v, path, value) && Descend(v, at, path).Stop?
    ensures var stop := Descend(v, at, path); !Find(Keys(stop.owner.members), stop.rest[0]).Absent?
    decreases path
  {
    hide Find, Keys, Denotes, Kept;
    var found := Find(Keys(v.members), path[0]);
    if found.Once? && |path| > 1 {
      SetSameIsThere(v.members[found.index].value, at + ValueOffset(v, found.index), path[1..], value);
    }
  }

  /**
   * When a removal leads back to the tree before a setting, the
   * setting added the last key of the path and nothing else.
   */
  lemma {:induction false} BackMeansAdded(v: Value, at: nat, w: Value, path: seq<string>, value: Json)
    requires IsObject(v) && path != [] && SetAt(v, w, path, value) && RemovedAt(w, v, path)
             && Descend(v, at, path).Stop?
    ensures var stop := Descend(v, at, path); |stop.rest| == 1 && Find(Keys(stop.owner.members), stop.rest[0]).Absent?
    decreases path
  {
    hide Keys, Denotes, KeyOf;
    var found := Find(Keys(v.members), path[0]);
    var there := Find(Keys(w.members), path[0]);
    SameLength(v, w, path, value);
    if found.Once? && |path| > 1 {
      var i := found.index;
      assert there == Once(i);
      BackMeansAdded(v.members[i].value, at + ValueOffset(v, i), w.members[i].value, path[1..], value);
    }
  }

  lemma SameLength(v: Value, w: Value, path: seq<string>, value: Json)
    requires IsObject(v) && path != [] && SetAt(v, w, path, value)
    ensures IsObject(w)
    ensures Find(Keys(v.members), path[0]).Once? ==> Keys(w.members) == Keys(v.members)
    ensures Find(Keys(v.members), path[0]).Absent? ==> |w.members| == |v.members| + 1
  {
    hide Find, Denotes, KeyOf;
    var found := Find(Keys(v.members), path[0]);
    if found.Once? {
      assert OnlyOther(v.members, w.members, found.index);
      forall j | 0 <= j < |v.members| ensures Keys(w.members)[j] == Keys(v.members)[j] {
        assert j != found.index ==> Kept(v.members[j], w.members[j]);
      }
    }
  }
}
