/** The text of a settings file whose hooks are edited. */
module SettingsText {
  import opened Prelude
  import opened JsoncSyntax
  import opened JsoncReader
  import opened JsoncTree
  import opened JsoncEdit
  import JsoncEditor

  const HOOKS := "hooks"

  /** What becomes of one event's list. */
  datatype Change = Leave | Drop | Put(value: Json)

  datatype EventChange = EventChange(event: string, change: Change)

  function ChangeEvent(source: string, c: EventChange): Option<string> {
    match c.change
    case Leave => Some(source)
    case Drop => RemoveText(source, [HOOKS, c.event], true)
    case Put(value) => SetText(source, [HOOKS, c.event], value)
  }

  function ChangeEvents(source: string, changes: seq<EventChange>): Option<string> {
    if changes == [] then Some(source)
    else
      var n := |changes| - 1;
      var text := ChangeEvents(source, changes[..n]);
      if text.None? then None else ChangeEvent(text.value, changes[n])
  }

  /** What becomes of an event's list: it may go, change or stay. */
  function ChangeOf(event: string, was: map<string, Json>, now: map<string, Json>): EventChange
    requires event in was
  {
    EventChange(event, if event !in now then Drop else if was[event] != now[event] then Put(now[event]) else Leave)
  }

  function ChangesOf(events: seq<string>, was: map<string, Json>, now: map<string, Json>): seq<EventChange>
    requires forall event :: event in events ==> event in was
  {
    seq(|events|, i requires 0 <= i < |events| => ChangeOf(events[i], was, now))
  }

  /** `now` is missing when no hooks are left at all; then the whole member goes. */
  method EditHooks(source: string, events: seq<string>, was: map<string, Json>, now: Option<map<string, Json>>)
    returns (text: Option<string>)
    requires forall event :: event in events ==> event in was
    ensures text == if now.None? then RemoveText(source, [HOOKS], true)
                    else ChangeEvents(source, ChangesOf(events, was, now.value))
  {
    hide RemoveText, SetText;
    if now.None? {
      text := JsoncEditor.RemoveJsoncMember(source, [HOOKS], true);
      return;
    }
    text := Some(source);
    ghost var changes := ChangesOf(events, was, now.value);
    assert changes[..0] == [];
    for i := 0 to |events|
      invariant text == ChangeEvents(source, changes[..i])
    {
      assert changes[..i + 1][..i] == changes[..i];
      var event := events[i];
      if text.None? {
        NoTextAnyMore(source, changes, i);
        return;
      }
      if event !in now.value {
        text := JsoncEditor.RemoveJsoncMember(text.value, [HOOKS, event], true);
      } else if was[event] != now.value[event] {
        text := JsoncEditor.SetJsoncMember(text.value, [HOOKS, event], now.value[event]);
      }
    }
    assert changes[..|changes|] == changes;
  }

  /** Once an edit has failed there is no text for the rest either. */
  lemma {:induction false} NoTextAnyMore(source: string, changes: seq<EventChange>, i: nat)
    requires i <= |changes| && ChangeEvents(source, changes[..i]).None?
    ensures ChangeEvents(source, changes).None?
    decreases |changes| - i
  {
    if i < |changes| {
      assert changes[..i + 1][..i] == changes[..i];
      NoTextAnyMore(source, changes, i + 1);
    } else {
      assert changes[..i] == changes;
    }
  }

  // ---------------------------------------------------------------------------------------------
  // Members of an object
  // ---------------------------------------------------------------------------------------------

  datatype Answer = NotThere | Doubled | There(value: Value)

  /** What an object has under a key. */
  function Look(v: Value, key: string): (answer: Answer)
    requires IsObject(v)
  {
    match Find(Keys(v.members), key)
    case Absent => NotThere
    case Once(i) => There(v.members[i].value)
    case Twice => Doubled
  }

  lemma SameMembers(a: seq<Member>, b: seq<Member>, i: nat, key: string)
    requires OnlyOther(a, b, i)
    ensures Keys(a) == Keys(b)
  {
    hide KeyOf;
    forall j | 0 <= j < |a| ensures Keys(a)[j] == Keys(b)[j] {
      assert j != i ==> Kept(a[j], b[j]);
    }
  }

  lemma OtherMemberKept(v: Value, w: Value, i: nat, key: string)
    requires IsObject(v) && IsObject(w) && OnlyOther(v.members, w.members, i) && KeyOf(v.members[i]) != key
    ensures Look(w, key) == Look(v, key)
  {
    hide Find, KeyOf;
    SameMembers(v.members, w.members, i, key);
    var found := Find(Keys(v.members), key);
    if found.Once? {
      FindMeans(Keys(v.members), key);
      assert OnlyAt(Keys(v.members), key, found.index) && found.index != i;
      assert Kept(v.members[found.index], w.members[found.index]);
    }
  }

  lemma ThisMember(v: Value, w: Value, i: nat, key: string)
    requires IsObject(v) && IsObject(w) && OnlyOther(v.members, w.members, i) && Find(Keys(v.members), key) == Once(i)
    ensures Look(w, key) == There(w.members[i].value) && KeyOf(v.members[i]) == key
  {
    hide Find, KeyOf;
    SameMembers(v.members, w.members, i, key);
    FindMeans(Keys(v.members), key);
    assert OnlyAt(Keys(v.members), key, i);
  }

  /** Where the members that stay went. */
  function Shifted(j: nat, i: nat): nat
    requires j != i
  {
    if j < i then j else j - 1
  }

  lemma LostKeys(v: Value, w: Value, i: nat, key: string)
    requires IsObject(v) && IsObject(w) && i < |v.members| && |w.members| == |v.members| - 1
    requires forall j :: 0 <= j < |v.members| && j != i ==> Kept(v.members[j], w.members[Shifted(j, i)])
    ensures forall j :: 0 <= j < |v.members| && j != i ==> Keys(w.members)[Shifted(j, i)] == Keys(v.members)[j]
  {
    hide KeyOf;
    forall j | 0 <= j < |v.members| && j != i ensures Keys(w.members)[Shifted(j, i)] == Keys(v.members)[j] {
      assert Kept(v.members[j], w.members[Shifted(j, i)]);
    }
  }

  /** A list of keys that has lost the one at `i`. */
  ghost predicate LessOne(before: seq<string>, after: seq<string>, i: nat) {
    i < |before| == |after| + 1 && forall j :: 0 <= j < |before| && j != i ==> after[Shifted(j, i)] == before[j]
  }

  lemma FromShifted(before: seq<string>, after: seq<string>, i: nat, m: nat)
    requires LessOne(before, after, i) && m < |after|
    ensures after[m] == before[if m < i then m else m + 1]
  {
    var j := if m < i then m else m + 1;
    assert after[Shifted(j, i)] == before[j];
  }

  lemma GoneIsAbsent(before: seq<string>, after: seq<string>, i: nat, gone: string)
    requires LessOne(before, after, i) && Find(before, gone) == Once(i)
    ensures Find(after, gone).Absent?
  {
    hide Find, LessOne;
    FindMeans(before, gone);
    FindMeans(after, gone);
    LessOneLength(before, after, i);
    assert OnlyAt(before, gone, i);
    forall m | 0 <= m < |after| ensures after[m] != gone {
      FromShifted(before, after, i, m);
    }
  }

  lemma LessOneLength(before: seq<string>, after: seq<string>, i: nat)
    requires LessOne(before, after, i)
    ensures i < |before| == |after| + 1
  {
  }

  lemma StaysOnce(before: seq<string>, after: seq<string>, i: nat, key: string)
    requires LessOne(before, after, i) && before[i] != key && Find(before, key).Once?
    ensures Find(before, key).index != i && Find(after, key) == Once(Shifted(Find(before, key).index, i))
  {
    hide Find;
    FindMeans(before, key);
    FindMeans(after, key);
    var j := Find(before, key).index;
    assert OnlyAt(before, key, j) && j != i;
    forall m | 0 <= m < |after| && m != Shifted(j, i) ensures after[m] != key {
      FromShifted(before, after, i, m);
    }
    assert OnlyAt(after, key, Shifted(j, i));
  }

  lemma WasOnce(before: seq<string>, after: seq<string>, i: nat, key: string)
    requires LessOne(before, after, i) && before[i] != key && Find(after, key).Once?
    ensures Find(before, key).Once?
  {
    hide Find;
    FindMeans(before, key);
    FindMeans(after, key);
    var m := Find(after, key).index;
    var j := if m < i then m else m + 1;
    assert OnlyAt(after, key, m);
    FromShifted(before, after, i, m);
    forall n | 0 <= n < |before| && n != j ensures before[n] != key {
      if n != i {
        assert after[Shifted(n, i)] == before[n];
      }
    }
    assert OnlyAt(before, key, j);
  }

  lemma AbsentBoth(before: seq<string>, after: seq<string>, i: nat, key: string)
    requires LessOne(before, after, i) && before[i] != key
    ensures Find(before, key).Absent? <==> Find(after, key).Absent?
  {
    hide Find;
    FindMeans(before, key);
    FindMeans(after, key);
    if key in after {
      var m :| 0 <= m < |after| && after[m] == key;
      FromShifted(before, after, i, m);
    }
    if key in before {
      var j :| 0 <= j < |before| && before[j] == key;
      assert after[Shifted(j, i)] == key;
    }
  }

  /** With one member gone its key finds nothing, and every other key what it found before. */
  lemma LostMember(v: Value, w: Value, i: nat, gone: string, key: string)
    requires IsObject(v) && IsObject(w) && Find(Keys(v.members), gone) == Once(i) && |w.members| == |v.members| - 1
    requires forall j :: 0 <= j < |v.members| && j != i ==> Kept(v.members[j], w.members[Shifted(j, i)])
    ensures Look(w, gone) == NotThere
    ensures key != gone ==> Look(w, key) == Look(v, key)
  {
    hide Find, KeyOf, Kept;
    var before, after := Keys(v.members), Keys(w.members);
    LostKeys(v, w, i, key);
    assert LessOne(before, after, i);
    GoneIsAbsent(before, after, i, gone);
    FindMeans(before, gone);
    assert OnlyAt(before, gone, i);
    if key != gone {
      AbsentBoth(before, after, i, key);
      if Find(before, key).Once? {
        StaysOnce(before, after, i, key);
        var j := Find(before, key).index;
        KeptValue(v.members[j], w.members[Shifted(j, i)]);
      } else if Find(after, key).Once? {
        WasOnce(before, after, i, key);
      }
    }
  }

  lemma KeptValue(a: Member, b: Member)
    requires Kept(a, b)
    ensures a.value == b.value
  {
  }

  // ---------------------------------------------------------------------------------------------
  // One event's change
  // ---------------------------------------------------------------------------------------------

  /** The document's object of hooks, when it has one. */
  predicate HasHooks(d: Document) {
    IsObject(d.root) && Look(d.root, HOOKS).There? && IsObject(Look(d.root, HOOKS).value)
  }

  function HooksIn(d: Document): (hooks: Value)
    requires HasHooks(d)
    ensures IsObject(hooks)
  {
    Look(d.root, HOOKS).value
  }

  /** What surrounds the hooks is as it was. */
  ghost predicate SameAround(d: Document, e: Document) {
    && HasHooks(d) && HasHooks(e) && e.lead == d.lead && e.post == d.post
    && forall key :: key != HOOKS ==> Look(e.root, key) == Look(d.root, key)
  }

  /** The change of one event as its list shows it. */
  ghost predicate Changed(before: Value, after: Value, c: EventChange)
    requires IsObject(before) && IsObject(after)
  {
    match c.change
    case Leave => Look(after, c.event) == Look(before, c.event)
    case Drop => Look(after, c.event) == NotThere
    case Put(value) => Look(after, c.event).There? && Denotes(Look(after, c.event).value, value)
  }

  lemma PathIsClear(d: Document, event: string)
    requires HasHooks(d) && Look(HooksIn(d), event).There?
    ensures Clear(d.root, [HOOKS, event])
    ensures var stop := Descend(d.root, |d.lead|, [HOOKS, event]);
            stop.Stop? && stop.owner == HooksIn(d) && stop.rest == [event]
  {
    hide Find, Keys, ValueOffset;
    assert [HOOKS, event][1..] == [event];
    var i := Find(Keys(d.root.members), HOOKS).index;
    HereClear(HooksIn(d), event, |d.lead| + ValueOffset(d.root, i));
  }

  lemma HereClear(hooks: Value, event: string, at: nat)
    requires IsObject(hooks) && Look(hooks, event).There?
    ensures Clear(hooks, [event]) && Descend(hooks, at, [event]) == Stop(hooks, at, [event])
  {
    hide Find, Keys;
  }

  lemma SetInHooks(d: Document, e: Document, event: string, value: Json)
    requires HasHooks(d) && Look(HooksIn(d), event).There? && SetAt(d.root, e.root, [HOOKS, event], value)
    requires e.lead == d.lead && e.post == d.post
    ensures SameAround(d, e) && Changed(HooksIn(d), HooksIn(e), EventChange(event, Put(value)))
    ensures forall other :: other != event ==> Look(HooksIn(e), other) == Look(HooksIn(d), other)
  {
    hide Find, Keys, KeyOf, Denotes;
    assert [HOOKS, event][1..] == [event];
    var i := Find(Keys(d.root.members), HOOKS).index;
    var hooks, after := HooksIn(d), e.root.members[i].value;
    ThisMember(d.root, e.root, i, HOOKS);
    var j := Find(Keys(hooks.members), event).index;
    assert SetAt(hooks, after, [event], value);
    ThisMember(hooks, after, j, event);
    forall key | key != HOOKS ensures Look(e.root, key) == Look(d.root, key) {
      OtherMemberKept(d.root, e.root, i, key);
    }
    forall other | other != event ensures Look(after, other) == Look(hooks, other) {
      OtherMemberKept(hooks, after, j, other);
    }
  }

  lemma RemovedInHooks(d: Document, e: Document, event: string)
    requires HasHooks(d) && Look(HooksIn(d), event).There? && RemovedAt(d.root, e.root, [HOOKS, event])
    requires e.lead == d.lead && e.post == d.post
    ensures SameAround(d, e) && Changed(HooksIn(d), HooksIn(e), EventChange(event, Drop))
    ensures forall other :: other != event ==> Look(HooksIn(e), other) == Look(HooksIn(d), other)
  {
    hide Find, Keys, KeyOf, Kept;
    assert [HOOKS, event][1..] == [event];
    var i := Find(Keys(d.root.members), HOOKS).index;
    var hooks, after := HooksIn(d), e.root.members[i].value;
    ThisMember(d.root, e.root, i, HOOKS);
    var j := Find(Keys(hooks.members), event).index;
    assert RemovedAt(hooks, after, [event]);
    forall key | key != HOOKS ensures Look(e.root, key) == Look(d.root, key) {
      OtherMemberKept(d.root, e.root, i, key);
    }
    LostMember(hooks, after, j, event, event);
    forall other | other != event ensures Look(after, other) == Look(hooks, other) {
      LostMember(hooks, after, j, event, other);
    }
  }

  /** Changing one event of a document that has it succeeds, and changes just that event. */
  lemma ChangeWorks(source: string, c: EventChange)
    requires ReadDocument(source).Some? && HasHooks(ReadDocument(source).value)
    requires Look(HooksIn(ReadDocument(source).value), c.event).There?
             && (c.change.Put? ==> ValidJson(c.change.value))
    ensures ChangeEvent(source, c).Some? && ReadDocument(ChangeEvent(source, c).value).Some?
    ensures var d, e := ReadDocument(source).value, ReadDocument(ChangeEvent(source, c).value).value;
            && SameAround(d, e) && Changed(HooksIn(d), HooksIn(e), c)
            && forall other :: other != c.event ==> Look(HooksIn(e), other) == Look(HooksIn(d), other)
  {
    hide ReadDocument, Look, Changed, Clear, Descend, SetAt, RemovedAt, SetText, RemoveText, Target, HasHooks,
         HooksIn;
    var d, path := ReadDocument(source).value, [HOOKS, c.event];
    RootIsObject(d);
    match c.change
    case Leave =>
      LeftAlone(d, c);
    case Put(value) =>
      PathIsClear(d, c.event);
      SettingSucceeds(source, path, value);
      SettingWorks(source, path, value);
      SetInHooks(d, ReadDocument(SetText(source, path, value).value).value, c.event, value);
    case Drop =>
      PathIsClear(d, c.event);
      RemovingSucceeds(source, path, true);
      RemovingWorks(source, path, true);
      TargetIs(source, path, d, Descend(d.root, |d.lead|, path));
      FoundThere(d, c.event);
      RemovedInHooks(d, ReadDocument(RemoveText(source, path, true).value).value, c.event);
  }

  /** With no hooks left the whole member goes, and nothing else. */
  lemma HooksGo(source: string)
    requires ReadDocument(source).Some? && IsObject(ReadDocument(source).value.root)
    requires Look(ReadDocument(source).value.root, HOOKS).There?
    ensures RemoveText(source, [HOOKS], true).Some? && ReadDocument(RemoveText(source, [HOOKS], true).value).Some?
    ensures var d, e := ReadDocument(source).value, ReadDocument(RemoveText(source, [HOOKS], true).value).value;
            && IsObject(e.root) && e.lead == d.lead && e.post == d.post && Look(e.root, HOOKS) == NotThere
            && forall key :: key != HOOKS ==> Look(e.root, key) == Look(d.root, key)
  {
    hide ReadDocument, Look, Clear, Descend, RemovedAt, RemoveText, Target;
    var d, path := ReadDocument(source).value, [HOOKS];
    HereClear(d.root, HOOKS, |d.lead|);
    RemovingSucceeds(source, path, true);
    RemovingWorks(source, path, true);
    TargetIs(source, path, d, Descend(d.root, |d.lead|, path));
    OnceThere(d.root, HOOKS);
    var e := ReadDocument(RemoveText(source, path, true).value).value;
    RemovedHere(d.root, e.root, HOOKS);
  }

  lemma OnceThere(v: Value, key: string)
    requires IsObject(v) && Look(v, key).There?
    ensures !Find(Keys(v.members), key).Absent?
  {
  }

  lemma RemovedHere(v: Value, w: Value, gone: string)
    requires IsObject(v) && RemovedAt(v, w, [gone])
    ensures IsObject(w) && Look(w, gone) == NotThere && forall key :: key != gone ==>
              Look(w, key) == Look(v, key)
  {
    hide Find, Keys, KeyOf, Kept;
    var i := Find(Keys(v.members), gone).index;
    LostMember(v, w, i, gone, gone);
    forall key | key != gone ensures Look(w, key) == Look(v, key) {
      LostMember(v, w, i, gone, key);
    }
  }

  lemma RootIsObject(d: Document)
    requires HasHooks(d)
    ensures IsObject(d.root)
  {
  }

  lemma FoundThere(d: Document, event: string)
    requires HasHooks(d) && Look(HooksIn(d), event).There?
    ensures !Find(Keys(HooksIn(d).members), event).Absent?
  {
  }

  lemma LeftAlone(d: Document, c: EventChange)
    requires HasHooks(d) && c.change.Leave?
    ensures SameAround(d, d) && Changed(HooksIn(d), HooksIn(d), c)
  {
  }

  // ---------------------------------------------------------------------------------------------
  // All of them
  // ---------------------------------------------------------------------------------------------

  predicate DistinctEvents(changes: seq<EventChange>) {
    forall i, j :: 0 <= i < j < |changes| ==> changes[i].event != changes[j].event
  }

  predicate Listed(changes: seq<EventChange>, event: string) {
    exists i :: 0 <= i < |changes| && changes[i].event == event
  }

  predicate AllPresent(hooks: Value, changes: seq<EventChange>)
    requires IsObject(hooks)
  {
    forall i :: 0 <= i < |changes| ==> Look(hooks, changes[i].event).There?
  }

  predicate AllValid(changes: seq<EventChange>) {
    forall i :: 0 <= i < |changes| ==> changes[i].change.Put? ==> ValidJson(changes[i].change.value)
  }

  /** The hooks after the changes: each event as its change says, all others as they were. */
  ghost predicate AllChanged(before: Value, after: Value, changes: seq<EventChange>)
    requires IsObject(before) && IsObject(after)
  {
    && (forall i :: 0 <= i < |changes| ==> Changed(before, after, changes[i]))
    && forall event :: !Listed(changes, event) ==> Look(after, event) == Look(before, event)
  }

  /**
   * The span edits of a settings file always succeed on the events it has: the text they leave reads back with every
   * other setting and every other event's value as it was, and with each event dropped, set or left as its change says.
   */
  lemma {:induction false} EditsWork(source: string, changes: seq<EventChange>)
    requires ReadDocument(source).Some? && HasHooks(ReadDocument(source).value)
    requires DistinctEvents(changes) && AllValid(changes) && AllPresent(HooksIn(ReadDocument(source).value), changes)
    ensures ChangeEvents(source, changes).Some? && ReadDocument(ChangeEvents(source, changes).value).Some?
    ensures var d, e := ReadDocument(source).value, ReadDocument(ChangeEvents(source, changes).value).value;
            SameAround(d, e) && AllChanged(HooksIn(d), HooksIn(e), changes)
    decreases |changes|
  {
    hide ReadDocument, Look, Changed, ChangeEvent, HasHooks, HooksIn, AllChanged, SameAround;
    var d := ReadDocument(source).value;
    if changes == [] {
      NothingChanged(d);
    } else {
      var n := |changes| - 1;
      assert changes[..n] + [changes[n]] == changes;
      EditsWork(source, changes[..n]);
      var text := ChangeEvents(source, changes[..n]).value;
      var e := ReadDocument(text).value;
      AroundHasHooks(d, e);
      NotYetListed(changes);
      StillThere(HooksIn(d), HooksIn(e), changes[..n], changes[n].event);
      ChangeWorks(text, changes[n]);
      var f := ReadDocument(ChangeEvent(text, changes[n]).value).value;
      AroundHasHooks(e, f);
      AroundTwice(d, e, f);
      OneMoreChange(HooksIn(d), HooksIn(e), HooksIn(f), changes);
    }
  }

  /** The members of the object of hooks are exactly these. */
  ghost predicate Holds(hooks: Value, lists: map<string, Json>)
    requires IsObject(hooks)
  {
    forall event ::
      if event in lists then Look(hooks, event).There? && Denotes(Look(hooks, event).value, lists[event])
      else Look(hooks, event) == NotThere
  }

  ghost predicate Enumerates(events: seq<string>, lists: map<string, Json>) {
    && (forall event :: event in events <==> event in lists)
    && forall i, j :: 0 <= i < j < |events| ==> events[i] != events[j]
  }

  /**
   * Hooks edited from what the file says to `now` read back as `now`, all other settings and the text around them as
   * they were, if and only if `now` has no event the file does not have: the loop goes over the old events only.
   */
  lemma ReadsBack(source: string, events: seq<string>, was: map<string, Json>, now: map<string, Json>)
    requires ReadDocument(source).Some? && HasHooks(ReadDocument(source).value)
    requires Holds(HooksIn(ReadDocument(source).value), was) && Enumerates(events, was)
    requires forall event :: event in now ==> ValidJson(now[event])
    ensures var text := ChangeEvents(source, ChangesOf(events, was, now));
            && text.Some? && ReadDocument(text.value).Some?
            && var d, e := ReadDocument(source).value, ReadDocument(text.value).value;
               SameAround(d, e) && (Holds(HooksIn(e), now) <==> now.Keys <= was.Keys)
  {
    hide ReadDocument, Look, ChangeEvents, HasHooks, HooksIn, SameAround, Denotes, ValidJson;
    var d, changes := ReadDocument(source).value, ChangesOf(events, was, now);
    EditsWork(source, changes);
    var e := ReadDocument(ChangeEvents(source, changes).value).value;
    AroundHasHooks(d, e);
    HoldsNow(HooksIn(d), HooksIn(e), events, was, now);
  }

  lemma HoldsNow(before: Value, after: Value, events: seq<string>, was: map<string, Json>, now: map<string, Json>)
    requires IsObject(before) && IsObject(after) && Holds(before, was) && Enumerates(events, was)
    requires AllChanged(before, after, ChangesOf(events, was, now))
    ensures Holds(after, now) <==> now.Keys <= was.Keys
  {
    hide Look, Denotes;
    var changes := ChangesOf(events, was, now);
    forall event | event in was ensures Changed(before, after, ChangeOf(event, was, now)) {
      var i :| 0 <= i < |events| && events[i] == event;
      assert changes[i] == ChangeOf(event, was, now);
    }
    forall event | event !in was ensures Look(after, event) == NotThere {
      assert !Listed(changes, event);
    }
  }

  lemma NothingChanged(d: Document)
    requires HasHooks(d)
    ensures SameAround(d, d) && AllChanged(HooksIn(d), HooksIn(d), [])
  {
  }

  lemma AroundHasHooks(d: Document, e: Document)
    requires SameAround(d, e)
    ensures HasHooks(d) && HasHooks(e)
  {
  }

  lemma AroundTwice(d: Document, e: Document, f: Document)
    requires SameAround(d, e) && SameAround(e, f)
    ensures SameAround(d, f)
  {
    hide Look;
  }

  lemma NotYetListed(changes: seq<EventChange>)
    requires changes != [] && DistinctEvents(changes)
    ensures !Listed(changes[..|changes| - 1], changes[|changes| - 1].event)
  {
  }

  lemma LessListed(changes: seq<EventChange>, n: nat, event: string)
    requires n <= |changes| && !Listed(changes, event)
    ensures !Listed(changes[..n], event)
  {
  }

  lemma StillThere(before: Value, after: Value, changes: seq<EventChange>, event: string)
    requires IsObject(before) && IsObject(after) && AllChanged(before, after, changes) && !Listed(changes, event)
    ensures Look(after, event) == Look(before, event)
  {
  }

  lemma OneMoreChange(before: Value, between: Value, after: Value, changes: seq<EventChange>)
    requires IsObject(before) && IsObject(between) && IsObject(after) && changes != [] && DistinctEvents(changes)
    requires AllChanged(before, between, changes[..|changes| - 1]) && Changed(between, after, changes[|changes| - 1])
    requires forall other :: other != changes[|changes| - 1].event ==>
               Look(after, other) == Look(between, other)
    ensures AllChanged(before, after, changes)
  {
    hide Look;
    var n := |changes| - 1;
    NotYetListed(changes);
    forall i | 0 <= i < |changes| ensures Changed(before, after, changes[i]) {
      if i < n {
        assert changes[..n][i] == changes[i];
        assert Changed(before, between, changes[i]);
      }
    }
    forall event | !Listed(changes, event) ensures Look(after, event) == Look(before, event) {
      assert changes[n].event != event;
      LessListed(changes, n, event);
    }
  }
}
