/** Registering the hook in Claude Code's settings and taking it out again, on the values that the settings hold. */
module ClaudeSettings {
  import opened Prelude

  /** A JSON value; an object's fields are a map, so equality is deep equality without regard to order. */
  datatype Value =
    | Null
    | Flag(flag: bool)
    | Number(text: string)
    | Text(text: string)
    | List(items: seq<Value>)
    | Object(fields: Fields)

  type Fields = map<string, Value>

  // ---------------------------------------------------------------------------------------------
  // Entries
  // ---------------------------------------------------------------------------------------------

  predicate Includes(s: string, part: string) {
    part <= s || (s != "" && Includes(s[1..], part))
  }

  /** The hook script and the commands that run it: this build's two forms and those of earlier builds. */
  datatype Hook = Hook(path: string, open: string, closed: string, legacy: seq<string>)

  predicate Names(command: string, hook: Hook) {
    Includes(Slashed(command), hook.path)
  }

  /** Every command generated for the script names it. */
  predicate ValidHook(hook: Hook) {
    && Names(hook.open, hook) && Names(hook.closed, hook)
    && forall i :: 0 <= i < |hook.legacy| ==> Names(hook.legacy[i], hook)
  }

  function Command(command: string): Fields {
    map["type" := Text("command"), "command" := Text(command)]
  }

  function Entry(command: Fields): Fields {
    map["hooks" := List([Object(command)])]
  }

  const EDIT_MATCHER := "Edit|Write|NotebookEdit"

  function EditEntry(command: string): Value {
    Object(Entry(Command(command))["matcher" := Text(EDIT_MATCHER)])
  }

  function ShellEntry(command: string): Value {
    Object(Entry(Command(command))["matcher" := Text("Bash")])
  }

  function PromptEntry(command: string): Value {
    Object(Entry(Command(command)))
  }

  function StopEntry(command: string): Value {
    Object(Entry(Command(command)["timeout" := Number("180")]))
  }

  predicate NamesIt(v: Value, hook: Hook) {
    v.Object? && "command" in v.fields && v.fields["command"].Text? && Names(v.fields["command"].text, hook)
  }

  /** Some command of the entry names the hook script. */
  predicate References(entry: Value, hook: Hook) {
    && entry.Object? && "hooks" in entry.fields && entry.fields["hooks"].List?
    && exists i :: 0 <= i < |entry.fields["hooks"].items| && NamesIt(entry.fields["hooks"].items[i], hook)
  }

  predicate IsShellEntry(entry: Value, hook: Hook) {
    && entry.Object? && "matcher" in entry.fields && entry.fields["matcher"] == Text("Bash") && References(entry, hook)
  }

  function EditCommands(hook: Hook): seq<string> {
    [hook.closed] + hook.legacy
  }

  function AllCommands(hook: Hook): seq<string> {
    [hook.open, hook.closed] + hook.legacy
  }

  predicate IsEditEntry(entry: Value, hook: Hook) {
    exists i :: 0 <= i < |EditCommands(hook)| && entry == EditEntry(EditCommands(hook)[i])
  }

  const PRE_TOOL_USE := "PreToolUse"
  const PROMPT := "UserPromptSubmit"
  const STOP := "Stop"

  /** An entry exactly as some build generated it for the event. */
  predicate IsGenerated(event: string, entry: Value, hook: Hook) {
    if event == PRE_TOOL_USE then
      IsEditEntry(entry, hook) || exists i :: 0 <= i < |AllCommands(hook)| && entry == ShellEntry(AllCommands(hook)[i])
    else
      exists i :: 0 <= i < |AllCommands(hook)| &&
        (entry == PromptEntry(AllCommands(hook)[i]) || (event == STOP && entry == StopEntry(AllCommands(hook)[i])))
  }

  lemma EntryReferences(entry: Fields, command: Fields, text: string, hook: Hook)
    requires "hooks" in entry && entry["hooks"] == List([Object(command)])
    requires "command" in command && command["command"] == Text(text) && Names(text, hook)
    ensures References(Object(entry), hook)
  {
    hide Names;
    assert NamesIt(entry["hooks"].items[0], hook);
  }

  lemma TextReferences(text: string, hook: Hook)
    requires Names(text, hook)
    ensures References(EditEntry(text), hook) && References(ShellEntry(text), hook)
    ensures References(PromptEntry(text), hook) && References(StopEntry(text), hook)
  {
    hide Names, References, NamesIt;
    EntryReferences(EditEntry(text).fields, Command(text), text, hook);
    EntryReferences(ShellEntry(text).fields, Command(text), text, hook);
    EntryReferences(PromptEntry(text).fields, Command(text), text, hook);
    EntryReferences(StopEntry(text).fields, Command(text)["timeout" := Number("180")], text, hook);
  }

  /** Every generated entry names the script, whatever event it is for. */
  lemma GeneratedReferences(event: string, entry: Value, hook: Hook)
    requires ValidHook(hook) && IsGenerated(event, entry, hook)
    ensures References(entry, hook)
  {
    hide Names, References, EditEntry, ShellEntry, PromptEntry, StopEntry;
    forall i | 0 <= i < |AllCommands(hook)|
      ensures References(EditEntry(AllCommands(hook)[i]), hook) && References(ShellEntry(AllCommands(hook)[i]), hook)
      ensures References(PromptEntry(AllCommands(hook)[i]), hook) && References(StopEntry(AllCommands(hook)[i]), hook)
    {
      TextReferences(AllCommands(hook)[i], hook);
    }
    forall i | 0 <= i < |EditCommands(hook)| ensures References(EditEntry(EditCommands(hook)[i]), hook) {
      TextReferences(EditCommands(hook)[i], hook);
    }
  }

  // ---------------------------------------------------------------------------------------------
  // Registration
  // ---------------------------------------------------------------------------------------------

  function HooksOf(s: Fields): Fields {
    if "hooks" in s && s["hooks"].Object? then s["hooks"].fields else map[]
  }

  function ItemsAt(hooks: Fields, event: string): seq<Value> {
    if event in hooks && hooks[event].List? then hooks[event].items else []
  }

  /** The PreToolUse entries; None when the settings hold something else where they belong. */
  function Entries(s: Fields): Option<seq<Value>> {
    if "hooks" !in s then Some([])
    else if !s["hooks"].Object? then None
    else if PRE_TOOL_USE !in s["hooks"].fields then Some([])
    else
      var v := s["hooks"].fields[PRE_TOOL_USE];
      if v.List? && forall i :: 0 <= i < |v.items| ==> v.items[i].Object? then Some(v.items) else None
  }

  function Expected(event: string, hook: Hook): Value {
    if event == STOP then StopEntry(hook.open) else PromptEntry(hook.open)
  }

  /** The entries that do not name the script, and the generated one after them. */
  function Refreshed(hooks: Fields, event: string, hook: Hook): Value {
    List(Where(ItemsAt(hooks, event), (e: Value) => !References(e, hook)) + [Expected(event, hook)])
  }

  function Prompted(hooks: Fields, hook: Hook): Fields {
    hooks[PROMPT := Refreshed(hooks, PROMPT, hook)][STOP := Refreshed(hooks, STOP, hook)]
         [PRE_TOOL_USE :=
          List(Where(ItemsAt(hooks, PRE_TOOL_USE), (e: Value) => !IsShellEntry(e, hook)) + [ShellEntry(hook.open)])]
  }

  function Wired(s: Fields, hooks: Fields, hook: Hook): Fields {
    s["hooks" := Object(Prompted(hooks, hook))]
  }

  method WithPromptHook(s: Fields, hook: Hook) returns (wired: Fields)
    ensures wired == Wired(s, HooksOf(s), hook)
  {
    hide References, IsShellEntry, Expected;
    var before := HooksOf(s);
    var hooks := before;
    var events := [PROMPT, STOP];
    for i := 0 to |events|
      invariant hooks == if i == 0 then before
                         else if i == 1 then before[PROMPT := Refreshed(before, PROMPT, hook)]
                         else before[PROMPT := Refreshed(before, PROMPT, hook)][STOP := Refreshed(before, STOP, hook)]
    {
      var current := ItemsAt(hooks, events[i]);
      assert current == ItemsAt(before, events[i]);
      hooks := hooks[events[i] :=
                     List(Where(current, (e: Value) => !References(e, hook)) + [Expected(events[i], hook)])];
    }
    var tools := ItemsAt(hooks, PRE_TOOL_USE);
    assert tools == ItemsAt(before, PRE_TOOL_USE);
    hooks := hooks[PRE_TOOL_USE := List(Where(tools, (e: Value) => !IsShellEntry(e, hook)) + [ShellEntry(hook.open)])];
    wired := s["hooks" := Object(hooks)];
  }

  predicate HasPromptHook(s: Fields, hook: Hook) {
    && ShellEntry(hook.open) in ItemsAt(HooksOf(s), PRE_TOOL_USE)
    && Expected(PROMPT, hook) in ItemsAt(HooksOf(s), PROMPT) && Expected(STOP, hook) in ItemsAt(HooksOf(s), STOP)
  }

  datatype Status = Added | Current | Customized | Replaced | Malformed | Absent | Removed

  datatype Registration = Registration(status: Status, content: Option<Fields>, discarded: bool)

  function FirstWhere(items: seq<Value>, pick: Value -> bool): (i: nat)
    ensures i <= |items| && (i < |items| ==> pick(items[i])) && forall j :: 0 <= j < i ==> !pick(items[j])
  {
    if items == [] || pick(items[0]) then 0 else 1 + FirstWhere(items[1..], pick)
  }

  /** The edit entry to replace: the first generated one, else the first that names the script. */
  function Mine(entries: seq<Value>, hook: Hook): (mine: (nat, bool))
    ensures mine.0 <= |entries|
  {
    var generated := FirstWhere(entries, (e: Value) => IsEditEntry(e, hook));
    if generated < |entries| then (generated, true) else (FirstWhere(entries, (e: Value) => References(e, hook)), false)
  }

  function WithEntries(s: Fields, entries: seq<Value>, hook: Hook): Fields {
    Wired(s, HooksOf(s)[PRE_TOOL_USE := List(entries)], hook)
  }

  /** `current` is None when the file does not parse to an object; an absent file is an empty object. */
  function PlanRegistration(current: Option<Fields>, hook: Hook, force: bool): Registration {
    var expected := EditEntry(hook.closed);
    if current.None? then
      if force then Registration(Replaced, Some(WithEntries(map[], [expected], hook)), true)
      else Registration(Malformed, None, false)
    else
      var s := current.value;
      var existing := Entries(s);
      if existing.None? then
        if force then Registration(Replaced, Some(WithEntries(s, [expected], hook)), true)
        else Registration(Malformed, None, false)
      else if expected in existing.value then
        if HasPromptHook(s, hook) then Registration(Current, None, false)
        else Registration(Replaced, Some(Wired(s, HooksOf(s), hook)), false)
      else
        var (mine, generated) := Mine(existing.value, hook);
        if mine == |existing.value| then
          Registration(Added, Some(WithEntries(s, existing.value + [expected], hook)), false)
        else if !generated && !force then Registration(Customized, None, false)
        else Registration(Replaced, Some(WithEntries(s, existing.value[mine := expected], hook)), false)
  }

  predicate AllObjects(items: seq<Value>) {
    forall i :: 0 <= i < |items| ==> items[i].Object?
  }

  lemma EditIsNoShell(text: string, hook: Hook)
    ensures !IsShellEntry(EditEntry(text), hook) && EditEntry(text).Object? && ShellEntry(text).Object?
  {
    assert EDIT_MATCHER != "Bash";
  }

  lemma WiredIsCurrent(s: Fields, hooks: Fields, hook: Hook)
    requires EditEntry(hook.closed) in ItemsAt(hooks, PRE_TOOL_USE) && AllObjects(ItemsAt(hooks, PRE_TOOL_USE))
    ensures var wired := Wired(s, hooks, hook);
            Entries(wired).Some? && EditEntry(hook.closed) in Entries(wired).value && HasPromptHook(wired, hook)
  {
    hide References, IsShellEntry, Expected, EditEntry, ShellEntry;
    EditIsNoShell(hook.closed, hook);
    EditIsNoShell(hook.open, hook);
    var items := ItemsAt(hooks, PRE_TOOL_USE);
    var kept := Where(items, (e: Value) => !IsShellEntry(e, hook));
    assert forall i :: 0 <= i < |kept| ==> kept[i] in kept;
    assert forall e :: e in items ==> e.Object?;
  }

  /** Registering what registering wrote finds it current. */
  lemma RegisteringTwice(current: Option<Fields>, hook: Hook, force: bool, again: bool)
    requires PlanRegistration(current, hook, force).content.Some?
    ensures PlanRegistration(PlanRegistration(current, hook, force).content, hook, again)
            == Registration(Current, None, false)
  {
    hide References, IsShellEntry, Expected, EditEntry, ShellEntry, Wired, HasPromptHook, IsEditEntry;
    var expected := EditEntry(hook.closed);
    EditIsNoShell(hook.closed, hook);
    var s := if current.None? then map[] else current.value;
    var hooks := HooksOf(s);
    var existing := Entries(s);
    if existing.None? || current.None? {
      WiredIsCurrent(s, hooks[PRE_TOOL_USE := List([expected])], hook);
    } else if expected in existing.value {
      WiredIsCurrent(s, hooks, hook);
    } else {
      var mine := Mine(existing.value, hook).0;
      if mine == |existing.value| {
        WiredIsCurrent(s, hooks[PRE_TOOL_USE := List(existing.value + [expected])], hook);
      } else {
        assert existing.value[mine := expected][mine] == expected;
        WiredIsCurrent(s, hooks[PRE_TOOL_USE := List(existing.value[mine := expected])], hook);
      }
    }
  }

  // ---------------------------------------------------------------------------------------------
  // Removal
  // ---------------------------------------------------------------------------------------------

  predicate Owned(event: string, entry: Value, hook: Hook, force: bool) {
    if force then References(entry, hook) else IsGenerated(event, entry, hook)
  }

  predicate IsEvent(event: string) {
    event == PRE_TOOL_USE || event == PROMPT || event == STOP
  }

  function Kept(items: seq<Value>, event: string, hook: Hook, force: bool): seq<Value> {
    Where(items, (e: Value) => !Owned(event, e, hook, force))
  }

  /** An event's value without the owned entries. */
  function Stripped(hooks: Fields, event: string, hook: Hook, force: bool): Value
    requires event in hooks
  {
    if IsEvent(event) && hooks[event].List? then List(Kept(hooks[event].items, event, hook, force)) else hooks[event]
  }

  function StrippedAll(hooks: Fields, hook: Hook, force: bool): Fields {
    map event | event in hooks :: Stripped(hooks, event, hook, force)
  }

  /** The lists that are empty now and were not before go. */
  function WithoutEmptied(hooks: Fields, before: Fields): Fields {
    map event | event in hooks
        && !(hooks[event] == List([]) && !(event in before && before[event] == List([]))) :: hooks[event]
  }

  function WithoutEmptyHooks(s: Fields, hooks: Fields): Fields {
    var left := WithoutEmptied(hooks, HooksOf(s));
    if "hooks" !in s || (left == map[] && HooksOf(s) != map[]) then s - {"hooks"} else s["hooks" := Object(left)]
  }

  function Unhooked(s: Fields, hook: Hook, force: bool): Fields {
    WithoutEmptyHooks(s, StrippedAll(HooksOf(s), hook, force))
  }

  /** Some entry that stays still names the script. */
  predicate NamedLeft(hooks: Fields, event: string, hook: Hook, force: bool) {
    exists i :: 0 <= i < |Kept(ItemsAt(hooks, event), event, hook, force)| &&
      References(Kept(ItemsAt(hooks, event), event, hook, force)[i], hook)
  }

  predicate AnyNamedLeft(s: Fields, hook: Hook, force: bool) {
    || NamedLeft(HooksOf(s), PRE_TOOL_USE, hook, force) || NamedLeft(HooksOf(s), PROMPT, hook, force)
    || NamedLeft(HooksOf(s), STOP, hook, force)
  }

  datatype File = Missing | Unreadable | Readable(settings: Fields)

  datatype Removal = Removal(status: Status, content: Option<Fields>, customized: bool)

  function PlanRemoval(current: File, hook: Hook, force: bool): Removal {
    match current
    case Missing => Removal(Absent, None, false)
    case Unreadable => Removal(Malformed, None, false)
    case Readable(s) =>
      if Entries(s).None? then Removal(Malformed, None, false)
      else
        var next, customized := Unhooked(s, hook, force), AnyNamedLeft(s, hook, force);
        if next == s then Removal(if customized then Customized else Absent, None, customized)
        else Removal(Removed, Some(next), customized)
  }

  lemma NamedLeftIs(hooks: Fields, event: string, hook: Hook, force: bool)
    requires IsEvent(event)
    ensures event in hooks && hooks[event].List? ==>
              (NamedLeft(hooks, event, hook, force) <==>
                 exists j :: 0 <= j < |Kept(hooks[event].items, event, hook, force)|
                     && References(Kept(hooks[event].items, event, hook, force)[j], hook))
    ensures event in hooks && hooks[event].List? ==>
              Stripped(hooks, event, hook, force) == List(Kept(hooks[event].items, event, hook, force))
    ensures !(event in hooks && hooks[event].List?) ==> !NamedLeft(hooks, event, hook, force)
    ensures event in hooks && !hooks[event].List? ==> Stripped(hooks, event, hook, force) == hooks[event]
  {
    hide References, Owned, Kept;
    assert event in hooks && hooks[event].List? ==> ItemsAt(hooks, event) == hooks[event].items;
    if !(event in hooks && hooks[event].List?) {
      assert Kept(ItemsAt(hooks, event), event, hook, force) == [] by { NothingKept(event, hook, force); }
    }
  }

  lemma NothingKept(event: string, hook: Hook, force: bool)
    ensures Kept([], event, hook, force) == []
  {
  }

  method WithoutEntries(s: Fields, hook: Hook, force: bool) returns (next: Fields, customized: bool)
    ensures next == Unhooked(s, hook, force) && customized == AnyNamedLeft(s, hook, force)
  {
    hide References, Owned, NamedLeft, Stripped, Kept;
    var before := HooksOf(s);
    var hooks := before;
    customized := false;
    var events := [PRE_TOOL_USE, PROMPT, STOP];
    for i := 0 to |events|
      invariant hooks.Keys == before.Keys
      invariant forall e :: e in before && e in events[..i] ==> hooks[e] == Stripped(before, e, hook, force)
      invariant forall e :: e in before && e !in events[..i] ==> hooks[e] == before[e]
      invariant customized <==> exists j :: 0 <= j < i && NamedLeft(before, events[j], hook, force)
    {
      assert events[..i + 1] == events[..i] + [events[i]];
      var event := events[i];
      assert event !in events[..i] && IsEvent(event);
      NamedLeftIs(before, event, hook, force);
      if event in hooks && hooks[event].List? {
        var kept := Kept(hooks[event].items, event, hook, force);
        var named := exists j :: 0 <= j < |kept| && References(kept[j], hook);
        assert named == NamedLeft(before, event, hook, force);
        customized := customized || named;
        hooks := hooks[event := List(kept)];
      }
    }
    assert events[..|events|] == events;
    assert customized <==>
             NamedLeft(before, events[0], hook, force) || NamedLeft(before, events[1], hook, force)
                 || NamedLeft(before, events[2], hook, force);
    forall e | e in before && !IsEvent(e) ensures Stripped(before, e, hook, force) == before[e] {
      OtherEvent(before, e, hook, force);
    }
    assert hooks == StrippedAll(before, hook, force);
    next := WithoutEmptyHooks(s, hooks);
  }

  lemma OtherEvent(hooks: Fields, event: string, hook: Hook, force: bool)
    requires event in hooks && !IsEvent(event)
    ensures Stripped(hooks, event, hook, force) == hooks[event]
  {
  }

  // ---------------------------------------------------------------------------------------------
  // Uninstalling right after registering
  // ---------------------------------------------------------------------------------------------

  /** No entry of the three events names the script. */
  predicate Unnamed(s: Fields, hook: Hook) {
    && NoneReferences(ItemsAt(HooksOf(s), PRE_TOOL_USE), hook) && NoneReferences(ItemsAt(HooksOf(s), PROMPT), hook)
    && NoneReferences(ItemsAt(HooksOf(s), STOP), hook)
  }

  predicate NoneReferences(items: seq<Value>, hook: Hook) {
    forall i :: 0 <= i < |items| ==> !References(items[i], hook)
  }

  /** An event registration writes to that was not there, or was a list with something in it. */
  predicate Restores(hooks: Fields, event: string) {
    event in hooks ==> hooks[event].List? && hooks[event].items != []
  }

  predicate Restorable(s: Fields) {
    "hooks" in s ==>
      && s["hooks"].Object? && s["hooks"].fields != map[]
      && Restores(HooksOf(s), PRE_TOOL_USE) && Restores(HooksOf(s), PROMPT) && Restores(HooksOf(s), STOP)
  }

  lemma {:induction false} WhereAll(items: seq<Value>, keep: Value -> bool)
    requires forall i :: 0 <= i < |items| ==> keep(items[i])
    ensures Where(items, keep) == items
  {
    if items != [] {
      WhereAll(items[1..], keep);
      assert items == [items[0]] + items[1..];
    }
  }

  lemma {:induction false} WhereNone(items: seq<Value>, more: seq<Value>, keep: Value -> bool)
    requires forall i :: 0 <= i < |items| ==> keep(items[i])
    requires forall i :: 0 <= i < |more| ==> !keep(more[i])
    ensures Where(items + more, keep) == items
  {
    if items != [] {
      assert (items + more)[1..] == items[1..] + more;
      WhereNone(items[1..], more, keep);
      assert items == [items[0]] + items[1..];
    } else {
      assert items + more == more;
      NoneKept(more, keep);
    }
  }

  lemma {:induction false} NoneKept(items: seq<Value>, keep: Value -> bool)
    requires forall i :: 0 <= i < |items| ==> !keep(items[i])
    ensures Where(items, keep) == []
  {
    if items != [] {
      NoneKept(items[1..], keep);
    }
  }

  lemma ExpectedIsGenerated(event: string, hook: Hook)
    ensures event != PRE_TOOL_USE ==> IsGenerated(event, Expected(event, hook), hook)
    ensures IsGenerated(PRE_TOOL_USE, EditEntry(hook.closed), hook)
            && IsGenerated(PRE_TOOL_USE, ShellEntry(hook.open), hook)
  {
    hide EditEntry, ShellEntry, PromptEntry, StopEntry;
    assert AllCommands(hook)[0] == hook.open;
    assert EditCommands(hook)[0] == hook.closed;
  }

  lemma OthersAreNotOwned(items: seq<Value>, event: string, hook: Hook, force: bool)
    requires ValidHook(hook) && NoneReferences(items, hook)
    ensures forall i :: 0 <= i < |items| ==>
              !Owned(event, items[i], hook, force) && !IsShellEntry(items[i], hook) && !IsEditEntry(items[i], hook)
  {
    hide References, IsGenerated, Names;
    forall i | 0 <= i < |items| ensures !Owned(event, items[i], hook, force) && !IsShellEntry(items[i], hook)
        && !IsEditEntry(items[i], hook) {
      if IsGenerated(event, items[i], hook) {
        GeneratedReferences(event, items[i], hook);
      }
      if IsEditEntry(items[i], hook) {
        EditIsGenerated(items[i], hook);
        GeneratedReferences(PRE_TOOL_USE, items[i], hook);
      }
    }
  }

  lemma EditIsGenerated(entry: Value, hook: Hook)
    requires IsEditEntry(entry, hook)
    ensures IsGenerated(PRE_TOOL_USE, entry, hook)
  {
  }

  lemma ExpectedIsOwned(event: string, entry: Value, hook: Hook, force: bool)
    requires ValidHook(hook) && IsGenerated(event, entry, hook)
    ensures Owned(event, entry, hook, force)
  {
    hide References, IsGenerated, Names;
    GeneratedReferences(event, entry, hook);
  }

  /** What registering adds to an event, removing takes away. */
  lemma Undone(items: seq<Value>, added: seq<Value>, event: string, hook: Hook, force: bool)
    requires ValidHook(hook) && NoneReferences(items, hook) && forall i :: 0 <= i < |added| ==>
               IsGenerated(event, added[i], hook)
    ensures Kept(items + added, event, hook, force) == items
  {
    hide References, IsGenerated, Owned, Names, IsShellEntry, IsEditEntry;
    OthersAreNotOwned(items, event, hook, force);
    forall i | 0 <= i < |added| ensures Owned(event, added[i], hook, force) {
      ExpectedIsOwned(event, added[i], hook, force);
    }
    WhereNone(items, added, (e: Value) => !Owned(event, e, hook, force));
  }

  /** The hooks after registering on settings that do not name the script. */
  lemma RegisteredHooks(s: Fields, hook: Hook, force: bool)
    requires ValidHook(hook) && Entries(s).Some? && Unnamed(s, hook)
    ensures var h := HooksOf(s);
            var entries := ItemsAt(h, PRE_TOOL_USE);
            var added := h[PROMPT := List(ItemsAt(h, PROMPT) + [Expected(PROMPT, hook)])]
                [STOP := List(ItemsAt(h, STOP) + [Expected(STOP, hook)])]
                          [PRE_TOOL_USE := List(entries + [EditEntry(hook.closed), ShellEntry(hook.open)])];
            PlanRegistration(Some(s), hook, force) == Registration(Added, Some(s["hooks" := Object(added)]), false)
  {
    hide References, IsShellEntry, Expected, EditEntry, ShellEntry, IsEditEntry, Names, Owned, IsGenerated, Where,
         Unnamed;
    var h := HooksOf(s);
    var entries := ItemsAt(h, PRE_TOOL_USE);
    assert Entries(s).value == entries;
    assert NoneReferences(entries, hook) && NoneReferences(ItemsAt(h, PROMPT), hook)
           && NoneReferences(ItemsAt(h, STOP), hook) by { UnnamedIs(s, hook); }
    OthersAreNotOwned(entries, PRE_TOOL_USE, hook, force);
    ExpectedIsGenerated(PROMPT, hook);
    GeneratedReferences(PRE_TOOL_USE, EditEntry(hook.closed), hook);
    assert EditEntry(hook.closed) !in entries;
    assert Mine(entries, hook) == (|entries|, false);
    var longer := entries + [EditEntry(hook.closed)];
    PromptedIs(h, longer, hook);
    EditIsNoShell(hook.closed, hook);
    WhereAll(longer, (e: Value) => !IsShellEntry(e, hook));
    WhereAll(ItemsAt(h, PROMPT), (e: Value) => !References(e, hook));
    WhereAll(ItemsAt(h, STOP), (e: Value) => !References(e, hook));
    assert longer + [ShellEntry(hook.open)] == entries + [EditEntry(hook.closed), ShellEntry(hook.open)];
  }

  lemma UnnamedIs(s: Fields, hook: Hook)
    requires Unnamed(s, hook)
    ensures var h := HooksOf(s);
            NoneReferences(ItemsAt(h, PRE_TOOL_USE), hook) && NoneReferences(ItemsAt(h, PROMPT), hook)
                && NoneReferences(ItemsAt(h, STOP), hook)
  {
  }

  lemma PromptedIs(hooks: Fields, entries: seq<Value>, hook: Hook)
    ensures Prompted(hooks[PRE_TOOL_USE := List(entries)], hook)
            == hooks[PROMPT :=
                     List(Where(ItemsAt(hooks, PROMPT), (e: Value) => !References(e, hook)) + [Expected(PROMPT, hook)])]
                    [STOP := List(Where(ItemsAt(hooks, STOP), (e: Value) => !References(e, hook))
                                  + [Expected(STOP, hook)])]
                    [PRE_TOOL_USE :=
                     List(Where(entries, (e: Value) => !IsShellEntry(e, hook)) + [ShellEntry(hook.open)])]
  {
    hide References, IsShellEntry, Expected, ShellEntry, Where;
  }

  lemma Expecting(event: string, hook: Hook)
    requires event != PRE_TOOL_USE
    ensures forall i :: 0 <= i < |[Expected(event, hook)]| ==> IsGenerated(event, [Expected(event, hook)][i], hook)
    ensures forall i :: 0 <= i < 2 ==>
              IsGenerated(PRE_TOOL_USE, [EditEntry(hook.closed), ShellEntry(hook.open)][i], hook)
  {
    hide IsGenerated, EditEntry, ShellEntry, Expected;
    ExpectedIsGenerated(event, hook);
  }

  /** The hooks with what was registered in them, stripped again. */
  lemma StrippedAgain(h: Fields, added: Fields, hook: Hook, force: bool)
    requires ValidHook(hook)
    requires NoneReferences(ItemsAt(h, PRE_TOOL_USE), hook) && NoneReferences(ItemsAt(h, PROMPT), hook)
             && NoneReferences(ItemsAt(h, STOP), hook)
    requires added == h[PROMPT := List(ItemsAt(h, PROMPT) + [Expected(PROMPT, hook)])]
                       [STOP := List(ItemsAt(h, STOP) + [Expected(STOP, hook)])]
                       [PRE_TOOL_USE :=
                        List(ItemsAt(h, PRE_TOOL_USE) + [EditEntry(hook.closed), ShellEntry(hook.open)])]
    ensures StrippedAll(added, hook, force)
            == h[PROMPT := List(ItemsAt(h, PROMPT))][STOP := List(ItemsAt(h, STOP))]
                [PRE_TOOL_USE := List(ItemsAt(h, PRE_TOOL_USE))]
  {
    hide References, IsGenerated, Expected, EditEntry, ShellEntry, Names, NoneReferences, Kept;
    Expecting(PROMPT, hook);
    Expecting(STOP, hook);
    Undone(ItemsAt(h, PROMPT), [Expected(PROMPT, hook)], PROMPT, hook, force);
    Undone(ItemsAt(h, STOP), [Expected(STOP, hook)], STOP, hook, force);
    Undone(ItemsAt(h, PRE_TOOL_USE), [EditEntry(hook.closed), ShellEntry(hook.open)], PRE_TOOL_USE, hook, force);
  }

  /**
   * What is left once the lists that emptied go: the hooks
   * without the three events' lists that were empty or not there.
   */
  lemma LeftIs(h: Fields, added: Fields, stripped: Fields)
    requires stripped == h[PROMPT := List(ItemsAt(h, PROMPT))][STOP := List(ItemsAt(h, STOP))]
                          [PRE_TOOL_USE := List(ItemsAt(h, PRE_TOOL_USE))]
    requires added.Keys == stripped.Keys && forall e :: e in added ==>
               if IsEvent(e) then added[e] != List([]) else added[e] == stripped[e]
    ensures var left := WithoutEmptied(stripped, added);
            && (left == h <==> Restores(h, PRE_TOOL_USE) && Restores(h, PROMPT) && Restores(h, STOP))
            && (left == map[] && Restores(h, PRE_TOOL_USE) && Restores(h, PROMPT) && Restores(h, STOP) ==> h == map[])
  {
    var left := WithoutEmptied(stripped, added);
    forall e | IsEvent(e)
      ensures (e in left <==> ItemsAt(h, e) != []) && (e in left ==> left[e] == List(ItemsAt(h, e)))
    {
    }
    forall e ensures !IsEvent(e) ==> (e in left <==> e in h) && (e in left ==> left[e] == h[e]) {
    }
    if left == h {
      assert forall e :: IsEvent(e) ==> Restores(h, e);
    }
  }

  /** No entry that stays names the script. */
  lemma NoneLeftNamed(h: Fields, event: string, added: seq<Value>, hooks: Fields, hook: Hook, force: bool)
    requires ValidHook(hook) && IsEvent(event) && NoneReferences(ItemsAt(h, event), hook)
    requires event in hooks && hooks[event] == List(ItemsAt(h, event) + added)
    requires forall i :: 0 <= i < |added| ==> IsGenerated(event, added[i], hook)
    ensures !NamedLeft(hooks, event, hook, force)
  {
    hide References, IsGenerated, Names, Kept;
    Undone(ItemsAt(h, event), added, event, hook, force);
  }

  lemma NamedNowhere(s: Fields, h: Fields, added: Fields, hook: Hook, force: bool)
    requires ValidHook(hook) && HooksOf(s) == added
    requires NoneReferences(ItemsAt(h, PRE_TOOL_USE), hook) && NoneReferences(ItemsAt(h, PROMPT), hook)
             && NoneReferences(ItemsAt(h, STOP), hook)
    requires added == h[PROMPT := List(ItemsAt(h, PROMPT) + [Expected(PROMPT, hook)])]
                       [STOP := List(ItemsAt(h, STOP) + [Expected(STOP, hook)])]
                       [PRE_TOOL_USE :=
                        List(ItemsAt(h, PRE_TOOL_USE) + [EditEntry(hook.closed), ShellEntry(hook.open)])]
    ensures !AnyNamedLeft(s, hook, force)
  {
    hide References, IsGenerated, Expected, EditEntry, ShellEntry, Names, NoneReferences, NamedLeft, ItemsAt;
    Expecting(PROMPT, hook);
    Expecting(STOP, hook);
    NoneLeftNamed(h, PROMPT, [Expected(PROMPT, hook)], added, hook, force);
    NoneLeftNamed(h, STOP, [Expected(STOP, hook)], added, hook, force);
    NoneLeftNamed(h, PRE_TOOL_USE, [EditEntry(hook.closed), ShellEntry(hook.open)], added, hook, force);
  }

  /** The settings left, compared with those before. */
  lemma LeftIsBefore(s: Fields, h: Fields, added: Fields, left: Fields)
    requires Entries(s).Some? && h == HooksOf(s) && added != map[] && left != added
    requires left == h <==> Restores(h, PRE_TOOL_USE) && Restores(h, PROMPT) && Restores(h, STOP)
    requires left == map[] && Restores(h, PRE_TOOL_USE) && Restores(h, PROMPT) && Restores(h, STOP) ==> h == map[]
    ensures var wired := s["hooks" := Object(added)];
            var next := if left == map[] then wired - {"hooks"} else wired["hooks" := Object(left)];
            next != wired && (next == s <==> Restorable(s))
  {
    var wired := s["hooks" := Object(added)];
    var next := if left == map[] then wired - {"hooks"} else wired["hooks" := Object(left)];
    if left == map[] {
      assert "hooks" !in next && "hooks" in wired;
      if "hooks" !in s {
        assert next == s;
      }
    } else {
      assert next["hooks"] == Object(left) && wired["hooks"] == Object(added);
      assert next == s["hooks" := Object(left)];
      if "hooks" in s && left == h {
        assert s["hooks"] == Object(h);
        assert next == s;
      }
    }
  }

  lemma LeftIsLess(h: Fields, added: Fields, stripped: Fields, extra: seq<Value>)
    requires PRE_TOOL_USE in added && added[PRE_TOOL_USE] == List(ItemsAt(h, PRE_TOOL_USE) + extra) && extra != []
    requires PRE_TOOL_USE in stripped && stripped[PRE_TOOL_USE] == List(ItemsAt(h, PRE_TOOL_USE))
    ensures WithoutEmptied(stripped, added) != added
  {
    var left := WithoutEmptied(stripped, added);
    if PRE_TOOL_USE in left {
      assert left[PRE_TOOL_USE] == List(ItemsAt(h, PRE_TOOL_USE));
      assert |ItemsAt(h, PRE_TOOL_USE) + extra| != |ItemsAt(h, PRE_TOOL_USE)|;
    }
  }

  lemma RemovalIs(s: Fields, hook: Hook, force: bool)
    requires Entries(s).Some? && Unhooked(s, hook, force) != s && !AnyNamedLeft(s, hook, force)
    ensures PlanRemoval(Readable(s), hook, force) == Removal(Removed, Some(Unhooked(s, hook, force)), false)
  {
    hide Unhooked, AnyNamedLeft, Entries;
  }

  lemma WiredReads(s: Fields, h: Fields, added: Fields, hook: Hook)
    requires Entries(s).Some? && h == HooksOf(s)
    requires PRE_TOOL_USE in added
             && added[PRE_TOOL_USE] == List(ItemsAt(h, PRE_TOOL_USE) + [EditEntry(hook.closed), ShellEntry(hook.open)])
    ensures HooksOf(s["hooks" := Object(added)]) == added && Entries(s["hooks" := Object(added)]).Some?
  {
    hide EditEntry, ShellEntry, References;
    EditIsNoShell(hook.closed, hook);
    EditIsNoShell(hook.open, hook);
  }

  /**
   * Uninstalling right after registering gives back the same settings exactly when there were no hooks, or the hooks
   * held something and each list registering writes to was missing or had entries.
   */
  lemma UninstallRestores(s: Fields, hook: Hook, force: bool, forced: bool)
    requires ValidHook(hook) && Entries(s).Some? && Unnamed(s, hook)
    ensures var registered := PlanRegistration(Some(s), hook, force);
            && registered.status == Added && registered.content.Some?
            && var removed := PlanRemoval(Readable(registered.content.value), hook, forced);
               && removed.status == Removed && !removed.customized && removed.content.Some?
               && (removed.content.value == s <==> Restorable(s))
  {
    hide References, IsGenerated, Expected, EditEntry, ShellEntry, Names, NoneReferences, Kept, Restores, IsShellEntry,
         PlanRegistration,
         PlanRemoval, Entries, StrippedAll, WithoutEmptied, AnyNamedLeft, ItemsAt, Unnamed, Restorable;
    RegisteredHooks(s, hook, force);
    UnnamedIs(s, hook);
    var h := HooksOf(s);
    var added := h[PROMPT := List(ItemsAt(h, PROMPT) + [Expected(PROMPT, hook)])]
        [STOP := List(ItemsAt(h, STOP) + [Expected(STOP, hook)])]
                  [PRE_TOOL_USE := List(ItemsAt(h, PRE_TOOL_USE) + [EditEntry(hook.closed), ShellEntry(hook.open)])];
    var wired := s["hooks" := Object(added)];
    WiredReads(s, h, added, hook);
    StrippedAgain(h, added, hook, forced);
    var stripped := StrippedAll(added, hook, forced);
    LeftIs(h, added, stripped);
    LeftIsLess(h, added, stripped, [EditEntry(hook.closed), ShellEntry(hook.open)]);
    LeftIsBefore(s, h, added, WithoutEmptied(stripped, added));
    NamedNowhere(wired, h, added, hook, forced);
    RemovalIs(wired, hook, forced);
  }

  /** Empty hooks are gone after uninstalling. */
  lemma EmptyHooksAreLost(hook: Hook)
    requires ValidHook(hook)
    ensures var s: Fields := map["hooks" := Object(map[])];
            var registered := PlanRegistration(Some(s), hook, false);
            && registered.content.Some?
            && var removed := PlanRemoval(Readable(registered.content.value), hook, false);
               removed.content.Some? && removed.content.value != s
  {
    hide PlanRegistration, PlanRemoval, References;
    var s: Fields := map["hooks" := Object(map[])];
    assert Unnamed(s, hook) && !Restorable(s);
    UninstallRestores(s, hook, false, false);
  }

  // ---------------------------------------------------------------------------------------------
  // What registering leaves alone
  // ---------------------------------------------------------------------------------------------

  lemma {:induction false} WhereAppend(a: seq<Value>, b: seq<Value>, keep: Value -> bool)
    ensures Where(a + b, keep) == Where(a, keep) + Where(b, keep)
  {
    if a == [] {
      assert a + b == b;
    } else {
      assert (a + b)[1..] == a[1..] + b;
      WhereAppend(a[1..], b, keep);
    }
  }

  lemma {:induction false} WhereTwice(items: seq<Value>, loose: Value -> bool, keep: Value -> bool)
    requires forall e :: keep(e) ==> loose(e)
    ensures Where(Where(items, loose), keep) == Where(items, keep)
  {
    if items != [] {
      WhereTwice(items[1..], loose, keep);
      if loose(items[0]) {
        assert ([items[0]] + Where(items[1..], loose))[1..] == Where(items[1..], loose);
      } else {
        assert [] + Where(items[1..], loose) == Where(items[1..], loose);
      }
    }
  }

  lemma {:induction false} WhereReplaced(items: seq<Value>, i: nat, e: Value, keep: Value -> bool)
    requires i < |items| && !keep(items[i]) && !keep(e)
    ensures Where(items[i := e], keep) == Where(items, keep)
  {
    if i == 0 {
      assert items[0 := e][1..] == items[1..];
    } else {
      assert items[i := e][1..] == items[1..][i - 1 := e];
      WhereReplaced(items[1..], i - 1, e, keep);
    }
  }

  /** An event's entries that do not name the script, in their order. */
  function Foreign(hooks: Fields, event: string, hook: Hook): seq<Value> {
    Where(ItemsAt(hooks, event), (e: Value) => !References(e, hook))
  }

  lemma OneForeign(items: seq<Value>, e: Value, hook: Hook)
    requires References(e, hook)
    ensures Where(items + [e], (x: Value) => !References(x, hook)) == Where(items, (x: Value) => !References(x, hook))
  {
    hide References;
    var keep := (x: Value) => !References(x, hook);
    WhereAppend(items, [e], keep);
    NoneKept([e], keep);
  }

  lemma PromptedForeign(hooks: Fields, hook: Hook)
    requires ValidHook(hook)
    ensures Foreign(Prompted(hooks, hook), PROMPT, hook) == Foreign(hooks, PROMPT, hook)
    ensures Foreign(Prompted(hooks, hook), STOP, hook) == Foreign(hooks, STOP, hook)
    ensures Foreign(Prompted(hooks, hook), PRE_TOOL_USE, hook) == Foreign(hooks, PRE_TOOL_USE, hook)
    ensures forall e :: !IsEvent(e) ==>
              (e in Prompted(hooks, hook) <==> e in hooks) && (e in hooks ==> Prompted(hooks, hook)[e] == hooks[e])
  {
    hide References, Names, Expected, ShellEntry, IsGenerated;
    var keep := (e: Value) => !References(e, hook);
    var tools := (e: Value) => !IsShellEntry(e, hook);
    ExpectedIsGenerated(PROMPT, hook);
    ExpectedIsGenerated(STOP, hook);
    GeneratedReferences(PROMPT, Expected(PROMPT, hook), hook);
    GeneratedReferences(STOP, Expected(STOP, hook), hook);
    GeneratedReferences(PRE_TOOL_USE, ShellEntry(hook.open), hook);
    OneForeign(Where(ItemsAt(hooks, PROMPT), keep), Expected(PROMPT, hook), hook);
    OneForeign(Where(ItemsAt(hooks, STOP), keep), Expected(STOP, hook), hook);
    OneForeign(Where(ItemsAt(hooks, PRE_TOOL_USE), tools), ShellEntry(hook.open), hook);
    WhereTwice(ItemsAt(hooks, PROMPT), keep, keep);
    WhereTwice(ItemsAt(hooks, STOP), keep, keep);
    WhereTwice(ItemsAt(hooks, PRE_TOOL_USE), tools, keep);
  }

  lemma PromptedAfter(h: Fields, hooks: Fields, hook: Hook)
    requires ValidHook(hook)
             && (hooks == h || (PRE_TOOL_USE in hooks && hooks == h[PRE_TOOL_USE := hooks[PRE_TOOL_USE]]))
    ensures forall event :: IsEvent(event) && event != PRE_TOOL_USE ==>
              Foreign(Prompted(hooks, hook), event, hook) == Foreign(h, event, hook)
    ensures Foreign(Prompted(hooks, hook), PRE_TOOL_USE, hook) == Foreign(hooks, PRE_TOOL_USE, hook)
    ensures forall e :: !IsEvent(e) ==>
              (e in Prompted(hooks, hook) <==> e in h) && (e in h ==> Prompted(hooks, hook)[e] == h[e])
  {
    hide References, Prompted, Names;
    PromptedForeign(hooks, hook);
  }

  /**
   * Registering keeps every other setting, every other event, and every entry that does not name
   * the script, in order; of entries it cannot read, which it replaces only when forced to, none.
   */
  lemma RegistrationKeeps(s: Fields, hook: Hook, force: bool)
    requires ValidHook(hook) && PlanRegistration(Some(s), hook, force).content.Some?
    ensures var c := PlanRegistration(Some(s), hook, force).content.value;
            && (forall k :: k != "hooks" ==> (k in c <==> k in s) && (k in s ==> c[k] == s[k]))
            && (forall e :: !IsEvent(e) ==>
                  (e in HooksOf(c) <==> e in HooksOf(s)) && (e in HooksOf(s) ==> HooksOf(c)[e] == HooksOf(s)[e]))
            && Foreign(HooksOf(c), PROMPT, hook) == Foreign(HooksOf(s), PROMPT, hook)
            && Foreign(HooksOf(c), STOP, hook) == Foreign(HooksOf(s), STOP, hook)
            && Foreign(HooksOf(c), PRE_TOOL_USE, hook)
                == if Entries(s).Some? then Foreign(HooksOf(s), PRE_TOOL_USE, hook) else []
  {
    hide References, Names, EditEntry, IsEditEntry, IsGenerated, Foreign, Prompted, Where;
    var h, expected := HooksOf(s), EditEntry(hook.closed);
    ExpectedIsGenerated(PROMPT, hook);
    GeneratedReferences(PRE_TOOL_USE, expected, hook);
    if Entries(s).None? {
      PromptedAfter(h, h[PRE_TOOL_USE := List([expected])], hook);
      ForeignIs(h[PRE_TOOL_USE := List([expected])], hook);
      OneForeign([], expected, hook);
      NoneForeign(hook);
      assert [] + [expected] == [expected];
    } else {
      var entries := Entries(s).value;
      assert entries == ItemsAt(h, PRE_TOOL_USE);
      if expected in entries {
        PromptedAfter(h, h, hook);
      } else {
        var mine := Mine(entries, hook).0;
        var next := if mine == |entries| then entries + [expected] else entries[mine := expected];
        NextForeign(entries, mine, expected, hook);
        ForeignIs(h, hook);
        ForeignIs(h[PRE_TOOL_USE := List(next)], hook);
        PromptedAfter(h, h[PRE_TOOL_USE := List(next)], hook);
      }
    }
  }

  lemma NoneForeign(hook: Hook)
    ensures Where([], (e: Value) => !References(e, hook)) == []
  {
  }

  lemma ForeignIs(hooks: Fields, hook: Hook)
    ensures Foreign(hooks, PRE_TOOL_USE, hook)
            == Where(ItemsAt(hooks, PRE_TOOL_USE), (e: Value) => !References(e, hook))
  {
  }

  lemma NextForeign(entries: seq<Value>, mine: nat, expected: Value, hook: Hook)
    requires ValidHook(hook) && References(expected, hook) && mine == Mine(entries, hook).0
    ensures Where(if mine == |entries| then entries + [expected] else entries[mine := expected],
                  (e: Value) => !References(e, hook))
            == Where(entries, (e: Value) => !References(e, hook))
  {
    hide References, Names, IsEditEntry, IsGenerated;
    if mine == |entries| {
      OneForeign(entries, expected, hook);
    } else {
      if IsEditEntry(entries[mine], hook) {
        EditIsGenerated(entries[mine], hook);
        GeneratedReferences(PRE_TOOL_USE, entries[mine], hook);
      }
      WhereReplaced(entries, mine, expected, (e: Value) => !References(e, hook));
    }
  }
}
