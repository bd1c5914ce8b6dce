/**
 * The edits as the program makes them: spans found by the reader, lists of edits, and their application to the text.
 * Each turns the text into that of the changed tree.
 */
module JsoncEditor {
  import opened Prelude
  import opened JsonString
  import opened JsoncSyntax
  import opened JsoncReader
  import opened JsoncLayout
  import opened JsoncTree
  import opened JsoncChange
  import opened JsoncEdit

  datatype Edit = Edit(start: nat, end: nat, text: string)

  /** The edits in the order of their places, none reaching into the next. */
  predicate Apart(edits: seq<Edit>, from: nat, to: nat) {
    if edits == [] then from <= to
    else from <= edits[0].start <= edits[0].end && Apart(edits[1..], edits[0].end, to)
  }

  /** The source from `from` on, with every edit made at its place. */
  function Spliced(source: string, from: nat, edits: seq<Edit>): string
    requires Apart(edits, from, |source|)
    decreases edits
  {
    if edits == [] then source[from..]
    else
      ApartWithin(edits, from, |source|);
      source[from..edits[0].start] + edits[0].text + Spliced(source, edits[0].end, edits[1..])
  }

  lemma ApartWithin(edits: seq<Edit>, from: nat, to: nat)
    requires Apart(edits, from, to)
    ensures from <= to && (edits != [] ==> edits[0].end <= to)
  {
  }

  lemma {:induction false} ApartFrom(edits: seq<Edit>, from: nat, to: nat, i: nat)
    requires Apart(edits, from, to) && i < |edits|
    ensures from <= edits[i].start <= edits[i].end && Apart(edits[i + 1..], edits[i].end, to)
            && Apart(edits[i..], 0, to)
    ensures i > 0 ==> edits[i - 1].start <= edits[i].start
  {
    if i > 0 {
      ApartFrom(edits[1..], edits[0].end, to, i - 1);
      assert edits[1..][i - 1..] == edits[i..] && edits[1..][i..] == edits[i + 1..];
    }
  }

  lemma Started(source: string, from: nat, at: nat, edits: seq<Edit>)
    requires from <= at && Apart(edits, at, |source|)
    ensures Apart(edits, from, |source|) && at <= |source|
            && Spliced(source, from, edits) == source[from..at] + Spliced(source, at, edits)
  {
    ApartWithin(edits, at, |source|);
    if edits == [] {
      Joined(source, from, at, |source|, "");
    } else {
      Joined(source, from, at, edits[0].start, edits[0].text + Spliced(source, edits[0].end, edits[1..]));
      assert Spliced(source, at, edits)
             == source[at..edits[0].start] + (edits[0].text + Spliced(source, edits[0].end, edits[1..]));
    }
  }

  lemma Joined(source: string, from: nat, at: nat, to: nat, rest: string)
    requires from <= at <= to <= |source|
    ensures source[from..to] + rest == source[from..at] + (source[at..to] + rest)
    ensures source[from..] == source[from..at] + source[at..]
  {
  }

  lemma OneMore(source: string, edits: seq<Edit>)
    requires edits != [] && Apart(edits, 0, |source|)
    ensures Apart(edits[1..], 0, |source|)
    ensures var text := Spliced(source, 0, edits[1..]);
            edits[0].end <= |text|
                && text[..edits[0].start] + edits[0].text + text[edits[0].end..] == Spliced(source, 0, edits)
  {
    var e := edits[0];
    Started(source, 0, e.end, edits[1..]);
    ApartWithin(edits, 0, |source|);
    assert source[0..e.end][..e.start] == source[0..e.start];
  }

  predicate ComesFirst(a: (Edit, nat), b: (Edit, nat)) {
    a.0.start > b.0.start || (a.0.start == b.0.start && a.1 > b.1)
  }

  predicate Rising(edits: seq<Edit>) {
    forall i, j :: 0 <= i < j < |edits| ==> edits[i].start <= edits[j].start
  }

  /** The edits with their indices, the later in the text first, and of two at one place the later listed. */
  method Ordered(edits: seq<Edit>) returns (ordered: seq<(Edit, nat)>)
    ensures |ordered| == |edits| && forall j :: 0 <= j < |ordered| ==>
              ordered[j].1 < |edits| && ordered[j].0 == edits[ordered[j].1]
    ensures forall j, k :: 0 <= j < k < |ordered| ==> ComesFirst(ordered[j], ordered[k])
    ensures Rising(edits) ==> forall j :: 0 <= j < |edits| ==> ordered[j] == (edits[|edits| - 1 - j], |edits| - 1 - j)
  {
    ordered := [];
    for i := 0 to |edits|
      invariant |ordered| == i && forall j :: 0 <= j < i ==> ordered[j].1 < i && ordered[j].0 == edits[ordered[j].1]
      invariant forall j, k :: 0 <= j < k < i ==> ComesFirst(ordered[j], ordered[k])
      invariant Rising(edits) ==> forall j :: 0 <= j < i ==> ordered[j] == (edits[i - 1 - j], i - 1 - j)
    {
      var next := (edits[i], i);
      var k := 0;
      while k < |ordered| && ComesFirst(ordered[k], next)
        invariant k <= i && forall j :: 0 <= j < k ==> ComesFirst(ordered[j], next)
      {
        k := k + 1;
      }
      assert Rising(edits) && i > 0 ==> !ComesFirst(ordered[0], next);
      ordered := ordered[..k] + [next] + ordered[k..];
    }
  }

  lemma ApartIsRising(edits: seq<Edit>, from: nat, to: nat)
    requires Apart(edits, from, to)
    ensures Rising(edits) && forall i :: 0 <= i < |edits| ==> from <= edits[i].start
  {
    if edits != [] {
      ApartIsRising(edits[1..], edits[0].end, to);
      assert forall i :: 0 < i < |edits| ==> edits[i] == edits[1..][i - 1];
    }
  }

  method Apply(source: string, edits: seq<Edit>) returns (text: string)
    requires Apart(edits, 0, |source|)
    ensures text == Spliced(source, 0, edits)
  {
    hide Spliced, Apart, Rising;
    ApartIsRising(edits, 0, |source|);
    var ordered := Ordered(edits);
    text := source;
    NoEdits(source);
    assert edits[|edits|..] == [];
    for j := 0 to |ordered|
      invariant Apart(edits[|edits| - j..], 0, |source|) && text == Spliced(source, 0, edits[|edits| - j..])
    {
      var edit := ordered[j].0;
      ghost var rest := edits[|edits| - j - 1..];
      ApartFrom(edits, 0, |source|, |edits| - j - 1);
      assert rest[0] == edit && rest[1..] == edits[|edits| - j..];
      OneMore(source, rest);
      text := text[..edit.start] + edit.text + text[edit.end..];
    }
    assert edits[0..] == edits;
  }

  lemma NoEdits(source: string)
    ensures Apart([], 0, |source|) && Spliced(source, 0, []) == source
  {
  }

  // ---------------------------------------------------------------------------------------------
  // Where the spans are
  // ---------------------------------------------------------------------------------------------

  lemma PrintedBefore(ms: seq<Member>, i: nat)
    requires 0 < i <= |ms|
    ensures |PrintMembers(ms[..i])| == |PrintMember(ms[0])| + |PrintMembers(ms[1..][..i - 1])|
  {
    hide *;
    assert ms[..i] == [ms[0]] + ms[1..][..i - 1];
    PrintMembersSplit([ms[0]], ms[1..][..i - 1]);
    PrintOne(ms[0]);
  }

  lemma {:induction false} NodesAtIndex(ms: seq<Member>, at: nat, i: nat)
    requires i < |ms|
    ensures NodesAt(ms, at)[i] == MemberAt(ms[i], at + |PrintMembers(ms[..i])|)
  {
    hide *;
    NodesStep(ms, at);
    if i == 0 {
      NothingPrinted(ms);
    } else {
      NodesAtIndex(ms[1..], at + |PrintMember(ms[0])|, i - 1);
      PrintedBefore(ms, i);
    }
  }

  lemma NothingPrinted(ms: seq<Member>)
    ensures PrintMembers(ms[..0]) == ""
  {
  }

  lemma NodeSpan(v: Value, at: nat)
    ensures NodeAt(v, at).start == at && NodeAt(v, at).end == at + |Print(v)|
    ensures IsObject(v) <==> NodeAt(v, at).ObjectNode?
    ensures IsObject(v) ==> NodeAt(v, at).members == NodesAt(v.members, at + 1)
  {
    hide Print, NodesAt;
  }

  /** A member's spans in an object at `at`. */
  lemma MemberSpans(o: Value, at: nat, i: nat)
    requires IsObject(o) && i < |o.members|
    ensures |NodeAt(o, at).members| == |o.members|
    ensures var m, node, start := o.members[i], NodeAt(o, at).members[i], at + 1 + |PrintMembers(o.members[..i])|;
            && node.key == KeyOf(m) && node.keyStart == start + |m.lead|
            && node.value == NodeAt(m.value, at + ValueOffset(o, i))
            && node.comma == (if m.comma then Some(at + ValueOffset(o, i) + |Print(m.value)| + |m.tail|) else None)
  {
    hide Print, PrintMembers, PrintName, KeyOf, NodesAt;
    NodeSpan(o, at);
    NodesAtIndex(o.members, at + 1, i);
  }

  function NodeKeys(members: seq<NodeMember>): (keys: seq<string>)
    ensures |keys| == |members| && forall i :: 0 <= i < |members| ==> keys[i] == members[i].key
  {
    seq(|members|, i requires 0 <= i < |members| => members[i].key)
  }

  lemma SameKeys(o: Value, at: nat)
    requires IsObject(o)
    ensures NodeKeys(NodeAt(o, at).members) == Keys(o.members)
  {
    hide Print, PrintMembers, PrintName, KeyOf, NodesAt, NodeAt, ValueOffset;
    NodeSpan(o, at);
    forall i | 0 <= i < |o.members| ensures NodeKeys(NodeAt(o, at).members)[i] == Keys(o.members)[i] {
      MemberSpans(o, at, i);
    }
  }

  method MemberNamed(members: seq<NodeMember>, key: string) returns (found: Found)
    ensures found == Find(NodeKeys(members), key)
  {
    var matches: seq<nat> := [];
    ghost var keys := NodeKeys(members);
    for i := 0 to |members|
      invariant match Find(keys[..i], key)
                case Absent => matches == []
                case Once(j) => matches == [j]
                case Twice => |matches| > 1
    {
      assert keys[..i + 1][..i] == keys[..i];
      if members[i].key == key {
        matches := matches + [i];
      }
    }
    assert keys[..|members|] == keys;
    found := if |matches| > 1 then Twice else if matches == [] then Absent else Once(matches[0]);
  }

  /** The text before a key is what precedes its member, with a mark at the end, and the trivia before it. */
  lemma BeforeKey(source: string, at: nat, o: Value, i: nat) returns (x: string)
    requires IsObject(o) && WellFormed(o) && Holds(source, at, Print(o)) && i < |o.members|
    ensures var k := at + 1 + |PrintMembers(o.members[..i])| + |o.members[i].lead|;
            k <= |source| && Before(source, k) == x + o.members[i].lead
    ensures x != "" && (x[|x| - 1] == '{' || x[|x| - 1] == ',')
    ensures |x| == at + 1 + |PrintMembers(o.members[..i])|
  {
    hide WellFormed, Print, PrintMember, PrintMembers, PrintName;
    ObjectText(o, i);
    var m, front := o.members[i], PrintMembers(o.members[..i]);
    x := source[..at] + (['{'] + front);
    EndsWithComma(o, i);
    KeyPlace(source, at, Print(o), front, m.lead,
             (PrintName(m.name) + (Print(m.value) + (if m.comma then m.tail + [','] else "")))
                 + PrintMembers(o.members[i + 1..]) + (o.close + ['}']))
    by { Regroup(front, m.lead, PrintName(m.name) + (Print(m.value) + (if m.comma then m.tail + [','] else "")),
                 PrintMembers(o.members[i + 1..]), o.close + ['}']); }
  }

  lemma Regroup(front: string, lead: string, rest: string, after: string, close: string)
    ensures ['{'] + ((front + ((lead + rest) + after)) + close) == ['{'] + (front + (lead + (rest + after + close)))
  {
  }

  lemma KeyPlace(source: string, at: nat, text: string, front: string, lead: string, rest: string)
    requires Holds(source, at, text) && text == ['{'] + (front + (lead + rest))
    ensures var k := at + 1 + |front| + |lead|;
            k <= |source| && Before(source, k) == source[..at] + (['{'] + front) + lead
  {
    assert source == source[..at] + text + source[at + |text|..];
  }

  lemma EndsWithComma(o: Value, i: nat)
    requires IsObject(o) && WellFormed(o) && i < |o.members|
    ensures var front := PrintMembers(o.members[..i]); front != "" ==> front[|front| - 1] == ','
  {
    hide WellFormed, Print, PrintName, Trivia;
    if i > 0 {
      ObjectWellFormed(o);
      var last := o.members[i - 1];
      assert Fits(last, true, (i - 1) + 1 == |o.members|);
      assert o.members[..i] == o.members[..i - 1] + [last];
      PrintMembersSplit(o.members[..i - 1], [last]);
      PrintOne(last);
      CommaLast(last);
    }
  }

  lemma CommaLast(m: Member)
    requires m.comma
    ensures PrintMember(m) != "" && PrintMember(m)[|PrintMember(m)| - 1] == ','
  {
    hide Print, PrintName;
  }

  /** Whether a key is alone before itself on its line shows in the trivia before it. */
  lemma KeyLine(x: string, lead: string)
    requires x != "" && (x[|x| - 1] == '{' || x[|x| - 1] == ',')
    ensures OwnsLine(x + lead) <==> OwnLead(lead)
    ensures OwnLead(lead) ==> LineOf(x + lead) == LineOf(lead)
  {
    if '\n' in lead {
      LineOfLonger(x, lead);
    } else {
      LineOfShort(x, lead);
      var line := LineOf(x);
      assert line == LineOf(x[..|x| - 1]) + [x[|x| - 1]];
      assert (line + lead)[|line| - 1] == x[|x| - 1];
    }
  }

  function IndentOf(source: string, l: Layout, start: nat, keyStart: nat): string {
    if OwnsLine(Before(source, keyStart)) then LineOf(Before(source, keyStart))
    else LineIndent(Before(source, start)) + l.unit
  }

  lemma IndentAgrees(source: string, at: nat, o: Value, i: nat, l: Layout)
    requires IsObject(o) && WellFormed(o) && Holds(source, at, Print(o)) && i < |o.members|
    ensures IndentOf(source, l, at, at + 1 + |PrintMembers(o.members[..i])| + |o.members[i].lead|)
            == MemberIndent(l, o.members[i].lead, LineIndent(Before(source, at)))
  {
    hide *;
    ObjectIsGroup(o);
    var x := BeforeKey(source, at, o, i);
    KeyLine(x, o.members[i].lead);
    IndentCases(source, l, at, at + 1 + |PrintMembers(o.members[..i])| + |o.members[i].lead|, o.members[i].lead);
  }

  lemma IndentCases(source: string, l: Layout, start: nat, keyStart: nat, lead: string)
    requires OwnsLine(Before(source, keyStart)) <==> OwnLead(lead)
    requires OwnLead(lead) ==> LineOf(Before(source, keyStart)) == LineOf(lead)
    ensures IndentOf(source, l, start, keyStart) == MemberIndent(l, lead, LineIndent(Before(source, start)))
  {
    hide Before, OwnsLine, LineOf, OwnLead;
  }

  // ---------------------------------------------------------------------------------------------
  // The edits of one object
  // ---------------------------------------------------------------------------------------------

  /** These edits turn one object of the text into another and leave all other text alone. */
  predicate Turns(source: string, edits: seq<Edit>, at: nat, o: Value, after: Value) {
    && Apart(edits, 0, |source|) && Holds(source, at, Print(o))
    && Spliced(source, 0, edits) == Swap(source, at, Print(o), Print(after))
  }

  lemma OneEdit(source: string, start: nat, part: string, text: string)
    requires Holds(source, start, part)
    ensures var edits := [Edit(start, start + |part|, text)];
            Apart(edits, 0, |source|) && Spliced(source, 0, edits) == Swap(source, start, part, text)
  {
    var edits := [Edit(start, start + |part|, text)];
    assert Apart(edits[1..], start + |part|, |source|);
    assert source[0..start] == source[..start];
  }

  lemma HeldOneLine(source: string, at: nat, text: string)
    requires Holds(source, at, text)
    ensures at + |text| <= |source| && source[at..at + |text|] == text
  {
  }

  method Replace(source: string, l: Layout, node: Node, member: NodeMember, value: Json,
                 ghost o: Value, ghost at: nat, ghost i: nat) returns (edit: Edit)
    requires IsObject(o) && WellFormed(o) && Holds(source, at, Print(o)) && i < |o.members|
    requires node == NodeAt(o, at) && |node.members| == |o.members| && member == node.members[i]
    ensures Turns(source, [edit], at, o, Replaced(l, o, LineIndent(Before(source, at)), i, value))
  {
    hide *;
    ObjectIsGroup(o);
    NodeSpan(o, at);
    MemberSpans(o, at, i);
    ghost var was := o.members[i].value;
    NodeSpan(was, at + ValueOffset(o, i));
    HeldOneLine(source, at, Print(o));
    var indent := IndentOf(source, l, node.start, member.keyStart);
    IndentAgrees(source, at, o, i, l);
    var text := Print(Render(l, value, indent, OneLine(source[node.start..node.end])));
    edit := Edit(member.value.start, member.value.end, text);
    ghost var other := Render(l, value, indent, OneLine(Print(o)));
    WithValuePrints(o, i, other);
    SwapInner(source, at, Print(o), ValueOffset(o, i), Print(was), text);
    OneEdit(source, at + ValueOffset(o, i), Print(was), text);
    ReplacedIs(l, o, LineIndent(Before(source, at)), i, value, indent);
    TurnsBy(source, [edit], at, o, WithValue(o, i, other));
  }

  lemma ReplacedIs(l: Layout, o: Value, outer: string, i: nat, value: Json, indent: string)
    requires IsObject(o) && i < |o.members| && indent == MemberIndent(l, o.members[i].lead, outer)
    ensures Replaced(l, o, outer, i, value) == WithValue(o, i, Render(l, value, indent, OneLine(Print(o))))
  {
  }

  lemma TurnsBy(source: string, edits: seq<Edit>, at: nat, o: Value, after: Value)
    requires Apart(edits, 0, |source|) && Holds(source, at, Print(o))
    requires Spliced(source, 0, edits) == Swap(source, at, Print(o), Print(after))
    ensures Turns(source, edits, at, o, after)
  {
  }

  // Insertion after the last member.

  lemma AfterLast(source: string, at: nat, o: Value)
    requires IsObject(o) && Holds(source, at, Print(o))
    ensures var after := at + 1 + |PrintMembers(o.members)|;
            && after + |o.close| < |source| && source[after + |o.close|] == '}'
            && source[after..] == o.close + source[after + |o.close|..]
            && source == source[..at] + (['{'] + (PrintMembers(o.members) + (o.close + ['}'])))
                + source[at + |Print(o)|..]
            && at + |Print(o)| == after + |o.close| + 1
  {
    hide *;
    ObjectIsGroup(o);
    ObjectIs(o);
    GroupPrint(o.members, o.close);
    HeldAround(source, at, Print(o));
    CloseBehind(source, at, PrintMembers(o.members), o.close, Print(o));
  }

  lemma HeldAround(source: string, at: nat, text: string)
    requires Holds(source, at, text)
    ensures at + |text| <= |source| && source == source[..at] + text + source[at + |text|..]
  {
  }

  lemma CloseBehind(source: string, at: nat, body: string, close: string, text: string)
    requires text == ['{'] + (body + (close + ['}'])) && at + |text| <= |source|
             && source == source[..at] + text + source[at + |text|..]
    ensures var after := at + 1 + |body|;
            && after + |close| < |source| && source[after + |close|] == '}' && at + |text| == after + |close| + 1
            && source[after..] == close + source[after + |close|..]
  {
    var after, rest := at + 1 + |body|, source[at + |text|..];
    assert text[1 + |body|..] == close + ['}'];
    assert source[after..] == (close + ['}']) + rest;
  }

  lemma LastEnds(o: Value, at: nat)
    requires IsObject(o) && WellFormed(o) && o.members != []
    ensures var n := |o.members| - 1;
            var m := o.members[n];
            && |PrintMembers(o.members)| + 1 == ValueOffset(o, n) + |Print(m.value)|
                + (if m.comma then |m.tail| + 1 else 0)
            && (!m.comma ==> m.tail == "")
  {
    hide WellFormed, Print, PrintName, Trivia;
    var n := |o.members| - 1;
    ObjectWellFormed(o);
    assert Fits(o.members[n], true, n + 1 == |o.members|);
    FitsTrivia(o.members[n], true);
    PrintMembersAt(o.members, n);
    assert o.members[n + 1..] == [];
  }

  /** The comma an unfinished last member still needs, and the edit at `start`. */
  function InsertEdits(after: nat, trailing: bool, start: nat, end: nat, text: string): seq<Edit> {
    (if trailing then [] else [Edit(after, after, ",")]) + [Edit(start, end, text)]
  }

  lemma InsertSplices(source: string, after: nat, trailing: bool, start: nat, end: nat, text: string)
    requires after <= start <= end <= |source|
    ensures var edits := InsertEdits(after, trailing, start, end, text);
            && Apart(edits, 0, |source|)
            && Spliced(source, 0, edits)
                == source[..after] + (CommaIf(!trailing) + (source[after..start] + (text + source[end..])))
  {
    hide Spliced, Apart;
    var last := [Edit(start, end, text)];
    LastEdit(source, after, start, end, text);
    if trailing {
      assert [] + last == last;
      assert "" + (source[after..start] + (text + source[end..])) == source[after..start] + (text + source[end..]);
      Started(source, 0, after, last);
      assert source[0..after] == source[..after];
    } else {
      FirstComma(source, after, last);
    }
  }

  lemma LastEdit(source: string, from: nat, start: nat, end: nat, text: string)
    requires from <= start <= end <= |source|
    ensures Apart([Edit(start, end, text)], from, |source|)
    ensures Spliced(source, from, [Edit(start, end, text)]) == source[from..start] + (text + source[end..])
  {
    var last := [Edit(start, end, text)];
    assert last[1..] == [] && Apart([], end, |source|);
    assert Spliced(source, end, []) == source[end..];
  }

  lemma FirstComma(source: string, after: nat, last: seq<Edit>)
    requires Apart(last, after, |source|)
    ensures after <= |source| && Apart([Edit(after, after, ",")] + last, 0, |source|)
    ensures Spliced(source, 0, [Edit(after, after, ",")] + last)
            == source[..after] + ("," + Spliced(source, after, last))
  {
    var edits := [Edit(after, after, ",")] + last;
    assert edits[1..] == last;
    ApartWithin(last, after, |source|);
    assert source[0..after] == source[..after];
  }

  /** An insertion after the last member turns the object into one with a member more. */
  lemma InsertTurns(source: string, at: nat, o: Value, m: Member, close: string, start: nat, k: nat, text: string)
    requires IsObject(o) && WellFormed(o) && o.members != [] && Holds(source, at, Print(o)) && k <= |o.close|
    requires var after := at + 1 + |PrintMembers(o.members)|;
             && after <= start <= after + k && after + k <= |source|
             && source[after..start] + text + o.close[k..] == PrintMember(m) + close
    ensures var after := at + 1 + |PrintMembers(o.members)|;
            Turns(source, InsertEdits(after, o.members[|o.members| - 1].comma, start, after + k, text), at, o,
                  Group(true, WithComma(o.members) + [m], close))
  {
    hide *;
    ObjectIsGroup(o);
    var after := at + 1 + |PrintMembers(o.members)|;
    var trailing := o.members[|o.members| - 1].comma;
    AfterLast(source, at, o);
    InsertSplices(source, after, trailing, start, after + k, text);
    AppendedText(o, m, close);
    InsertText(source, at, Print(o), PrintMembers(o.members), o.close, CommaIf(!trailing), source[after..start], text,
               k, PrintMember(m), close);
    TurnsBy(source, InsertEdits(after, trailing, start, after + k, text), at, o,
            Group(true, WithComma(o.members) + [m], close));
  }

  lemma InsertText(source: string, at: nat, was: string, body: string, close: string, comma: string,
                   kept: string, text: string, k: nat, member: string, other: string)
    requires Holds(source, at, was) && k <= |close| && at + 1 + |body| + |close| + 1 == at + |was|
    requires source == source[..at] + (['{'] + (body + (close + ['}']))) + source[at + |was|..]
    requires kept + text + close[k..] == member + other
    ensures var after := at + 1 + |body|;
            source[..after] + (comma + (kept + (text + source[after + k..])))
            == Swap(source, at, was, ['{'] + ((body + (comma + member)) + (other + ['}'])))
  {
    var after := at + 1 + |body|;
    var rest := source[at + |was|..];
    assert source[..after] == source[..at] + ['{'] + body;
    assert source[after + k..] == close[k..] + (['}'] + rest);
    assert kept + (text + source[after + k..]) == (kept + text + close[k..]) + (['}'] + rest);
  }

  lemma NewlineWithin(b: string, x: string)
    requires x != "" && x[0] != '\n' && x[0] != '\r'
    ensures IsNewline(b + x) <==> IsNewline(b)
  {
  }

  /** Where a line ends does not depend on what follows the trivia. */
  lemma LineBefore(trivia: string, x: string)
    requires Trivia(trivia) && x != "" && (x[0] == '}' || x[0] == '"')
    ensures EndOfLineTrivia(trivia + x) == EndOfLineTrivia(trivia)
    ensures (trivia + x)[EndOfLineTrivia(trivia)..] == OtherLines(trivia) + x
    ensures IsNewline(OtherLines(trivia) + x) <==> IsNewline(OtherLines(trivia))
  {
    hide Trivia, IsNewline, EndOfLineTrivia;
    assert x == [x[0]] + x[1..];
    MarkIsSolid(x[0], x[1..]);
    LineEndsWithin(trivia, x);
    NewlineWithin(OtherLines(trivia), x);
  }

  lemma TriviaText(source: string, from: nat, trivia: string, k: nat)
    requires Holds(source, from, trivia) && k <= |trivia|
    ensures source[from..] == trivia + source[from + |trivia|..]
    ensures from + k <= |source| && source[from..from + k] == trivia[..k] && source[from..][k..] == source[from + k..]
  {
  }

  lemma LineAfter(source: string, from: nat, trivia: string)
    requires Holds(source, from, trivia) && Trivia(trivia) && from + |trivia| < |source|
    requires source[from + |trivia|] == '}' || source[from + |trivia|] == '"'
    ensures var k := EndOfLineTrivia(trivia);
            && EndOfLineTrivia(source[from..]) == k && from + k < |source|
            && (IsNewline(source[from + k..]) <==> IsNewline(OtherLines(trivia)))
            && source[from..from + k] == FirstLine(trivia)
  {
    hide Trivia, IsNewline, EndOfLineTrivia, OtherLines, Holds;
    HeldOneLine(source, from, trivia);
    LineBefore(trivia, source[from + |trivia|..]);
    TriviaText(source, from, trivia, EndOfLineTrivia(trivia));
  }

  lemma InlineMember(after: string, lead: string, key: string, value: Value, comma: bool, close: string)
    ensures "" + (lead + (Quote(key) + ": " + Print(value)) + CommaIf(comma)) + close[0..]
            == PrintMember(NewMember(lead, key, value, comma)) + close
  {
    hide Quote, Print, PrintMember, NewMember;
    NewMemberText(lead, key, value, comma);
    assert close[0..] == close;
  }

  lemma LinesMember(kept: string, lead: string, key: string, value: Value, comma: bool, more: string, back: string)
    ensures kept + ((lead + (Quote(key) + ": " + Print(value)) + CommaIf(comma)) + more) + back
            == PrintMember(NewMember(kept + lead, key, value, comma)) + (more + back)
  {
    hide Quote, Print, PrintMember, NewMember;
    NewMemberText(kept + lead, key, value, comma);
  }

  lemma NothingKept(source: string, at: nat)
    requires at <= |source|
    ensures source[at..at] == ""
  {
  }

  lemma AppendedInline(l: Layout, o: Value, outer: string, key: string, value: Json)
    requires IsObject(o) && o.members != [] && OneLine(Print(o))
    ensures Appended(l, o, outer, key, value)
            == Group(true, WithComma(o.members)
                     + [NewMember(" ", key, RenderInline(value), o.members[|o.members| - 1].comma)], o.close)
  {
  }

  lemma AppendedOnLine(l: Layout, o: Value, outer: string, key: string, value: Json)
    requires IsObject(o) && o.members != [] && !OneLine(Print(o)) && IsNewline(OtherLines(o.close))
    ensures var last := o.members[|o.members| - 1];
            var indent := MemberIndent(l, last.lead, outer);
            Appended(l, o, outer, key, value)
            == Group(true, WithComma(o.members)
                     + [NewMember(FirstLine(o.close) + (l.newline + indent), key, RenderLines(l, value, indent),
                                  last.comma)],
                     OtherLines(o.close))
  {
    hide NewMember, WithComma, RenderLines;
  }

  lemma AppendedAtBrace(l: Layout, o: Value, outer: string, key: string, value: Json)
    requires IsObject(o) && o.members != [] && !OneLine(Print(o)) && !IsNewline(OtherLines(o.close))
    ensures var last := o.members[|o.members| - 1];
            var indent := MemberIndent(l, last.lead, outer);
            var front := FirstLine(o.close);
            Appended(l, o, outer, key, value)
            == Group(true, WithComma(o.members)
                     + [NewMember((if Blank(front) then "" else front) + (l.newline + indent), key,
                                  RenderLines(l, value, indent), last.comma)],
                     l.newline + (outer + OtherLines(o.close)))
  {
    hide NewMember, WithComma, RenderLines;
  }

  lemma RenderIs(l: Layout, value: Json, indent: string, inline: bool)
    ensures Render(l, value, indent, inline) == if inline then RenderInline(value) else RenderLines(l, value, indent)
  {
  }

  lemma CutParts(close: string)
    ensures EndOfLineTrivia(close) <= |close| && OtherLines(close) == close[EndOfLineTrivia(close)..]
  {
  }

  lemma CloseIsTrivia(o: Value)
    requires IsObject(o) && WellFormed(o)
    ensures Trivia(o.close)
  {
    hide Trivia;
  }

  /** The text of a new member, up to its comma. */
  function MemberText(key: string, value: Value): string {
    Quote(key) + ": " + Print(value)
  }

  lemma MemberTextIs(key: string, value: Value)
    ensures MemberText(key, value) == Quote(key) + ": " + Print(value)
  {
  }

  lemma InsertInline(source: string, at: nat, o: Value, l: Layout, key: string, value: Json)
    requires IsObject(o) && WellFormed(o) && o.members != [] && Holds(source, at, Print(o)) && OneLine(Print(o))
    ensures var trailing := o.members[|o.members| - 1].comma;
            var after := at + 1 + |PrintMembers(o.members)|;
            Turns(source, InsertEdits(after, trailing, after, after,
                                      " " + MemberText(key, RenderInline(value)) + CommaIf(trailing)),
                  at, o, Appended(l, o, LineIndent(Before(source, at)), key, value))
  {
    hide *;
    ObjectIsGroup(o);
    AfterLast(source, at, o);
    var v, trailing, after := RenderInline(value), o.members[|o.members| - 1].comma, at + 1 + |PrintMembers(o.members)|;
    MemberTextIs(key, v);
    NothingKept(source, after);
    AppendedInline(l, o, LineIndent(Before(source, at)), key, value);
    InlineMember("", " ", key, v, trailing, o.close);
    InsertTurns(source, at, o, NewMember(" ", key, v, trailing), o.close, after, 0,
                " " + MemberText(key, v) + CommaIf(trailing));
  }

  /** Where the line of the last member ends, in the text and in the object's closing trivia. */
  lemma LineEndHere(source: string, at: nat, o: Value)
    requires IsObject(o) && WellFormed(o) && o.members != [] && Holds(source, at, Print(o))
    ensures var after, k := at + 1 + |PrintMembers(o.members)|, EndOfLineTrivia(o.close);
            && k <= |o.close| && after + k < |source| && OtherLines(o.close) == o.close[k..]
            && source[after..after + k] == FirstLine(o.close)
  {
    hide *;
    ObjectIsGroup(o);
    CloseIsTrivia(o);
    AfterLast(source, at, o);
    CloseHeld(source, at + 1 + |PrintMembers(o.members)|, o.close);
    LineAfter(source, at + 1 + |PrintMembers(o.members)|, o.close);
    CutParts(o.close);
  }

  lemma LineMember(kept: string, lead: string, key: string, value: Value, comma: bool, back: string)
    ensures kept + (lead + MemberText(key, value) + CommaIf(comma)) + back
            == PrintMember(NewMember(kept + lead, key, value, comma)) + back
  {
    hide *;
    MemberTextIs(key, value);
    LinesMember(kept, lead, key, value, comma, "", back);
    NoMore(kept, lead + MemberText(key, value) + CommaIf(comma), back);
  }

  lemma InsertOnLine(source: string, at: nat, o: Value, l: Layout, key: string, value: Json, indent: string)
    requires IsObject(o) && WellFormed(o) && o.members != [] && Holds(source, at, Print(o)) && !OneLine(Print(o))
    requires IsNewline(OtherLines(o.close))
    requires indent == MemberIndent(l, o.members[|o.members| - 1].lead, LineIndent(Before(source, at)))
    ensures var trailing := o.members[|o.members| - 1].comma;
            var after := at + 1 + |PrintMembers(o.members)|;
            var end := after + EndOfLineTrivia(o.close);
            Turns(source, InsertEdits(after, trailing, end, end,
                                      (l.newline + indent) + MemberText(key, RenderLines(l, value, indent))
                                          + CommaIf(trailing)),
                  at, o, Appended(l, o, LineIndent(Before(source, at)), key, value))
  {
    hide *;
    ObjectIsGroup(o);
    LineEndHere(source, at, o);
    var v, trailing, lead := RenderLines(l, value, indent), o.members[|o.members| - 1].comma, l.newline + indent;
    var end := at + 1 + |PrintMembers(o.members)| + EndOfLineTrivia(o.close);
    AppendedOnLine(l, o, LineIndent(Before(source, at)), key, value);
    LineMember(FirstLine(o.close), lead, key, v, trailing, OtherLines(o.close));
    InsertTurns(source, at, o, NewMember(FirstLine(o.close) + lead, key, v, trailing), OtherLines(o.close),
                end, EndOfLineTrivia(o.close), lead + MemberText(key, v) + CommaIf(trailing));
  }

  lemma InsertAtBrace(source: string, at: nat, o: Value, l: Layout, key: string, value: Json, indent: string)
    requires IsObject(o) && WellFormed(o) && o.members != [] && Holds(source, at, Print(o)) && !OneLine(Print(o))
    requires !IsNewline(OtherLines(o.close))
    requires indent == MemberIndent(l, o.members[|o.members| - 1].lead, LineIndent(Before(source, at)))
    ensures var trailing, outer := o.members[|o.members| - 1].comma, LineIndent(Before(source, at));
            var after := at + 1 + |PrintMembers(o.members)|;
            var end := after + EndOfLineTrivia(o.close);
            Turns(source, InsertEdits(after, trailing, if Blank(FirstLine(o.close)) then after else end, end,
                                      (l.newline + indent) + MemberText(key, RenderLines(l, value, indent))
                                          + CommaIf(trailing) + (l.newline + outer)),
                  at, o, Appended(l, o, outer, key, value))
  {
    hide *;
    ObjectIsGroup(o);
    LineEndHere(source, at, o);
    var v, trailing := RenderLines(l, value, indent), o.members[|o.members| - 1].comma;
    var after := at + 1 + |PrintMembers(o.members)|;
    var outer, k, front := LineIndent(Before(source, at)), EndOfLineTrivia(o.close), FirstLine(o.close);
    MemberTextIs(key, v);
    NothingKept(source, after);
    var kept := if Blank(front) then "" else front;
    var member := (l.newline + indent) + MemberText(key, v) + CommaIf(trailing);
    AppendedAtBrace(l, o, outer, key, value);
    LinesMember(kept, l.newline + indent, key, v, trailing, l.newline + outer, OtherLines(o.close));
    AppendText(l.newline, outer, OtherLines(o.close));
    InsertTurns(source, at, o, NewMember(kept + (l.newline + indent), key, v, trailing),
                l.newline + (outer + OtherLines(o.close)),
                if Blank(front) then after else after + k, k, member + (l.newline + outer));
  }

  lemma CloseHeld(source: string, after: nat, close: string)
    requires after + |close| <= |source| && source[after..] == close + source[after + |close|..]
    ensures Holds(source, after, close)
  {
  }

  method Insert(source: string, l: Layout, node: Node, key: string, value: Json, ghost o: Value, ghost at: nat)
    returns (edits: seq<Edit>)
    requires IsObject(o) && WellFormed(o) && o.members != [] && Holds(source, at, Print(o)) && node == NodeAt(o, at)
    requires |node.members| == |o.members|
    ensures Turns(source, edits, at, o, Appended(l, o, LineIndent(Before(source, at)), key, value))
  {
    hide *;
    InsertSpans(source, l, o, at);
    InsertLine(source, o, at);
    var inline := OneLine(source[node.start..node.end]);
    var last := node.members[|node.members| - 1];
    var indent := IndentOf(source, l, node.start, last.keyStart);
    RenderIs(l, value, indent, inline);
    MemberTextIs(key, Render(l, value, indent, inline));
    var text := Quote(key) + ": " + Print(Render(l, value, indent, inline));
    var trailing := last.comma.Some?;
    var after := if trailing then last.comma.value + 1 else last.value.end;
    if inline {
      InsertInline(source, at, o, l, key, value);
      return InsertEdits(after, trailing, after, after, " " + text + CommaIf(trailing));
    }
    var end := FindEndOfLineTrivia(source, after);
    var member := (l.newline + indent) + text + CommaIf(trailing);
    if end >= |source| || IsNewline(source[end..]) {
      InsertOnLine(source, at, o, l, key, value, indent);
      return InsertEdits(after, trailing, end, end, member);
    }
    InsertAtBrace(source, at, o, l, key, value, indent);
    var start := if Blank(source[after..end]) then after else end;
    return InsertEdits(after, trailing, start, end, member + (l.newline + LineIndent(Before(source, node.start))));
  }

  /** What the last member's spans say about the place after it. */
  lemma InsertSpans(source: string, l: Layout, o: Value, at: nat)
    requires IsObject(o) && WellFormed(o) && o.members != [] && Holds(source, at, Print(o))
    ensures var node := NodeAt(o, at);
            && node.ObjectNode? && |node.members| == |o.members| && node.start == at <= node.end <= |source|
            && source[node.start..node.end] == Print(o)
            && var m, last := o.members[|o.members| - 1], node.members[|o.members| - 1];
               var after := at + 1 + |PrintMembers(o.members)|;
               && (last.comma.Some? <==> m.comma) && (m.comma ==> last.comma.value + 1 == after)
                   && (!m.comma ==> last.value.end == after)
               && after <= |source|
               && IndentOf(source, l, at, last.keyStart) == MemberIndent(l, m.lead, LineIndent(Before(source, at)))
  {
    hide *;
    ObjectIsGroup(o);
    NodeSpan(o, at);
    HeldOneLine(source, at, Print(o));
    var n := |o.members| - 1;
    MemberSpans(o, at, n);
    NodeSpan(o.members[n].value, at + ValueOffset(o, n));
    LastEnds(o, at);
    AfterLast(source, at, o);
    IndentAgrees(source, at, o, n, l);
  }

  /** Where the last member's line ends. */
  lemma InsertLine(source: string, o: Value, at: nat)
    requires IsObject(o) && WellFormed(o) && Holds(source, at, Print(o))
    ensures var after := at + 1 + |PrintMembers(o.members)|;
            && after <= |source| && EndOfLineTrivia(source[after..]) == EndOfLineTrivia(o.close)
            && var end := after + EndOfLineTrivia(o.close);
               end < |source| && (IsNewline(source[end..]) <==> IsNewline(OtherLines(o.close)))
                   && source[after..end] == FirstLine(o.close)
  {
    hide *;
    ObjectIsGroup(o);
    AfterLast(source, at, o);
    CloseIsTrivia(o);
    CloseHeld(source, at + 1 + |PrintMembers(o.members)|, o.close);
    LineAfter(source, at + 1 + |PrintMembers(o.members)|, o.close);
  }

  lemma NoMore(kept: string, member: string, back: string)
    ensures kept + (member + "") + back == kept + member + back && "" + back == back
  {
  }

  // Insertion into an object without members.

  /** The front of the only trivia gives way to a new member's text. */
  lemma FillTurns(source: string, at: nat, o: Value, n: nat, text: string, m: Member, close: string)
    requires IsObject(o) && o.members == [] && Holds(source, at, Print(o)) && n <= |o.close|
    requires text + o.close[n..] == PrintMember(m) + close
    ensures at + 1 + n <= |source| && Turns(source, [Edit(at + 1, at + 1 + n, text)], at, o, Group(true, [m], close))
  {
    hide *;
    ObjectIsGroup(o);
    EmptyText(o);
    OneMemberText(m, close);
    var was := ['{'] + (o.close + ['}']);
    FillText(o.close, n, text, PrintMember(m), close);
    SwapInner(source, at, was, 1, o.close[..n], text);
    OneEdit(source, at + 1, o.close[..n], text);
    TurnsBy(source, [Edit(at + 1, at + 1 + n, text)], at, o, Group(true, [m], close));
  }

  lemma EmptyText(o: Value)
    requires IsObject(o) && o.members == []
    ensures Print(o) == ['{'] + (o.close + ['}'])
  {
    assert "" + (o.close + ['}']) == o.close + ['}'];
  }

  lemma OneMemberText(m: Member, close: string)
    ensures Print(Group(true, [m], close)) == ['{'] + (PrintMember(m) + (close + ['}']))
  {
    PrintOne(m);
  }

  lemma FillText(close: string, n: nat, text: string, member: string, other: string)
    requires n <= |close| && text + close[n..] == member + other
    ensures var was := ['{'] + (close + ['}']);
            Holds(was, 1, close[..n]) && Swap(was, 1, close[..n], text) == ['{'] + (member + (other + ['}']))
  {
    var was := ['{'] + (close + ['}']);
    assert was[1..1 + n] == close[..n];
    assert was[1 + n..] == close[n..] + ['}'];
    assert was[..1] == ['{'];
    assert ['{'] + text + (close[n..] + ['}']) == ['{'] + (text + close[n..]) + ['}'];
  }

  lemma EmptyInner(source: string, at: nat, o: Value)
    requires IsObject(o) && o.members == [] && Holds(source, at, Print(o))
    ensures |Print(o)| == 2 + |o.close| && at + |Print(o)| <= |source| && source[at + 1..at + |Print(o)| - 1] == o.close
  {
    EmptyText(o);
    var n := |Print(o)|;
    assert source[at + 1..at + n - 1] == source[at..at + n][1..n - 1];
  }

  lemma FilledText(lead: string, key: string, value: Value, more: string, rest: string)
    ensures ((lead + MemberText(key, value)) + more) + rest
            == PrintMember(NewMember(lead, key, value, false)) + (more + rest)
  {
    hide Quote, Print, PrintMember, NewMember;
    NewMemberText(lead, key, value, false);
  }

  lemma FilledIs(l: Layout, close: string, outer: string, key: string, value: Json)
    ensures var lead := l.newline + (outer + l.unit);
            Filled(l, close, outer, key, value)
            == if l.flat then Group(true, [NewMember("", key, RenderInline(value), false)],
                                    if Spaces(close) then "" else " " + close)
               else Group(true, [NewMember(lead, key, RenderLines(l, value, outer + l.unit), false)],
                          if Spaces(close) then l.newline + outer else close)
  {
    hide NewMember, RenderInline, RenderLines, Spaces;
  }

  lemma NothingAfter(close: string, text: string)
    ensures close[|close|..] == "" && close[0..] == close && text + "" == text && "" + text == text
  {
  }

  method InsertIntoEmpty(source: string, l: Layout, node: Node, key: string, value: Json, ghost o: Value, ghost at: nat)
    returns (edit: Edit)
    requires IsObject(o) && o.members == [] && Holds(source, at, Print(o)) && node == NodeAt(o, at)
    ensures Turns(source, [edit], at, o, Filled(l, o.close, LineIndent(Before(source, at)), key, value))
  {
    hide *;
    NodeSpan(o, at);
    ObjectIsGroup(o);
    EmptyInner(source, at, o);
    var empty := Spaces(source[node.start + 1..node.end - 1]);
    var outer := LineIndent(Before(source, node.start));
    FilledIs(l, o.close, outer, key, value);
    if l.flat {
      var v := RenderInline(value);
      MemberTextIs(key, v);
      var text := "" + (Quote(key) + ": " + Print(v));
      if empty {
        NothingAfter(o.close, text);
        FilledText("", key, v, "", "");
        NothingAfter("", "");
        FillTurns(source, at, o, |o.close|, text, NewMember("", key, v, false), "");
        return Edit(node.start + 1, node.end - 1, text);
      }
      NothingAfter(o.close, text);
      FilledText("", key, v, " ", o.close);
      FillTurns(source, at, o, 0, text + " ", NewMember("", key, v, false), " " + o.close);
      return Edit(node.start + 1, node.start + 1, text + " ");
    }
    var indent := outer + l.unit;
    var v := RenderLines(l, value, indent);
    MemberTextIs(key, v);
    var text := (l.newline + indent) + (Quote(key) + ": " + Print(v));
    if empty {
      NothingAfter(o.close, l.newline + outer);
      FilledText(l.newline + indent, key, v, l.newline + outer, "");
      NothingAfter("", text + (l.newline + outer));
      FillTurns(source, at, o, |o.close|, text + (l.newline + outer), NewMember(l.newline + indent, key, v, false),
                l.newline + outer);
      return Edit(node.start + 1, node.end - 1, text + (l.newline + outer));
    }
    NothingAfter(o.close, text);
    FilledText(l.newline + indent, key, v, "", o.close);
    NothingAfter("", o.close);
    FillTurns(source, at, o, 0, text, NewMember(l.newline + indent, key, v, false), o.close);
    return Edit(node.start + 1, node.start + 1, text);
  }

  // Removal.

  /** A member's text after the trivia before it. */
  function MemberBody(m: Member): string {
    PrintName(m.name) + (Print(m.value) + (if m.comma then m.tail + [','] else ""))
  }

  lemma BodyFollows(m: Member, lead: string)
    ensures PrintMember(m.(lead := lead)) == lead + MemberBody(m) && PrintMember(m) == m.lead + MemberBody(m)
  {
    hide Print, PrintName;
  }

  /** The trivia after a member's comma, or after its value when it has none. */
  function TriviaAfter(o: Value, i: nat): string
    requires IsObject(o) && i < |o.members|
  {
    if i + 1 < |o.members| then o.members[i + 1].lead else o.close
  }

  /** The object's text from that trivia's end on. */
  function RestAfter(o: Value, i: nat): string
    requires IsObject(o) && i < |o.members|
  {
    if i + 1 < |o.members| then
      MemberBody(o.members[i + 1]) + (PrintMembers(o.members[i + 2..]) + (o.close + ['}']))
    else "}"
  }

  lemma AroundMember(o: Value, i: nat)
    requires IsObject(o) && WellFormed(o) && i < |o.members|
    ensures Print(o) == (['{'] + PrintMembers(o.members[..i]))
            + (o.members[i].lead + (MemberBody(o.members[i]) + (TriviaAfter(o, i) + RestAfter(o, i))))
    ensures Trivia(o.members[i].lead) && Trivia(TriviaAfter(o, i))
    ensures RestAfter(o, i) != "" && (RestAfter(o, i)[0] == '"' || RestAfter(o, i)[0] == '}')
    ensures !o.members[i].comma ==> i + 1 == |o.members| && o.members[i].tail == ""
  {
    hide WellFormed, Print, PrintMember, PrintMembers, Trivia, MemberBody;
    ObjectWellFormed(o);
    ObjectText(o, i);
    assert Fits(o.members[i], true, i + 1 == |o.members|);
    FitsTrivia(o.members[i], i + 1 == |o.members|);
    BodyFollows(o.members[i], "");
    if i + 1 < |o.members| {
      var next := o.members[i + 1];
      assert Fits(next, true, (i + 1) + 1 == |o.members|);
      FitsTrivia(next, i + 2 == |o.members|);
      BodyFollows(next, "");
      BodyStarts(next, i + 2 == |o.members|);
      var after := o.members[i + 1..];
      assert after[0] == next && after[1..] == o.members[i + 2..];
      AfterMember(after);
      Around(PrintMembers(o.members[..i]), o.members[i].lead, MemberBody(o.members[i]), next.lead, MemberBody(next),
             PrintMembers(o.members[i + 2..]), o.close + ['}']);
    } else {
      assert o.members[i + 1..] == [];
      NoMembers(true);
      AroundLast(PrintMembers(o.members[..i]), o.members[i].lead, MemberBody(o.members[i]), o.close);
    }
  }

  lemma AfterMember(ms: seq<Member>)
    requires ms != []
    ensures PrintMembers(ms) == PrintMember(ms[0]) + PrintMembers(ms[1..])
  {
  }

  lemma BodyStarts(m: Member, last: bool)
    requires Fits(m, true, last)
    ensures MemberBody(m) != "" && MemberBody(m)[0] == '"'
  {
    hide WellFormed, Trivia;
    MemberParts(m, true);
  }

  lemma Around(front: string, lead: string, body: string, next: string, nextBody: string, after: string, close: string)
    ensures ['{'] + ((front + ((lead + body) + ((next + nextBody) + after))) + close)
            == (['{'] + front) + (lead + (body + (next + (nextBody + (after + close)))))
  {
  }

  lemma AroundLast(front: string, lead: string, body: string, close: string)
    ensures ['{'] + ((front + ((lead + body) + "")) + (close + ['}']))
            == (['{'] + front) + (lead + (body + (close + "}")))
  {
  }

  /** What stays of the object's text when a member goes, with part of the trivia around it. */
  lemma WithoutText(o: Value, i: nat, left: string, rest: string)
    requires IsObject(o) && i < |o.members|
    ensures i + 1 < |o.members| ==>
              Print(Group(true, o.members[..i] + [o.members[i + 1].(lead := left + rest)] + o.members[i + 2..],
                          o.close))
              == (['{'] + PrintMembers(o.members[..i])) + (left + (rest + RestAfter(o, i)))
    ensures i + 1 == |o.members| ==>
              Print(Group(true, o.members[..i], left + rest)) == (['{'] + PrintMembers(o.members[..i]))
                  + (left + (rest + RestAfter(o, i)))
  {
    hide PrintMember, PrintMembers, MemberBody;
    var front := o.members[..i];
    if i + 1 < |o.members| {
      var next := o.members[i + 1].(lead := left + rest);
      PrintMembersSplit(front + [next], o.members[i + 2..]);
      PrintMembersSplit(front, [next]);
      PrintOne(next);
      BodyFollows(o.members[i + 1], left + rest);
    }
  }

  /** Where a member's key, its value and its comma are, and where the text after it begins. */
  lemma RemoveSpans(source: string, o: Value, at: nat, i: nat)
    requires IsObject(o) && WellFormed(o) && Holds(source, at, Print(o)) && i < |o.members|
    ensures var node := NodeAt(o, at);
            && node.ObjectNode? && |node.members| == |o.members|
                && node.start == at <= node.end == at + |Print(o)| <= |source|
            && source[node.start..node.end] == Print(o)
            && var m, member := o.members[i], node.members[i];
               var key := at + 1 + |PrintMembers(o.members[..i])| + |m.lead|;
               && member.keyStart == key && (member.comma.Some? <==> m.comma)
               && (m.comma ==> member.comma.value + 1 == key + |MemberBody(m)|)
               && (!m.comma ==> member.value.end == key + |MemberBody(m)|)
  {
    hide *;
    ObjectIsGroup(o);
    NodeSpan(o, at);
    HeldOneLine(source, at, Print(o));
    MemberSpans(o, at, i);
    var m := o.members[i];
    NodeSpan(m.value, at + ValueOffset(o, i));
    OffsetIs(o, i);
    AroundMember(o, i);
    BodyLength(m);
  }

  lemma OffsetIs(o: Value, i: nat)
    requires IsObject(o) && i < |o.members|
    ensures ValueOffset(o, i)
            == 1 + |PrintMembers(o.members[..i])| + |o.members[i].lead| + |PrintName(o.members[i].name)|
  {
  }

  lemma BodyLength(m: Member)
    ensures |MemberBody(m)| == |PrintName(m.name)| + |Print(m.value)| + (if m.comma then |m.tail| + 1 else 0)
  {
    hide Print, PrintName;
  }

  /** Two cuts in the text of an object: before a key, and after its member. */
  lemma CutText(source: string, at: nat, was: string, front: string, lead: string, body: string, trivia: string,
                rest: string, d: nat, c: nat)
    requires Holds(source, at, was) && was == front + (lead + (body + (trivia + rest))) && d <= |lead| && c <= |trivia|
    ensures var key := at + |front| + |lead|;
            var tail := key + |body|;
            && tail + c <= |source|
            && source[..key - d] + source[tail + c..]
               == Swap(source, at, was, front + (lead[..|lead| - d] + (trivia[c..] + rest)))
  {
    var key, after := at + |front| + |lead|, source[at + |was|..];
    assert source == source[..at] + was + after;
    assert source[..key - d] == source[..at] + (front + lead[..|lead| - d]);
    assert source[key + |body| + c..] == trivia[c..] + rest + after;
  }

  lemma MiddlePlaces(source: string, at: nat, was: string, front: string, lead: string, body: string, trivia: string,
                     rest: string)
    requires Holds(source, at, was) && was == front + (lead + (body + (trivia + rest))) && rest != ""
    ensures var tail := at + |front| + |lead| + |body|;
            && Holds(source, tail, trivia) && tail + |trivia| < |source| && source[tail + |trivia|] == rest[0]
            && source[at..tail] == front + (lead + body)
                && Before(source, at + |front| + |lead|) == source[..at] + front + lead
  {
    var after := source[at + |was|..];
    assert source == source[..at] + was + after;
    var tail := at + |front| + |lead| + |body|;
    assert source[tail..] == trivia + (rest + after);
    assert source[..at + |front| + |lead|] == source[..at] + front + lead;
  }

  lemma OneCut(source: string, start: nat, end: nat)
    requires start <= end <= |source|
    ensures var edits := [Edit(start, end, "")];
            Apart(edits, 0, |source|) && Spliced(source, 0, edits) == source[..start] + source[end..]
  {
    LastEdit(source, 0, start, end, "");
    assert source[0..start] == source[..start] && "" + source[end..] == source[end..];
  }

  lemma TwoCuts(source: string, comma: nat, start: nat, end: nat)
    requires comma < start <= end <= |source|
    ensures var edits := [Edit(comma, comma + 1, ""), Edit(start, end, "")];
            Apart(edits, 0, |source|)
                && Spliced(source, 0, edits) == source[..comma] + (source[comma + 1..start] + source[end..])
  {
    hide *;
    var last := [Edit(start, end, "")];
    LastEdit(source, comma + 1, start, end, "");
    FirstCut(source, comma, last);
    NothingAdded(source[end..]);
    assert [Edit(comma, comma + 1, ""), Edit(start, end, "")] == [Edit(comma, comma + 1, "")] + last;
  }

  lemma FirstCut(source: string, comma: nat, last: seq<Edit>)
    requires Apart(last, comma + 1, |source|)
    ensures comma < |source| && Apart([Edit(comma, comma + 1, "")] + last, 0, |source|)
    ensures Spliced(source, 0, [Edit(comma, comma + 1, "")] + last)
            == source[..comma] + Spliced(source, comma + 1, last)
  {
    var edits := [Edit(comma, comma + 1, "")] + last;
    assert edits[1..] == last;
    ApartWithin(last, comma + 1, |source|);
    assert source[0..comma] + "" == source[..comma];
  }

  lemma NothingAdded(text: string)
    ensures "" + text == text
  {
  }

  lemma TrimLonger(x: string, lead: string)
    requires x != "" && !IsBlank(x[|x| - 1])
    ensures TrimBlank(x + lead) == x + TrimBlank(lead)
  {
    if lead == "" {
      assert x + lead == x;
    } else {
      assert (x + lead)[..|x + lead| - 1] == x + lead[..|lead| - 1];
      if IsBlank(lead[|lead| - 1]) {
        TrimLonger(x, lead[..|lead| - 1]);
      }
    }
  }

  /** Back over the blanks before a place. */
  method TrimBefore(source: string, at: nat) returns (start: nat)
    requires at <= |source|
    ensures start <= at && start == |TrimBlank(source[..at])|
  {
    start := at;
    while start > 0 && IsBlank(source[start - 1])
      invariant start <= at && TrimBlank(source[..at]) == TrimBlank(source[..start])
    {
      assert source[..start][..start - 1] == source[..start - 1];
      start := start - 1;
    }
  }

  /** The two places a removal cuts at, as distances into the trivia before the key and after the member. */
  lemma RemoveCuts(source: string, o: Value, at: nat, i: nat)
    requires IsObject(o) && WellFormed(o) && Holds(source, at, Print(o)) && i < |o.members|
    ensures var lead, trivia := o.members[i].lead, TriviaAfter(o, i);
            var front := at + 1 + |PrintMembers(o.members[..i])|;
            var key := front + |lead|;
            var tail := key + |MemberBody(o.members[i])|;
            && key <= tail && tail + |trivia| < |source|
            && (OwnsLine(Before(source, key)) <==> OwnLead(lead))
            && (OwnLead(lead) ==> LineOf(Before(source, key)) == LineOf(lead))
            && |TrimBlank(source[..key])| == front + |TrimBlank(lead)|
            && source[at + 1..key] == PrintMembers(o.members[..i]) + lead
            && Holds(source, tail, trivia)
            && EndOfLineTrivia(source[tail..]) == EndOfLineTrivia(trivia)
            && (source[tail + |trivia|] == '"' || source[tail + |trivia|] == '}')
  {
    hide *;
    ObjectIsGroup(o);
    var m := o.members[i];
    AroundMember(o, i);
    var x := BeforeKey(source, at, o, i);
    KeyLine(x, m.lead);
    BlankMark(x);
    TrimLonger(x, m.lead);
    MiddlePlaces(source, at, Print(o), ['{'] + PrintMembers(o.members[..i]), m.lead, MemberBody(m), TriviaAfter(o, i),
                 RestAfter(o, i));
    var key := at + 1 + |PrintMembers(o.members[..i])| + |m.lead|;
    var tail := key + |MemberBody(m)|;
    InnerText(source, at, PrintMembers(o.members[..i]), m.lead, MemberBody(m), tail);
    LineAfter(source, tail, TriviaAfter(o, i));
    BeforeIs(source, key);
  }

  lemma BlankMark(x: string)
    requires x != "" && (x[|x| - 1] == '{' || x[|x| - 1] == ',')
    ensures !IsBlank(x[|x| - 1])
  {
  }

  lemma BeforeIs(source: string, at: nat)
    requires at <= |source|
    ensures Before(source, at) == source[..at]
  {
  }

  lemma InnerText(source: string, at: nat, front: string, lead: string, body: string, tail: nat)
    requires tail == at + 1 + |front| + |lead| + |body| <= |source|
             && source[at..tail] == (['{'] + front) + (lead + body)
    ensures source[at + 1..at + 1 + |front| + |lead|] == front + lead
  {
    var k := 1 + |front| + |lead|;
    SubSlice(source, at, tail, 1, k);
    assert ((['{'] + front) + (lead + body))[1..k] == front + lead;
  }

  lemma SubSlice(s: string, a: nat, b: nat, i: nat, j: nat)
    requires a <= b <= |s| && i <= j <= b - a
    ensures s[a..b][i..j] == s[a + i..a + j]
  {
    var t, u := s[a..b][i..j], s[a + i..a + j];
    assert |t| == |u| && forall k :: 0 <= k < |t| ==> t[k] == u[k];
  }

  lemma WithoutOnlyIs(o: Value, i: nat)
    requires IsObject(o) && |o.members| == 1 && i == 0 && Spaces(o.members[0].lead + o.close)
    ensures Without(o, i, true) == Group(true, [], "") && Print(Group(true, [], "")) == "{}"
  {
    hide Spaces, OneLine;
  }

  lemma LeadCutIs(o: Value, lead: string, tidy: bool)
    ensures |LeadLeft(o, lead, tidy)| <= |lead| && LeadLeft(o, lead, tidy) == lead[..|LeadLeft(o, lead, tidy)|]
    ensures !OneLine(Print(o)) && OwnLead(lead) ==> |LeadLeft(o, lead, tidy)| == |lead| - |LineOf(lead)|
    ensures !(!OneLine(Print(o)) && OwnLead(lead)) && tidy && OneLine(Print(o)) ==>
              |LeadLeft(o, lead, tidy)| == |TrimBlank(lead)|
    ensures !(!OneLine(Print(o)) && OwnLead(lead)) && !(tidy && OneLine(Print(o))) ==>
              |LeadLeft(o, lead, tidy)| == |lead|
  {
    hide Print;
  }

  lemma AfterLineCut(t: string)
    ensures |AfterLine(t)| <= |t| && AfterLine(t) == t[|t| - |AfterLine(t)|..]
    ensures EndOfLineTrivia(t) <= |t|
    ensures var back := OtherLines(t);
            |t| - |AfterLine(t)| == if IsNewline(back) then EndOfLineTrivia(t) + |NewlineText(back)| else 0
  {
    var back := OtherLines(t);
    if IsNewline(back) {
      assert |NewlineText(back)| <= |back|;
      assert back[|NewlineText(back)|..] == t[EndOfLineTrivia(t) + |NewlineText(back)|..];
    }
  }

  /** What of the trivia after a removed member stays. */
  function RestLeft(o: Value, i: nat): string
    requires IsObject(o) && i < |o.members|
  {
    if !OneLine(Print(o)) && OwnLead(o.members[i].lead) then AfterLine(TriviaAfter(o, i)) else TriviaAfter(o, i)
  }

  lemma WithoutIs(o: Value, i: nat, tidy: bool)
    requires IsObject(o) && i < |o.members|
    requires !(tidy && |o.members| == 1 && Spaces(o.members[i].lead + o.close))
    ensures var ms, left, rest := o.members, LeadLeft(o, o.members[i].lead, tidy), RestLeft(o, i);
            Without(o, i, tidy)
            == if i + 1 < |ms| then Group(true, ms[..i] + [ms[i + 1].(lead := left + rest)] + ms[i + 2..], o.close)
               else if ms[i].comma || i == 0 then Group(true, ms[..i], left + rest)
               else Group(true, ms[..i - 1] + [ms[i - 1].(tail := "", comma := false)], ms[i - 1].tail + (left + rest))
  {
    hide Print, OneLine, OwnLead, TrimBlank, LineOf, AfterLine, Spaces;
  }

  /** The text around the member with the two cuts made. */
  function CutPrint(o: Value, i: nat, tidy: bool): string
    requires IsObject(o) && i < |o.members|
  {
    (['{'] + PrintMembers(o.members[..i])) + (LeadLeft(o, o.members[i].lead, tidy) + (RestLeft(o, i) + RestAfter(o, i)))
  }

  lemma CutPrintIs(o: Value, i: nat, tidy: bool)
    requires IsObject(o) && i < |o.members|
    ensures CutPrint(o, i, tidy)
            == (['{'] + PrintMembers(o.members[..i]))
                + (LeadLeft(o, o.members[i].lead, tidy) + (RestLeft(o, i) + RestAfter(o, i)))
    ensures RestLeft(o, i) == if !OneLine(Print(o)) && OwnLead(o.members[i].lead) then AfterLine(TriviaAfter(o, i))
            else TriviaAfter(o, i)
  {
    hide Print, PrintMembers;
  }

  /** The comma of the member before goes with the last member's own. */
  lemma UncommaText(front: seq<Member>, last: Member, close: string)
    requires last.comma
    ensures var text := ['{'] + (PrintMembers(front + [last]) + (close + ['}']));
            var comma := |PrintMembers(front + [last])|;
            && 0 < comma < |text|
            && Print(Group(true, front + [last.(tail := "", comma := false)], last.tail + close))
                == text[..comma] + text[comma + 1..]
  {
    hide Print, PrintName, PrintMembers;
    PrintMembersSplit(front, [last]);
    var less := last.(tail := "", comma := false);
    PrintMembersSplit(front, [less]);
    PrintOne(last);
    PrintOne(less);
    assert PrintMember(last) == PrintMember(less) + last.tail + [','];
    var ms, text := PrintMembers(front), ['{'] + (PrintMembers(front + [last]) + (close + ['}']));
    var head := ['{'] + ms + PrintMember(less) + last.tail;
    assert text == head + ([','] + (close + ['}']));
    GroupPrint(front + [less], last.tail + close);
    assert ['{'] + ((ms + PrintMember(less)) + ((last.tail + close) + ['}'])) == head + (close + ['}']);
  }

  lemma GroupPrint(ms: seq<Member>, close: string)
    ensures Print(Group(true, ms, close)) == ['{'] + (PrintMembers(ms) + (close + ['}']))
  {
  }

  lemma WithoutPrint(o: Value, i: nat, tidy: bool)
    requires IsObject(o) && WellFormed(o) && i < |o.members|
    requires !(tidy && |o.members| == 1 && Spaces(o.members[i].lead + o.close))
    ensures var comma := |PrintMembers(o.members[..i])|;
            var text := CutPrint(o, i, tidy);
            if o.members[i].comma || i == 0 then Print(Without(o, i, tidy)) == text
            else 0 < comma < |text| && i + 1 == |o.members| && o.members[i - 1].comma
                 && Print(Without(o, i, tidy)) == text[..comma] + text[comma + 1..]
  {
    hide *;
    ObjectIsGroup(o);
    AroundMember(o, i);
    WithoutIs(o, i, tidy);
    CutPrintIs(o, i, tidy);
    var left, rest := LeadLeft(o, o.members[i].lead, tidy), RestLeft(o, i);
    WithoutText(o, i, left, rest);
    if !o.members[i].comma && i > 0 {
      EarlierComma(o, i);
      var front := o.members[..i - 1];
      assert o.members[..i] == front + [o.members[i - 1]];
      UncommaText(front, o.members[i - 1], left + rest);
      GroupPrint(o.members[..i], left + rest);
    }
  }

  lemma EarlierComma(o: Value, i: nat)
    requires IsObject(o) && WellFormed(o) && 0 < i < |o.members|
    ensures o.members[i - 1].comma
  {
    hide WellFormed, Trivia;
    ObjectWellFormed(o);
    assert Fits(o.members[i - 1], true, (i - 1) + 1 == |o.members|);
  }

  lemma CutAgain(source: string, at: nat, was: string, text: string, comma: nat, start: nat, end: nat)
    requires Holds(source, at, was) && comma < |text| && at + comma < start <= end <= |source|
    requires source[..start] + source[end..] == Swap(source, at, was, text)
    ensures source[..at + comma] + (source[at + comma + 1..start] + source[end..])
            == Swap(source, at, was, text[..comma] + text[comma + 1..])
  {
    var once := source[..start] + source[end..];
    var c := at + comma;
    assert once[..c] == source[..c] && once[c + 1..] == source[c + 1..start] + source[end..];
    var after := source[at + |was|..];
    assert once == source[..at] + text + after;
    assert once[..c] == source[..at] + text[..comma];
    assert once[c + 1..] == text[comma + 1..] + after;
  }

  /** Cutting the member's span out of the text leaves the object with the two cuts made. */
  lemma RemovedText(source: string, o: Value, at: nat, i: nat, tidy: bool, start: nat, end: nat)
    requires IsObject(o) && WellFormed(o) && Holds(source, at, Print(o)) && i < |o.members|
    requires var key := at + 1 + |PrintMembers(o.members[..i])| + |o.members[i].lead|;
             && start == key - (|o.members[i].lead| - |LeadLeft(o, o.members[i].lead, tidy)|)
             && end == key + |MemberBody(o.members[i])| + (|TriviaAfter(o, i)| - |RestLeft(o, i)|)
    ensures at + |PrintMembers(o.members[..i])| < start <= end <= |source|
    ensures source[..start] + source[end..] == Swap(source, at, Print(o), CutPrint(o, i, tidy))
  {
    hide *;
    ObjectIsGroup(o);
    var m, trivia := o.members[i], TriviaAfter(o, i);
    AroundMember(o, i);
    LeadCutIs(o, m.lead, tidy);
    CutPrintIs(o, i, tidy);
    AfterLineCut(trivia);
    var front, left, right := ['{'] + PrintMembers(o.members[..i]), LeadLeft(o, m.lead, tidy), RestLeft(o, i);
    TrivialSlices(trivia, m.lead);
    assert left == m.lead[..|left|] && right == trivia[|trivia| - |right|..];
    CutKeeping(source, at, Print(o), front, m.lead, MemberBody(m), trivia, RestAfter(o, i), left, right);
  }

  lemma CutKeeping(source: string, at: nat, was: string, front: string, lead: string, body: string, trivia: string,
                   rest: string,
                   left: string, right: string)
    requires Holds(source, at, was) && was == front + (lead + (body + (trivia + rest)))
    requires |left| <= |lead| && left == lead[..|left|] && |right| <= |trivia| && right == trivia[|trivia| - |right|..]
    ensures var key := at + |front| + |lead|;
            var end := key + |body| + (|trivia| - |right|);
            && end <= |source|
            && source[..key - (|lead| - |left|)] + source[end..]
                == Swap(source, at, was, front + (left + (right + rest)))
  {
    hide *;
    CutText(source, at, was, front, lead, body, trivia, rest, |lead| - |left|, |trivia| - |right|);
  }

  lemma RemoveTurns(source: string, o: Value, at: nat, i: nat, tidy: bool, start: nat, end: nat, edits: seq<Edit>)
    requires IsObject(o) && WellFormed(o) && Holds(source, at, Print(o)) && i < |o.members|
    requires !(tidy && |o.members| == 1 && Spaces(o.members[i].lead + o.close))
    requires var key := at + 1 + |PrintMembers(o.members[..i])| + |o.members[i].lead|;
             && start == key - (|o.members[i].lead| - |LeadLeft(o, o.members[i].lead, tidy)|)
             && end == key + |MemberBody(o.members[i])| + (|TriviaAfter(o, i)| - |RestLeft(o, i)|)
    requires edits == if o.members[i].comma || i == 0 then [Edit(start, end, "")]
                      else [Edit(at + |PrintMembers(o.members[..i])|, at + |PrintMembers(o.members[..i])| + 1, ""),
                            Edit(start, end, "")]
    ensures Turns(source, edits, at, o, Without(o, i, tidy))
  {
    hide *;
    ObjectIsGroup(o);
    RemovedText(source, o, at, i, tidy, start, end);
    WithoutPrint(o, i, tidy);
    CutsTurn(source, at, o, Without(o, i, tidy), CutPrint(o, i, tidy), |PrintMembers(o.members[..i])|, start,
             end, edits,
             o.members[i].comma || i == 0);
  }

  lemma CutsTurn(source: string, at: nat, o: Value, after: Value, text: string, comma: nat, start: nat, end: nat,
                 edits: seq<Edit>, one: bool)
    requires Holds(source, at, Print(o)) && at + comma < start <= end <= |source|
    requires source[..start] + source[end..] == Swap(source, at, Print(o), text)
    requires if one then Print(after) == text else comma < |text| && Print(after) == text[..comma] + text[comma + 1..]
    requires edits == if one then [Edit(start, end, "")]
             else [Edit(at + comma, at + comma + 1, ""), Edit(start, end, "")]
    ensures Turns(source, edits, at, o, after)
  {
    hide *;
    if one {
      OneCut(source, start, end);
    } else {
      CutAgain(source, at, Print(o), text, comma, start, end);
      TwoCuts(source, at + comma, start, end);
    }
    TurnsBy(source, edits, at, o, after);
  }

  lemma TrivialSlices(trivia: string, lead: string)
    ensures trivia[0..] == trivia && lead[..|lead|] == lead
  {
  }

  lemma OnlyMember(source: string, o: Value, at: nat)
    requires IsObject(o) && WellFormed(o) && |o.members| == 1 && Holds(source, at, Print(o))
    ensures var m := o.members[0];
            var key := at + 1 + |PrintMembers(o.members[..0])| + |m.lead|;
            && PrintMembers(o.members[..0]) == "" && TriviaAfter(o, 0) == o.close
            && key + |MemberBody(m)| + |o.close| + 1 == at + |Print(o)|
            && source[at + |Print(o)| - 1] == '}'
  {
    hide *;
    ObjectIsGroup(o);
    AroundMember(o, 0);
    HeldOneLine(source, at, Print(o));
    assert o.members[..0] == [];
    NoMembers(true);
    LastRest(o);
  }

  lemma LastRest(o: Value)
    requires IsObject(o) && |o.members| == 1
    ensures RestAfter(o, 0) == "}" && TriviaAfter(o, 0) == o.close
  {
  }

  /** A tidy removal of the only member closes the object up when nothing else is in it. */
  lemma CloseUp(source: string, o: Value, at: nat)
    requires IsObject(o) && Holds(source, at, Print(o)) && |o.members| == 1 && Spaces(o.members[0].lead + o.close)
    ensures |Print(o)| >= 2 && at + |Print(o)| <= |source|
    ensures Turns(source, [Edit(at + 1, at + |Print(o)| - 1, "")], at, o, Without(o, 0, true))
  {
    hide *;
    ObjectIsGroup(o);
    WithoutOnlyIs(o, 0);
    HeldOneLine(source, at, Print(o));
    GroupPrint(o.members, o.close);
    var inner := PrintMembers(o.members) + o.close;
    var was := ['{'] + (PrintMembers(o.members) + (o.close + ['}']));
    assert Print(o) == was by { assert o == Group(true, o.members, o.close) by { ObjectIs(o); } }
    Emptied(PrintMembers(o.members), o.close);
    SwapInner(source, at, was, 1, inner, "");
    OneEdit(source, at + 1, inner, "");
    TurnsBy(source, [Edit(at + 1, at + |Print(o)| - 1, "")], at, o, Without(o, 0, true));
  }

  lemma ObjectIs(o: Value)
    requires IsObject(o)
    ensures o == Group(true, o.members, o.close)
  {
  }

  lemma Emptied(members: string, close: string)
    ensures var was := ['{'] + (members + (close + ['}']));
            && |was| == |members + close| + 2
            && Holds(was, 1, members + close) && Swap(was, 1, members + close, "") == "{}"
  {
    var was := ['{'] + (members + (close + ['}']));
    assert was == ['{'] + (members + close) + ['}'];
  }

  /** From where to where the removed member's text is cut out. */
  method RemovedSpan(source: string, node: Node, index: nat, tidy: bool, ghost o: Value, ghost at: nat)
    returns (start: nat, end: nat)
    requires IsObject(o) && WellFormed(o) && Holds(source, at, Print(o)) && index < |o.members| && node == NodeAt(o, at)
    requires |node.members| == |o.members|
    ensures var m, key := o.members[index], at + 1 + |PrintMembers(o.members[..index])| + |o.members[index].lead|;
            && start == key - (|m.lead| - |LeadLeft(o, m.lead, tidy)|)
            && end == key + |MemberBody(m)| + (|TriviaAfter(o, index)| - |RestLeft(o, index)|)
  {
    hide *;
    ObjectIsGroup(o);
    ghost var m, trivia := o.members[index], TriviaAfter(o, index);
    RemoveSpans(source, o, at, index);
    RemoveCuts(source, o, at, index);
    var member := node.members[index];
    var inline := OneLine(source[node.start..node.end]);
    var before := Before(source, member.keyStart);
    var ownLine := !inline && OwnsLine(before);
    var tail := if member.comma.Some? then member.comma.value + 1 else member.value.end;
    LeadCutIs(o, m.lead, tidy);
    start := if ownLine then member.keyStart - |LineOf(before)| else member.keyStart;
    if tidy && inline {
      start := TrimBefore(source, start);
    }
    var lineEnd := FindEndOfLineTrivia(source, tail);
    CutPrintIs(o, index, tidy);
    AfterLineCut(trivia);
    LineHere(source, tail, trivia);
    end := if ownLine && IsNewline(source[lineEnd..]) then lineEnd + |NewlineText(source[lineEnd..])| else tail;
  }

  /** The whole text between the braces is blank but for the one member. */
  method AloneAmongSpaces(source: string, node: Node, ghost o: Value, ghost at: nat) returns (alone: bool)
    requires IsObject(o) && WellFormed(o) && Holds(source, at, Print(o)) && |o.members| == 1 && node == NodeAt(o, at)
    requires |node.members| == 1
    ensures alone == Spaces(o.members[0].lead + o.close)
  {
    hide *;
    ObjectIsGroup(o);
    RemoveSpans(source, o, at, 0);
    RemoveCuts(source, o, at, 0);
    var member := node.members[0];
    var tail := if member.comma.Some? then member.comma.value + 1 else member.value.end;
    OnlyMember(source, o, at);
    NothingAdded(o.members[0].lead);
    HeldOneLine(source, tail, TriviaAfter(o, 0));
    alone := Spaces(source[node.start + 1..member.keyStart] + source[tail..node.end - 1]);
  }

  method Remove(source: string, node: Node, index: nat, tidy: bool, ghost o: Value, ghost at: nat)
    returns (edits: seq<Edit>)
    requires IsObject(o) && WellFormed(o) && Holds(source, at, Print(o)) && index < |o.members| && node == NodeAt(o, at)
    requires |node.members| == |o.members|
    ensures Turns(source, edits, at, o, Without(o, index, tidy))
  {
    hide *;
    RemoveSpans(source, o, at, index);
    if tidy && |node.members| == 1 {
      var alone := AloneAmongSpaces(source, node, o, at);
      if alone {
        CloseUp(source, o, at);
        return [Edit(node.start + 1, node.end - 1, "")];
      }
    }
    var start, end := RemovedSpan(source, node, index, tidy, o, at);
    var cut := Edit(start, end, "");
    if index > 0 && node.members[index].comma.None? {
      PreviousComma(source, o, at, index);
    }
    if node.members[index].comma.None? && index > 0 && node.members[index - 1].comma.Some? {
      var comma := node.members[index - 1].comma.value;
      edits := [Edit(comma, comma + 1, ""), cut];
    } else {
      edits := [cut];
    }
    RemoveTurns(source, o, at, index, tidy, start, end, edits);
  }

  /** The newline after the trivia, as the text and as the trivia show it. */
  lemma LineHere(source: string, from: nat, trivia: string)
    requires Holds(source, from, trivia) && EndOfLineTrivia(trivia) <= |trivia|
    requires from + |trivia| < |source| && source[from + |trivia|] != '\n' && source[from + |trivia|] != '\r'
    ensures var k := EndOfLineTrivia(trivia);
            && (IsNewline(source[from + k..]) <==> IsNewline(OtherLines(trivia)))
            && (IsNewline(OtherLines(trivia)) ==>
                  |NewlineText(source[from + k..])| == |NewlineText(OtherLines(trivia))|)
  {
    hide EndOfLineTrivia;
    var k, x := EndOfLineTrivia(trivia), source[from + |trivia|..];
    TriviaText(source, from, trivia, k);
    assert source[from + k..] == OtherLines(trivia) + x;
    NewlineWithin(OtherLines(trivia), x);
  }

  lemma PreviousComma(source: string, o: Value, at: nat, i: nat)
    requires IsObject(o) && WellFormed(o) && 0 < i < |o.members|
    ensures var node := NodeAt(o, at);
            && node.ObjectNode? && |node.members| == |o.members| && o.members[i - 1].comma
            && node.members[i - 1].comma == Some(at + |PrintMembers(o.members[..i])|)
  {
    hide *;
    ObjectIsGroup(o);
    NodeSpan(o, at);
    MemberSpans(o, at, i - 1);
    EarlierComma(o, i);
    var last := o.members[i - 1];
    assert o.members[..i] == o.members[..i - 1] + [last];
    PrintMembersSplit(o.members[..i - 1], [last]);
    PrintOne(last);
    OffsetIs(o, i - 1);
    CommaLength(last);
  }

  // ---------------------------------------------------------------------------------------------
  // The two edits
  // ---------------------------------------------------------------------------------------------

  lemma DocumentPlace(source: string, d: Document)
    requires ReadDocument(source) == Some(d)
    ensures Holds(source, |d.lead|, Print(d.root)) && WellFormed(d.root)
            && Root(source) == Some(NodeAt(d.root, |d.lead|))
  {
    hide Print, Skip, ReadValue, WellFormed, ReadDocument, NodeAt, Trivia;
    ReadDocumentIsPrinted(source);
    assert source[|d.lead|..|d.lead| + |Print(d.root)|] == Print(d.root);
  }

  /** A new object where the edit lands makes the new document. */
  lemma PutInText(source: string, d: Document, path: seq<string>, owner: Value)
    requires ReadDocument(source) == Some(d) && IsObject(d.root) && path != [] && Descend(d.root, |d.lead|, path).Stop?
    ensures var stop := Descend(d.root, |d.lead|, path);
            && Holds(source, stop.at, Print(stop.owner))
            && Swap(source, stop.at, Print(stop.owner), Print(owner)) == PrintDocument(PutInto(d, path, owner))
  {
    hide *;
    var stop := Descend(d.root, |d.lead|, path);
    DocumentPlace(source, d);
    PutPrints(d.root, |d.lead|, path, owner);
    SwapInner(source, |d.lead|, Print(d.root), stop.at - |d.lead|, Print(stop.owner), Print(owner));
    ReadDocumentIsPrinted(source);
    SwapRoot(d, Put(d.root, path, owner));
    PutIntoIs(d, path, owner);
  }

  lemma PutIntoIs(d: Document, path: seq<string>, owner: Value)
    requires IsObject(d.root) && path != []
    ensures PutInto(d, path, owner) == d.(root := Put(d.root, path, owner))
  {
  }

  lemma SwapRoot(d: Document, root: Value)
    requires Holds(PrintDocument(d), |d.lead|, Print(d.root))
    ensures Swap(PrintDocument(d), |d.lead|, Print(d.root), Print(root)) == PrintDocument(d.(root := root))
  {
    hide Print;
  }

  /** On the way down: the spans at hand are those of the object the rest of the path starts from. */
  ghost predicate Underway(source: string, d: Document, path: seq<string>, index: nat, node: Node, o: Value, at: nat) {
    && IsObject(d.root) && IsObject(o) && WellFormed(o) && Holds(source, at, Print(o)) && node == NodeAt(o, at)
    && index < |path| && Descend(d.root, |d.lead|, path) == Descend(o, at, path[index..])
  }

  lemma UnderwayParts(source: string, d: Document, path: seq<string>, index: nat, node: Node, o: Value, at: nat)
    requires Underway(source, d, path, index, node, o, at)
    ensures IsObject(d.root) && IsObject(o) && o.Group? && WellFormed(o) && Holds(source, at, Print(o))
            && node == NodeAt(o, at)
    ensures node.ObjectNode? && |node.members| == |o.members| && NodeKeys(node.members) == Keys(o.members)
    ensures index < |path| && Descend(d.root, |d.lead|, path) == Descend(o, at, path[index..])
    ensures path[index..][0] == path[index] && path[index..][1..] == path[index + 1..]
  {
    hide WellFormed, Print, Descend, NodeAt, Holds, NodeKeys, Keys;
    NodeSpan(o, at);
    SameKeys(o, at);
    assert path[index..][1..] == path[index + 1..];
  }

  lemma SetsOut(source: string, d: Document, path: seq<string>)
    requires ReadDocument(source) == Some(d) && IsObject(d.root) && path != []
    ensures Underway(source, d, path, 0, NodeAt(d.root, |d.lead|), d.root, |d.lead|)
  {
    hide ReadDocument, WellFormed, Print, Descend, NodeAt, Holds;
    DocumentPlace(source, d);
    assert path[0..] == path;
  }

  lemma StepsDown(source: string, d: Document, path: seq<string>, index: nat, node: Node, o: Value, at: nat, i: nat)
    requires Underway(source, d, path, index, node, o, at) && IsObject(o) && i < |o.members| && index + 1 < |path|
    requires Find(Keys(o.members), path[index]) == Once(i) && IsObject(o.members[i].value)
    requires i < |NodeAt(o, at).members|
    ensures Underway(source, d, path, index + 1, NodeAt(o, at).members[i].value, o.members[i].value,
                     at + ValueOffset(o, i))
  {
    hide WellFormed, Print, NodeAt, Holds, Keys, Find, Swap, ValueOffset, Put;
    var inner := o.members[i].value;
    UnderwayParts(source, d, path, index, node, o, at);
    MemberSpans(o, at, i);
    WithValuePrints(o, i, inner);
    SwapInner(source, at, Print(o), ValueOffset(o, i), Print(inner), "");
    MemberIsWellFormed(o, i);
    GoesDeeper(o, at, path[index..], i, o);
  }

  lemma DescendHere(o: Value, at: nat, path: seq<string>)
    requires IsObject(o) && path != []
    ensures var found := Find(Keys(o.members), path[0]);
            && (found.Twice? ==> Descend(o, at, path).Blocked?)
            && (found.Absent? || (found.Once? && |path| == 1) ==> Descend(o, at, path) == Stop(o, at, path))
            && (found.Once? && |path| > 1 && !IsObject(o.members[found.index].value) ==> Descend(o, at, path).Blocked?)
  {
    hide Find, Keys, ValueOffset;
  }

  lemma Untouched(source: string, path: seq<string>, value: Json, tidy: bool)
    requires ReadDocument(source).None? || !IsObject(ReadDocument(source).value.root) || path == []
             || Descend(ReadDocument(source).value.root, |ReadDocument(source).value.lead|, path).Blocked?
    ensures SetText(source, path, value).None? && RemoveText(source, path, tidy).None?
  {
    hide ReadDocument, Descend;
  }

  lemma RootKind(source: string)
    ensures Root(source).None? <==> ReadDocument(source).None?
    ensures Root(source).Some? ==>
              var d := ReadDocument(source).value;
              && Root(source) == Some(NodeAt(d.root, |d.lead|))
                  && (IsObject(d.root) <==> Root(source).value.ObjectNode?)
  {
    hide ReadDocument, NodeAt;
    if ReadDocument(source).Some? {
      NodeSpan(ReadDocument(source).value.root, |ReadDocument(source).value.lead|);
    }
  }

  lemma LayoutParts(source: string, d: Document)
    ensures var unit := UnitOf(source, NodeAt(d.root, |d.lead|));
            SourceLayout(source, d) == Layout(if HasCrLf(source) then "\r\n" else "\n",
                                              if unit.Some? then unit.value else "  ",
                                              OneLine(Print(d.root)))
  {
    hide NodeAt, Print, UnitOf, HasCrLf, OneLine;
  }

  method MakeLayout(source: string, root: Node, ghost d: Document) returns (l: Layout)
    requires ReadDocument(source) == Some(d) && root == NodeAt(d.root, |d.lead|) && root.ObjectNode?
    ensures l == SourceLayout(source, d)
  {
    hide *;
    DocumentPlace(source, d);
    NodeSpan(d.root, |d.lead|);
    HeldOneLine(source, |d.lead|, Print(d.root));
    LayoutParts(source, d);
    var unit := IndentUnit(source, root);
    l := Layout(if HasCrLf(source) then "\r\n" else "\n", if unit.Some? then unit.value else "  ",
                OneLine(source[root.start..root.end]));
  }

  /** What an edit of the object at hand makes of the document. */
  lemma SetDone(source: string, d: Document, path: seq<string>, index: nat, node: Node, o: Value, at: nat, value: Json,
                edits: seq<Edit>)
    requires ReadDocument(source) == Some(d) && Underway(source, d, path, index, node, o, at)
    requires var found := Find(Keys(o.members), path[index]); found.Absent? || (found.Once? && index + 1 == |path|)
    requires Turns(source, edits, at, o,
                   Edited(SourceLayout(source, d), o, LineIndent(Before(source, at)), path[index..], value))
    ensures Apart(edits, 0, |source|) && SetText(source, path, value) == Some(Spliced(source, 0, edits))
  {
    hide *;
    UnderwayParts(source, d, path, index, node, o, at);
    DescendHere(o, at, path[index..]);
    TargetIs(source, path, d, Stop(o, at, path[index..]));
    SetIs(source, path, value);
    var owner := Edited(SourceLayout(source, d), o, LineIndent(Before(source, at)), path[index..], value);
    TurnsParts(source, edits, at, o, owner);
    PutInText(source, d, path, owner);
    OuterIs(source, Stop(o, at, path[index..]));
  }

  lemma TurnsParts(source: string, edits: seq<Edit>, at: nat, o: Value, after: Value)
    requires Turns(source, edits, at, o, after)
    ensures Apart(edits, 0, |source|) && Holds(source, at, Print(o))
            && Spliced(source, 0, edits) == Swap(source, at, Print(o), Print(after))
  {
  }

  lemma OuterIs(source: string, stop: Stop)
    requires stop.Stop?
    ensures Outer(source, stop) == LineIndent(Before(source, stop.at))
  {
  }

  lemma EditedIs(l: Layout, o: Value, outer: string, rest: seq<string>, value: Json)
    requires IsObject(o) && rest != []
    ensures var found := Find(Keys(o.members), rest[0]);
            Edited(l, o, outer, rest, value)
            == if found.Once? then Replaced(l, o, outer, found.index, value)
               else if o.members == [] then Filled(l, o.close, outer, rest[0], Nested(rest[1..], value))
               else Appended(l, o, outer, rest[0], Nested(rest[1..], value))
  {
    hide Replaced, Filled, Appended, Find, Keys, Nested;
  }

  method SetJsoncMember(source: string, path: seq<string>, value: Json) returns (text: Option<string>)
    ensures text == SetText(source, path, value)
  {
    hide *;
    RootKind(source);
    var root := ParseJsonc(source);
    if root.None? || !root.value.ObjectNode? || path == [] {
      Untouched(source, path, value, false);
      return None;
    }
    ghost var d := ReadDocument(source).value;
    var layout := MakeLayout(source, root.value, d);
    var node := root.value;
    ghost var o := d.root;
    ghost var at: nat := |d.lead|;
    SetsOut(source, d, path);
    for index := 0 to |path|
      invariant index < |path| && Underway(source, d, path, index, node, o, at)
    {
      UnderwayParts(source, d, path, index, node, o, at);
      DescendHere(o, at, path[index..]);
      EditedIs(layout, o, LineIndent(Before(source, at)), path[index..], value);
      var key := path[index];
      var found := MemberNamed(node.members, key);
      if found.Twice? {
        Untouched(source, path, value, false);
        return None;
      }
      var rest := path[index + 1..];
      if found.Absent? {
        var edits;
        if node.members == [] {
          var edit := InsertIntoEmpty(source, layout, node, key, Nested(rest, value), o, at);
          edits := [edit];
        } else {
          edits := Insert(source, layout, node, key, Nested(rest, value), o, at);
        }
        SetDone(source, d, path, index, node, o, at, value, edits);
        var edited := Apply(source, edits);
        return Some(edited);
      }
      if rest == [] {
        var edit := Replace(source, layout, node, node.members[found.index], value, o, at, found.index);
        SetDone(source, d, path, index, node, o, at, value, [edit]);
        var edited := Apply(source, [edit]);
        return Some(edited);
      }
      MemberSpans(o, at, found.index);
      NodeSpan(o.members[found.index].value, at + ValueOffset(o, found.index));
      if !node.members[found.index].value.ObjectNode? {
        Untouched(source, path, value, false);
        return None;
      }
      StepsDown(source, d, path, index, node, o, at, found.index);
      node := node.members[found.index].value;
      o, at := o.members[found.index].value, at + ValueOffset(o, found.index);
    }
    assert false;
  }

  /** The object at hand has no such member: the removal changes nothing. */
  lemma RemoveNone(source: string, d: Document, path: seq<string>, index: nat, node: Node, o: Value, at: nat,
                   tidy: bool)
    requires ReadDocument(source) == Some(d) && Underway(source, d, path, index, node, o, at)
    requires Find(Keys(o.members), path[index]).Absent?
    ensures RemoveText(source, path, tidy) == Some(source)
  {
    hide *;
    UnderwayParts(source, d, path, index, node, o, at);
    DescendHere(o, at, path[index..]);
    TargetIs(source, path, d, Stop(o, at, path[index..]));
    RemoveTextIs(source, path, tidy);
  }

  lemma RemoveTextIs(source: string, path: seq<string>, tidy: bool)
    requires Target(source, path).Some?
    ensures var (d, stop) := Target(source, path).value;
            var found := Find(Keys(stop.owner.members), stop.rest[0]);
            RemoveText(source, path, tidy)
            == Some(if found.Once? then PrintDocument(PutInto(d, path, Without(stop.owner, found.index, tidy)))
                    else source)
  {
    hide Target, Find, Keys, Without, PutInto, PrintDocument;
  }

  lemma RemoveDone(source: string, d: Document, path: seq<string>, node: Node, o: Value, at: nat, i: nat, tidy: bool,
                   edits: seq<Edit>)
    requires path != [] && ReadDocument(source) == Some(d) && Underway(source, d, path, |path| - 1, node, o, at)
    requires i < |o.members| && Find(Keys(o.members), path[|path| - 1]) == Once(i)
    requires Turns(source, edits, at, o, Without(o, i, tidy))
    ensures Apart(edits, 0, |source|) && RemoveText(source, path, tidy) == Some(Spliced(source, 0, edits))
  {
    hide *;
    UnderwayParts(source, d, path, |path| - 1, node, o, at);
    DescendHere(o, at, path[|path| - 1..]);
    TargetIs(source, path, d, Stop(o, at, path[|path| - 1..]));
    RemoveTextIs(source, path, tidy);
    TurnsParts(source, edits, at, o, Without(o, i, tidy));
    PutInText(source, d, path, Without(o, i, tidy));
  }

  method RemoveJsoncMember(source: string, path: seq<string>, tidy: bool) returns (text: Option<string>)
    ensures text == RemoveText(source, path, tidy)
  {
    hide *;
    RootKind(source);
    var root := ParseJsonc(source);
    if root.None? || !root.value.ObjectNode? || path == [] {
      Untouched(source, path, Str(""), tidy);
      return None;
    }
    ghost var d := ReadDocument(source).value;
    var node := root.value;
    ghost var o := d.root;
    ghost var at: nat := |d.lead|;
    SetsOut(source, d, path);
    for index := 0 to |path| - 1
      invariant Underway(source, d, path, index, node, o, at)
    {
      UnderwayParts(source, d, path, index, node, o, at);
      DescendHere(o, at, path[index..]);
      var found := MemberNamed(node.members, path[index]);
      if found.Twice? {
        Untouched(source, path, Str(""), tidy);
        return None;
      }
      if found.Absent? {
        RemoveNone(source, d, path, index, node, o, at, tidy);
        return Some(source);
      }
      MemberSpans(o, at, found.index);
      NodeSpan(o.members[found.index].value, at + ValueOffset(o, found.index));
      if !node.members[found.index].value.ObjectNode? {
        Untouched(source, path, Str(""), tidy);
        return None;
      }
      StepsDown(source, d, path, index, node, o, at, found.index);
      node := node.members[found.index].value;
      o, at := o.members[found.index].value, at + ValueOffset(o, found.index);
    }
    UnderwayParts(source, d, path, |path| - 1, node, o, at);
    DescendHere(o, at, path[|path| - 1..]);
    var found := MemberNamed(node.members, path[|path| - 1]);
    if found.Twice? {
      Untouched(source, path, Str(""), tidy);
      return None;
    }
    if found.Absent? {
      RemoveNone(source, d, path, |path| - 1, node, o, at, tidy);
      return Some(source);
    }
    var edits := Remove(source, node, found.index, tidy, o, at);
    RemoveDone(source, d, path, node, o, at, found.index, tidy, edits);
    var edited := Apply(source, edits);
    return Some(edited);
  }
}
