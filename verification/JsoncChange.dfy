/**
 * Setting and removing one member of a JSONC document, as changes
 * of the object that holds it and of the trivia around it.
 */
module JsoncChange {
  import opened Prelude
  import opened JsonString
  import opened JsoncSyntax
  import opened JsoncReader
  import opened JsoncLayout
  import opened JsoncTree

  /** The file's own style: its newline, its indentation step, and whether its root is on one line. */
  datatype Layout = Layout(newline: string, unit: string, flat: bool)

  predicate ValidLayout(l: Layout) {
    NewlineStyle(l.newline) && Blank(l.unit)
  }

  function LayoutOf(source: string, root: Node, rootText: string): (l: Layout)
    ensures ValidLayout(l)
  {
    var unit := UnitOf(source, root);
    Layout(if HasCrLf(source) then "\r\n" else "\n", if unit.Some? then unit.value else "  ", OneLine(rootText))
  }

  /** `JSON.stringify` takes at most ten characters of the indentation step. */
  function Step(unit: string): string {
    if |unit| <= 10 then unit else unit[..10]
  }

  function RenderInline(value: Json): Value {
    Rendered(value, true, "", "")
  }

  function RenderLines(l: Layout, value: Json, indent: string): Value {
    Rendered(value, false, l.newline + indent, Step(l.unit))
  }

  function Render(l: Layout, value: Json, indent: string, inline: bool): Value {
    if inline then RenderInline(value) else RenderLines(l, value, indent)
  }

  /** A key that is alone before itself on its line, as the trivia before it shows. */
  predicate OwnLead(lead: string) {
    '\n' in lead && Blank(LineOf(lead))
  }

  function MemberIndent(l: Layout, lead: string, outer: string): string {
    if OwnLead(lead) then LineOf(lead) else outer + l.unit
  }

  function NewMember(lead: string, key: string, value: Value, comma: bool): Member {
    Member(lead, Some(Name(Quote(key), "", " ")), value, "", comma)
  }

  function Replaced(l: Layout, o: Value, outer: string, i: nat, value: Json): Value
    requires IsObject(o) && i < |o.members|
  {
    WithValue(o, i, Render(l, value, MemberIndent(l, o.members[i].lead, outer), OneLine(Print(o))))
  }

  function Filled(l: Layout, close: string, outer: string, key: string, value: Json): Value {
    if l.flat then
      Group(true, [NewMember("", key, RenderInline(value), false)], if Spaces(close) then "" else " " + close)
    else
      var indent := outer + l.unit;
      Group(true, [NewMember(l.newline + indent, key, RenderLines(l, value, indent), false)],
            if Spaces(close) then l.newline + outer else close)
  }

  /** The trivia after the last value, cut where its first line ends. */
  function FirstLine(close: string): string {
    close[..EndOfLineTrivia(close)]
  }

  function OtherLines(close: string): string {
    close[EndOfLineTrivia(close)..]
  }

  function WithComma(ms: seq<Member>): seq<Member>
    requires ms != []
  {
    ms[..|ms| - 1] + [ms[|ms| - 1].(comma := true)]
  }

  function Appended(l: Layout, o: Value, outer: string, key: string, value: Json): (after: Value)
    requires IsObject(o) && o.members != []
    ensures IsObject(after) && |after.members| == |o.members| + 1
  {
    var last := o.members[|o.members| - 1];
    if OneLine(Print(o)) then
      Group(true, WithComma(o.members) + [NewMember(" ", key, RenderInline(value), last.comma)], o.close)
    else
      var indent := MemberIndent(l, last.lead, outer);
      var value := RenderLines(l, value, indent);
      var front, back := FirstLine(o.close), OtherLines(o.close);
      if IsNewline(back) then
        Group(true, WithComma(o.members) + [NewMember(front + (l.newline + indent), key, value, last.comma)], back)
      else
        Group(true, WithComma(o.members)
              + [NewMember((if Blank(front) then "" else front) + (l.newline + indent), key, value, last.comma)],
              l.newline + (outer + back))
  }

  function Edited(l: Layout, o: Value, outer: string, rest: seq<string>, value: Json): Value
    requires IsObject(o) && rest != []
  {
    match Find(Keys(o.members), rest[0])
    case Once(i) => Replaced(l, o, outer, i, value)
    case _ =>
      if o.members == [] then Filled(l, o.close, outer, rest[0], Nested(rest[1..], value))
      else Appended(l, o, outer, rest[0], Nested(rest[1..], value))
  }

  function TrimBlank(s: string): (t: string)
    ensures |t| <= |s| && t == s[..|t|]
  {
    if s != "" && IsBlank(s[|s| - 1]) then TrimBlank(s[..|s| - 1]) else s
  }

  /** Trivia without its first line, when only spaces and comments are on it. */
  function AfterLine(t: string): string {
    var back := OtherLines(t);
    if IsNewline(back) then back[|NewlineText(back)|..] else t
  }

  function Without(o: Value, i: nat, tidy: bool): Value
    requires IsObject(o) && i < |o.members|
  {
    var ms, m := o.members, o.members[i];
    if tidy && |ms| == 1 && Spaces(m.lead + o.close) then Group(true, [], "")
    else
      var inline := OneLine(Print(o));
      var own := !inline && OwnLead(m.lead);
      var lead := if own then m.lead[..|m.lead| - |LineOf(m.lead)|] else if tidy && inline then TrimBlank(m.lead)
          else m.lead;
      if i + 1 < |ms| then
        var next := ms[i + 1];
        Group(true, ms[..i] + [next.(lead := lead + if own then AfterLine(next.lead) else next.lead)]
              + ms[i + 2..], o.close)
      else
        var close := lead + if own then AfterLine(o.close) else o.close;
        if m.comma || i == 0 then Group(true, ms[..i], close)
        else Group(true, ms[..i - 1] + [ms[i - 1].(tail := "", comma := false)], ms[i - 1].tail + close)
  }

  // ---------------------------------------------------------------------------------------------
  // The changed object is well formed and means what it should
  // ---------------------------------------------------------------------------------------------

  lemma BlankIsSpaces(s: string)
    requires Blank(s)
    ensures Spaces(s) && Trivia(s) && OneLine(s)
  {
    SpacesAreTrivia(s);
  }

  lemma NewlineIsTrivia(newline: string, indent: string)
    requires NewlineStyle(newline) && Blank(indent)
    ensures Trivia(newline + indent) && Trivia(newline)
  {
    SpacesAreTrivia(newline + indent);
    SpacesAreTrivia(newline);
  }

  lemma RenderIsWellFormed(l: Layout, value: Json, indent: string, inline: bool)
    requires ValidJson(value) && ValidLayout(l) && Blank(indent)
    ensures WellFormed(Render(l, value, indent, inline)) && Denotes(Render(l, value, indent, inline), value)
  {
    hide Trivia, WellFormed, Denotes, Rendered;
    NewlineIsTrivia(l.newline, indent);
    BlankIsSpaces(Step(l.unit));
    BlankIsSpaces("");
    RenderedIsWellFormed(value, true, "", "");
    RenderedIsWellFormed(value, false, l.newline + indent, Step(l.unit));
  }

  lemma MemberIndentIsBlank(l: Layout, lead: string, outer: string)
    requires ValidLayout(l) && Blank(outer)
    ensures Blank(MemberIndent(l, lead, outer))
  {
  }

  lemma NewMemberFits(lead: string, key: string, value: Value, comma: bool, last: bool)
    requires Trivia(lead) && WellFormed(value) && (comma || last)
    ensures Fits(NewMember(lead, key, value, comma), true, last)
    ensures KeyOf(NewMember(lead, key, value, comma)) == key
  {
    hide Quote, Decode, WellFormed, StringToken;
    QuoteIsKey(key);
    BlankIsSpaces(" ");
    BlankIsSpaces("");
  }

  lemma CommaFits(m: Member, last: bool)
    requires Fits(m, true, last)
    ensures Fits(m.(comma := true), true, false) && Kept(m, m.(comma := true))
  {
  }

  /** A comma after the last member and one more member after it. */
  lemma AppendedFits(o: Value, lead: string, key: string, value: Value, comma: bool, close: string)
    requires IsObject(o) && o.members != [] && WellFormed(o)
    requires Trivia(lead) && WellFormed(value) && Trivia(close)
    ensures var after := Group(true, WithComma(o.members) + [NewMember(lead, key, value, comma)], close);
            && WellFormed(after)
            && forall j: Json :: Denotes(value, j) ==> AddedLast(o.members, after.members, key, j)
  {
    hide WellFormed, Fits, Trivia, Kept, NewMember, Denotes, KeyOf;
    var m := NewMember(lead, key, value, comma);
    var ms := WithComma(o.members) + [m];
    var after := Group(true, ms, close);
    ObjectWellFormed(o);
    ObjectWellFormed(after);
    NewMemberFits(lead, key, value, comma, true);
    var n := |o.members|;
    forall i | 0 <= i < |ms| ensures Fits(ms[i], true, i + 1 == |ms|) && (i < n ==> Kept(o.members[i], ms[i])) {
      if i < n {
        assert Fits(o.members[i], true, i + 1 == n);
        AppendedKeeps(o.members, m, i);
      }
    }
    NewMemberValue(lead, key, value, comma);
  }

  lemma NewMemberValue(lead: string, key: string, value: Value, comma: bool)
    ensures NewMember(lead, key, value, comma).value == value
  {
  }

  lemma AppendedKeeps(ms: seq<Member>, m: Member, i: nat)
    requires i < |ms| && Fits(ms[i], true, i + 1 == |ms|)
    ensures var after := WithComma(ms) + [m]; Fits(after[i], true, false) && Kept(ms[i], after[i])
  {
    hide WellFormedMember, KeyOf;
    CommaFits(ms[i], i + 1 == |ms|);
  }

  lemma FilledFits(lead: string, key: string, value: Value, close: string)
    requires Trivia(lead) && WellFormed(value) && Trivia(close)
    ensures var after := Group(true, [NewMember(lead, key, value, false)], close);
            && WellFormed(after)
            && forall j: Json :: Denotes(value, j) ==> AddedLast([], after.members, key, j)
  {
    hide WellFormed, Fits, Trivia, Denotes, KeyOf, NewMember;
    NewMemberFits(lead, key, value, false, true);
    NewMemberValue(lead, key, value, false);
    ObjectWellFormed(Group(true, [NewMember(lead, key, value, false)], close));
  }

  lemma FilledWorks(l: Layout, close: string, outer: string, key: string, value: Json)
    requires ValidLayout(l) && ValidJson(value) && Blank(outer) && Trivia(close)
    ensures var after := Filled(l, close, outer, key, value);
            WellFormed(after) && IsObject(after) && AddedLast([], after.members, key, value)
  {
    hide WellFormed, Trivia, Denotes, KeyOf, NewMember, Rendered, AddedLast, Spaces;
    var indent := outer + l.unit;
    BlankIsSpaces("");
    BlankIsSpaces(" ");
    TriviaAppend(" ", close);
    NewlineIsTrivia(l.newline, indent);
    NewlineIsTrivia(l.newline, outer);
    RenderIsWellFormed(l, value, indent, true);
    RenderIsWellFormed(l, value, indent, false);
    FilledFits("", key, RenderInline(value), if Spaces(close) then "" else " " + close);
    FilledFits(l.newline + indent, key, RenderLines(l, value, indent),
               if Spaces(close) then l.newline + outer else close);
  }

  lemma CutIsTrivia(l: Layout, close: string, indent: string, outer: string)
    requires ValidLayout(l) && Blank(indent) && Blank(outer) && Trivia(close)
    ensures Trivia(OtherLines(close)) && Trivia(l.newline + (outer + OtherLines(close)))
    ensures Trivia(FirstLine(close) + (l.newline + indent)) && Trivia("" + (l.newline + indent))
  {
    hide Trivia;
    CutAtLineEnd(close, l.newline);
    BlankIsSpaces(indent);
    TriviaAppend(FirstLine(close) + l.newline, indent);
    assert (FirstLine(close) + l.newline) + indent == FirstLine(close) + (l.newline + indent);
    NewlineIsTrivia(l.newline, indent);
    assert "" + (l.newline + indent) == l.newline + indent;
    NewlineIsTrivia(l.newline, outer);
    TriviaAppend(l.newline + outer, OtherLines(close));
    assert (l.newline + outer) + OtherLines(close) == l.newline + (outer + OtherLines(close));
  }

  lemma AppendedWorks(l: Layout, o: Value, outer: string, key: string, value: Json)
    requires IsObject(o) && o.members != [] && WellFormed(o)
    requires ValidLayout(l) && ValidJson(value) && Blank(outer)
    ensures var after := Appended(l, o, outer, key, value);
            WellFormed(after) && IsObject(after) && AddedLast(o.members, after.members, key, value)
  {
    hide WellFormed, Trivia, Denotes, KeyOf, NewMember, Rendered, AddedLast, Blank, OneLine, WithComma, IsNewline,
         FirstLine, OtherLines, Print;
    var last := o.members[|o.members| - 1];
    var indent := MemberIndent(l, last.lead, outer);
    MemberIndentIsBlank(l, last.lead, outer);
    ObjectWellFormed(o);
    RenderIsWellFormed(l, value, indent, true);
    RenderIsWellFormed(l, value, indent, false);
    CutIsTrivia(l, o.close, indent, outer);
    BlankIsSpaces(" ") by { assert Blank(" ") by { SpaceIsBlank(); } }
    var front, back := FirstLine(o.close), OtherLines(o.close);
    if OneLine(Print(o)) {
      AppendedFits(o, " ", key, RenderInline(value), last.comma, o.close);
    } else if IsNewline(back) {
      AppendedFits(o, front + (l.newline + indent), key, RenderLines(l, value, indent), last.comma, back);
    } else {
      AppendedFits(o, (if Blank(front) then "" else front) + (l.newline + indent), key, RenderLines(l, value, indent),
                   last.comma,
                   l.newline + (outer + back));
    }
  }

  lemma SpaceIsBlank()
    ensures Blank(" ")
  {
  }

  lemma SetHere(o: Value, after: Value, rest: seq<string>, value: Json)
    requires IsObject(o) && IsObject(after) && rest != []
    ensures match Find(Keys(o.members), rest[0])
            case Absent => SetAt(o, after, rest, value)
                == AddedLast(o.members, after.members, rest[0], Nested(rest[1..], value))
            case Once(i) =>
              |rest| == 1 && OnlyOther(o.members, after.members, i) && Denotes(after.members[i].value, value) ==>
                SetAt(o, after, rest, value)
            case Twice => true
  {
    hide Denotes, OnlyOther, Keys, AddedLast, Nested, Find;
  }

  lemma NestedIsValid(path: seq<string>, value: Json)
    requires ValidJson(value)
    ensures ValidJson(Nested(path, value))
  {
  }

  /** The edited object is well formed and has the value at the rest of the path. */
  lemma EditedWorks(l: Layout, o: Value, outer: string, rest: seq<string>, value: Json)
    requires IsObject(o) && WellFormed(o) && rest != [] && ValidLayout(l) && ValidJson(value) && Blank(outer)
    requires !Find(Keys(o.members), rest[0]).Twice? && (Find(Keys(o.members), rest[0]).Once? ==> |rest| == 1)
    ensures var after := Edited(l, o, outer, rest, value);
            WellFormed(after) && IsObject(after) && SetAt(o, after, rest, value)
  {
    hide WellFormed, Denotes, SetAt, OnlyOther, AddedLast, Blank, Nested, Filled, Appended, Keys, Find, ValidJson,
         Print, OneLine, MemberIndent, Render;
    var after := Edited(l, o, outer, rest, value);
    var found := Find(Keys(o.members), rest[0]);
    if found.Once? {
      var i := found.index;
      var indent := MemberIndent(l, o.members[i].lead, outer);
      MemberIndentIsBlank(l, o.members[i].lead, outer);
      RenderIsWellFormed(l, value, indent, OneLine(Print(o)));
      var v := Render(l, value, indent, OneLine(Print(o)));
      WithValueIsWellFormed(o, i, v);
      OnlyThatValue(o, i, v);
      SetHere(o, after, rest, value);
    } else {
      NestedIsValid(rest[1..], value);
      if o.members == [] {
        ObjectWellFormed(o);
        FilledWorks(l, o.close, outer, rest[0], Nested(rest[1..], value));
      } else {
        AppendedWorks(l, o, outer, rest[0], Nested(rest[1..], value));
      }
      SetHere(o, after, rest, value);
    }
  }

  // ---------------------------------------------------------------------------------------------
  // Removing a member
  // ---------------------------------------------------------------------------------------------

  lemma LineOfLonger(a: string, b: string)
    requires '\n' in b
    ensures LineOf(a + b) == LineOf(b)
  {
    if b != "" && b[|b| - 1] != '\n' {
      var c := b[..|b| - 1];
      assert (a + b)[..|a + b| - 1] == a + c;
      assert b == c + [b[|b| - 1]];
      LineOfLonger(a, c);
    }
  }

  lemma LineOfShort(a: string, b: string)
    requires OneLine(b)
    ensures LineOf(a + b) == LineOf(a) + b
  {
    if b == "" {
      assert a + b == a && LineOf(a) + b == LineOf(a);
    } else {
      var c := b[..|b| - 1];
      assert (a + b)[..|a + b| - 1] == a + c;
      assert b == c + [b[|b| - 1]];
      LineOfShort(a, c);
    }
  }

  /** Trivia whose last line is blank, cut at the start of that line. */
  lemma {:induction false} LastLineCut(t: string)
    requires Trivia(t) && OwnLead(t)
    ensures |LineOf(t)| < |t| && t[|t| - |LineOf(t)| - 1] == '\n' && Trivia(t[..|t| - |LineOf(t)|])
    decreases |t|
  {
    hide *;
    OwnLeadParts(t);
    TriviaStep(t) by { NewlineSomewhere(t); }
    var n := Piece(t).value;
    var rest := t[n..];
    Around(t, n);
    if '\n' in rest {
      LineOfLonger(t[..n], rest);
      OwnLeadParts(rest);
      LastLineCut(rest);
      var k := |t| - |LineOf(t)|;
      Beneath(t, n, k);
      CutBehindPiece(t, n, k);
    } else {
      OneLineParts(rest);
      LineOfShort(t[..n], rest);
      PieceWithNewline(t, n);
      FirstNewline(t, rest);
      SpacesAreTrivia("\n") by { NewlineIsSpace(); }
    }
  }

  lemma OwnLeadParts(t: string)
    ensures OwnLead(t) <==> '\n' in t && Blank(LineOf(t))
  {
  }

  lemma NewlineSomewhere(t: string)
    requires '\n' in t
    ensures t != ""
  {
  }

  lemma Around(t: string, n: nat)
    requires n <= |t|
    ensures t == t[..n] + t[n..] && |t[n..]| == |t| - n
  {
  }

  lemma Beneath(t: string, n: nat, k: nat)
    requires n <= k <= |t|
    ensures t[n..][..k - n] == t[n..k] && (n < k ==> t[n..][k - n - 1] == t[k - 1])
  {
  }

  lemma OneLineParts(s: string)
    ensures OneLine(s) <==> '\n' !in s
  {
  }

  lemma FirstNewline(t: string, rest: string)
    requires |t| == 1 + |rest| && t[0] == '\n' && LineOf(t) == LineOf(t[..1]) + rest
    ensures t[..1] == "\n" && LineOf(t) == rest && t[..|t| - |LineOf(t)|] == "\n"
  {
    assert t[..1] == "\n" && LineOf("\n") == "";
    assert "" + rest == rest;
  }

  lemma NewlineIsSpace()
    ensures Spaces("\n")
  {
  }

  lemma CutBehindPiece(t: string, n: nat, k: nat)
    requires Complete(t, n) && n < k <= |t| && Trivia(t[n..][..k - n])
    ensures Trivia(t[..k])
  {
    hide Trivia, Piece;
    assert t[..k][n..] == t[n..][..k - n] && t[..k][..n] == t[..n];
    PiecePrefix(t, n, k) by { CompletePiece(t, n); LineGoesOn(t, n, k); }
    TriviaFirst(t[..k], n);
  }

  lemma LineGoesOn(t: string, n: nat, k: nat)
    requires Complete(t, n) && n < k <= |t|
    ensures LineComment(t) ==> n < k
  {
  }

  lemma TriviaFirst(t: string, n: nat)
    requires Complete(t, n) && 0 < n <= |t| && Trivia(t[n..])
    ensures Trivia(t)
  {
    hide Piece;
    CompletePiece(t, n);
  }

  lemma SlashIsNotBlank(front: string, rest: string)
    ensures !Blank(LineOf(front + "/") + rest)
  {
    LineOfShort(front, "/");
    assert (LineOf(front + "/") + rest)[|LineOf(front)|] == '/';
  }

  /** A piece that holds the only newline, with blanks after it, is that newline. */
  lemma PieceWithNewline(t: string, n: nat)
    requires Complete(t, n) && n <= |t| && '\n' in t && OneLine(t[n..]) && Blank(LineOf(t[..n]) + t[n..])
    ensures n == 1 && t[0] == '\n'
  {
    assert t == t[..n] + t[n..];
    assert '\n' in t[..n];
    if LineComment(t) {
      NewlineWhole(t);
      assert false;
    } else if BlockComment(t) {
      CommentEndsSo(t[2..]);
      var front := t[..n - 1];
      assert t[..n] == front + "/";
      SlashIsNotBlank(front, t[n..]);
    } else {
      assert t[..n] == [t[0]];
    }
  }

  lemma {:induction false} CommentEndsSo(r: string)
    requires CommentEnd(r).Some?
    ensures r[CommentEnd(r).value - 1] == '/'
  {
    if !(r[0] == '*' && r[1] == '/') {
      CommentEndsSo(r[1..]);
    }
  }

  /** One-line trivia keeps being trivia when its last blanks go. */
  lemma {:induction false} TrimmedIsTrivia(t: string)
    requires Trivia(t) && OneLine(t)
    ensures Trivia(TrimBlank(t))
    decreases |t|
  {
    if t != "" && IsBlank(t[|t| - 1]) {
      DropLast(t);
      TrimmedIsTrivia(t[..|t| - 1]);
    }
  }

  lemma {:induction false} DropLast(t: string)
    requires Trivia(t) && OneLine(t) && t != "" && IsBlank(t[|t| - 1])
    ensures Trivia(t[..|t| - 1])
    decreases |t|
  {
    TriviaStep(t);
    var n := Piece(t).value;
    var cut := t[..|t| - 1];
    if n < |t| {
      DropLast(t[n..]);
      assert cut[n..] == t[n..][..|t[n..]| - 1];
      assert !LineComment(t);
      PiecePrefix(t, n, |cut|);
    } else if BlockComment(t) {
      CommentEndsSo(t[2..]);
      assert false;
    } else {
      assert cut == "";
    }
  }

  lemma AfterLineIsTrivia(t: string)
    requires Trivia(t)
    ensures Trivia(AfterLine(t)) && |AfterLine(t)| <= |t|
  {
    CutAtLineEnd(t, "\n");
    var back := OtherLines(t);
    if IsNewline(back) {
      TriviaStep(back);
      if back[0] == '\r' {
        assert back[1..][1..] == back[2..];
      }
    }
  }

  /** The trivia before the member, as much of it as stays. */
  function LeadLeft(o: Value, lead: string, tidy: bool): string {
    var inline := OneLine(Print(o));
    if !inline && OwnLead(lead) then lead[..|lead| - |LineOf(lead)|] else if tidy && inline then TrimBlank(lead)
    else lead
  }

  lemma LeadLeftIsTrivia(o: Value, i: nat, tidy: bool)
    requires IsObject(o) && WellFormed(o) && i < |o.members|
    ensures Trivia(LeadLeft(o, o.members[i].lead, tidy))
  {
    hide WellFormed, Trivia, Print, OneLine, OwnLead;
    MemberIsWellFormed(o, i);
    var lead := o.members[i].lead;
    FitsTrivia(o.members[i], i + 1 == |o.members|);
    if OneLine(Print(o)) {
      LeadOneLine(o, i);
      TrimmedIsTrivia(lead);
    } else if OwnLead(lead) {
      LastLineCut(lead);
    }
  }

  lemma FitsTrivia(m: Member, last: bool)
    requires Fits(m, true, last)
    ensures Trivia(m.lead) && Trivia(m.tail) && (!m.comma ==> m.tail == "")
  {
  }

  lemma LeadOneLine(o: Value, i: nat)
    requires IsObject(o) && i < |o.members| && OneLine(Print(o))
    ensures OneLine(o.members[i].lead)
  {
    hide Print, PrintMember, PrintMembers, PrintName;
    ObjectText(o, i);
    var m := o.members[i];
    var before := PrintMembers(o.members[..i]);
    var rest := PrintName(m.name) + (Print(m.value) + (if m.comma then m.tail + [','] else ""));
    var after := PrintMembers(o.members[i + 1..]);
    PartOneLine(['{'] + before, m.lead, rest + after + (o.close + ['}']));
    assert Print(o) == (['{'] + before) + m.lead + (rest + after + (o.close + ['}']));
  }

  lemma PartOneLine(a: string, b: string, c: string)
    ensures OneLine(a + b + c) ==> OneLine(b)
  {
    forall i | 0 <= i < |b| ensures b[i] == (a + b + c)[|a| + i] {
    }
  }

  lemma LeadFits(m: Member, lead: string, last: bool)
    requires Fits(m, true, last) && Trivia(lead)
    ensures Fits(m.(lead := lead), true, last) && Kept(m, m.(lead := lead))
  {
  }

  lemma UncommaFits(m: Member, last: bool)
    requires Fits(m, true, last)
    ensures Fits(m.(tail := "", comma := false), true, true) && Kept(m, m.(tail := "", comma := false))
  {
  }

  lemma KeptItself(m: Member)
    ensures Kept(m, m)
  {
  }

  predicate Lost(before: seq<Member>, after: seq<Member>, i: nat) {
    && i < |before| == |after| + 1
    && (forall j :: 0 <= j < i ==> Kept(before[j], after[j]))
    && (forall j :: i < j < |before| ==> Kept(before[j], after[j - 1]))
  }

  lemma WithoutMiddle(ms: seq<Member>, i: nat, lead: string) returns (after: seq<Member>)
    requires i + 1 < |ms| && Trivia(lead) && forall j :: 0 <= j < |ms| ==> Fits(ms[j], true, j + 1 == |ms|)
    ensures after == ms[..i] + [ms[i + 1].(lead := lead)] + ms[i + 2..]
    ensures Lost(ms, after, i) && forall j :: 0 <= j < |after| ==> Fits(after[j], true, j + 1 == |after|)
  {
    hide Fits, Kept, Trivia;
    after := ms[..i] + [ms[i + 1].(lead := lead)] + ms[i + 2..];
    forall j | 0 <= j < |ms| && j != i ensures Kept(ms[j], after[if j < i then j else j - 1]) {
      KeptItself(ms[j]);
      LeadFits(ms[i + 1], lead, i + 2 == |ms|);
    }
    forall j | 0 <= j < |after| ensures Fits(after[j], true, j + 1 == |after|) {
      if j < i {
        assert Fits(ms[j], true, j + 1 == |ms|);
      } else {
        assert Fits(ms[j + 1], true, (j + 1) + 1 == |ms|);
        LeadFits(ms[i + 1], lead, i + 2 == |ms|);
      }
    }
  }

  lemma WithoutLast(ms: seq<Member>)
    requires ms != [] && forall j :: 0 <= j < |ms| ==> Fits(ms[j], true, j + 1 == |ms|)
    ensures var after := ms[..|ms| - 1]; Lost(ms, after, |ms| - 1) && forall j :: 0 <= j < |after| ==>
              Fits(after[j], true, j + 1 == |after|)
  {
    hide Kept, WellFormedMember;
    var after := ms[..|ms| - 1];
    forall j | 0 <= j < |after| ensures Kept(ms[j], after[j]) && Fits(after[j], true, j + 1 == |after|) {
      KeptItself(ms[j]);
      assert Fits(ms[j], true, j + 1 == |ms|);
    }
  }

  lemma WithoutLastComma(ms: seq<Member>)
    requires |ms| > 1 && forall j :: 0 <= j < |ms| ==> Fits(ms[j], true, j + 1 == |ms|)
    ensures var after := ms[..|ms| - 2] + [ms[|ms| - 2].(tail := "", comma := false)];
            Lost(ms, after, |ms| - 1) && forall j :: 0 <= j < |after| ==> Fits(after[j], true, j + 1 == |after|)
  {
    hide Kept, WellFormedMember;
    var p := |ms| - 2;
    var after := ms[..p] + [ms[p].(tail := "", comma := false)];
    assert Fits(ms[p], true, p + 1 == |ms|);
    UncommaFits(ms[p], false);
    forall j | 0 <= j < |after| ensures Kept(ms[j], after[j]) && Fits(after[j], true, j + 1 == |after|) {
      KeptItself(ms[j]);
      assert Fits(ms[j], true, j + 1 == |ms|);
    }
  }

  /** The object without the member is well formed and has every other member in order. */
  lemma WithoutWorks(o: Value, i: nat, tidy: bool)
    requires IsObject(o) && WellFormed(o) && i < |o.members|
    ensures var after := Without(o, i, tidy); WellFormed(after) && IsObject(after) && Lost(o.members, after.members, i)
  {
    hide WellFormed, Trivia, Fits, Kept, Lost, Spaces, Print, OneLine, OwnLead, TrimBlank, LineOf, AfterLine;
    var ms, m, after := o.members, o.members[i], Without(o, i, tidy);
    ObjectWellFormed(o);
    LeadLeftIsTrivia(o, i, tidy);
    var lead := LeadLeft(o, m.lead, tidy);
    var own := !OneLine(Print(o)) && OwnLead(m.lead);
    if tidy && |ms| == 1 && Spaces(m.lead + o.close) {
      WithoutOnly(m);
      assert ms == [m] && after.members == [];
      BlankIsSpaces("") by { NothingIsBlank(); }
      ObjectWellFormed(after);
    } else if i + 1 < |ms| {
      var next := ms[i + 1].lead;
      FitsTrivia(ms[i + 1], i + 2 == |ms|) by { assert Fits(ms[i + 1], true, (i + 1) + 1 == |ms|); }
      AfterLineIsTrivia(next);
      TriviaAppend(lead, if own then AfterLine(next) else next);
      var members := WithoutMiddle(ms, i, lead + if own then AfterLine(next) else next);
      ObjectWellFormed(after);
    } else {
      AfterLineIsTrivia(o.close);
      var close := lead + if own then AfterLine(o.close) else o.close;
      TriviaAppend(lead, if own then AfterLine(o.close) else o.close);
      if m.comma || i == 0 {
        WithoutLast(ms);
      } else {
        WithoutLastComma(ms);
        FitsTrivia(ms[i - 1], false) by { assert Fits(ms[i - 1], true, (i - 1) + 1 == |ms|); }
        TriviaAppend(ms[i - 1].tail, close);
      }
      ObjectWellFormed(after);
    }
  }

  lemma NothingIsBlank()
    ensures Blank("")
  {
  }

  lemma WithoutOnly(m: Member)
    ensures Lost([m], [], 0)
  {
  }

  lemma RemovedHere(o: Value, after: Value, rest: seq<string>, i: nat)
    requires IsObject(o) && IsObject(after) && |rest| == 1 && Find(Keys(o.members), rest[0]) == Once(i)
    requires Lost(o.members, after.members, i)
    ensures RemovedAt(o, after, rest)
  {
    hide Kept, Keys, Find;
  }

  // ---------------------------------------------------------------------------------------------
  // Removing what was just appended
  // ---------------------------------------------------------------------------------------------

  /**
   * Whether a removal gives the object back: it is on one line,
   * or its last member's line ends in the file's own newline.
   */
  predicate Undoable(l: Layout, o: Value)
    requires IsObject(o)
  {
    || OneLine(Print(o))
    || (IsNewline(OtherLines(o.close)) && NewlineText(OtherLines(o.close)) == l.newline)
  }

  lemma JoinCommas(ms: seq<Member>, m: Member)
    requires ms != []
    ensures var after := WithComma(ms) + [m];
            && |after| == |ms| + 1 && after[|ms|] == m && after[..|ms|] == WithComma(ms)
            && after[|ms| - 1] == ms[|ms| - 1].(comma := true) && after[..|ms| - 1] == ms[..|ms| - 1]
            && (ms[|ms| - 1].comma ==> WithComma(ms) == ms)
            && ms[..|ms| - 1] + [ms[|ms| - 1]] == ms
  {
  }

  /** Removing the last of the members takes back its comma, or the one before it. */
  lemma TakeBack(o: Value, lead: string, key: string, value: Value, close: string, left: string)
    requires IsObject(o) && o.members != [] && WellFormed(o)
    requires var after := Group(true,
                                WithComma(o.members) + [NewMember(lead, key, value, o.members[|o.members| - 1].comma)],
                                    close);
             && left == LeadLeft(after, lead, true) + (if !OneLine(Print(after)) && OwnLead(lead) then AfterLine(close)
                                                       else close)
    ensures var after := Group(true,
                               WithComma(o.members) + [NewMember(lead, key, value, o.members[|o.members| - 1].comma)],
                                   close);
            Without(after, |o.members|, true) == Group(true, o.members, left)
  {
    hide WellFormed, Trivia, Spaces, Print, OneLine, OwnLead, TrimBlank, LineOf, AfterLine, Quote;
    var last := o.members[|o.members| - 1];
    var m := NewMember(lead, key, value, last.comma);
    JoinCommas(o.members, m);
    ObjectWellFormed(o);
    assert Fits(last, true, (|o.members| - 1) + 1 == |o.members|);
    FitsTrivia(last, true);
    if !last.comma {
      assert last.(comma := true).(tail := "", comma := false) == last;
      assert "" + left == left;
    }
  }

  function CommaIf(comma: bool): string {
    if comma then "," else ""
  }

  lemma NewMemberText(lead: string, key: string, value: Value, comma: bool)
    ensures PrintMember(NewMember(lead, key, value, comma))
            == lead + ((Quote(key) + ": ") + (Print(value) + CommaIf(comma)))
  {
    hide Quote, Print;
    var m := NewMember(lead, key, value, comma);
    assert PrintName(m.name) == Quote(key) + ": ";
    assert "" + [','] == ",";
  }

  lemma MemberComma(m: Member)
    requires !m.comma ==> m.tail == ""
    ensures PrintMember(m.(comma := true)) == PrintMember(m) + CommaIf(!m.comma)
  {
    hide Print, PrintName;
    var start := m.lead + (PrintName(m.name) + Print(m.value));
    if m.comma {
      assert PrintMember(m) + "" == PrintMember(m);
    } else {
      assert PrintMember(m) == start;
      assert PrintMember(m.(comma := true)) == start + [','];
    }
  }

  lemma CommaAfter(front: seq<Member>, last: Member)
    requires !last.comma ==> last.tail == ""
    ensures PrintMembers(front + [last.(comma := true)]) == PrintMembers(front + [last]) + CommaIf(!last.comma)
  {
    hide *;
    PrintMembersSplit(front, [last]);
    PrintMembersSplit(front, [last.(comma := true)]);
    PrintOne(last);
    PrintOne(last.(comma := true));
    MemberComma(last);
    AppendText(PrintMembers(front), PrintMember(last), CommaIf(!last.comma));
  }

  lemma WithCommaText(ms: seq<Member>)
    requires ms != [] && (!ms[|ms| - 1].comma ==> ms[|ms| - 1].tail == "")
    ensures PrintMembers(WithComma(ms)) == PrintMembers(ms) + CommaIf(!ms[|ms| - 1].comma)
  {
    hide PrintMembers, CommaIf;
    CommaAfter(ms[..|ms| - 1], ms[|ms| - 1]);
    assert ms == ms[..|ms| - 1] + [ms[|ms| - 1]];
  }

  lemma PrintOne(m: Member)
    ensures PrintMembers([m]) == PrintMember(m)
  {
    assert [m][1..] == [];
    assert PrintMembers([m]) == PrintMember(m) + PrintMembers([]);
  }

  /** The text of an object with one more member after its last. */
  lemma AppendedText(o: Value, m: Member, close: string)
    requires IsObject(o) && o.members != [] && WellFormed(o)
    ensures Print(Group(true, WithComma(o.members) + [m], close))
            == ['{'] + ((PrintMembers(o.members) + (CommaIf(!o.members[|o.members| - 1].comma) + PrintMember(m)))
                        + (close + ['}']))
  {
    hide WellFormed, PrintMembers, PrintMember, Trivia, WithComma;
    ObjectWellFormed(o);
    var last := o.members[|o.members| - 1];
    assert Fits(last, true, (|o.members| - 1) + 1 == |o.members|);
    FitsTrivia(last, true);
    WithCommaText(o.members);
    PrintMembersSplit(WithComma(o.members), [m]);
    PrintOne(m);
  }

  lemma AppendedOneLine(o: Value, lead: string, key: string, value: Value, comma: bool)
    requires IsObject(o) && o.members != [] && WellFormed(o)
    ensures var after := Group(true, WithComma(o.members) + [NewMember(lead, key, value, comma)], o.close);
            OneLine(Print(o)) && OneLine(lead) && OneLine(Print(value)) ==> OneLine(Print(after))
  {
    hide WellFormed, PrintMembers, PrintMember, Trivia, Quote, NewMember, WithComma;
    AppendedText(o, NewMember(lead, key, value, comma), o.close);
    NewMemberText(lead, key, value, comma);
    QuoteIsKey(key);
  }

  lemma AppendedLines(o: Value, lead: string, key: string, value: Value, comma: bool, close: string)
    requires IsObject(o) && o.members != [] && WellFormed(o) && '\n' in lead
    ensures !OneLine(Print(Group(true, WithComma(o.members) + [NewMember(lead, key, value, comma)], close)))
  {
    hide WellFormed, PrintMembers, PrintMember, Trivia, Quote, NewMember, WithComma;
    var m := NewMember(lead, key, value, comma);
    AppendedText(o, m, close);
    NewMemberText(lead, key, value, comma);
    var before := ['{'] + PrintMembers(o.members) + CommaIf(!o.members[|o.members| - 1].comma);
    var rest := ((Quote(key) + ": ") + (Print(value) + CommaIf(comma))) + (close + ['}']);
    assert Print(Group(true, WithComma(o.members) + [m], close)) == before + lead + rest;
    PartOneLine(before, lead, rest);
  }

  lemma NewLineLead(front: string, newline: string, indent: string)
    requires NewlineStyle(newline) && Blank(indent)
    ensures var lead := front + (newline + indent);
            '\n' in lead && OwnLead(lead) && LineOf(lead) == indent && lead[..|lead| - |indent|] == front + newline
  {
    var lead := front + (newline + indent);
    assert lead == (front + newline) + indent;
    assert lead[|front| + |newline| - 1] == '\n';
    LineOfShort(front + newline, indent);
    assert LineOf(front + newline) + indent == indent;
  }

  lemma AfterNewline(newline: string, back: string)
    requires NewlineStyle(newline)
    ensures AfterLine(newline + back) == back
  {
    var t := newline + back;
    assert t[0..] == t && OtherLines(t) == t;
  }

  lemma AtNewline(back: string)
    requires IsNewline(back)
    ensures AfterLine(back) == back[|NewlineText(back)|..] && back == NewlineText(back) + AfterLine(back)
            && NewlineStyle(NewlineText(back))
  {
    assert back[0..] == back && OtherLines(back) == back;
  }

  lemma CloseParts(close: string)
    ensures close == FirstLine(close) + OtherLines(close)
  {
  }

  /** What `Without` leaves of the trivia after the last member, once one more has come and gone. */
  function Leftover(l: Layout, o: Value, outer: string): string
    requires IsObject(o)
  {
    var front, back := FirstLine(o.close), OtherLines(o.close);
    if OneLine(Print(o)) then o.close
    else if IsNewline(back) then front + l.newline + AfterLine(back)
    else (if Blank(front) then "" else front) + l.newline + (outer + back)
  }

  lemma InlineLeft(o: Value, close: string)
    requires OneLine(Print(o))
    ensures LeadLeft(o, " ", true) + close == close
  {
    assert TrimBlank(" ") == TrimBlank("") == "";
  }

  lemma LinesLeft(o: Value, front: string, newline: string, indent: string)
    requires NewlineStyle(newline) && Blank(indent) && !OneLine(Print(o))
    ensures OwnLead(front + (newline + indent)) && LeadLeft(o, front + (newline + indent), true) == front + newline
  {
    NewLineLead(front, newline, indent);
  }

  lemma AppendedThenWithout(l: Layout, o: Value, outer: string, key: string, value: Json)
    requires IsObject(o) && o.members != [] && WellFormed(o) && ValidLayout(l) && ValidJson(value) && Blank(outer)
    ensures Without(Appended(l, o, outer, key, value), |o.members|, true)
            == Group(true, o.members, Leftover(l, o, outer))
  {
    hide WellFormed, Trivia, Blank, ValidJson, Print, OneLine, OwnLead, LeadLeft, IsNewline, AfterLine, FirstLine,
         OtherLines, NewMember, WithComma, Without, Rendered;
    var last := o.members[|o.members| - 1];
    var indent := MemberIndent(l, last.lead, outer);
    var after := Appended(l, o, outer, key, value);
    var front, back := FirstLine(o.close), OtherLines(o.close);
    MemberIndentIsBlank(l, last.lead, outer);
    if OneLine(Print(o)) {
      OneSpace();
      CompactIsOneLine(value);
      AppendedOneLine(o, " ", key, RenderInline(value), last.comma);
      InlineLeft(after, o.close);
      TakeBack(o, " ", key, RenderInline(value), o.close, o.close);
      JoinCommas(o.members, NewMember(" ", key, RenderInline(value), last.comma));
    } else {
      var v := RenderLines(l, value, indent);
      var kept := if !IsNewline(back) && Blank(front) then "" else front;
      var lead, close := kept + (l.newline + indent), if IsNewline(back) then back else l.newline + (outer + back);
      NewLineLead(kept, l.newline, indent);
      AppendedLines(o, lead, key, v, last.comma, close);
      LinesLeft(after, kept, l.newline, indent);
      AfterNewline(l.newline, outer + back);
      TakeBack(o, lead, key, v, close, kept + l.newline + AfterLine(close));
      JoinCommas(o.members, NewMember(lead, key, v, last.comma));
    }
  }

  lemma OneSpace()
    ensures OneLine(" ")
  {
  }

  /** Appending a member and removing it gives the object back exactly when it is undoable. */
  lemma AppendUndoneExactly(l: Layout, o: Value, outer: string, key: string, value: Json)
    requires IsObject(o) && o.members != [] && WellFormed(o) && ValidLayout(l) && ValidJson(value) && Blank(outer)
    ensures Without(Appended(l, o, outer, key, value), |o.members|, true) == o <==> Undoable(l, o)
  {
    hide WellFormed, Trivia, ValidJson, Print, OneLine, FirstLine, OtherLines, Appended, Without, AfterLine;
    AppendedThenWithout(l, o, outer, key, value);
    CloseParts(o.close);
    var front, back := FirstLine(o.close), OtherLines(o.close);
    if !OneLine(Print(o)) {
      if IsNewline(back) {
        AtNewline(back);
        SameNewline(front, l.newline, NewlineText(back), AfterLine(back));
      } else {
        NeverSame(front, l.newline, outer, back);
      }
    }
  }

  lemma SameNewline(front: string, a: string, b: string, rest: string)
    requires NewlineStyle(a) && NewlineStyle(b)
    ensures front + a + rest == front + (b + rest) <==> a == b
  {
    if a == b {
      assert front + a + rest == front + (b + rest);
    } else {
      assert |front + a + rest| != |front + (b + rest)|;
    }
  }

  lemma NeverSame(front: string, newline: string, outer: string, back: string)
    requires NewlineStyle(newline)
    ensures (if Blank(front) then "" else front) + newline + (outer + back) != front + back
  {
    var left := (if Blank(front) then "" else front) + newline + (outer + back);
    if Blank(front) && front != "" {
      assert left[0] == newline[0] && (front + back)[0] == front[0];
    } else {
      assert |left| != |front + back|;
    }
  }

  /** A new member goes after the last, or into an object without members. */
  function Added(l: Layout, o: Value, outer: string, key: string, value: Json): (after: Value)
    requires IsObject(o)
    ensures IsObject(after) && |after.members| == |o.members| + 1
  {
    if o.members == [] then Filled(l, o.close, outer, key, value) else Appended(l, o, outer, key, value)
  }

  lemma AddedWorks(l: Layout, o: Value, outer: string, key: string, value: Json)
    requires IsObject(o) && WellFormed(o) && ValidLayout(l) && ValidJson(value) && Blank(outer)
    ensures var after := Added(l, o, outer, key, value);
            WellFormed(after) && IsObject(after) && AddedLast(o.members, after.members, key, value)
  {
    hide WellFormed, Trivia, Appended, Filled, AddedLast, ValidJson;
    ObjectWellFormed(o);
    if o.members == [] {
      FilledWorks(l, o.close, outer, key, value);
    } else {
      AppendedWorks(l, o, outer, key, value);
    }
  }

  /** What a tidy removal of the only member leaves between the braces of the object that was filled. */
  function Refilled(l: Layout, close: string): string {
    if Spaces(close) then "" else if l.flat then " " + close else l.newline + AfterLine(close)
  }

  lemma OneMember(m: Member, close: string)
    requires !m.comma
    ensures var o := Group(true, [m], close);
            && (Spaces(m.lead + close) ==> Without(o, 0, true) == Group(true, [], ""))
            && (!Spaces(m.lead + close) ==>
                  Without(o, 0, true)
                  == Group(true, [], LeadLeft(o, m.lead, true)
                           + if !OneLine(Print(o)) && OwnLead(m.lead) then AfterLine(close) else close))
  {
    hide Print, Spaces, OneLine, OwnLead, AfterLine, TrimBlank, LineOf;
    assert [m][..0] == [];
  }

  lemma LinesAreLines(lead: string, key: string, value: Value, close: string)
    requires '\n' in lead
    ensures !OneLine(Print(Group(true, [NewMember(lead, key, value, false)], close)))
  {
    hide Quote, NewMember, PrintMembers, PrintMember;
    var m := NewMember(lead, key, value, false);
    PrintOne(m);
    NewMemberText(lead, key, value, false);
    var rest := ((Quote(key) + ": ") + (Print(value) + CommaIf(false))) + (close + ['}']);
    assert Print(Group(true, [m], close)) == ['{'] + lead + rest;
    PartOneLine(['{'], lead, rest);
  }

  lemma NoLead(o: Value)
    ensures LeadLeft(o, "", true) == "" && !OwnLead("")
  {
    assert TrimBlank("") == "";
  }

  lemma SpacesJoin(a: string, b: string)
    ensures Spaces(a + b) <==> Spaces(a) && Spaces(b)
  {
    var s := a + b;
    if Spaces(s) {
      forall i | 0 <= i < |a| ensures IsSpace(a[i]) {
        assert s[i] == a[i];
      }
      forall i | 0 <= i < |b| ensures IsSpace(b[i]) {
        assert s[|a| + i] == b[i];
      }
    }
  }

  lemma NewlineIsSpaces(newline: string)
    requires NewlineStyle(newline)
    ensures Spaces(newline)
  {
  }

  lemma BlankSpaces(s: string)
    requires Blank(s)
    ensures Spaces(s)
  {
  }

  /**
   * Filling an object and removing the member again: `{}`, or what was between the braces with a break or space more.
   */
  lemma FilledThenWithout(l: Layout, close: string, outer: string, key: string, value: Json)
    requires ValidLayout(l) && Blank(outer)
    ensures Without(Filled(l, close, outer, key, value), 0, true) == Group(true, [], Refilled(l, close))
  {
    hide Without, Print, OneLine, OwnLead, LeadLeft, Spaces, Blank, NewlineStyle, AfterLine, Rendered, Quote, NewMember;
    var indent := outer + l.unit;
    NewMemberParts(l, outer, key, value);
    if l.flat {
      var m := NewMember("", key, RenderInline(value), false);
      var back := if Spaces(close) then "" else " " + close;
      OneMember(m, back);
      NoLead(Group(true, [m], back));
      SpacesJoin(" ", close);
      assert "" + back == back && Spaces("") by { BlankSpaces("") by { NothingBlank(); } }
    } else {
      var m := NewMember(l.newline + indent, key, RenderLines(l, value, indent), false);
      var back := if Spaces(close) then l.newline + outer else close;
      var o := Group(true, [m], back);
      OneMember(m, back);
      BlankJoins(outer, l.unit);
      NewLineLead("", l.newline, indent);
      assert "" + (l.newline + indent) == l.newline + indent && "" + l.newline == l.newline;
      LinesAreLines(l.newline + indent, key, RenderLines(l, value, indent), back);
      LinesLeft(o, "", l.newline, indent);
      LeadIsSpaces(l, outer);
      SpacesJoin(l.newline + indent, back);
    }
  }

  lemma NothingBlank()
    ensures Blank("")
  {
  }

  lemma NewMemberParts(l: Layout, outer: string, key: string, value: Json)
    ensures var m := NewMember("", key, RenderInline(value), false); m.lead == "" && !m.comma
    ensures var indent := outer + l.unit;
            var m := NewMember(l.newline + indent, key, RenderLines(l, value, indent), false);
            m.lead == l.newline + indent && !m.comma
  {
    hide Rendered, Quote;
  }

  lemma BlankJoins(a: string, b: string)
    requires Blank(a) && Blank(b)
    ensures Blank(a + b)
  {
  }

  lemma LeadIsSpaces(l: Layout, outer: string)
    requires ValidLayout(l) && Blank(outer)
    ensures Spaces(l.newline + (outer + l.unit)) && Spaces(l.newline + outer)
  {
    hide Spaces, Blank, NewlineStyle;
    NewlineIsSpaces(l.newline);
    BlankSpaces(outer);
    BlankSpaces(l.unit);
    SpacesJoin(outer, l.unit);
    SpacesJoin(l.newline, outer + l.unit);
    SpacesJoin(l.newline, outer);
  }

  /**
   * Whether adding a member can be undone; without members, when there is nothing in the braces or a first line break.
   */
  predicate CanUndo(l: Layout, o: Value)
    requires IsObject(o)
  {
    if o.members != [] then Undoable(l, o)
    else o.close == "" || (!l.flat && !Spaces(o.close) && IsNewline(o.close) && NewlineText(o.close) == l.newline)
  }

  lemma RefilledExactly(l: Layout, close: string)
    requires ValidLayout(l)
    ensures Refilled(l, close) == close
            <==> close == "" || (!l.flat && !Spaces(close) && IsNewline(close) && NewlineText(close) == l.newline)
  {
    hide Spaces, EndOfLineTrivia;
    NothingIsSpaces();
    if Spaces(close) {
    } else if l.flat {
      assert |" " + close| != |close|;
    } else {
      if IsNewline(close) {
        NewlineFirst(close);
        AtNewline(close);
        SameNewline("", l.newline, NewlineText(close), AfterLine(close));
        assert "" + l.newline == l.newline
               && "" + (NewlineText(close) + AfterLine(close)) == NewlineText(close) + AfterLine(close);
      } else {
        assert (l.newline + AfterLine(close))[0] == l.newline[0];
        if l.newline == "\r\n" {
          assert (l.newline + AfterLine(close))[1] == '\n';
        }
      }
    }
  }

  lemma NothingIsSpaces()
    ensures Spaces("")
  {
  }

  lemma NewlineFirst(close: string)
    requires IsNewline(close)
    ensures EndOfLineTrivia(close) == 0 && OtherLines(close) == close
  {
  }

  /** Adding a member and removing it gives the object back exactly when it can. */
  lemma UndoneExactly(l: Layout, o: Value, outer: string, key: string, value: Json)
    requires IsObject(o) && WellFormed(o) && ValidLayout(l) && ValidJson(value) && Blank(outer)
    ensures Without(Added(l, o, outer, key, value), |o.members|, true) == o <==> CanUndo(l, o)
  {
    hide WellFormed, Trivia, ValidJson, Without, Appended, Filled, Undoable, Refilled, Spaces, IsNewline, NewlineText;
    if o.members == [] {
      FilledThenWithout(l, o.close, outer, key, value);
      RefilledExactly(l, o.close);
      EmptyIs(o);
    } else {
      AppendUndoneExactly(l, o, outer, key, value);
    }
  }

  lemma EmptyIs(o: Value)
    requires IsObject(o) && o.members == []
    ensures o == Group(true, [], o.close)
  {
  }
}
