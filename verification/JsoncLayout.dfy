/**
 * Lines, indentation and same-line comments: where new text
 * goes, how it is indented, and where trivia may be cut in two.
 */
module JsoncLayout {
  import opened Prelude
  import opened JsoncSyntax
  import opened JsoncReader

  // ---------------------------------------------------------------------------------------------
  // Lines and indentation
  // ---------------------------------------------------------------------------------------------

  predicate IsBlank(c: char) {
    c == ' ' || c == '\t'
  }

  predicate Blank(s: string) {
    forall i :: 0 <= i < |s| ==> IsBlank(s[i])
  }

  /** What `trim` leaves nothing of. */
  predicate Spaces(s: string) {
    forall i :: 0 <= i < |s| ==> IsSpace(s[i])
  }

  /** What the text before a position holds of that position's line. */
  function LineOf(before: string): (line: string)
    ensures |line| <= |before| && '\n' !in line
  {
    if before == "" || before[|before| - 1] == '\n' then ""
    else LineOf(before[..|before| - 1]) + [before[|before| - 1]]
  }

  predicate OwnsLine(before: string) {
    Blank(LineOf(before))
  }

  function LeadingBlank(s: string): (b: string)
    ensures |b| <= |s| && Blank(b)
  {
    if s == "" || !IsBlank(s[0]) then "" else [s[0]] + LeadingBlank(s[1..])
  }

  function LineIndent(before: string): (indent: string)
    ensures Blank(indent)
  {
    LeadingBlank(LineOf(before))
  }

  /** `isNewline` at the start of `r`. */
  predicate IsNewline(r: string) {
    r != "" && (r[0] == '\n' || (|r| >= 2 && r[0] == '\r' && r[1] == '\n'))
  }

  function NewlineText(r: string): string {
    if r != "" && r[0] == '\r' then "\r\n" else "\n"
  }

  predicate OneLine(s: string) {
    '\n' !in s
  }

  predicate HasCrLf(s: string) {
    exists i :: 0 <= i < |s| - 1 && s[i] == '\r' && s[i + 1] == '\n'
  }

  function Before(source: string, at: nat): string {
    if at <= |source| then source[..at] else source
  }

  /** The first of these members that is alone before its key on its line and deeper than `outer`: by how much. */
  function FirstStep(source: string, members: seq<NodeMember>, outer: string): (unit: Option<string>)
    ensures unit.Some? ==> unit.value != "" && Blank(unit.value)
  {
    if members == [] then None
    else
      var indent := LineOf(Before(source, members[0].keyStart));
      if Blank(indent) && outer < indent then Some(indent[|outer|..]) else FirstStep(source, members[1..], outer)
  }

  /** The indentation step: that of the first member deeper than its object, outer objects before inner ones. */
  function UnitOf(source: string, node: Node): (unit: Option<string>)
    ensures unit.Some? ==> unit.value != "" && Blank(unit.value)
    decreases node, 0
  {
    if node.ValueNode? then None
    else
      var step := FirstStep(source, node.members, LineIndent(Before(source, node.start)));
      if step.Some? then step else NestedUnit(source, node.members)
  }

  function NestedUnit(source: string, members: seq<NodeMember>): (unit: Option<string>)
    ensures unit.Some? ==> unit.value != "" && Blank(unit.value)
    decreases members, 0
  {
    if members == [] then None
    else
      var unit := UnitOf(source, members[0].value);
      if unit.Some? then unit else NestedUnit(source, members[1..])
  }

  method IndentUnit(source: string, node: Node) returns (unit: Option<string>)
    requires node.ObjectNode?
    ensures unit == UnitOf(source, node)
    decreases node
  {
    var outer := LineIndent(Before(source, node.start));
    for i := 0 to |node.members|
      invariant FirstStep(source, node.members, outer) == FirstStep(source, node.members[i..], outer)
    {
      var before := Before(source, node.members[i].keyStart);
      if OwnsLine(before) {
        var indent := LineOf(before);
        if outer < indent {
          return Some(indent[|outer|..]);
        }
      }
    }
    for i := 0 to |node.members|
      invariant FirstStep(source, node.members, outer).None?
      invariant NestedUnit(source, node.members) == NestedUnit(source, node.members[i..])
    {
      if node.members[i].value.ObjectNode? {
        unit := IndentUnit(source, node.members[i].value);
        if unit.Some? {
          return;
        }
      }
    }
    unit := None;
  }

  // ---------------------------------------------------------------------------------------------
  // Where a line's own text stops
  // ---------------------------------------------------------------------------------------------

  /** Up to the end of the line `r` begins with, before its `\r\n` or `\n`. */
  function LineEnd(r: string): (n: nat)
    ensures n <= |r|
  {
    var n := Newline(r);
    if 0 < n < |r| && r[n - 1] == '\r' then n - 1 else n
  }

  /** Past spaces and comments that end on this line. */
  function EndOfLineTrivia(r: string): (n: nat)
    ensures n <= |r|
    decreases |r|
  {
    if r == "" then 0
    else if IsBlank(r[0]) then 1 + EndOfLineTrivia(r[1..])
    else if LineComment(r) then LineEnd(r)
    else if !BlockComment(r) then 0
    else
      var close := CommentEnd(r[2..]);
      if close.None? || !OneLine(r[..2 + close.value]) then 0
      else 2 + close.value + EndOfLineTrivia(r[2 + close.value..])
  }

  ghost predicate Passed(source: string, from: nat, at: nat)
    requires from <= at <= |source|
  {
    EndOfLineTrivia(source[from..]) == at - from + EndOfLineTrivia(source[at..])
  }

  lemma PassBlank(source: string, from: nat, at: nat)
    requires from <= at < |source| && IsBlank(source[at]) && Passed(source, from, at)
    ensures Passed(source, from, at + 1)
  {
    assert source[at..][1..] == source[at + 1..];
  }

  lemma PassComment(source: string, from: nat, at: nat, n: nat)
    requires from <= at <= |source| && BlockComment(source[at..]) && CommentEnd(source[at..][2..]) == Some(n)
    requires OneLine(source[at..][..2 + n]) && Passed(source, from, at)
    ensures at + 2 + n <= |source| && Passed(source, from, at + 2 + n)
  {
    hide CommentEnd;
    assert source[at..][2 + n..] == source[at + 2 + n..];
  }

  lemma PassedNothing(source: string, from: nat)
    requires from <= |source|
    ensures Passed(source, from, from)
  {
  }

  lemma StopsHere(source: string, from: nat, at: nat)
    requires from <= at <= |source| && Passed(source, from, at) && (at < |source| ==> !IsBlank(source[at]))
    ensures var r := source[at..];
            var end := EndOfLineTrivia(source[from..]);
            && (LineComment(r) ==> end == at - from + LineEnd(r))
            && (!LineComment(r) && !BlockComment(r) ==> end == at - from)
            && (!LineComment(r) && BlockComment(r) ==>
                  CommentEnd(r[2..]).None? || !OneLine(r[..2 + CommentEnd(r[2..]).value]) ==> end == at - from)
  {
    hide CommentEnd, Newline;
  }

  method FindEndOfLineTrivia(source: string, from: nat) returns (at: nat)
    requires from <= |source|
    ensures at == from + EndOfLineTrivia(source[from..])
  {
    hide CommentEnd, Newline, EndOfLineTrivia, Passed, OneLine;
    PassedNothing(source, from);
    at := from;
    while true
      invariant from <= at <= |source| && Passed(source, from, at)
      decreases |source| - at
    {
      while at < |source| && IsBlank(source[at])
        invariant from <= at <= |source| && Passed(source, from, at)
        decreases |source| - at
      {
        PassBlank(source, from, at);
        at := at + 1;
      }
      StopsHere(source, from, at);
      var r := source[at..];
      if LineComment(r) {
        at := at + LineEnd(r);
        return;
      }
      if !BlockComment(r) {
        return;
      }
      var close := CommentEnd(r[2..]);
      if close.None? || !OneLine(r[..2 + close.value]) {
        return;
      }
      PassComment(source, from, at, close.value);
      at := at + 2 + close.value;
    }
  }

  // ---------------------------------------------------------------------------------------------
  // Trivia cut at the end of a line
  // ---------------------------------------------------------------------------------------------

  lemma {:induction false} SpacesAreTrivia(s: string)
    requires Spaces(s)
    ensures Trivia(s)
  {
    if s != "" {
      SpacesAreTrivia(s[1..]);
    }
  }

  predicate NewlineStyle(newline: string) {
    newline == "\n" || newline == "\r\n"
  }

  lemma {:induction false} NewlineWhole(r: string)
    ensures OneLine(r[..Newline(r)])
    ensures Newline(r) == |r| ==> OneLine(r)
  {
    if r != "" && r[0] != '\n' {
      NewlineWhole(r[1..]);
      assert r[1..][..Newline(r[1..])] == r[1..Newline(r)];
    }
  }

  lemma {:induction false} NewlineFirst(a: string, b: string)
    requires OneLine(a) && b != "" && b[0] == '\n'
    ensures Newline(a + b) == |a|
  {
    if a == "" {
      assert a + b == b;
    } else {
      assert (a + b)[1..] == a[1..] + b;
      NewlineFirst(a[1..], b);
    }
  }

  /** A line comment, cut or not, with a newline after it. */
  lemma CommentLine(front: string, newline: string)
    requires LineComment(front) && OneLine(front) && NewlineStyle(newline)
    ensures Trivia(front + newline)
  {
    var t := front + newline;
    var body := front[2..] + newline[..|newline| - 1];
    assert t[2..] == body + "\n";
    NewlineFirst(body, "\n");
    assert t[|t| - 1..] == "\n";
    SpacesAreTrivia("\n");
  }

  lemma CommentInTrivia(t: string)
    requires Trivia(t) && LineComment(t)
    ensures var n := Newline(t); 2 <= n < |t| && t[n] == '\n' && Trivia(t[n..]) && OneLine(t[..n])
  {
    NewlineWhole(t);
  }

  lemma CarriageReturn(t: string, n: nat)
    requires 0 < n <= |t| && Trivia(t[n..]) && t[n - 1] == '\r'
    ensures Trivia(t[n - 1..])
  {
    assert t[n - 1..][1..] == t[n..];
  }

  /** A line comment within complete trivia: it is cut before its newline. */
  lemma CutLineComment(t: string, newline: string)
    requires Trivia(t) && LineComment(t) && NewlineStyle(newline)
    ensures LineEnd(t) < |t| && IsNewline(t[LineEnd(t)..])
    ensures Trivia(t[LineEnd(t)..]) && Trivia(t[..LineEnd(t)] + newline)
  {
    hide Trivia, Newline;
    CommentInTrivia(t);
    var n := Newline(t);
    var k := LineEnd(t);
    if k < n {
      CarriageReturn(t, n);
    }
    assert k >= 2;
    CommentLine(t[..k], newline);
  }

  lemma TriviaCons(t: string, n: nat)
    requires 0 < n <= |t| && Complete(t[..n], n) && Trivia(t[n..])
    ensures Trivia(t)
  {
    PieceAppend(t[..n], n, t[n..]);
    assert t[..n] + t[n..] == t && t[..n][n..] == "";
  }

  /** Trivia cut where its first line ends: the rest is trivia, and the cut part is once a newline follows it. */
  lemma {:induction false} CutAtLineEnd(t: string, newline: string)
    requires Trivia(t) && NewlineStyle(newline)
    ensures Trivia(t[EndOfLineTrivia(t)..]) && Trivia(t[..EndOfLineTrivia(t)] + newline)
    decreases |t|
  {
    var k := EndOfLineTrivia(t);
    if t == "" || (!IsBlank(t[0]) && !LineComment(t) && !BlockComment(t)) {
      assert k == 0;
      assert t[..0] + newline == newline && t[0..] == t;
      SpacesAreTrivia(newline);
    } else if IsBlank(t[0]) {
      CutAfterPiece(t, 1, newline);
    } else if LineComment(t) {
      CutLineComment(t, newline);
    } else {
      TriviaStep(t);
      var n := Piece(t).value;
      if OneLine(t[..n]) {
        CutAfterPiece(t, n, newline);
      } else {
        assert k == 0;
        assert t[..0] + newline == newline && t[0..] == t;
        SpacesAreTrivia(newline);
      }
    }
  }

  lemma CutAfterPiece(t: string, n: nat, newline: string)
    requires Trivia(t) && NewlineStyle(newline) && Piece(t) == Some(n) && 0 < n <= |t| && Complete(t, n)
             && !LineComment(t)
    requires EndOfLineTrivia(t) == n + EndOfLineTrivia(t[n..])
    ensures Trivia(t[EndOfLineTrivia(t)..]) && Trivia(t[..EndOfLineTrivia(t)] + newline)
    decreases |t|, 0
  {
    hide *;
    assert Trivia(t[n..]) by {
      TriviaStep(t);
    }
    var k := EndOfLineTrivia(t[n..]);
    CutAtLineEnd(t[n..], newline);
    CutText(t, n, k, newline);
    PiecePrefix(t, n, n);
    TriviaCons(t[..n + k] + newline, n);
  }

  lemma CutText(t: string, n: nat, k: nat, newline: string)
    requires n <= |t| && n + k <= |t|
    ensures t[n..][k..] == t[n + k..]
    ensures var u := t[..n + k] + newline; u[..n] == t[..n] && u[n..] == t[n..][..k] + newline
  {
  }

  lemma PieceOnLine(r: string, n: nat, s: string)
    requires Piece(r) == Some(n) && 0 < n <= |r| && !LineComment(r)
    requires |s| == |r| - n && forall i :: 0 <= i < |s| ==> s[i] == r[n + i]
    ensures EndOfLineTrivia(r)
            == if IsBlank(r[0]) || (BlockComment(r) && OneLine(r[..n])) then n + EndOfLineTrivia(s) else 0
  {
    assert r[n..] == s;
  }

  lemma SameKind(t: string, n: nat, x: string)
    requires Complete(t, n) && n <= |t|
    ensures (t + x)[0] == t[0] && (t + x)[..n] == t[..n]
    ensures (LineComment(t + x) <==> LineComment(t)) && (BlockComment(t + x) <==> BlockComment(t))
  {
  }

  lemma CommentLineEnd(t: string, n: nat, x: string)
    requires Complete(t, n) && LineComment(t)
    ensures LineComment(t + x) && EndOfLineTrivia(t + x) == EndOfLineTrivia(t)
  {
    hide EndOfLineTrivia;
    CommentLineIs(t);
    CommentLineIs(t + x);
    NewlineAppend(t, x);
  }

  lemma CommentLineIs(t: string)
    requires LineComment(t)
    ensures EndOfLineTrivia(t) == LineEnd(t)
  {
  }

  lemma TokenLineEnd(x: string)
    requires x != "" && Solid(x)
    ensures "" + x == x && EndOfLineTrivia(x) == 0 == EndOfLineTrivia("")
  {
  }

  /** What follows the trivia does not move its first line's end. */
  lemma {:induction false} LineEndsWithin(t: string, x: string)
    requires Trivia(t) && x != "" && Solid(x)
    ensures EndOfLineTrivia(t + x) == EndOfLineTrivia(t)
    decreases |t|
  {
    hide *;
    if t == "" {
      TokenLineEnd(x);
    } else {
      TriviaStep(t);
      var n := Piece(t).value;
      if LineComment(t) {
        CommentLineEnd(t, n, x);
      } else {
        LineEndsWithin(t[n..], x);
        PieceAppend(t, n, x);
        CompletePiece(t + x, n);
        SameKind(t, n, x);
        PieceOnLine(t, n, t[n..]);
        PieceOnLine(t + x, n, t[n..] + x);
      }
    }
  }
}
