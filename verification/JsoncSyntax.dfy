/** JSONC documents as lossless trees. */
module JsoncSyntax {
  // Every character of the text is in the tree, and printing the tree gives the text back.

  import opened Prelude
  import opened JsonString

  // ---------------------------------------------------------------------------------------------
  // Trivia: white space and comments
  // ---------------------------------------------------------------------------------------------

  predicate LineComment(r: string) {
    |r| >= 2 && r[0] == '/' && r[1] == '/'
  }

  predicate BlockComment(r: string) {
    |r| >= 2 && r[0] == '/' && r[1] == '*'
  }

  /** The next newline, or the end. */
  function Newline(r: string): (n: nat)
    ensures n <= |r| && (n < |r| ==> r[n] == '\n')
  {
    if r == "" || r[0] == '\n' then 0 else 1 + Newline(r[1..])
  }

  /** Just past the next end of a block comment. */
  function CommentEnd(r: string): (n: Option<nat>)
    ensures n.Some? ==> 2 <= n.value <= |r|
  {
    if |r| < 2 then None
    else if r[0] == '*' && r[1] == '/' then Some(2)
    else
      var n := CommentEnd(r[1..]);
      if n.None? then None else Some(n.value + 1)
  }

  function Plus(k: nat, n: Option<nat>): Option<nat> {
    if n.None? then None else Some(k + n.value)
  }

  /** One white-space character or one comment; a line comment ends before its newline. */
  function Piece(r: string): (n: Option<nat>)
    ensures n.Some? ==> n.value <= |r|
  {
    if r == "" then Some(0)
    else if IsSpace(r[0]) then Some(1)
    else if LineComment(r) then Some(2 + Newline(r[2..]))
    else if BlockComment(r) then Plus(2, CommentEnd(r[2..]))
    else Some(0)
  }

  /** How much white space and comment text `r` begins with; None when a comment does not end. */
  function Skip(r: string): (n: Option<nat>)
    ensures n.Some? ==> n.value <= |r|
    decreases |r|
  {
    var piece := Piece(r);
    if piece.None? || piece.value == 0 then piece else Plus(piece.value, Skip(r[piece.value..]))
  }

  /** The piece ends by itself, whatever text comes next. */
  predicate Complete(r: string, n: nat) {
    Piece(r) == Some(n) && n > 0 && (LineComment(r) ==> n < |r|)
  }

  /** Complete trivia: whatever follows it, reading it stops at its end or later. */
  predicate Trivia(t: string)
    decreases |t|
  {
    t == "" || (Piece(t).Some? && Complete(t, Piece(t).value) && Trivia(t[Piece(t).value..]))
  }

  /** Text that begins with a token (or nothing), not with trivia. */
  predicate Solid(r: string) {
    Piece(r) == Some(0)
  }

  lemma {:induction false} NewlineAppend(t: string, x: string)
    requires Newline(t) < |t|
    ensures Newline(t + x) == Newline(t)
  {
    if t[0] != '\n' {
      assert (t + x)[1..] == t[1..] + x;
      NewlineAppend(t[1..], x);
    }
  }

  lemma {:induction false} CommentEndAppend(t: string, x: string)
    requires CommentEnd(t).Some?
    ensures CommentEnd(t + x) == CommentEnd(t)
  {
    if !(t[0] == '*' && t[1] == '/') {
      assert (t + x)[1..] == t[1..] + x;
      CommentEndAppend(t[1..], x);
    }
  }

  lemma PieceAppend(t: string, n: nat, x: string)
    requires Complete(t, n)
    ensures Complete(t + x, n)
  {
    if LineComment(t) {
      assert (t + x)[2..] == t[2..] + x;
      NewlineAppend(t[2..], x);
    } else if BlockComment(t) {
      assert (t + x)[2..] == t[2..] + x;
      CommentEndAppend(t[2..], x);
    }
  }

  lemma SkipStep(r: string, n: nat, s: string)
    requires Piece(r) == Some(n) && 0 < n <= |r| && |s| == |r| - n && forall i :: 0 <= i < |s| ==> s[i] == r[n + i]
    ensures Skip(r) == Plus(n, Skip(s))
  {
    assert r[n..] == s;
  }

  lemma TriviaStep(t: string)
    requires Trivia(t) && t != ""
    ensures Piece(t).Some? && Complete(t, Piece(t).value) && 0 < Piece(t).value <= |t| && Trivia(t[Piece(t).value..])
  {
  }

  lemma PlusTwice(j: nat, k: nat, n: Option<nat>)
    ensures Plus(j, Plus(k, n)) == Plus(j + k, n)
  {
  }

  lemma {:induction false} SkipAfterTrivia(t: string, x: string)
    requires Trivia(t)
    ensures Skip(t + x) == Plus(|t|, Skip(x))
    decreases |t|
  {
    hide Skip, Piece;
    if t == "" {
      assert t + x == x;
      PlusNothing(Skip(x));
    } else {
      TriviaStep(t);
      SkipAfterTrivia(t[Piece(t).value..], x);
      PieceAppend(t, Piece(t).value, x);
      CompletePiece(t + x, Piece(t).value);
      SkipAfterPiece(t + x, Piece(t).value, t[Piece(t).value..] + x, |t| - Piece(t).value, x);
    }
  }

  lemma PlusNothing(n: Option<nat>)
    ensures Plus(0, n) == n
  {
  }

  lemma SkipAfterPiece(r: string, n: nat, s: string, m: nat, x: string)
    requires Piece(r) == Some(n) && 0 < n <= |r| && |s| == |r| - n && (forall i :: 0 <= i < |s| ==> s[i] == r[n + i])
    requires Skip(s) == Plus(m, Skip(x))
    ensures Skip(r) == Plus(n + m, Skip(x))
  {
    hide *;
    SkipStep(r, n, s);
    PlusTwice(n, m, Skip(x));
  }

  lemma CompletePiece(r: string, n: nat)
    requires Complete(r, n)
    ensures Piece(r) == Some(n) && n > 0
  {
  }

  lemma {:induction false} NewlinePrefix(r: string, k: nat)
    requires Newline(r) < k <= |r|
    ensures Newline(r[..k]) == Newline(r)
  {
    if r[0] != '\n' {
      assert r[..k][1..] == r[1..][..k - 1];
      NewlinePrefix(r[1..], k - 1);
    }
  }

  lemma {:induction false} CommentEndPrefix(r: string, k: nat)
    requires CommentEnd(r).Some? && CommentEnd(r).value <= k <= |r|
    ensures CommentEnd(r[..k]) == CommentEnd(r)
  {
    if !(r[0] == '*' && r[1] == '/') {
      assert r[..k][1..] == r[1..][..k - 1];
      CommentEndPrefix(r[1..], k - 1);
    }
  }

  lemma PiecePrefix(r: string, n: nat, k: nat)
    requires Piece(r) == Some(n) && 0 < n <= k <= |r| && (LineComment(r) ==> n < k)
    ensures Complete(r[..k], n) && r[..k][n..] == r[n..][..k - n]
  {
    assert r[..k][n..] == r[n..][..k - n];
    if LineComment(r) {
      assert r[..k][2..] == r[2..][..k - 2];
      NewlinePrefix(r[2..], k - 2);
    } else if BlockComment(r) {
      assert r[..k][2..] == r[2..][..k - 2];
      CommentEndPrefix(r[2..], k - 2);
    }
  }

  /** What is skipped before something else is complete trivia, and what follows is a token. */
  lemma {:induction false} SkippedIsTrivia(r: string, k: nat)
    requires Skip(r) == Some(k) && k < |r|
    ensures Trivia(r[..k]) && Solid(r[k..])
    decreases |r|
  {
    var n := Piece(r).value;
    if n == 0 {
      assert r[0..] == r;
    } else {
      if LineComment(r) {
        NewlineIsSkipped(r, n, k);
      }
      SkippedIsTrivia(r[n..], k - n);
      PiecePrefix(r, n, k);
      assert r[k..] == r[n..][k - n..];
    }
  }

  /** A line comment that is not the end of the text is followed by its newline, which is skipped too. */
  lemma NewlineIsSkipped(r: string, n: nat, k: nat)
    requires LineComment(r) && Piece(r) == Some(n) && Skip(r) == Some(k) && k < |r|
    ensures n < k
  {
    assert r[n..] != "" && r[n..][0] == '\n';
    assert Piece(r[n..]) == Some(1);
  }

  lemma {:induction false} TriviaAppend(t: string, u: string)
    requires Trivia(t) && Trivia(u)
    ensures Trivia(t + u)
    decreases |t|
  {
    if t == "" {
      assert t + u == u;
    } else {
      PieceAppend(t, Piece(t).value, u);
      assert (t + u)[Piece(t).value..] == t[Piece(t).value..] + u;
      TriviaAppend(t[Piece(t).value..], u);
    }
  }

  // ---------------------------------------------------------------------------------------------
  // Values
  // ---------------------------------------------------------------------------------------------

  /** The quoted key, the trivia before its colon and the trivia after it. */
  datatype Name = Name(key: string, mid: string, gap: string)

  /** `tail` is the trivia between the value and its comma; a member without a comma has none. */
  datatype Member = Member(lead: string, name: Option<Name>, value: Value, tail: string, comma: bool)

  /** A token, or a bracketed group: an object's members have names, an array's do not. */
  datatype Value = Token(text: string) | Group(curly: bool, members: seq<Member>, close: string)

  function Open(curly: bool): char {
    if curly then '{' else '['
  }

  function Close(curly: bool): char {
    if curly then '}' else ']'
  }

  function PrintName(name: Option<Name>): string {
    if name.None? then "" else name.value.key + (name.value.mid + ([':'] + name.value.gap))
  }

  function Print(v: Value): (s: string)
    ensures v.Group? ==> |s| >= 2
    decreases v, 0
  {
    match v
    case Token(text) => text
    case Group(curly, members, close) => [Open(curly)] + (PrintMembers(members) + (close + [Close(curly)]))
  }

  function PrintMember(m: Member): string
    decreases m, 1
  {
    m.lead + (PrintName(m.name) + (Print(m.value) + (if m.comma then m.tail + [','] else "")))
  }

  function PrintMembers(ms: seq<Member>): string
    decreases ms
  {
    if ms == [] then "" else PrintMember(ms[0]) + PrintMembers(ms[1..])
  }

  // ---------------------------------------------------------------------------------------------
  // Reading
  // ---------------------------------------------------------------------------------------------

  /** Just past the closing quote of a string whose opening quote has been read. */
  function StringEnd(r: string): (n: Option<nat>)
    ensures n.Some? ==> 0 < n.value <= |r|
  {
    if r == "" || r[0] == '\n' then None
    else if r[0] == '"' then Some(1)
    else if r[0] == '\\' then (if |r| < 2 then None else Plus(2, StringEnd(r[2..])))
    else Plus(1, StringEnd(r[1..]))
  }

  predicate IsLiteral(c: char) {
    'A' <= c <= 'Z' || 'a' <= c <= 'z' || '0' <= c <= '9' || c == '+' || c == '-' || c == '.'
  }

  function LiteralEnd(r: string): (n: nat)
    ensures n <= |r|
  {
    if r == "" || !IsLiteral(r[0]) then 0 else 1 + LiteralEnd(r[1..])
  }

  /** A key, its colon and the trivia around it. */
  function ReadName(r: string): (n: Option<(Name, nat)>)
    ensures n.Some? ==> 0 < n.value.1 <= |r|
  {
    if r == "" || r[0] != '"' || StringEnd(r[1..]).None? then None
    else NameAfterKey(r, 1 + StringEnd(r[1..]).value)
  }

  function NameAfterKey(r: string, k: nat): (n: Option<(Name, nat)>)
    requires 0 < k <= |r|
    ensures n.Some? ==> 0 < n.value.1 <= |r|
  {
    if Decode(r[..k]).None? || Skip(r[k..]).None? then None
    else NameAtColon(r, k, k + Skip(r[k..]).value)
  }

  function NameAtColon(r: string, k: nat, colon: nat): (n: Option<(Name, nat)>)
    requires k <= colon <= |r|
    ensures n.Some? ==> 0 < n.value.1 <= |r|
  {
    if colon == |r| || r[colon] != ':' || Skip(r[colon + 1..]).None? then None
    else
      var end := colon + 1 + Skip(r[colon + 1..]).value;
      Some((Name(r[..k], r[k..colon], r[colon + 1..end]), end))
  }

  /** A value at the start of `r`, and how much of `r` it is. */
  function ReadValue(r: string): (v: Option<(Value, nat)>)
    ensures v.Some? ==> 0 < v.value.1 <= |r|
    decreases |r|, 0
  {
    if r == "" then None
    else if r[0] == '{' || r[0] == '[' then
      var curly := r[0] == '{';
      var rest := ReadMembers(r[1..], curly);
      if rest.None? then None else Some((Group(curly, rest.value.0, rest.value.1), 1 + rest.value.2))
    else if r[0] == '"' then
      var n := Plus(1, StringEnd(r[1..]));
      if n.None? then None else Some((Token(r[..n.value]), n.value))
    else
      var n := LiteralEnd(r);
      if n == 0 then None else Some((Token(r[..n]), n))
  }

  /** A member up to the end of its value; `k` is the trivia before it. */
  function ReadHead(r: string, k: nat, curly: bool): (m: Option<(Member, nat)>)
    requires k < |r|
    ensures m.Some? ==> k < m.value.1 <= |r|
    decreases |r|, 1
  {
    var name := if curly then ReadName(r[k..]) else None;
    if curly && name.None? then None
    else
      var at := k + (if curly then name.value.1 else 0);
      var value := ReadValue(r[at..]);
      if value.None? then None
      else Some((Member(r[..k], if curly then Some(name.value.0) else None, value.value.0, "", false),
                 at + value.value.1))
  }

  /** The rest of a group after its bracket: members, the trivia before the closing bracket, the length. */
  function ReadMembers(r: string, curly: bool): (g: Option<(seq<Member>, string, nat)>)
    ensures g.Some? ==> g.value.2 <= |r|
    decreases |r|, 3
  {
    if Skip(r).None? || Skip(r).value == |r| then None else ReadMembersAt(r, Skip(r).value, curly)
  }

  function ReadMembersAt(r: string, k: nat, curly: bool): (g: Option<(seq<Member>, string, nat)>)
    requires k < |r|
    ensures g.Some? ==> g.value.2 <= |r|
    decreases |r|, 2
  {
    if r[k] == Close(curly) then Some(([], r[..k], k + 1))
    else
      var head := ReadHead(r, k, curly);
      if head.None? then None else ReadAfter(r, head.value.0, head.value.1, curly)
  }

  /** After a member's value: a comma and more members, or the closing bracket. */
  function ReadAfter(r: string, m: Member, end: nat, curly: bool): (g: Option<(seq<Member>, string, nat)>)
    requires end <= |r|
    ensures g.Some? ==> g.value.2 <= |r|
    decreases |r|, 1
  {
    if Skip(r[end..]).None? then None
    else
      var stop := end + Skip(r[end..]).value;
      if stop == |r| then None
      else if r[stop] == ',' then
        AndThen(m.(tail := r[end..stop], comma := true), stop + 1, ReadMembers(r[stop + 1..], curly))
      else if r[stop] == Close(curly) then Some(([m], r[end..stop], stop + 1))
      else None
  }

  function AndThen(m: Member, n: nat, rest: Option<(seq<Member>, string, nat)>): Option<(seq<Member>, string, nat)> {
    if rest.None? then None else Some(([m] + rest.value.0, rest.value.1, n + rest.value.2))
  }

  datatype Document = Document(lead: string, root: Value, post: string)

  function PrintDocument(d: Document): string {
    d.lead + Print(d.root) + d.post
  }

  function ReadDocument(s: string): Option<Document> {
    if Skip(s).None? then None
    else
      var k := Skip(s).value;
      var root := ReadValue(s[k..]);
      if root.None? then None
      else
        var end := k + root.value.1;
        if Skip(s[end..]) == Some(|s| - end) then Some(Document(s[..k], root.value.0, s[end..])) else None
  }

  // ---------------------------------------------------------------------------------------------
  // Well-formed trees
  // ---------------------------------------------------------------------------------------------

  predicate StringToken(text: string) {
    text != "" && text[0] == '"' && StringEnd(text[1..]) == Some(|text| - 1)
  }

  predicate LiteralToken(text: string) {
    text != "" && forall i :: 0 <= i < |text| ==> IsLiteral(text[i])
  }

  predicate WellFormedName(name: Name) {
    StringToken(name.key) && Decode(name.key).Some? && Trivia(name.mid) && Trivia(name.gap)
  }

  predicate WellFormed(v: Value)
    decreases v, 0
  {
    match v
    case Token(text) => StringToken(text) || LiteralToken(text)
    case Group(curly, members, close) =>
      Trivia(close) && WellFormedMembers(members, curly)
  }

  predicate WellFormedMember(m: Member, curly: bool)
    decreases m, 1
  {
    && Trivia(m.lead) && Trivia(m.tail) && WellFormed(m.value)
    && (m.name.Some? <==> curly) && (m.name.Some? ==> WellFormedName(m.name.value))
    && (!m.comma ==> m.tail == "")
  }

  /** Only the last member may go without a comma. */
  predicate WellFormedMembers(ms: seq<Member>, curly: bool)
    decreases ms
  {
    ms == [] ||
    (WellFormedMember(ms[0], curly) && WellFormedMembers(ms[1..], curly) && (ms[0].comma || |ms| == 1))
  }

  /** Text that cannot run on from a literal. */
  predicate Bounded(v: Value, rest: string) {
    v.Token? && LiteralToken(v.text) ==> rest == "" || !IsLiteral(rest[0])
  }

  // ---------------------------------------------------------------------------------------------
  // Reading a printed tree gives the tree back
  // ---------------------------------------------------------------------------------------------

  lemma {:induction false} StringEndAppend(t: string, x: string)
    requires StringEnd(t).Some?
    ensures StringEnd(t + x) == StringEnd(t)
    decreases |t|
  {
    if t[0] == '\\' {
      assert (t + x)[2..] == t[2..] + x;
      StringEndAppend(t[2..], x);
    } else if t[0] != '"' {
      assert (t + x)[1..] == t[1..] + x;
      StringEndAppend(t[1..], x);
    }
  }

  lemma {:induction false} LiteralEndAppend(t: string, x: string)
    requires forall i :: 0 <= i < |t| ==> IsLiteral(t[i])
    requires x == "" || !IsLiteral(x[0])
    ensures LiteralEnd(t + x) == |t|
  {
    if t == "" {
      assert t + x == x;
    } else {
      assert (t + x)[1..] == t[1..] + x;
      LiteralEndAppend(t[1..], x);
    }
  }

  lemma SkipThenToken(t: string, x: string)
    requires Trivia(t) && Solid(x)
    ensures Skip(t + x) == Some(|t|)
  {
    SkipAfterTrivia(t, x);
  }

  lemma MarkIsSolid(mark: char, x: string)
    requires mark == ':' || mark == ',' || mark == '}' || mark == ']' || mark == '"'
    ensures Solid([mark] + x)
  {
  }

  // The proofs below run on equations between texts alone, so they hide every definition and get what
  // they need of each from one small lemma.

  lemma NameParts(name: Name)
    requires WellFormedName(name)
    ensures name.key != "" && StringToken(name.key) && Decode(name.key).Some? && Trivia(name.mid) && Trivia(name.gap)
    ensures PrintName(Some(name)) == name.key + (name.mid + ([':'] + name.gap))
  {
  }

  lemma ReadsKey(key: string, x: string)
    requires StringToken(key)
    ensures ReadName(key + x) == NameAfterKey(key + x, |key|)
  {
    assert (key + x)[1..] == key[1..] + x;
    StringEndAppend(key[1..], x);
  }

  lemma ReadsMid(r: string, k: nat, colon: nat)
    requires 0 < k <= colon <= |r| && Decode(r[..k]).Some? && Skip(r[k..]) == Some(colon - k)
    ensures NameAfterKey(r, k) == NameAtColon(r, k, colon)
  {
    hide Decode, Skip, NameAtColon;
  }

  lemma ReadsGap(r: string, k: nat, colon: nat, gap: nat)
    requires k <= colon < |r| && r[colon] == ':' && Skip(r[colon + 1..]) == Some(gap)
    ensures colon + 1 + gap <= |r|
    ensures NameAtColon(r, k, colon)
            == Some((Name(r[..k], r[k..colon], r[colon + 1..colon + 1 + gap]), colon + 1 + gap))
  {
    hide Skip;
  }

  /** Where the parts of `a + (b + ([mark] + (c + x)))` are. */
  lemma Pieces(a: string, b: string, mark: char, c: string, x: string)
    ensures var r := a + (b + ([mark] + (c + x)));
            var k, stop := |a|, |a| + |b|;
            && r[..k] == a && r[k..] == b + ([mark] + (c + x)) && r[k..stop] == b
            && stop < |r| && r[stop] == mark && r[stop + 1..] == c + x && r[stop + 1..stop + 1 + |c|] == c
            && r == (a + (b + ([mark] + c))) + x
            && |a + (b + ([mark] + c))| == stop + 1 + |c|
  {
  }

  lemma ReadsPrintedName(name: Name, x: string)
    requires WellFormedName(name) && Solid(x)
    ensures ReadName(PrintName(Some(name)) + x) == Some((name, |PrintName(Some(name))|))
  {
    hide *;
    NameParts(name);
    var key, mid, gap := name.key, name.mid, name.gap;
    Pieces(key, mid, ':', gap, x);
    var r := key + (mid + ([':'] + (gap + x)));
    ReadsKey(key, mid + ([':'] + (gap + x)));
    MarkIsSolid(':', gap + x);
    SkipThenToken(mid, [':'] + (gap + x));
    ReadsMid(r, |key|, |key| + |mid|);
    SkipThenToken(gap, x);
    ReadsGap(r, |key|, |key| + |mid|, |gap|);
  }

  /** A printed value starts with a token that closes nothing. */
  lemma PrintedStart(v: Value, x: string)
    requires WellFormed(v)
    ensures Print(v) != "" && Solid(Print(v) + x)
    ensures Print(v)[0] != '}' && Print(v)[0] != ']' && Print(v)[0] != ','
  {
  }

  lemma ReadsPrintedToken(v: Value, x: string)
    requires v.Token? && WellFormed(v) && Bounded(v, x)
    ensures ReadValue(Print(v) + x) == Some((v, |Print(v)|))
  {
    var t := v.text;
    var r := t + x;
    assert r[..|t|] == t;
    if StringToken(t) {
      assert r[1..] == t[1..] + x;
      StringEndAppend(t[1..], x);
    } else {
      assert IsLiteral(t[0]);
      LiteralEndAppend(t, x);
    }
  }

  lemma ReadsGroup(curly: bool, r: string, members: seq<Member>, close: string, n: nat)
    requires ReadMembers(r, curly) == Some((members, close, n))
    ensures ReadValue([Open(curly)] + r) == Some((Group(curly, members, close), 1 + n))
  {
    assert ([Open(curly)] + r)[1..] == r;
  }

  lemma GroupParts(curly: bool, members: seq<Member>, close: string, x: string)
    requires WellFormed(Group(curly, members, close))
    ensures WellFormedMembers(members, curly) && Trivia(close)
    ensures Print(Group(curly, members, close)) + x
            == [Open(curly)] + (PrintMembers(members) + (close + ([Close(curly)] + x)))
    ensures |Print(Group(curly, members, close))| == 2 + |PrintMembers(members)| + |close|
  {
    Distribute(Open(curly), PrintMembers(members), close, Close(curly), x);
  }

  lemma Distribute(open: char, members: string, close: string, end: char, x: string)
    ensures ([open] + (members + (close + [end]))) + x == [open] + (members + (close + ([end] + x)))
  {
  }

  lemma {:induction false} ReadsPrinted(v: Value, x: string)
    requires WellFormed(v) && Bounded(v, x)
    ensures ReadValue(Print(v) + x) == Some((v, |Print(v)|))
    decreases v, 0
  {
    hide *;
    match v
    case Token(_) => ReadsPrintedToken(v, x);
    case Group(curly, members, close) =>
      GroupParts(curly, members, close, x);
      ReadsPrintedMembers(members, close, curly, x);
      ReadsGroup(curly, PrintMembers(members) + (close + ([Close(curly)] + x)), members, close,
                 |PrintMembers(members)| + |close| + 1);
  }

  lemma MemberParts(m: Member, curly: bool)
    requires WellFormedMember(m, curly)
    ensures Trivia(m.lead) && Trivia(m.tail) && WellFormed(m.value) && (m.name.Some? <==> curly)
    ensures m.name.Some? ==> WellFormedName(m.name.value) && PrintName(m.name) != "" && PrintName(m.name)[0] == '"'
    ensures m.name.None? ==> PrintName(m.name) == ""
    ensures !m.comma ==> m.tail == ""
    ensures PrintMember(m) == m.lead + (PrintName(m.name) + (Print(m.value) + (if m.comma then m.tail + [','] else "")))
  {
  }

  lemma ReadsHead(r: string, k: nat, at: nat, curly: bool, name: Option<Name>, value: Value, n: nat)
    requires k <= at < |r| && k < |r| && (name.Some? <==> curly)
    requires if curly then ReadName(r[k..]) == Some((name.value, at - k)) else at == k
    requires ReadValue(r[at..]) == Some((value, n))
    ensures ReadHead(r, k, curly) == Some((Member(r[..k], name, value, "", false), at + n))
  {
    hide ReadName, ReadValue;
  }

  lemma ReadsLead(r: string, k: nat, m: Member, end: nat, curly: bool)
    requires k < |r| && Skip(r) == Some(k) && r[k] != Close(curly) && ReadHead(r, k, curly) == Some((m, end))
    ensures end <= |r| && ReadMembers(r, curly) == ReadAfter(r, m, end, curly)
  {
    hide Skip, ReadHead, ReadAfter;
  }

  lemma HeadPieces(lead: string, name: string, value: string, after: string)
    ensures var r := lead + (name + (value + after));
            var k, at, end := |lead|, |lead| + |name|, |lead| + |name| + |value|;
            && r[..k] == lead && r[k..] == name + (value + after) && r[at..] == value + after && r[end..] == after
            && r == (lead + (name + value)) + after && |lead + (name + value)| == end
  {
  }

  lemma CloserIsFar(curly: bool, m: Member, x: string)
    requires WellFormedMember(m, curly)
    ensures var s := PrintName(m.name) + (Print(m.value) + x); s != "" && Solid(s) && s[0] != Close(curly)
  {
    MemberParts(m, curly);
    PrintedStart(m.value, x);
    if curly {
      var key := PrintName(m.name);
      assert key + (Print(m.value) + x) == ['"'] + (key[1..] + (Print(m.value) + x));
      MarkIsSolid('"', key[1..] + (Print(m.value) + x));
    } else {
      assert "" + (Print(m.value) + x) == Print(m.value) + x;
    }
  }

  /** `after` cannot run on from a literal. */
  predicate Ends(after: string) {
    after != "" && !IsLiteral(after[0])
  }

  lemma EndsBounds(v: Value, after: string)
    requires Ends(after)
    ensures Bounded(v, after)
  {
  }

  lemma TriviaEnds(t: string, mark: char, x: string)
    requires Trivia(t) && !IsLiteral(mark)
    ensures Ends(t + ([mark] + x))
  {
    assert t == "" ==> t + ([mark] + x) == [mark] + x;
  }

  lemma ReadsPrintedHead(m: Member, curly: bool, after: string)
    requires WellFormedMember(m, curly) && Ends(after)
    ensures var r := m.lead + (PrintName(m.name) + (Print(m.value) + after));
            && |m.lead| < |r|
            && ReadHead(r, |m.lead|, curly)
               == Some((m.(tail := "", comma := false), |m.lead| + |PrintName(m.name)| + |Print(m.value)|))
    decreases m, 0
  {
    hide *;
    MemberParts(m, curly);
    PrintedStart(m.value, after);
    HeadPieces(m.lead, PrintName(m.name), Print(m.value), after);
    if curly {
      ReadsPrintedName(m.name.value, Print(m.value) + after);
    }
    EndsBounds(m.value, after);
    ReadsPrinted(m.value, after);
    ReadsHead(m.lead + (PrintName(m.name) + (Print(m.value) + after)), |m.lead|, |m.lead| + |PrintName(m.name)|,
              curly, m.name, m.value, |Print(m.value)|);
  }

  lemma ReadsPrintedLead(m: Member, curly: bool, after: string)
    requires WellFormedMember(m, curly) && Ends(after)
    ensures var r := m.lead + (PrintName(m.name) + (Print(m.value) + after));
            var end := |m.lead| + |PrintName(m.name)| + |Print(m.value)|;
            end <= |r| && ReadMembers(r, curly) == ReadAfter(r, m.(tail := "", comma := false), end, curly)
    decreases m, 1
  {
    hide *;
    MemberParts(m, curly);
    CloserIsFar(curly, m, after);
    SkipThenToken(m.lead, PrintName(m.name) + (Print(m.value) + after));
    ReadsPrintedHead(m, curly, after);
    ReadsLead(m.lead + (PrintName(m.name) + (Print(m.value) + after)), |m.lead|, m.(tail := "", comma := false),
              |m.lead| + |PrintName(m.name)| + |Print(m.value)|, curly);
  }

  lemma ReadsNone(r: string, k: nat, curly: bool)
    requires k < |r| && Skip(r) == Some(k) && r[k] == Close(curly)
    ensures ReadMembers(r, curly) == Some(([], r[..k], k + 1))
  {
    hide Skip, ReadHead, ReadAfter;
  }

  lemma ReadsLast(r: string, m: Member, end: nat, stop: nat, curly: bool)
    requires end <= stop < |r| && Skip(r[end..]) == Some(stop - end) && r[stop] == Close(curly)
    ensures ReadAfter(r, m, end, curly) == Some(([m], r[end..stop], stop + 1))
  {
    hide Skip, ReadMembers, AndThen;
  }

  lemma ReadsComma(r: string, m: Member, end: nat, stop: nat, curly: bool)
    requires end <= stop < |r| && Skip(r[end..]) == Some(stop - end) && r[stop] == ','
    ensures ReadAfter(r, m, end, curly)
            == AndThen(m.(tail := r[end..stop], comma := true), stop + 1, ReadMembers(r[stop + 1..], curly))
  {
    hide Skip, ReadMembers, AndThen;
  }

  lemma CloseMark(curly: bool)
    ensures (Close(curly) == '}' || Close(curly) == ']') && !IsLiteral(Close(curly)) && !IsLiteral(',')
  {
  }

  lemma ReadsPrintedNone(close: string, curly: bool, x: string)
    requires Trivia(close)
    ensures ReadMembers(close + ([Close(curly)] + x), curly) == Some(([], close, |close| + 1))
  {
    hide *;
    CloseMark(curly);
    MarkIsSolid(Close(curly), x);
    SkipThenToken(close, [Close(curly)] + x);
    Pieces("", close, Close(curly), "", x);
    ReadsNone(close + ([Close(curly)] + x), |close|, curly);
  }

  /** Where the parts of a member's text, and what follows it, are. */
  lemma MemberPieces(lead: string, name: string, value: string, tail: string, mark: char, x: string)
    ensures var r := lead + (name + (value + (tail + ([mark] + x))));
            var end := |lead| + |name| + |value|;
            && r[end..] == tail + ([mark] + x) && r[end..end + |tail|] == tail
            && end + |tail| < |r| && r[end + |tail|] == mark && r[end + |tail| + 1..] == x
            && r == (lead + (name + (value + ""))) + (tail + ([mark] + x))
            && r == (lead + (name + (value + (tail + [mark])))) + x
            && |lead + (name + (value + ""))| == end
            && |lead + (name + (value + (tail + [mark])))| == end + |tail| + 1
  {
  }

  lemma LastMember(m: Member, curly: bool)
    requires WellFormedMember(m, curly) && !m.comma
    ensures m.(tail := "", comma := false) == m
    ensures PrintMember(m) == m.lead + (PrintName(m.name) + (Print(m.value) + ""))
  {
    hide Print, PrintName, WellFormed, Trivia;
  }

  lemma ReadsPrintedLast(m: Member, close: string, curly: bool, x: string)
    requires WellFormedMember(m, curly) && !m.comma && Trivia(close)
    ensures ReadMembers(PrintMember(m) + (close + ([Close(curly)] + x)), curly)
            == Some(([m], close, |PrintMember(m)| + |close| + 1))
    decreases m, 2
  {
    hide *;
    var after := close + ([Close(curly)] + x);
    CloseMark(curly);
    TriviaEnds(close, Close(curly), x);
    ReadsPrintedLead(m, curly, after);
    LastMember(m, curly);
    LastCloses(m, m.lead, PrintName(m.name), Print(m.value), close, curly, x);
  }

  lemma LastCloses(m: Member, lead: string, name: string, value: string, close: string, curly: bool, x: string)
    requires Trivia(close)
    ensures var r := lead + (name + (value + (close + ([Close(curly)] + x))));
            var end := |lead| + |name| + |value|;
            && end <= |r| && ReadAfter(r, m, end, curly) == Some(([m], close, end + |close| + 1))
            && r == (lead + (name + (value + ""))) + (close + ([Close(curly)] + x))
                && |lead + (name + (value + ""))| == end
  {
    hide *;
    CloseMark(curly);
    MarkIsSolid(Close(curly), x);
    SkipThenToken(close, [Close(curly)] + x);
    MemberPieces(lead, name, value, close, Close(curly), x);
    var end := |lead| + |name| + |value|;
    ReadsLast(lead + (name + (value + (close + ([Close(curly)] + x)))), m, end, end + |close|, curly);
  }

  lemma ReadsPrintedComma(m: Member, curly: bool, rest: string)
    requires WellFormedMember(m, curly) && m.comma
    ensures ReadMembers(PrintMember(m) + rest, curly) == AndThen(m, |PrintMember(m)|, ReadMembers(rest, curly))
    decreases m, 2
  {
    hide *;
    var lead, name, value, after := m.lead, PrintName(m.name), Print(m.value), m.tail + ([','] + rest);
    CloseMark(curly);
    MemberParts(m, curly);
    TriviaEnds(m.tail, ',', rest);
    ReadsPrintedLead(m, curly, after);
    MarkIsSolid(',', rest);
    SkipThenToken(m.tail, [','] + rest);
    MemberPieces(lead, name, value, m.tail, ',', rest);
    var end := |lead| + |name| + |value|;
    ReadsComma(lead + (name + (value + after)), m.(tail := "", comma := false), end, end + |m.tail|, curly);
  }

  lemma MembersParts(ms: seq<Member>, curly: bool, end: string)
    requires WellFormedMembers(ms, curly)
    ensures ms == [] ==> PrintMembers(ms) + end == end && |PrintMembers(ms)| == 0
    ensures ms != [] ==>
              && WellFormedMember(ms[0], curly) && WellFormedMembers(ms[1..], curly) && [ms[0]] + ms[1..] == ms
              && PrintMembers(ms) + end == PrintMember(ms[0]) + (PrintMembers(ms[1..]) + end)
              && |PrintMembers(ms)| == |PrintMember(ms[0])| + |PrintMembers(ms[1..])|
    ensures ms != [] && !ms[0].comma ==> ms == [ms[0]] && PrintMembers(ms) == PrintMember(ms[0])
  {
  }

  lemma AndThenSome(m: Member, n: nat, ms: seq<Member>, close: string, k: nat)
    ensures AndThen(m, n, Some((ms, close, k))) == Some(([m] + ms, close, n + k))
  {
  }

  /** A group's printed members, trivia and bracket, with anything after them, read as they were. */
  lemma {:induction false} ReadsPrintedMembers(ms: seq<Member>, close: string, curly: bool, x: string)
    requires WellFormedMembers(ms, curly) && Trivia(close)
    ensures ReadMembers(PrintMembers(ms) + (close + ([Close(curly)] + x)), curly)
            == Some((ms, close, |PrintMembers(ms)| + |close| + 1))
    decreases ms, 3
  {
    hide *;
    MembersParts(ms, curly, close + ([Close(curly)] + x));
    if ms == [] {
      ReadsPrintedNone(close, curly, x);
    } else if ms[0].comma {
      ReadsPrintedComma(ms[0], curly, PrintMembers(ms[1..]) + (close + ([Close(curly)] + x)));
      ReadsPrintedMembers(ms[1..], close, curly, x);
      AndThenSome(ms[0], |PrintMember(ms[0])|, ms[1..], close, |PrintMembers(ms[1..])| + |close| + 1);
    } else {
      ReadsPrintedLast(ms[0], close, curly, x);
    }
  }

  /** What may surround the root value: trivia before it, and after it anything that reads as trivia. */
  predicate WellFormedDocument(d: Document) {
    && Trivia(d.lead) && WellFormed(d.root) && Bounded(d.root, d.post)
    && Skip(d.post) == Some(|d.post|)
  }

  lemma ReadsPrintedDocument(d: Document)
    requires WellFormedDocument(d)
    ensures ReadDocument(PrintDocument(d)) == Some(d)
  {
    hide *;
    DocumentParts(d);
    PrintedStart(d.root, d.post);
    DocumentPieces(d.lead, Print(d.root), d.post);
    SkipThenToken(d.lead, Print(d.root) + d.post);
    ReadsPrinted(d.root, d.post);
    ReadsDocument(PrintDocument(d), |d.lead|, d.root, |Print(d.root)|);
  }

  lemma DocumentParts(d: Document)
    requires WellFormedDocument(d)
    ensures Trivia(d.lead) && WellFormed(d.root) && Bounded(d.root, d.post) && Skip(d.post) == Some(|d.post|)
    ensures PrintDocument(d) == d.lead + Print(d.root) + d.post
  {
    hide Trivia, WellFormed, Skip, Print;
  }

  lemma DocumentPieces(lead: string, root: string, post: string)
    ensures var s := lead + root + post;
            s == lead + (root + post) && s[..|lead|] == lead && s[|lead|..] == root + post
                && s[|lead| + |root|..] == post
  {
  }

  lemma ReadsDocument(s: string, k: nat, root: Value, n: nat)
    requires k + n <= |s| && Skip(s) == Some(k) && ReadValue(s[k..]) == Some((root, n))
             && Skip(s[k + n..]) == Some(|s| - (k + n))
    ensures ReadDocument(s) == Some(Document(s[..k], root, s[k + n..]))
  {
    hide Skip, ReadValue;
  }

  // ---------------------------------------------------------------------------------------------
  // What is read is a well-formed tree whose print is the text that was read
  // ---------------------------------------------------------------------------------------------

  lemma {:induction false} StringEndPrefix(r: string, k: nat)
    requires StringEnd(r).Some? && StringEnd(r).value <= k <= |r|
    ensures StringEnd(r[..k]) == StringEnd(r)
    decreases |r|
  {
    if r[0] == '\\' {
      assert r[..k][2..] == r[2..][..k - 2];
      StringEndPrefix(r[2..], k - 2);
    } else if r[0] != '"' {
      assert r[..k][1..] == r[1..][..k - 1];
      StringEndPrefix(r[1..], k - 1);
    }
  }

  lemma {:induction false} LiteralEndIsLiteral(r: string)
    ensures forall i :: 0 <= i < LiteralEnd(r) ==> IsLiteral(r[i])
    ensures LiteralEnd(r) < |r| ==> !IsLiteral(r[LiteralEnd(r)])
  {
    if r != "" && IsLiteral(r[0]) {
      LiteralEndIsLiteral(r[1..]);
      forall i | 0 <= i < LiteralEnd(r) ensures IsLiteral(r[i]) {
        assert i > 0 ==> r[i] == r[1..][i - 1];
      }
    }
  }

  lemma KeyRead(r: string)
    requires ReadName(r).Some?
    ensures r != "" && StringEnd(r[1..]).Some?
    ensures var k := 1 + StringEnd(r[1..]).value; k <= |r| && StringToken(r[..k]) && ReadName(r) == NameAfterKey(r, k)
  {
    var k := 1 + StringEnd(r[1..]).value;
    StringEndPrefix(r[1..], k - 1);
    assert r[..k][1..] == r[1..][..k - 1];
  }

  lemma SkippedSlice(r: string, from: nat, to: nat)
    requires from <= to < |r| && Skip(r[from..]) == Some(to - from)
    ensures Trivia(r[from..to]) && Solid(r[to..])
  {
    hide *;
    SkippedIsTrivia(r[from..], to - from);
    assert r[from..][..to - from] == r[from..to] && r[from..][to - from..] == r[to..];
  }

  lemma MidRead(r: string, k: nat)
    requires 0 < k <= |r| && NameAfterKey(r, k).Some?
    ensures Decode(r[..k]).Some? && Skip(r[k..]).Some?
    ensures var colon := k + Skip(r[k..]).value;
            colon < |r| && r[colon] == ':' && NameAfterKey(r, k) == NameAtColon(r, k, colon)
  {
    hide Skip, Decode;
  }

  lemma GapRead(r: string, k: nat, colon: nat)
    requires k <= colon < |r| && NameAtColon(r, k, colon).Some?
    ensures var (name, n) := NameAtColon(r, k, colon).value;
            && name == Name(r[..k], r[k..colon], r[colon + 1..n]) && colon < n <= |r|
            && Skip(r[colon + 1..]) == Some(n - (colon + 1))
  {
    hide Skip;
  }

  lemma NameText(r: string, k: nat, colon: nat, n: nat)
    requires k <= colon < n <= |r| && r[colon] == ':'
    ensures r[..k] + (r[k..colon] + ([':'] + r[colon + 1..n])) == r[..n]
  {
  }

  lemma IsName(name: Name)
    requires StringToken(name.key) && Decode(name.key).Some? && Trivia(name.mid) && Trivia(name.gap)
    ensures WellFormedName(name) && PrintName(Some(name)) == name.key + (name.mid + ([':'] + name.gap))
  {
  }

  lemma ReadNameIsPrinted(r: string)
    requires ReadName(r).Some? && ReadName(r).value.1 < |r|
    ensures var (name, n) := ReadName(r).value; WellFormedName(name) && PrintName(Some(name)) == r[..n]
  {
    hide *;
    KeyRead(r);
    var k := 1 + StringEnd(r[1..]).value;
    MidRead(r, k);
    var colon := k + Skip(r[k..]).value;
    GapRead(r, k, colon);
    var (name, n) := ReadName(r).value;
    SkippedSlice(r, k, colon);
    SkippedSlice(r, colon + 1, n);
    IsName(name);
    NameText(r, k, colon, n);
  }

  lemma TokenRead(r: string)
    requires ReadValue(r).Some? && ReadValue(r).value.0.Token?
    ensures var (v, n) := ReadValue(r).value; WellFormed(v) && Print(v) == r[..n] && Bounded(v, r[n..])
  {
    if r[0] == '"' {
      var n := 1 + StringEnd(r[1..]).value;
      StringEndPrefix(r[1..], n - 1);
      assert r[..n][1..] == r[1..][..n - 1];
      assert StringToken(r[..n]) && !IsLiteral('"');
    } else {
      LiteralEndIsLiteral(r);
    }
  }

  lemma GroupRead(r: string)
    requires ReadValue(r).Some? && ReadValue(r).value.0.Group?
    ensures var (v, n) := ReadValue(r).value;
            && r != "" && r[0] == Open(v.curly) && ReadMembers(r[1..], v.curly) == Some((v.members, v.close, n - 1))
  {
  }

  lemma IsGroup(curly: bool, members: seq<Member>, close: string, x: string)
    requires WellFormedMembers(members, curly) && Trivia(close)
    ensures var v := Group(curly, members, close);
            && WellFormed(v) && Bounded(v, x)
            && Print(v) == [Open(curly)] + (PrintMembers(members) + (close + [Close(curly)]))
  {
  }

  lemma GroupText(r: string, open: char, n: nat)
    requires 1 <= n <= |r| && r[0] == open
    ensures [open] + r[1..][..n - 1] == r[..n]
  {
  }

  /** Reading loses nothing: printing the value gives back exactly the text it was read from. */
  lemma {:induction false} ReadIsPrinted(r: string)
    requires ReadValue(r).Some?
    ensures var (v, n) := ReadValue(r).value; WellFormed(v) && Print(v) == r[..n] && Bounded(v, r[n..])
    decreases |r|, 0
  {
    hide *;
    var (v, n) := ReadValue(r).value;
    if v.Token? {
      TokenRead(r);
    } else {
      GroupRead(r);
      ReadMembersIsPrinted(r[1..], v.curly);
      IsGroup(v.curly, v.members, v.close, r[n..]);
      GroupText(r, Open(v.curly), n);
    }
  }

  lemma HeadRead(r: string, k: nat, curly: bool)
    requires k < |r| && ReadHead(r, k, curly).Some?
    ensures var (m, end) := ReadHead(r, k, curly).value;
            && end <= |r| && m.lead == r[..k] && m.tail == "" && !m.comma && (m.name.Some? <==> curly)
            && (curly ==> ReadName(r[k..]).Some? && m.name == Some(ReadName(r[k..]).value.0))
            && var at := k + (if curly then ReadName(r[k..]).value.1 else 0);
               k <= at < end && ReadValue(r[at..]) == Some((m.value, end - at))
  {
  }

  lemma HeadText(r: string, k: nat, at: nat, end: nat)
    requires k <= at <= end <= |r|
    ensures r[..k] + (r[k..][..at - k] + r[at..][..end - at]) == r[..end]
    ensures r[at..][end - at..] == r[end..]
    ensures at == k ==> r[k..][..at - k] == ""
  {
  }

  lemma NoName(name: Option<Name>)
    requires name.None?
    ensures PrintName(name) == ""
  {
  }

  lemma ReadHeadIsPrinted(r: string, k: nat, curly: bool)
    requires k < |r| && ReadHead(r, k, curly).Some?
    ensures var (m, end) := ReadHead(r, k, curly).value;
            && end <= |r| && WellFormed(m.value) && (m.name.Some? <==> curly)
            && (curly ==> WellFormedName(m.name.value))
            && m.lead == r[..k] && m.tail == "" && !m.comma
            && m.lead + (PrintName(m.name) + Print(m.value)) == r[..end]
    decreases |r|, 1
  {
    hide *;
    HeadRead(r, k, curly);
    var (m, end) := ReadHead(r, k, curly).value;
    var at := k + (if curly then ReadName(r[k..]).value.1 else 0);
    if curly {
      ReadNameIsPrinted(r[k..]);
    } else {
      NoName(m.name);
    }
    ReadIsPrinted(r[at..]);
    HeadText(r, k, at, end);
  }

  lemma MembersRead(r: string, curly: bool)
    requires ReadMembers(r, curly).Some?
    ensures Skip(r).Some? && Skip(r).value < |r|
    ensures var k := Skip(r).value;
            if r[k] == Close(curly) then ReadMembers(r, curly) == Some(([], r[..k], k + 1))
            else ReadHead(r, k, curly).Some? &&
                 ReadHead(r, k, curly).value.1 <= |r| &&
                 ReadMembers(r, curly)
                     == ReadAfter(r, ReadHead(r, k, curly).value.0, ReadHead(r, k, curly).value.1, curly)
  {
    hide Skip, ReadHead, ReadAfter;
  }

  lemma AfterRead(r: string, m: Member, end: nat, curly: bool)
    requires end <= |r| && ReadAfter(r, m, end, curly).Some?
    ensures Skip(r[end..]).Some?
    ensures var stop := end + Skip(r[end..]).value;
            && stop < |r| && (r[stop] == ',' || r[stop] == Close(curly))
            && (r[stop] == Close(curly) ==> ReadAfter(r, m, end, curly) == Some(([m], r[end..stop], stop + 1)))
            && (r[stop] == ',' ==>
                  && ReadMembers(r[stop + 1..], curly).Some?
                  && var (ms, close, n) := ReadMembers(r[stop + 1..], curly).value;
                     ReadAfter(r, m, end, curly)
                     == Some(([m.(tail := r[end..stop], comma := true)] + ms, close, stop + 1 + n)))
  {
    hide Skip, ReadMembers;
  }

  lemma IsMember(m: Member, curly: bool)
    requires Trivia(m.lead) && WellFormed(m.value) && (m.name.Some? <==> curly)
             && (curly ==> WellFormedName(m.name.value))
    requires Trivia(m.tail) && (!m.comma ==> m.tail == "")
    ensures WellFormedMember(m, curly)
    ensures PrintMember(m) == m.lead + (PrintName(m.name) + (Print(m.value) + (if m.comma then m.tail + [','] else "")))
  {
  }

  lemma IsMembers(m: Member, ms: seq<Member>, curly: bool)
    requires WellFormedMember(m, curly) && WellFormedMembers(ms, curly) && (m.comma || ms == [])
    ensures WellFormedMembers([m] + ms, curly) && PrintMembers([m] + ms) == PrintMember(m) + PrintMembers(ms)
  {
    assert ([m] + ms)[1..] == ms;
  }

  lemma NoMembers(curly: bool)
    ensures WellFormedMembers([], curly) && PrintMembers([]) == "" && Trivia("")
  {
  }

  lemma CommaText(r: string, head: string, lead: string, name: string, value: string, stop: nat, n: nat, rest: string)
    requires |head| <= stop < |r| && r[stop] == ',' && stop + 1 + n <= |r| && head == r[..|head|]
    requires lead + (name + value) == head && rest == r[stop + 1..][..n]
    ensures (lead + (name + (value + (r[|head|..stop] + [','])))) + rest == r[..stop + 1 + n]
  {
  }

  lemma CloseText(r: string, head: string, lead: string, name: string, value: string, stop: nat, mark: char)
    requires |head| <= stop < |r| && r[stop] == mark && head == r[..|head|]
    requires lead + (name + value) == head
    ensures (lead + (name + (value + ""))) + "" + (r[|head|..stop] + [mark]) == r[..stop + 1]
  {
  }

  lemma NoneText(r: string, k: nat, mark: char)
    requires k < |r| && r[k] == mark
    ensures "" + (r[..k] + [mark]) == r[..k + 1]
  {
  }

  lemma AppendText(a: string, b: string, c: string)
    ensures (a + b) + c == a + (b + c)
  {
  }

  lemma {:induction false} ReadMembersIsPrinted(r: string, curly: bool)
    requires ReadMembers(r, curly).Some?
    ensures var (ms, close, n) := ReadMembers(r, curly).value;
            && n <= |r| && WellFormedMembers(ms, curly) && Trivia(close)
            && PrintMembers(ms) + (close + [Close(curly)]) == r[..n]
    decreases |r|, 3
  {
    hide *;
    MembersRead(r, curly);
    NoMembers(curly);
    var k := Skip(r).value;
    SkippedIsTrivia(r, k);
    if r[k] == Close(curly) {
      NoneText(r, k, Close(curly));
    } else {
      ReadHeadIsPrinted(r, k, curly);
      var (m, end) := ReadHead(r, k, curly).value;
      AfterRead(r, m, end, curly);
      var stop := end + Skip(r[end..]).value;
      SkippedSlice(r, end, stop);
      if r[stop] == ',' {
        ReadMembersIsPrinted(r[stop + 1..], curly);
        var (ms, close, n) := ReadMembers(r[stop + 1..], curly).value;
        CommaWhole(r, m, end, stop, ms, close, n, curly);
      } else {
        CloseWhole(r, m, end, stop, curly);
      }
    }
  }

  lemma CommaWhole(r: string, m: Member, end: nat, stop: nat, ms: seq<Member>, close: string, n: nat, curly: bool)
    requires end <= stop < |r| && r[stop] == ',' && stop + 1 + n <= |r| && Trivia(r[end..stop])
    requires Trivia(m.lead) && WellFormed(m.value) && (m.name.Some? <==> curly)
             && (curly ==> WellFormedName(m.name.value))
    requires m.lead + (PrintName(m.name) + Print(m.value)) == r[..end]
    requires WellFormedMembers(ms, curly) && PrintMembers(ms) + (close + [Close(curly)]) == r[stop + 1..][..n]
    ensures var full := m.(tail := r[end..stop], comma := true);
            && WellFormedMembers([full] + ms, curly)
            && PrintMembers([full] + ms) + (close + [Close(curly)]) == r[..stop + 1 + n]
  {
    hide *;
    var full := m.(tail := r[end..stop], comma := true);
    IsMember(full, curly);
    IsMembers(full, ms, curly);
    AppendText(PrintMember(full), PrintMembers(ms), close + [Close(curly)]);
    CommaText(r, r[..end], m.lead, PrintName(m.name), Print(m.value), stop, n,
              PrintMembers(ms) + (close + [Close(curly)]));
  }

  lemma CloseWhole(r: string, m: Member, end: nat, stop: nat, curly: bool)
    requires end <= stop < |r| && r[stop] == Close(curly) && !m.comma && m.tail == ""
    requires Trivia(m.lead) && WellFormed(m.value) && (m.name.Some? <==> curly)
             && (curly ==> WellFormedName(m.name.value))
    requires m.lead + (PrintName(m.name) + Print(m.value)) == r[..end]
    ensures WellFormedMembers([m], curly) && PrintMembers([m]) + (r[end..stop] + [Close(curly)]) == r[..stop + 1]
  {
    hide *;
    NoMembers(curly);
    IsMember(m, curly);
    IsMembers(m, [], curly);
    JustOne(m);
    CloseText(r, r[..end], m.lead, PrintName(m.name), Print(m.value), stop, Close(curly));
  }

  lemma JustOne(m: Member)
    ensures [m] + [] == [m]
  {
  }

  lemma DocumentRead(s: string)
    requires ReadDocument(s).Some?
    ensures Skip(s).Some? && ReadValue(s[Skip(s).value..]).Some?
    ensures var k := Skip(s).value;
            var (v, n) := ReadValue(s[k..]).value;
            && 0 < n && k + n <= |s| && Skip(s[k + n..]) == Some(|s| - (k + n))
            && ReadDocument(s) == Some(Document(s[..k], v, s[k + n..]))
  {
    hide Skip, ReadValue;
  }

  lemma IsDocument(d: Document)
    requires Trivia(d.lead) && WellFormed(d.root) && Bounded(d.root, d.post) && Skip(d.post) == Some(|d.post|)
    ensures WellFormedDocument(d) && PrintDocument(d) == d.lead + Print(d.root) + d.post
  {
  }

  lemma DocumentText(s: string, k: nat, n: nat)
    requires k + n <= |s|
    ensures s[..k] + s[k..][..n] + s[k + n..] == s && s[k..][n..] == s[k + n..]
  {
  }

  /** What is read from a text prints back to that text. */
  lemma ReadDocumentIsPrinted(s: string)
    requires ReadDocument(s).Some?
    ensures WellFormedDocument(ReadDocument(s).value) && PrintDocument(ReadDocument(s).value) == s
  {
    hide *;
    DocumentRead(s);
    var k := Skip(s).value;
    var (v, n) := ReadValue(s[k..]).value;
    ReadIsPrinted(s[k..]);
    SkippedIsTrivia(s, k);
    DocumentText(s, k, n);
    IsDocument(ReadDocument(s).value);
  }
}
