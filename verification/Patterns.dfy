/** Glob patterns: the expression a pattern compiles to, and what it accepts path segment by path segment. */
module Patterns {
  import opened Prelude

  /** The parts of a compiled expression. */
  datatype Token = Char(c: char)    // the character itself
                 | NotSlash         // [^/]
                 | NotSlashes       // [^/]*
                 | Folders          // (?:.*/)?
                 | Anything         // .*
                 | Below            // (?:/.*)?
                 | Group(text: string, members: Option<Class>) // (?:text|[members]), or just the text

  /** A character class: the ranges of its characters, or all other characters. */
  datatype Class = Class(negated: bool, ranges: seq<(char, char)>) {
    predicate Has(c: char) {
      negated != exists i :: 0 <= i < |ranges| && ranges[i].0 <= c <= ranges[i].1
    }
  }

  /** What `.` matches: all but JavaScript's line terminators. */
  predicate IsDot(c: char) {
    c != '\n' && c != '\r' && c as int != 0x2028 && c as int != 0x2029
  }

  predicate Dots(s: string) {
    forall i :: 0 <= i < |s| ==> IsDot(s[i])
  }

  // ---------------------------------------------------------------------------------------------
  // Compiling
  // ---------------------------------------------------------------------------------------------

  function IndexOf(s: string, c: char): (i: nat)
    ensures i <= |s| && (i < |s| ==> s[i] == c) && c !in s[..i]
  {
    if s == "" || s[0] == c then 0 else 1 + IndexOf(s[1..], c)
  }

  /** Single characters and ranges of them; a range from a later to an earlier character is none. */
  function Ranges(body: string): Option<seq<(char, char)>> {
    if body == "" then Some([])
    else
      var isRange := |body| > 2 && body[1] == '-';
      var n, last := if isRange then 3 else 1, if isRange then body[2] else body[0];
      var rest := Ranges(body[n..]);
      if body[0] > last || rest.None? then None else Some([(body[0], last)] + rest.value)
  }

  /** What the brackets hold as a character class, when the expression with it compiles. */
  function ReadClass(body: string): Option<Class> {
    var negated := body != "" && (body[0] == '!' || body[0] == '^');
    var ranges := Ranges(if negated then body[1..] else body);
    if ranges.None? then None else Some(Class(negated, ranges.value))
  }

  /** The length of the group in brackets that begins `r`, when one does. */
  function GroupLength(r: string): (n: nat)
    requires r != ""
    ensures n == 0 || 2 <= n <= |r|
  {
    if r[0] != '[' || (|r| > 1 && r[1] == '[') then 0
    else
      var close := 1 + IndexOf(r[1..], ']');
      if close == |r| then 0 else close + 1
  }

  function NextToken(r: string): (t: (Token, nat))
    requires r != ""
    ensures 0 < t.1 <= |r|
  {
    if r[0] == '*' then
      if |r| == 1 || r[1] != '*' then (NotSlashes, 1)
      else if |r| > 2 && r[2] == '/' then (Folders, 3)
      else (Anything, 2)
    else if r[0] == '?' then (NotSlash, 1)
    else
      var n := GroupLength(r);
      if n == 0 then (Char(r[0]), 1) else (Group(r[..n], ReadClass(r[1..n - 1])), n)
  }

  function Tokens(r: string): seq<Token>
    decreases |r|
  {
    if r == "" then [] else [NextToken(r).0] + Tokens(r[NextToken(r).1..])
  }

  predicate EndsWithSlash(p: string) {
    p != "" && p[|p| - 1] == '/'
  }

  /** A directory stands for what is below it too, with or without its slash. */
  function Ending(p: string): seq<Token> {
    if EndsWithSlash(p) then [Anything] else if '*' !in p then [Below] else []
  }

  /** Backslashes have become slashes before, so no class holds an escape. */
  method Compile(pattern: string) returns (expression: seq<Token>)
    ensures expression == Tokens(pattern) + Ending(pattern)
  {
    hide NextToken;
    expression := [];
    var index := 0;
    assert pattern[0..] == pattern;
    while index < |pattern|
      invariant index <= |pattern| && expression + Tokens(pattern[index..]) == Tokens(pattern)
    {
      var (token, length) := NextToken(pattern[index..]);
      assert pattern[index..][length..] == pattern[index + length..];
      assert (expression + [token]) + Tokens(pattern[index + length..])
             == expression + ([token] + Tokens(pattern[index + length..]));
      expression := expression + [token];
      index := index + length;
    }
    assert expression + [] == expression;
    if EndsWithSlash(pattern) {
      expression := expression + [Anything];
    } else if '*' !in pattern {
      expression := expression + [Below];
    } else {
      expression := expression + [];
    }
  }

  /** Forward slashes, and no `./` in front. */
  function NormalizePath(path: string): string {
    var p := Slashed(path);
    if |p| >= 2 && p[0] == '.' && p[1] == '/' then p[2..] else p
  }

  // ---------------------------------------------------------------------------------------------
  // Matching
  // ---------------------------------------------------------------------------------------------

  /** Whether the whole of `r` is matched by the tokens in turn; a repetition takes any number of characters. */
  predicate Accepts(tokens: seq<Token>, r: string)
    decreases |tokens|, |r|, 1
  {
    if tokens == [] then r == ""
    else
      var rest := tokens[1..];
      match tokens[0]
      case Char(c) => r != "" && r[0] == c && Accepts(rest, r[1..])
      case NotSlash => r != "" && r[0] != '/' && Accepts(rest, r[1..])
      case NotSlashes => Accepts(rest, r) || (r != "" && r[0] != '/' && Accepts(tokens, r[1..]))
      case Folders => Accepts(rest, r) || AfterFolders(rest, r)
      case Anything => Accepts(rest, r) || (r != "" && IsDot(r[0]) && Accepts(tokens, r[1..]))
      case Below => Accepts(rest, r) || (r != "" && r[0] == '/' && Accepts([Anything] + rest, r[1..]))
      case Group(text, members) =>
        || (text <= r && Accepts(rest, r[|text|..]))
        || (r != "" && members.Some? && members.value.Has(r[0]) && Accepts(rest, r[1..]))
  }

  /** Some characters, a slash at their end, and the tokens after it. */
  predicate AfterFolders(tokens: seq<Token>, r: string)
    decreases |tokens|, |r|, 2
  {
    r != "" && IsDot(r[0]) && ((r[0] == '/' && Accepts(tokens, r[1..])) || AfterFolders(tokens, r[1..]))
  }

  predicate MatchesPattern(path: string, pattern: string) {
    var p := NormalizePath(pattern);
    Accepts(Tokens(p) + Ending(p), NormalizePath(path))
  }

  // ---------------------------------------------------------------------------------------------
  // Globs by segments
  // ---------------------------------------------------------------------------------------------

  /** Segments between slashes; there is always one. */
  function Join(segments: seq<string>): string
    requires segments != []
  {
    if |segments| == 1 then segments[0] else segments[0] + ("/" + Join(segments[1..]))
  }

  predicate Segments(segments: seq<string>) {
    segments != [] && forall i :: 0 <= i < |segments| ==> '/' !in segments[i]
  }

  /** `*`, `?` and classes within one segment; a group in brackets stands for its own text too. */
  predicate SegmentMatches(p: string, s: string)
    decreases |p|, |s|
  {
    if p == "" then s == ""
    else if GroupLength(p) > 0 then
      var n, members := GroupLength(p), ReadClass(p[1..GroupLength(p) - 1]);
      || (p[..n] <= s && SegmentMatches(p[n..], s[n..]))
      || (s != "" && members.Some? && members.value.Has(s[0]) && SegmentMatches(p[n..], s[1..]))
    else if p[0] == '*' then SegmentMatches(p[1..], s) || (s != "" && SegmentMatches(p, s[1..]))
    else s != "" && (p[0] == '?' || s[0] == p[0]) && SegmentMatches(p[1..], s[1..])
  }

  /** A `**` segment stands for any segments: for none, too, when more of the pattern follows, else for at least one. */
  predicate GlobMatches(ps: seq<string>, ss: seq<string>)
    decreases |ps| + |ss|
  {
    if ps == [] || ss == [] then ps == ss == []
    else if ps[0] == "**" then
      if |ps| == 1 then Dots(ss[0]) && (|ss| == 1 || GlobMatches(ps, ss[1..]))
      else GlobMatches(ps[1..], ss) || (Dots(ss[0]) && GlobMatches(ps, ss[1..]))
    else SegmentMatches(ps[0], ss[0]) && GlobMatches(ps[1..], ss[1..])
  }

  /** No two stars side by side. */
  predicate SingleStars(s: string) {
    forall i, j :: 0 <= i < j < |s| && s[i] == '*' && s[j] == '*' ==> j > i + 1
  }

  /** Every bracket that begins a group ends it within the segment, and its class does not take a slash. */
  predicate GroupsWithin(p: string)
    decreases |p|
  {
    p == "" || if p[0] != '[' || (|p| > 1 && p[1] == '[') then GroupsWithin(p[1..])
    else
      var n := GroupLength(p);
      n > 0 && !TakesSlash(ReadClass(p[1..n - 1])) && GroupsWithin(p[n..])
  }

  predicate TakesSlash(members: Option<Class>) {
    members.Some? && members.value.Has('/')
  }

  predicate PatternSegment(p: string) {
    '/' !in p && SingleStars(p) && GroupsWithin(p)
  }

  /** Segments of a pattern: `**` only as a segment of its own, and groups within segments. */
  predicate PatternSegments(ps: seq<string>) {
    ps != [] && forall i :: 0 <= i < |ps| ==> ps[i] == "**" || PatternSegment(ps[i])
  }

  predicate NoStar(ps: seq<string>) {
    forall i :: 0 <= i < |ps| ==> '*' !in ps[i]
  }

  /** What a pattern means: a final slash stands for everything below, and so does a name without stars. */
  predicate Means(ps: seq<string>, ss: seq<string>)
    requires ps != []
  {
    if |ps| > 1 && ps[|ps| - 1] == "" then GlobMatches(ps[..|ps| - 1] + ["**"], ss)
    else GlobMatches(ps, ss) || (NoStar(ps) && GlobMatches(ps + ["**"], ss))
  }

  // ---------------------------------------------------------------------------------------------
  // The compiled expression accepts what the pattern means
  // ---------------------------------------------------------------------------------------------

  /** Tokens that take up only at the end of a segment. */
  predicate AtBoundary(tokens: seq<Token>) {
    tokens == [] || tokens[0] == Char('/') || tokens == [Below]
  }

  lemma BoundaryRejects(tokens: seq<Token>, r: string)
    requires AtBoundary(tokens) && r != "" && r[0] != '/'
    ensures !Accepts(tokens, r)
  {
  }

  predicate IsTail(tail: string) {
    tail == "" || tail[0] == '/'
  }

  lemma WithinTail(text: string, s: string, tail: string)
    requires '/' !in text && IsTail(tail)
    ensures text <= s + tail <==> text <= s
    ensures text <= s ==> (s + tail)[|text|..] == s[|text|..] + tail
  {
    if |s| < |text| && tail != "" {
      assert (s + tail)[|s|] == '/' != text[|s|];
    }
  }

  lemma CharAccepts(c: char, rest: seq<Token>, r: string)
    ensures Accepts([Char(c)] + rest, r) <==> r != "" && r[0] == c && Accepts(rest, r[1..])
  {
    assert ([Char(c)] + rest)[1..] == rest;
  }

  lemma NotSlashAccepts(rest: seq<Token>, r: string)
    ensures Accepts([NotSlash] + rest, r) <==> r != "" && r[0] != '/' && Accepts(rest, r[1..])
  {
    assert ([NotSlash] + rest)[1..] == rest;
  }

  lemma NotSlashesAccept(rest: seq<Token>, r: string)
    ensures Accepts([NotSlashes] + rest, r)
            <==> Accepts(rest, r) || (r != "" && r[0] != '/' && Accepts([NotSlashes] + rest, r[1..]))
  {
    assert ([NotSlashes] + rest)[1..] == rest;
  }

  lemma SegmentStep(p: string, s: string)
    requires p != "" && GroupLength(p) == 0
    ensures SegmentMatches(p, s)
            <==> if p[0] == '*' then SegmentMatches(p[1..], s) || (s != "" && SegmentMatches(p, s[1..]))
                 else s != "" && (p[0] == '?' || s[0] == p[0]) && SegmentMatches(p[1..], s[1..])
  {
  }

  lemma SegmentEnd(tokens: seq<Token>, s: string, tail: string)
    requires AtBoundary(tokens) && '/' !in s && IsTail(tail)
    ensures Accepts(Tokens("") + tokens, s + tail) <==> SegmentMatches("", s) && Accepts(tokens, tail)
  {
    assert [] + tokens == tokens;
    if s == "" {
      assert s + tail == tail;
    } else {
      BoundaryRejects(tokens, s + tail);
    }
  }

  lemma WithTail(s: string, tail: string)
    requires '/' !in s && IsTail(tail)
    ensures s == "" ==> s + tail == tail && (tail == "" || tail[0] == '/')
    ensures s != "" ==> (s + tail)[1..] == s[1..] + tail && (s + tail)[0] == s[0] != '/' && '/' !in s[1..]
  {
  }

  /** The tokens of one segment match within one segment. */
  lemma {:induction false} SegmentAccepted(p: string, tokens: seq<Token>, s: string, tail: string)
    requires PatternSegment(p) && AtBoundary(tokens) && '/' !in s && IsTail(tail)
    ensures Accepts(Tokens(p) + tokens, s + tail) <==> SegmentMatches(p, s) && Accepts(tokens, tail)
    decreases |p|, |s|
  {
    hide *;
    WithTail(s, tail);
    if p == "" {
      SegmentEnd(tokens, s, tail);
    } else if GroupLength(p) > 0 {
      GroupAccepted(p, tokens, s, tail);
    } else {
      FirstPlain(p);
      SegmentStep(p, s);
      var rest := Tokens(p[1..]) + tokens;
      Grouped(PlainToken(p[0]), Tokens(p[1..]), tokens);
      if p[0] == '*' {
        StarIs(p[0]);
        NotSlashesAccept(rest, s + tail);
        SegmentAccepted(p[1..], tokens, s, tail);
        if s != "" {
          SegmentAccepted(p, tokens, s[1..], tail);
        }
      } else {
        OneAccepts(p[0], rest, s + tail);
        if s != "" {
          SegmentAccepted(p[1..], tokens, s[1..], tail);
        }
      }
    }
  }

  /** What a character outside groups compiles to. */
  function PlainToken(c: char): Token {
    if c == '*' then NotSlashes else if c == '?' then NotSlash else Char(c)
  }

  lemma StarIs(c: char)
    requires c == '*'
    ensures PlainToken(c) == NotSlashes
  {
  }

  lemma OneAccepts(c: char, rest: seq<Token>, r: string)
    requires c != '*' && c != '/'
    ensures Accepts([PlainToken(c)] + rest, r)
            <==> r != "" && r[0] != '/' && (c == '?' || r[0] == c) && Accepts(rest, r[1..])
  {
    hide Accepts;
    CharAccepts(c, rest, r);
    NotSlashAccepts(rest, r);
  }

  lemma FirstPlain(p: string)
    requires p != "" && PatternSegment(p) && GroupLength(p) == 0
    ensures Tokens(p) == [PlainToken(p[0])] + Tokens(p[1..]) && PatternSegment(p[1..]) && p[0] != '/'
  {
    FirstToken(p);
  }

  lemma GroupAccepted(p: string, tokens: seq<Token>, s: string, tail: string)
    requires PatternSegment(p) && AtBoundary(tokens) && '/' !in s && IsTail(tail) && p != "" && GroupLength(p) > 0
    ensures Accepts(Tokens(p) + tokens, s + tail) <==> SegmentMatches(p, s) && Accepts(tokens, tail)
    decreases |p|, |s|, 0
  {
    hide PatternSegment, AtBoundary, GroupLength, ReadClass, Tokens, SegmentMatches, Accepts, Class.Has;
    FirstGroup(p);
    var n, members := GroupLength(p), ReadClass(p[1..GroupLength(p) - 1]);
    var text, rest := p[..n], Tokens(p[n..]) + tokens;
    Grouped(Group(text, members), Tokens(p[n..]), tokens);
    NoSlashIn(p, n);
    WithinTail(text, s, tail);
    GroupAccepts(text, members, rest, s + tail);
    GroupMatches(p, s);
    if text <= s {
      SegmentAccepted(p[n..], tokens, s[n..], tail);
    }
    if s != "" {
      assert (s + tail)[1..] == s[1..] + tail && (s + tail)[0] == s[0];
      SegmentAccepted(p[n..], tokens, s[1..], tail);
    } else {
      assert s + tail == tail;
    }
  }

  lemma FirstGroup(p: string)
    requires p != "" && PatternSegment(p) && GroupLength(p) > 0
    ensures var n, members := GroupLength(p), ReadClass(p[1..GroupLength(p) - 1]);
            && Tokens(p) == [Group(p[..n], members)] + Tokens(p[n..]) && PatternSegment(p[n..])
            && !TakesSlash(members)
  {
    FirstToken(p);
  }

  lemma NoSlashIn(p: string, n: nat)
    requires PatternSegment(p) && n <= |p|
    ensures '/' !in p[..n]
  {
  }

  lemma GroupAccepts(text: string, members: Option<Class>, rest: seq<Token>, r: string)
    ensures Accepts([Group(text, members)] + rest, r)
            <==> || (text <= r && Accepts(rest, r[|text|..]))
                 || (r != "" && members.Some? && members.value.Has(r[0]) && Accepts(rest, r[1..]))
  {
    assert ([Group(text, members)] + rest)[1..] == rest;
  }

  lemma GroupMatches(p: string, s: string)
    requires p != "" && GroupLength(p) > 0
    ensures var n, members := GroupLength(p), ReadClass(p[1..GroupLength(p) - 1]);
            SegmentMatches(p, s)
            <==> || (p[..n] <= s && SegmentMatches(p[n..], s[n..]))
                 || (s != "" && members.Some? && members.value.Has(s[0]) && SegmentMatches(p[n..], s[1..]))
  {
  }

  lemma FirstToken(p: string)
    requires p != "" && PatternSegment(p)
    ensures var (token, n) := NextToken(p);
            && Tokens(p) == [token] + Tokens(p[n..]) && PatternSegment(p[n..])
            && if GroupLength(p) == 0 then n == 1 && token == PlainToken(p[0])
               else n == GroupLength(p) && token == Group(p[..n], ReadClass(p[1..n - 1])) && !TakesSlash(token.members)
  {
    var n := NextToken(p).1;
    assert forall i :: 0 <= i < |p[n..]| ==> p[n..][i] == p[i + n];
    if p[0] == '*' && |p| > 1 {
      assert p[1] != '*';
    }
  }

  lemma {:induction false} IndexBefore(s: string, c: char, more: string)
    requires c in s
    ensures IndexOf(s + more, c) == IndexOf(s, c) < |s|
  {
    assert (s + more)[0] == s[0];
    if s[0] != c {
      assert (s + more)[1..] == s[1..] + more;
      IndexBefore(s[1..], c, more);
    }
  }

  lemma SameGroup(p: string, more: string)
    requires p != "" && PatternSegment(p) && more != "" && more[0] == '/'
    ensures GroupLength(p + more) == GroupLength(p)
  {
    var r := p + more;
    assert r[1..] == p[1..] + more;
    if |p| > 1 {
      assert r[1] == p[1];
    } else {
      assert r[1] == '/';
    }
    if GroupLength(p) > 0 {
      IndexBefore(p[1..], ']', more);
    }
  }

  lemma SameNext(p: string, more: string)
    requires p != "" && PatternSegment(p) && more != "" && more[0] == '/'
    ensures NextToken(p + more) == NextToken(p)
  {
    hide GroupLength, ReadClass, PatternSegment;
    var r, n := p + more, GroupLength(p);
    SameGroup(p, more);
    assert r[0] == p[0] && r[..n] == p[..n] && (n > 1 ==> r[1..n - 1] == p[1..n - 1]);
    if p[0] == '*' {
      StarAlone(p);
      assert r[1] == if |p| == 1 then '/' else p[1];
    }
  }

  lemma StarAlone(p: string)
    requires p != "" && PatternSegment(p) && p[0] == '*'
    ensures |p| == 1 || p[1] != '*'
  {
  }

  lemma TokensStep(r: string)
    requires r != ""
    ensures Tokens(r) == [NextToken(r).0] + Tokens(r[NextToken(r).1..])
  {
  }

  lemma SameToken(p: string, rest: string)
    requires p != "" && PatternSegment(p)
    ensures var n := NextToken(p).1;
            Tokens(p + ("/" + rest)) == [NextToken(p).0] + Tokens(p[n..] + ("/" + rest))
  {
    hide NextToken, Tokens, PatternSegment;
    var r, n := p + ("/" + rest), NextToken(p).1;
    SameNext(p, "/" + rest);
    TokensStep(r);
    assert r[n..] == p[n..] + ("/" + rest);
  }

  /** The tokens of a segment, a slash and what follows. */
  lemma {:induction false} SegmentTokens(p: string, rest: string)
    requires PatternSegment(p)
    ensures Tokens(p + ("/" + rest)) == Tokens(p) + ([Char('/')] + Tokens(rest))
    decreases |p|
  {
    if p == "" {
      assert "" + ("/" + rest) == "/" + rest && ("/" + rest)[1..] == rest;
      assert [] + ([Char('/')] + Tokens(rest)) == [Char('/')] + Tokens(rest);
    } else {
      FirstToken(p);
      SameToken(p, rest);
      var (token, n) := NextToken(p);
      SegmentTokens(p[n..], rest);
      Grouped(token, Tokens(p[n..]), [Char('/')] + Tokens(rest));
    }
  }

  lemma Grouped(t: Token, a: seq<Token>, b: seq<Token>)
    ensures ([t] + a) + b == [t] + (a + b)
  {
  }

  lemma StarsTokens(rest: string)
    ensures Tokens("**/" + rest) == [Folders] + Tokens(rest) && Tokens("**") == [Anything]
  {
    assert ("**/" + rest)[3..] == rest;
    assert "**"[2..] == "";
  }

  lemma {:induction false} AnythingAccepts(r: string)
    ensures Accepts([Anything], r) <==> Dots(r)
  {
    assert [Anything][1..] == [];
    if r != "" {
      AnythingAccepts(r[1..]);
    }
  }

  lemma {:induction false} FoldersSkip(tokens: seq<Token>, s: string, r: string)
    requires '/' !in s
    ensures AfterFolders(tokens, s + ("/" + r)) <==> Dots(s) && (Accepts(tokens, r) || AfterFolders(tokens, r))
    ensures !AfterFolders(tokens, s)
  {
    var t := s + ("/" + r);
    if s == "" {
      assert t == "/" + r && ("/" + r)[1..] == r;
    } else {
      assert t[1..] == s[1..] + ("/" + r);
      FoldersSkip(tokens, s[1..], r);
    }
  }

  lemma SlashFirst(tokens: seq<Token>, tail: string)
    requires IsTail(tail)
    ensures Accepts([Char('/')] + tokens, tail) <==> tail != "" && Accepts(tokens, tail[1..])
  {
    assert ([Char('/')] + tokens)[1..] == tokens;
  }

  /** The path after its first segment. */
  function Tail(ss: seq<string>): string
    requires ss != []
  {
    if |ss| == 1 then "" else "/" + Join(ss[1..])
  }

  lemma JoinTail(ss: seq<string>)
    requires ss != []
    ensures Join(ss) == ss[0] + Tail(ss) && IsTail(Tail(ss))
    ensures |ss| > 1 ==> Tail(ss) != "" && Tail(ss)[1..] == Join(ss[1..])
  {
    assert ss[0] + "" == ss[0];
  }

  /** How the expression may end after the pattern's own tokens. */
  predicate IsEnding(tokens: seq<Token>) {
    tokens == [] || tokens == [Below]
  }

  /** What an ending adds to a list of segments. */
  predicate EndedMatches(ps: seq<string>, ss: seq<string>, ending: seq<Token>) {
    GlobMatches(ps, ss) || (ending == [Below] && GlobMatches(ps + ["**"], ss))
  }

  lemma {:induction false} DotsJoin(ss: seq<string>)
    requires ss != []
    ensures Dots(Join(ss)) <==> GlobMatches(["**"], ss)
  {
    if |ss| > 1 {
      DotsJoin(ss[1..]);
      var a, b := ss[0], Join(ss[1..]);
      var t := a + ("/" + b);
      if Dots(t) {
        assert forall i :: 0 <= i < |a| ==> a[i] == t[i];
        assert forall i :: 0 <= i < |b| ==> b[i] == t[|a| + 1 + i];
      }
    }
  }

  lemma BelowTail(ss: seq<string>)
    requires ss != []
    ensures Accepts([Below], Tail(ss)) <==> |ss| == 1 || GlobMatches(["**"], ss[1..])
  {
    JoinTail(ss);
    assert [Below][1..] == [] && [Anything] + [] == [Anything];
    if |ss| > 1 {
      AnythingAccepts(Join(ss[1..]));
      DotsJoin(ss[1..]);
    }
  }

  lemma PatternParts(ps: seq<string>)
    requires PatternSegments(ps)
    ensures ps != [] && (ps[0] == "**" || PatternSegment(ps[0]))
    ensures |ps| > 1 ==> PatternSegments(ps[1..])
  {
  }

  lemma PatternIsSegments(ps: seq<string>)
    requires PatternSegments(ps)
    ensures Segments(ps)
  {
    assert '/' !in "**";
  }

  lemma PathParts(ss: seq<string>)
    requires Segments(ss)
    ensures ss != [] && '/' !in ss[0] && (|ss| > 1 ==> Segments(ss[1..]))
  {
  }

  lemma FoldersGlob(tokens: seq<Token>, ss: seq<string>)
    requires Segments(ss)
    ensures AfterFolders(tokens, Join(ss)) <==> |ss| > 1 && Dots(ss[0]) && Accepts([Folders] + tokens, Join(ss[1..]))
  {
    PathParts(ss);
    FoldersSkip(tokens, ss[0], if |ss| > 1 then Join(ss[1..]) else "");
    assert ([Folders] + tokens)[1..] == tokens;
  }

  lemma FoldersSplit(tokens: seq<Token>, r: string)
    ensures Accepts([Folders] + tokens, r) <==> Accepts(tokens, r) || AfterFolders(tokens, r)
  {
    assert ([Folders] + tokens)[1..] == tokens;
  }

  lemma JoinMore(ps: seq<string>)
    requires |ps| > 1
    ensures Join(ps) == ps[0] + ("/" + Join(ps[1..])) && (ps[0] == "**" ==> Join(ps) == "**/" + Join(ps[1..]))
  {
  }

  lemma GlobStep(ps: seq<string>, ss: seq<string>)
    requires ps != [] && ss != []
    ensures ps[0] != "**" ==> (GlobMatches(ps, ss) <==> SegmentMatches(ps[0], ss[0]) && GlobMatches(ps[1..], ss[1..]))
    ensures ps[0] == "**" && |ps| > 1 ==>
              (GlobMatches(ps, ss) <==>
                 GlobMatches(ps[1..], ss) || (|ss| > 1 && Dots(ss[0]) && GlobMatches(ps, ss[1..])))
    ensures |ps| > 1 && |ss| == 1 ==> !GlobMatches(ps[1..], ss[1..])
    ensures |ps| == 1 ==> (GlobMatches(ps[1..], ss[1..]) <==> |ss| == 1)
  {
  }

  lemma MoreStars(ps: seq<string>)
    requires ps != []
    ensures (ps + ["**"])[1..] == ps[1..] + ["**"] && (ps + ["**"])[0] == ps[0] && |ps + ["**"]| > 1
    ensures |ps| == 1 ==> ps[1..] + ["**"] == ["**"]
  {
  }

  lemma NoStarParts(ps: seq<string>)
    requires ps != [] && NoStar(ps)
    ensures ps[0] != "**" && NoStar(ps[1..])
  {
    assert '*' in "**" by { assert "**"[0] == '*'; }
  }

  lemma WithEnding(a: seq<Token>, b: seq<Token>, ending: seq<Token>)
    ensures (a + ([Char('/')] + b)) + ending == a + ([Char('/')] + (b + ending)) && a + [] == a
  {
  }

  /** Tokens of a pattern accept a path when the pattern's segments match the path's. */
  lemma {:induction false} GlobAccepted(ps: seq<string>, ss: seq<string>, ending: seq<Token>)
    requires PatternSegments(ps) && Segments(ss) && IsEnding(ending) && (ending == [Below] ==> NoStar(ps))
    ensures Accepts(Tokens(Join(ps)) + ending, Join(ss)) <==> EndedMatches(ps, ss, ending)
    decreases |ps| + |ss|
  {
    hide Accepts, AfterFolders, GlobMatches, Tokens, PatternSegments, PatternSegment, Segments, SegmentMatches, Dots,
         NoStar, Join, Tail;
    PatternParts(ps);
    PathParts(ss);
    if ending == [Below] {
      NoStarParts(ps);
    }
    if ps[0] == "**" {
      StarsAccepted(ps, ss);
    } else {
      SegmentsAccepted(ps, ss, ending);
    }
  }

  lemma StarsAccepted(ps: seq<string>, ss: seq<string>)
    requires PatternSegments(ps) && Segments(ss) && ps[0] == "**"
    ensures Accepts(Tokens(Join(ps)) + [], Join(ss)) <==> GlobMatches(ps, ss)
    decreases |ps| + |ss|, 0
  {
    hide *;
    PatternParts(ps);
    PathParts(ss);
    if |ps| == 1 {
      JoinOne(ps);
      StarsTokens("");
      WithEnding([Anything], [], []);
      AnythingAccepts(Join(ss));
      DotsJoin(ss);
      assert ps == ["**"];
    } else {
      var rest := Tokens(Join(ps[1..]));
      JoinMore(ps);
      StarsTokens(Join(ps[1..]));
      WithEnding([Folders] + rest, [], []);
      WithEnding(rest, [], []);
      FoldersSplit(rest, Join(ss));
      EndedByNothing(ps[1..], ss);
      GlobAccepted(ps[1..], ss, []);
      FoldersGlob(rest, ss);
      GlobStep(ps, ss);
      if |ss| > 1 {
        EndedByNothing(ps, ss[1..]);
        GlobAccepted(ps, ss[1..], []);
      }
    }
  }

  lemma JoinOne(ps: seq<string>)
    requires |ps| == 1
    ensures Join(ps) == ps[0]
  {
  }

  lemma EndedByNothing(ps: seq<string>, ss: seq<string>)
    ensures EndedMatches(ps, ss, []) <==> GlobMatches(ps, ss)
    ensures IsEnding([]) && IsEnding([Below]) && [] != [Below]
    ensures EndedMatches(ps, ss, [Below]) <==> GlobMatches(ps, ss) || GlobMatches(ps + ["**"], ss)
  {
  }

  lemma EndingKind(ending: seq<Token>)
    requires IsEnding(ending)
    ensures ending == [] || ending == [Below]
    ensures AtBoundary(ending)
  {
  }

  lemma SlashBoundary(tokens: seq<Token>)
    ensures AtBoundary([Char('/')] + tokens)
  {
  }

  lemma EndsEmpty(tail: string)
    ensures Accepts([], tail) <==> tail == ""
  {
  }

  lemma TailEmpty(ss: seq<string>)
    requires ss != []
    ensures Tail(ss) == "" <==> |ss| == 1
  {
  }

  lemma SegmentsAccepted(ps: seq<string>, ss: seq<string>, ending: seq<Token>)
    requires PatternSegments(ps) && Segments(ss) && IsEnding(ending) && (ending == [Below] ==> NoStar(ps))
             && ps[0] != "**"
    ensures Accepts(Tokens(Join(ps)) + ending, Join(ss)) <==> EndedMatches(ps, ss, ending)
    decreases |ps| + |ss|, 0
  {
    hide *;
    PatternParts(ps);
    PathParts(ss);
    EndingKind(ending);
    JoinTail(ss);
    TailEmpty(ss);
    GlobStep(ps, ss);
    MoreStars(ps);
    GlobStep(ps + ["**"], ss);
    EndedByNothing(ps, ss);
    if |ps| == 1 {
      JoinOne(ps);
      SegmentAccepted(ps[0], ending, ss[0], Tail(ss));
      EndsEmpty(Tail(ss));
      BelowTail(ss);
    } else {
      var rest := Tokens(Join(ps[1..]));
      JoinMore(ps);
      SegmentTokens(ps[0], Join(ps[1..]));
      WithEnding(Tokens(ps[0]), rest, ending);
      SlashBoundary(rest + ending);
      SegmentAccepted(ps[0], [Char('/')] + (rest + ending), ss[0], Tail(ss));
      SlashFirst(rest + ending, Tail(ss));
      if |ss| > 1 {
        if ending == [Below] {
          NoStarParts(ps);
        }
        GlobAccepted(ps[1..], ss[1..], ending);
        EndedByNothing(ps[1..], ss[1..]);
      } else {
        MoreStars(ps[1..]);
        NothingLeft(ps[1..] + ["**"], ss[1..]);
      }
    }
  }

  lemma NothingLeft(ps: seq<string>, ss: seq<string>)
    requires ps != [] && ss == []
    ensures !GlobMatches(ps, ss)
  {
  }

  // ---------------------------------------------------------------------------------------------
  // Whole patterns
  // ---------------------------------------------------------------------------------------------

  function Split(s: string): (segments: seq<string>)
    ensures segments != []
  {
    if s == "" then [""]
    else
      var rest := Split(s[1..]);
      if s[0] == '/' then [""] + rest else [[s[0]] + rest[0]] + rest[1..]
  }

  /** Every text is the join of its segments. */
  lemma {:induction false} SplitJoins(s: string)
    ensures Segments(Split(s)) && Join(Split(s)) == s
  {
    if s != "" {
      SplitJoins(s[1..]);
      SplitStep(s, Split(s[1..]));
    }
  }

  lemma SplitStep(s: string, rest: seq<string>)
    requires s != "" && Segments(rest) && Join(rest) == s[1..]
    ensures var all := if s[0] == '/' then [""] + rest else [[s[0]] + rest[0]] + rest[1..];
            Segments(all) && Join(all) == s
  {
    var all := if s[0] == '/' then [""] + rest else [[s[0]] + rest[0]] + rest[1..];
    hide Join, Tail;
    JoinTail(all);
    JoinTail(rest);
    assert s == [s[0]] + s[1..];
    if s[0] == '/' {
      assert all[1..] == rest;
      assert "" + Tail(all) == Tail(all);
      assert Tail(all)[0] == '/';
      assert Tail(all) == ['/'] + Tail(all)[1..];
    } else {
      assert all[1..] == rest[1..];
      SameTail(all, rest);
      assert ([s[0]] + rest[0]) + Tail(rest) == [s[0]] + (rest[0] + Tail(rest));
    }
  }

  lemma SameTail(a: seq<string>, b: seq<string>)
    requires a != [] && b != [] && a[1..] == b[1..] && |a| == |b|
    ensures Tail(a) == Tail(b)
  {
    hide Join;
  }

  lemma {:induction false} JoinEnds(ps: seq<string>)
    requires Segments(ps)
    ensures EndsWithSlash(Join(ps)) <==> |ps| > 1 && ps[|ps| - 1] == ""
    ensures '*' !in Join(ps) <==> NoStar(ps)
  {
    if |ps| > 1 {
      JoinEnds(ps[1..]);
      var a, b := ps[0], Join(ps[1..]);
      var t := a + ("/" + b);
      assert b != "" ==> t[|t| - 1] == b[|b| - 1];
      assert b == "" ==> t[|t| - 1] == '/';
      assert '*' in t <==> '*' in a || '*' in b;
      assert NoStar(ps) <==> '*' !in a && NoStar(ps[1..]) by {
        assert forall i :: 0 < i < |ps| ==> ps[i] == ps[1..][i - 1];
      }
      assert b == "" <==> |ps| == 2 && ps[1] == "" by {
        JoinTail(ps[1..]);
      }
    }
  }

  lemma FrontParts(ps: seq<string>)
    requires PatternSegments(ps) && |ps| > 1 && ps[|ps| - 1] == ""
    ensures var front := ps[..|ps| - 1];
            && front != [] && PatternSegments(front + ["**"]) && PatternSegments(front)
            && ps == front + [""]
  {
    var front := ps[..|ps| - 1];
    assert forall i :: 0 <= i < |front| ==> front[i] == ps[i];
  }

  /** A final slash compiles like a final `**` segment. */
  lemma {:induction false} SlashIsStars(front: seq<string>)
    requires PatternSegments(front)
    ensures Tokens(Join(front + [""])) + [Anything] == Tokens(Join(front + ["**"]))
    decreases front
  {
    hide Tokens, PatternSegment;
    PatternParts(front);
    var a, b := front + [""], front + ["**"];
    assert a[1..] == front[1..] + [""] && b[1..] == front[1..] + ["**"];
    JoinMore(a);
    JoinMore(b);
    StarsTokens("");
    EmptyTokens();
    if |front| == 1 {
      JoinOne(a[1..]);
      JoinOne(b[1..]);
    } else {
      SlashIsStars(front[1..]);
    }
    var x, y := Join(a[1..]), Join(b[1..]);
    if front[0] == "**" {
      StarsTokens(x);
      StarsTokens(y);
      assert ([Folders] + Tokens(x)) + [Anything] == [Folders] + (Tokens(x) + [Anything]);
    } else {
      SegmentTokens(front[0], x);
      SegmentTokens(front[0], y);
      WithEnding(Tokens(front[0]), Tokens(x), [Anything]);
    }
  }

  lemma EmptyTokens()
    ensures Tokens("") == [] && [] + [Anything] == [Anything]
  {
  }

  /** A pattern whose `**` and bracket groups keep to segments matches exactly the paths it means. */
  lemma PatternMeans(path: string, pattern: string, ps: seq<string>, ss: seq<string>)
    requires PatternSegments(ps) && NormalizePath(pattern) == Join(ps)
    requires Segments(ss) && NormalizePath(path) == Join(ss)
    ensures MatchesPattern(path, pattern) <==> Means(ps, ss)
  {
    hide Accepts, Tokens, GlobMatches, NormalizePath, PatternSegment;
    PatternIsSegments(ps);
    JoinEnds(ps);
    if |ps| > 1 && ps[|ps| - 1] == "" {
      var front := ps[..|ps| - 1];
      FrontParts(ps);
      SlashIsStars(front);
      GlobAccepted(front + ["**"], ss, []);
      EndedByNothing(front + ["**"], ss);
      WithEnding(Tokens(Join(front + ["**"])), [], []);
    } else {
      var ending := if NoStar(ps) then [Below] else [];
      EndedByNothing(ps, ss);
      GlobAccepted(ps, ss, ending);
    }
  }

  /** What a pattern matches without `**` between two parts, it matches with it: the folders between may be none. */
  lemma {:induction false} StarsMatchNone(a: seq<string>, b: seq<string>, ss: seq<string>)
    requires b != [] && GlobMatches(a + b, ss)
    ensures GlobMatches(a + ["**"] + b, ss)
    decreases |a| + |ss|
  {
    if a == [] {
      assert [] + b == b && ["**"] + b == [] + ["**"] + b;
      assert (["**"] + b)[1..] == b;
      GlobNotEmpty(b, ss);
    } else {
      var ab, all := a + b, a + ["**"] + b;
      assert ab[1..] == a[1..] + b && all[1..] == a[1..] + ["**"] + b;
      GlobNotEmpty(ab, ss);
      GlobStep(ab, ss);
      GlobStep(all, ss);
      if a[0] == "**" {
        if GlobMatches(ab[1..], ss) {
          StarsMatchNone(a[1..], b, ss);
        } else {
          StarsMatchNone(a, b, ss[1..]);
        }
      } else {
        StarsMatchNone(a[1..], b, ss[1..]);
      }
    }
  }

  lemma GlobNotEmpty(ps: seq<string>, ss: seq<string>)
    requires ps != [] && GlobMatches(ps, ss)
    ensures ss != []
  {
  }

  /**
   * Two stars beside other characters take the slash after them as well, which the segments of pattern and path do not.
   */
  lemma StarsInNameAbsorbSlash()
    ensures MatchesPattern("ab", "a**/b")
    ensures Join(["a**", "b"]) == "a**/b" && Join(["ab"]) == "ab" && !Means(["a**", "b"], ["ab"])
  {
    StarsAbsorb();
    SegmentsDiffer();
  }

  lemma SegmentsDiffer()
    ensures Join(["a**", "b"]) == "a**/b" && Join(["ab"]) == "ab" && !Means(["a**", "b"], ["ab"])
  {
    hide SegmentMatches;
    var ps := ["a**", "b"];
    assert ps[1..] == ["b"] && ps[1] == "b";
    assert ["ab"][1..] == [] && !GlobMatches(["b"], []);
    assert '*' in ps[0] by { assert ps[0][1] == '*'; }
    assert !NoStar(ps);
  }

  lemma StarsAbsorb()
    ensures MatchesPattern("ab", "a**/b")
  {
    var t := "a**/b";
    PlainPath("ab");
    PlainPath(t);
    StarTokens();
    assert '*' in t by { assert t[1] == '*'; }
    assert [Char('a'), Folders, Char('b')] + [] == [Char('a'), Folders, Char('b')];
    StarAccepts();
  }

  lemma StarTokens()
    ensures Tokens("a**/b") == [Char('a'), Folders, Char('b')]
  {
    assert "a**/b"[1..] == "**/b" && "b"[1..] == "";
    StarsTokens("b");
    assert "**/" + "b" == "**/b";
    assert Tokens("b") == [Char('b')] + Tokens("");
  }

  lemma StarAccepts()
    ensures Accepts([Char('a'), Folders, Char('b')], "ab")
  {
    assert [Char('a'), Folders, Char('b')][1..] == [Folders, Char('b')];
    assert [Folders, Char('b')][1..] == [Char('b')] && [Char('b')][1..] == [];
    assert "ab"[1..] == "b" && "b"[1..] == "";
    assert Accepts([Char('b')], "b");
    assert Accepts([Folders, Char('b')], "b");
  }

  lemma {:induction false} PlainPath(s: string)
    requires '\\' !in s
    ensures Slashed(s) == s && (|s| < 2 || s[0] != '.' ==> NormalizePath(s) == s)
  {
    if s != "" {
      PlainPath(s[1..]);
    }
  }

  /** No star, no question mark, no bracket. */
  predicate IsLiteral(p: string) {
    '*' !in p && '?' !in p && '[' !in p
  }

  lemma LiteralTokens(p: string)
    requires IsLiteral(p) && p != ""
    ensures IsLiteral(p[1..]) && Tokens(p) == [Char(p[0])] + Tokens(p[1..])
  {
    hide Accepts;
  }

  lemma PrefixByChar(p: string, r: string)
    requires p != ""
    ensures p <= r <==> r != "" && r[0] == p[0] && p[1..] <= r[1..]
    ensures p <= r ==> r[|p|..] == r[1..][|p[1..]|..]
  {
    assert p == [p[0]] + p[1..];
    if r != "" {
      assert r == [r[0]] + r[1..];
    }
  }

  lemma {:induction false} LiteralAccepts(p: string, rest: seq<Token>, r: string)
    requires IsLiteral(p)
    ensures Accepts(Tokens(p) + rest, r) <==> p <= r && Accepts(rest, r[|p|..])
    decreases |p|
  {
    hide *;
    if p == "" {
      NoTokens(rest, r);
    } else {
      LiteralTokens(p);
      assert [Char(p[0])] + Tokens(p[1..]) + rest == [Char(p[0])] + (Tokens(p[1..]) + rest);
      CharAccepts(p[0], Tokens(p[1..]) + rest, r);
      PrefixByChar(p, r);
      if r != "" {
        LiteralAccepts(p[1..], rest, r[1..]);
      }
    }
  }

  lemma NoTokens(rest: seq<Token>, r: string)
    ensures Tokens("") + rest == rest && r[0..] == r && "" <= r
  {
  }

  /** The path with this very text, or one below it. */
  predicate IsOrBelow(p: string, r: string) {
    if EndsWithSlash(p) then p <= r && Dots(r[|p|..]) else r == p || (p + "/" <= r && Dots(r[|p| + 1..]))
  }

  /** A literal pattern matches its own path and everything below it, and nothing else. */
  lemma LiteralMatches(path: string, pattern: string)
    requires IsLiteral(NormalizePath(pattern))
    ensures MatchesPattern(path, pattern) <==> IsOrBelow(NormalizePath(pattern), NormalizePath(path))
  {
    hide NormalizePath, Tokens;
    var p, r := NormalizePath(pattern), NormalizePath(path);
    LiteralAccepts(p, Ending(p), r);
    if p <= r {
      var rest := r[|p|..];
      AnythingAccepts(rest);
      assert [Below][1..] == [] && [Anything] + [] == [Anything];
      if rest != "" {
        AnythingAccepts(rest[1..]);
        assert rest[1..] == r[|p| + 1..];
        assert p + "/" <= r <==> rest[0] == '/';
      }
    }
  }

  // ---------------------------------------------------------------------------------------------
  // A pattern's own text
  // ---------------------------------------------------------------------------------------------

  /** The first token takes the text it was made of. */
  lemma OwnToken(p: string, rest: seq<Token>, tail: string)
    requires p != "" && Accepts(rest, p[NextToken(p).1..] + tail)
    ensures Accepts([NextToken(p).0] + rest, p + tail)
  {
    hide GroupLength, ReadClass, Accepts, AfterFolders;
    var (token, n) := NextToken(p);
    var r := p + tail;
    assert r[n..] == p[n..] + tail && r[0] == p[0] && p[..n] <= r;
    match token
    case Char(c) => CharAccepts(c, rest, r);
    case NotSlash => NotSlashAccepts(rest, r);
    case NotSlashes =>
      NotSlashesAccept(rest, r);
      NotSlashesAccept(rest, r[1..]);
    case Folders => FoldersTake(rest, r);
    case Anything => AnythingTakes(rest, r);
    case Group(text, members) => GroupAccepts(text, members, rest, r);
  }

  lemma AnythingTakes(rest: seq<Token>, r: string)
    requires |r| >= 2 && r[0] == r[1] == '*' && Accepts(rest, r[2..])
    ensures Accepts([Anything] + rest, r)
  {
    var tokens := [Anything] + rest;
    assert tokens[1..] == rest && r[1..][1..] == r[2..];
    assert Accepts(tokens, r[2..]);
    assert Accepts(tokens, r[1..]);
  }

  lemma FoldersTake(rest: seq<Token>, r: string)
    requires |r| >= 3 && r[0] == r[1] == '*' && r[2] == '/' && Accepts(rest, r[3..])
    ensures Accepts([Folders] + rest, r)
  {
    assert r[1..][1..] == r[2..] && r[2..][1..] == r[3..] && r[2..][0] == '/' && r[1..][0] == '*';
    assert AfterFolders(rest, r[2..]);
    assert AfterFolders(rest, r[1..]);
    FoldersSplit(rest, r);
  }

  lemma {:induction false} OwnTextAccepted(p: string, ending: seq<Token>, tail: string)
    requires Accepts(ending, tail)
    ensures Accepts(Tokens(p) + ending, p + tail)
    decreases |p|
  {
    hide NextToken, Tokens, Accepts;
    if p == "" {
      NoTokens(ending, tail);
      assert p + tail == tail;
    } else {
      var (token, n) := NextToken(p);
      TokensStep(p);
      OwnTextAccepted(p[n..], ending, tail);
      OwnToken(p, Tokens(p[n..]) + ending, tail);
      Grouped(token, Tokens(p[n..]), ending);
    }
  }

  /**
   * Whatever stars and brackets it holds, a pattern matches the path with its own text, and what is below it if it ends
   * in a slash or has no star.
   */
  lemma OwnTextMatches(path: string, pattern: string)
    requires IsOrBelow(NormalizePath(pattern), NormalizePath(path))
    requires NormalizePath(path) == NormalizePath(pattern) || EndsWithSlash(NormalizePath(pattern))
             || '*' !in NormalizePath(pattern)
    ensures MatchesPattern(path, pattern)
  {
    hide NormalizePath, Tokens;
    var p, r := NormalizePath(pattern), NormalizePath(path);
    var tail := r[|p|..];
    assert r == p + tail;
    EndingTakes(p, tail);
    OwnTextAccepted(p, Ending(p), tail);
  }

  lemma EndingTakes(p: string, tail: string)
    requires tail == "" || (if EndsWithSlash(p) then Dots(tail) else '*' !in p && tail[0] == '/' && Dots(tail[1..]))
    ensures Accepts(Ending(p), tail)
  {
    AnythingAccepts(tail);
    assert [Below][1..] == [] && [Anything] + [] == [Anything];
    if tail != "" {
      AnythingAccepts(tail[1..]);
    }
  }

  /** A class of all characters but some takes a slash, which no segment holds. */
  lemma ClassTakesSlash()
    ensures MatchesPattern("a/c", "a[!b]c")
    ensures Join(["a[!b]c"]) == "a[!b]c" && Join(["a", "c"]) == "a/c" && !Means(["a[!b]c"], ["a", "c"])
  {
    ClassAccepts();
    ClassMeans();
  }

  lemma NotB()
    ensures GroupLength("[!b]c") == 4 && "[!b]c"[..4] == "[!b]" && "[!b]c"[1..3] == "!b" && "[!b]c"[4..] == "c"
  {
    var s := "!b]c";
    assert "[!b]c"[1..] == s && s[1..] == "b]c" && s[1..][1..] == "]c";
    assert IndexOf("]c", ']') == 0;
    assert IndexOf("b]c", ']') == 1;
  }

  lemma NotBClass()
    ensures ReadClass("!b") == Some(Class(true, [('b', 'b')])) && Class(true, [('b', 'b')]).Has('/')
  {
    assert "!b"[1..] == "b" && "b"[1..] == "";
    assert Ranges("") == Some([]);
    assert [('b', 'b')] + [] == [('b', 'b')];
    assert Ranges("b") == Some([('b', 'b')]);
  }

  lemma ClassTokens(g: Token)
    requires g == Group("[!b]", Some(Class(true, [('b', 'b')])))
    ensures Tokens("a[!b]c") == [Char('a')] + ([g] + [Char('c')])
  {
    hide GroupLength, ReadClass, Accepts;
    var p := "a[!b]c";
    NotB();
    NotBClass();
    LetterFirst(p);
    LetterFirst("c");
    assert p[1..] == "[!b]c" && "c"[1..] == "";
    TokensStep(p);
    TokensStep("[!b]c");
    TokensStep("c");
  }

  lemma ClassTakes(g: Token, ending: seq<Token>)
    requires g.Group? && g.members.Some? && g.members.value.Has('/') && Accepts(ending, "")
    ensures Accepts([Char('a'), g, Char('c')] + ending, "a/c")
  {
    hide Class.Has, Accepts;
    var r := "a/c";
    assert r[1..] == "/c" && "/c"[1..] == "c" && "c"[1..] == "";
    CharAccepts('c', ending, "c");
    GroupAccepts(g.text, g.members, [Char('c')] + ending, "/c");
    CharAccepts('a', [g] + ([Char('c')] + ending), r);
    assert [Char('a'), g, Char('c')] + ending == [Char('a')] + ([g] + ([Char('c')] + ending));
  }

  lemma ClassAccepts()
    ensures MatchesPattern("a/c", "a[!b]c")
  {
    hide ReadClass, Class.Has, Accepts, Tokens, Ending, Slashed;
    var p, r := "a[!b]c", "a/c";
    var g := Group("[!b]", Some(Class(true, [('b', 'b')])));
    NotBClass();
    ClassTokens(g);
    PlainPath(p);
    PlainPath(r);
    EndingTakes(p, "");
    ClassTakes(g, Ending(p));
    assert [Char('a')] + ([g] + [Char('c')]) == [Char('a'), g, Char('c')];
  }

  lemma LetterFirst(p: string)
    requires p != "" && p[0] != '['
    ensures GroupLength(p) == 0
  {
  }

  lemma ClassMeans()
    ensures Join(["a[!b]c"]) == "a[!b]c" && Join(["a", "c"]) == "a/c" && !Means(["a[!b]c"], ["a", "c"])
  {
    var p := "a[!b]c";
    assert p[1..] == "[!b]c" && "a"[1..] == "";
    assert ["a", "c"][1..] == ["c"];
    LetterFirst(p);
    assert !SegmentMatches("[!b]c", "");
    assert !SegmentMatches(p, "a");
    assert [p] + ["**"] == [p, "**"];
  }
}
