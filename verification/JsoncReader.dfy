/**
 * The span reader: a cursor over the text that builds positions, not trees. Its spans are those of the document's tree,
 * and it fails exactly where the grammar does.
 */
module JsoncReader {
  import opened Prelude
  import opened JsonString
  import opened JsoncSyntax

  /** Where an object's members and braces are, or where any other value begins and ends. */
  datatype Node = ObjectNode(start: nat, end: nat, members: seq<NodeMember>) | ValueNode(start: nat, end: nat)

  datatype NodeMember = NodeMember(key: string, keyStart: nat, value: Node, comma: Option<nat>)

  function KeyOf(m: Member): string {
    if m.name.Some? && Decode(m.name.value.key).Some? then Decode(m.name.value.key).value else ""
  }

  /** The spans of a value printed at position `at`. */
  function NodeAt(v: Value, at: nat): Node
    decreases v, 0
  {
    match v
    case Group(true, members, _) => ObjectNode(at, at + |Print(v)|, NodesAt(members, at + 1))
    case _ => ValueNode(at, at + |Print(v)|)
  }

  function MemberAt(m: Member, at: nat): NodeMember
    decreases m, 1
  {
    var value := at + |m.lead| + |PrintName(m.name)|;
    NodeMember(KeyOf(m), at + |m.lead|, NodeAt(m.value, value),
               if m.comma then Some(value + |Print(m.value)| + |m.tail|) else None)
  }

  function NodesAt(ms: seq<Member>, at: nat): (nodes: seq<NodeMember>)
    ensures |nodes| == |ms|
    decreases ms
  {
    if ms == [] then [] else [MemberAt(ms[0], at)] + NodesAt(ms[1..], at + |PrintMember(ms[0])|)
  }

  /** Reading a value at `at`, no trivia before it, must give these spans and end there. */
  ghost predicate ReadsAt(source: string, at: nat, node: Option<Node>, end: nat)
    requires at <= |source|
  {
    var r := ReadValue(source[at..]);
    if r.None? then node.None? else node == Some(NodeAt(r.value.0, at)) && end == at + r.value.1
  }

  /** The same with trivia before the value. */
  ghost predicate Reads(source: string, at: nat, node: Option<Node>, end: nat)
    requires at <= |source|
  {
    var k := Skip(source[at..]);
    if k.None? then node.None? else ReadsAt(source, at + k.value, node, end)
  }

  /** Members already read, in front of the rest of their group. */
  function Behind(done: seq<Member>, n: nat, rest: Option<(seq<Member>, string, nat)>): Option<(seq<Member>, string,
      nat)> {
    if rest.None? then None else Some((done + rest.value.0, rest.value.1, n + rest.value.2))
  }

  /** A group opened just before `start`, of which `done` has been read up to `at`. */
  ghost predicate Collected(source: string, start: nat, done: seq<Member>, at: nat, curly: bool)
    requires start <= at <= |source|
  {
    && at == start + |PrintMembers(done)|
    && ReadMembers(source[start..], curly) == Behind(done, at - start, ReadMembers(source[at..], curly))
  }

  class Reader {
    const source: string
    var at: nat

    constructor (source: string)
      ensures this.source == source && at == 0
    {
      this.source := source;
      at := 0;
    }

    method SkipTrivia() returns (ok: bool)
      requires at <= |source|
      modifies this
      ensures ok == Skip(source[old(at)..]).Some?
      ensures old(at) <= at <= |source|
      ensures ok ==> at == old(at) + Skip(source[old(at)..]).value
    {
      hide Skip, CommentEnd, Newline;
      while true
        invariant old(at) <= at <= |source| && Skipped(source, old(at), at)
        decreases |source| - at
      {
        while at < |source| && IsSpace(source[at])
          invariant old(at) <= at <= |source| && Skipped(source, old(at), at)
          decreases |source| - at
        {
          StepOver(source, old(at), at, 1);
          at := at + 1;
        }
        var r := source[at..];
        StopHere(r);
        if LineComment(r) {
          StepOver(source, old(at), at, 2 + Newline(r[2..]));
          at := at + 2 + Newline(r[2..]);
        } else if BlockComment(r) {
          var close := CommentEnd(r[2..]);
          if close.None? {
            return false;
          }
          StepOver(source, old(at), at, 2 + close.value);
          at := at + 2 + close.value;
        } else {
          return true;
        }
      }
    }

    /** Past a string whose opening quote is at the cursor. */
    method StringToken() returns (ok: bool)
      requires at < |source| && source[at] == '"'
      modifies this
      ensures ok == StringEnd(source[old(at) + 1..]).Some?
      ensures ok ==> at == old(at) + 1 + StringEnd(source[old(at) + 1..]).value <= |source|
      ensures !ok ==> at == old(at)
    {
      hide StringEnd;
      var i := at + 1;
      while i < |source| && source[i] != '"'
        invariant old(at) < i <= |source| + 1 && at == old(at)
        invariant i <= |source| ==> Scanned(source, old(at) + 1, i)
        invariant i > |source| ==> StringEnd(source[old(at) + 1..]).None?
      {
        ScanStep(source, old(at) + 1, i);
        if source[i] == '\n' {
          break;
        }
        i := i + if source[i] == '\\' then 2 else 1;
      }
      if i >= |source| || source[i] != '"' {
        if i <= |source| {
          ScanEnd(source, old(at) + 1, i);
        }
        return false;
      }
      ScanEnd(source, old(at) + 1, i);
      at := i + 1;
      return true;
    }

    method ReadAny() returns (node: Option<Node>)
      requires at <= |source|
      modifies this
      ensures old(at) <= at <= |source|
      ensures Reads(source, old(at), node, at)
      decreases |source| - at, 2
    {
      hide *;
      var ok := SkipTrivia();
      var start := at;
      AfterSkip(source, old(at));
      if !ok {
        return None;
      }
      ValueCases(source, start);
      if at == |source| {
        return None;
      }
      if source[at] == '{' {
        node := ReadObject();
        return;
      } else if source[at] == '[' {
        ok := ReadArray();
      } else if source[at] == '"' {
        ok := StringToken();
      } else {
        var literal := LiteralEnd(source[at..]);
        ok := literal > 0;
        at := at + literal;
      }
      node := if ok then Some(ValueNode(start, at)) else None;
    }

    method ReadObject() returns (node: Option<Node>)
      requires at < |source| && source[at] == '{'
      modifies this
      ensures old(at) <= at <= |source|
      ensures ReadsAt(source, old(at), node, at)
      decreases |source| - at, 1
    {
      hide *;
      var start := at;
      Brackets();
      GroupOpens(source, start, true);
      at := at + 1;
      var members: seq<NodeMember> := [];
      ghost var done: seq<Member> := [];
      NothingCollected(source, at, true);
      while true
        invariant start < at <= |source|
        invariant Collected(source, start + 1, done, at, true)
        invariant members == NodesAt(done, start + 1)
        decreases |source| - at
      {
        ghost var from := at;
        HeadDecides(source, start + 1, done, from);
        var ok := SkipTrivia();
        if !ok || at == |source| {
          return None;
        }
        if source[at] == '}' {
          at := at + 1;
          return Some(ObjectNode(start, at, members));
        }
        var keyStart := at;
        var key, value := ReadPair(start + 1, from);
        if value.None? {
          return None;
        }
        ghost var m := MemberRead(source, start + 1, done, from, keyStart, key, value.value, at);
        ghost var more := done + [m];
        ok := SkipTrivia();
        if !ok || at == |source| {
          return None;
        }
        if source[at] == ',' {
          members := members + [NodeMember(key, keyStart, value.value, Some(at))];
          done := more;
          at := at + 1;
        } else if source[at] == '}' {
          members := members + [NodeMember(key, keyStart, value.value, None)];
          at := at + 1;
          return Some(ObjectNode(start, at, members));
        } else {
          return None;
        }
      }
    }

    /** A key, its colon and its value; `from` is where the trivia before the key begins. */
    method ReadPair(ghost start: nat, ghost from: nat) returns (key: string, value: Option<Node>)
      requires start <= from <= at < |source| && Decides(source, start, from, at)
      modifies this
      ensures old(at) <= at <= |source|
      ensures value.None? ==> ReadMembers(source[start..], true).None?
      ensures value.Some? ==> Pair(source, from, old(at), key, value.value, at)
      decreases |source| - at, 0
    {
      hide *;
      var keyStart := at;
      key, value := "", None;
      KeyDecides(source, start, from, keyStart);
      if source[at] != '"' {
        return;
      }
      var ok := StringToken();
      if !ok {
        return;
      }
      var keyEnd := at;
      var decoded := Decode(source[keyStart..keyEnd]);
      MidDecides(source, start, from, keyStart, keyEnd);
      if decoded.None? {
        return;
      }
      key := decoded.value;
      ok := SkipTrivia();
      if !ok || at == |source| || source[at] != ':' {
        return;
      }
      var colon := at;
      at := at + 1;
      value := ReadAny();
      PairRead(source, start, from, keyStart, keyEnd, colon, value, at);
    }

    method ReadArray() returns (ok: bool)
      requires at < |source| && source[at] == '['
      modifies this
      ensures old(at) <= at <= |source|
      ensures ok == ReadValue(source[old(at)..]).Some?
      ensures ok ==> at == old(at) + ReadValue(source[old(at)..]).value.1
      decreases |source| - at, 0
    {
      hide *;
      var start := at;
      Brackets();
      GroupOpens(source, start, false);
      at := at + 1;
      ghost var done: seq<Member> := [];
      NothingCollected(source, at, false);
      while true
        invariant start < at <= |source|
        invariant Collected(source, start + 1, done, at, false)
        decreases |source| - at
      {
        ghost var from := at;
        MembersCases(source, start + 1, done, from, false);
        ok := SkipTrivia();
        if !ok || at == |source| {
          return false;
        }
        if source[at] == ']' {
          at := at + 1;
          return true;
        }
        var itemStart := at;
        var item := ReadAny();
        ItemCases(source, from, itemStart, item, at);
        if item.None? {
          return false;
        }
        ghost var (m, end) := ReadHead(source[from..], itemStart - from, false).value;
        AfterCases(source, start + 1, done, from, m, end, false);
        ok := SkipTrivia();
        if !ok || at == |source| {
          return false;
        }
        if source[at] == ',' {
          done := done + [m.(tail := source[from + end..at], comma := true)];
          at := at + 1;
        } else if source[at] == ']' {
          at := at + 1;
          return true;
        } else {
          return false;
        }
      }
    }
  }

  /** Everything from `from` to `at` is trivia already passed. */
  ghost predicate Skipped(source: string, from: nat, at: nat)
    requires from <= at <= |source|
  {
    Skip(source[from..]) == Plus(at - from, Skip(source[at..]))
  }

  lemma StepOver(source: string, from: nat, at: nat, n: nat)
    requires from <= at <= |source| && Skipped(source, from, at) && Piece(source[at..]) == Some(n) && n > 0
    ensures at + n <= |source| && Skipped(source, from, at + n)
  {
    hide Skip, Piece;
    assert source[at..][n..] == source[at + n..];
    SkipStep(source[at..], n, source[at + n..]);
  }

  lemma StopHere(r: string)
    ensures r == "" || !IsSpace(r[0]) ==>
              && (LineComment(r) ==> Piece(r) == Some(2 + Newline(r[2..])))
              && (BlockComment(r) ==> Piece(r) == Plus(2, CommentEnd(r[2..])))
              && (BlockComment(r) && CommentEnd(r[2..]).None? ==> Skip(r).None?)
              && (!LineComment(r) && !BlockComment(r) ==> Skip(r) == Some(0))
  {
  }

  /** Inside a string from `from` to `i`, the rest of it still to come. */
  ghost predicate Scanned(source: string, from: nat, i: nat)
    requires from <= i <= |source|
  {
    StringEnd(source[from..]) == Plus(i - from, StringEnd(source[i..]))
  }

  lemma ScanStep(source: string, from: nat, i: nat)
    requires from <= i < |source| && Scanned(source, from, i) && source[i] != '"'
    ensures source[i] == '\n' ==> StringEnd(source[from..]).None?
    ensures source[i] == '\\' && i + 1 == |source| ==> StringEnd(source[from..]).None?
    ensures source[i] == '\\' && i + 1 < |source| ==> Scanned(source, from, i + 2)
    ensures source[i] != '\\' && source[i] != '\n' ==> Scanned(source, from, i + 1)
  {
    if source[i] == '\\' && i + 1 < |source| {
      assert source[i..][2..] == source[i + 2..];
    } else if source[i] != '\\' {
      assert source[i..][1..] == source[i + 1..];
    }
  }

  lemma ScanEnd(source: string, from: nat, i: nat)
    requires from <= i <= |source| && Scanned(source, from, i)
    ensures i == |source| || source[i] == '\n' ==> StringEnd(source[from..]).None?
    ensures i < |source| && source[i] == '"' ==> StringEnd(source[from..]) == Some(i - from + 1)
  {
  }

  lemma Suffix(source: string, at: nat, k: nat)
    requires at + k <= |source|
    ensures source[at..][k..] == source[at + k..]
    ensures at + k < |source| ==> source[at..][k] == source[at + k]
  {
  }

  lemma AfterSkip(source: string, at: nat)
    requires at <= |source|
    ensures Skip(source[at..]).None? ==> Reads(source, at, None, at) && forall end :: Reads(source, at, None, end)
    ensures Skip(source[at..]).Some? ==>
              && at + Skip(source[at..]).value <= |source|
              && forall node, end :: Reads(source, at, node, end)
                  <==> ReadsAt(source, at + Skip(source[at..]).value, node, end)
  {
  }

  /** `value()` by the first character; `n` characters of a value that is not an object are its span. */
  lemma ValueCases(source: string, p: nat)
    requires p <= |source|
    ensures p == |source| ==> forall end :: ReadsAt(source, p, None, end)
    ensures p < |source| && source[p] == '"' ==>
              && ReadValue(source[p..]).Some? == StringEnd(source[p + 1..]).Some?
              && (ReadValue(source[p..]).Some? ==>
                    ReadValue(source[p..]).value.1 == 1 + StringEnd(source[p + 1..]).value)
    ensures p < |source| && source[p] != '{' && source[p] != '[' && source[p] != '"' ==>
              && ReadValue(source[p..]).Some? == (LiteralEnd(source[p..]) > 0)
              && (ReadValue(source[p..]).Some? ==> ReadValue(source[p..]).value.1 == LiteralEnd(source[p..]))
              && p + LiteralEnd(source[p..]) <= |source|
    ensures p < |source| && ReadValue(source[p..]).None? ==> forall end :: ReadsAt(source, p, None, end)
    ensures p < |source| && ReadValue(source[p..]).Some? && source[p] != '{' ==>
              var n := ReadValue(source[p..]).value.1;
              p + n <= |source| && ReadsAt(source, p, Some(ValueNode(p, p + n)), p + n)
  {
    if p < |source| {
      Suffix(source, p, 1);
      ValueShape(source[p..]);
      if ReadValue(source[p..]).Some? {
        ReadIsPrinted(source[p..]);
      }
    }
  }

  function InGroup(curly: bool, rest: Option<(seq<Member>, string, nat)>): Option<(Value, nat)> {
    if rest.None? then None else Some((Group(curly, rest.value.0, rest.value.1), 1 + rest.value.2))
  }

  lemma ValueShape(r: string)
    requires r != ""
    ensures r[0] == '{' ==> ReadValue(r) == InGroup(true, ReadMembers(r[1..], true))
    ensures r[0] == '[' ==> ReadValue(r) == InGroup(false, ReadMembers(r[1..], false))
    ensures r[0] == '"' ==>
              ReadValue(r) == (var n := Plus(1, StringEnd(r[1..])); if n.None? then None
                               else Some((Token(r[..n.value]), n.value)))
    ensures r[0] != '{' && r[0] != '[' && r[0] != '"' ==>
              ReadValue(r) == (var n := LiteralEnd(r); if n == 0 then None else Some((Token(r[..n]), n)))
    ensures ReadValue(r).Some? && r[0] != '{' ==> !(ReadValue(r).value.0.Group? && ReadValue(r).value.0.curly)
  {
  }

  /** What the members say about the whole group. */
  lemma GroupOpens(source: string, start: nat, curly: bool)
    requires start < |source| && source[start] == Open(curly)
    ensures ReadMembers(source[start + 1..], curly).None? ==>
              ReadValue(source[start..]).None? && forall end :: ReadsAt(source, start, None, end)
    ensures ReadMembers(source[start + 1..], curly).Some? ==>
              var (ms, close, n) := ReadMembers(source[start + 1..], curly).value;
              && ReadValue(source[start..]).Some? && ReadValue(source[start..]).value.1 == 1 + n
                  && start + 1 + n <= |source|
              && (curly ==> ReadsAt(source, start, Some(ObjectNode(start, start + 1 + n, NodesAt(ms, start + 1))),
                                    start + 1 + n))
  {
    hide Skip, ReadMembers, ReadHead, Print, StringEnd, LiteralEnd, NodesAt;
    Suffix(source, start, 1);
    ValueShape(source[start..]);
    if ReadValue(source[start..]).Some? {
      ReadIsPrinted(source[start..]);
    }
  }

  lemma NothingCollected(source: string, start: nat, curly: bool)
    requires start <= |source|
    ensures Collected(source, start, [], start, curly) && NodesAt([], start) == []
  {
    var g := ReadMembers(source[start..], curly);
    if g.Some? {
      assert [] + g.value.0 == g.value.0;
    }
  }

  lemma MembersShape(r: string, curly: bool)
    ensures Skip(r).None? || Skip(r).value == |r| ==> ReadMembers(r, curly).None?
    ensures Skip(r).Some? && Skip(r).value < |r| ==>
              var k := Skip(r).value;
              if r[k] == Close(curly) then ReadMembers(r, curly) == Some(([], r[..k], k + 1))
              else if ReadHead(r, k, curly).None? then ReadMembers(r, curly).None?
              else && ReadHead(r, k, curly).value.1 <= |r|
                   && ReadMembers(r, curly)
                      == ReadAfter(r, ReadHead(r, k, curly).value.0, ReadHead(r, k, curly).value.1, curly)
  {
    hide Skip, ReadHead, ReadAfter;
  }

  lemma BehindNone(done: seq<Member>, n: nat)
    ensures Behind(done, n, None) == None
  {
  }

  lemma BehindLast(done: seq<Member>, n: nat, ms: seq<Member>, close: string, k: nat)
    ensures Behind(done, n, Some((ms, close, k))) == Some((done + ms, close, n + k))
  {
  }

  lemma IsCollected(source: string, start: nat, done: seq<Member>, at: nat, curly: bool)
    requires start <= at <= |source| && Collected(source, start, done, at, curly)
    ensures at == start + |PrintMembers(done)|
    ensures ReadMembers(source[start..], curly) == Behind(done, at - start, ReadMembers(source[at..], curly))
  {
  }

  lemma NoneMore(done: seq<Member>, source: string, from: nat, k: nat)
    requires from + k <= |source|
    ensures done + [] == done && source[from..][..k] == source[from..from + k]
  {
  }

  lemma MembersCases(source: string, start: nat, done: seq<Member>, from: nat, curly: bool)
    requires start <= from <= |source| && Collected(source, start, done, from, curly)
    ensures Skip(source[from..]).None? || from + Skip(source[from..]).value == |source|
            ==> ReadMembers(source[start..], curly).None?
    ensures Skip(source[from..]).Some? && from + Skip(source[from..]).value < |source| ==>
              var k := Skip(source[from..]).value;
              var p := from + k;
              if source[p] == Close(curly) then
                ReadMembers(source[start..], curly) == Some((done, source[from..p], p + 1 - start))
              else if ReadHead(source[from..], k, curly).None? then ReadMembers(source[start..], curly).None?
              else && from + ReadHead(source[from..], k, curly).value.1 <= |source|
                   && ReadMembers(source[from..], curly)
                      == ReadAfter(source[from..], ReadHead(source[from..], k, curly).value.0,
                                   ReadHead(source[from..], k, curly).value.1, curly)
  {
    hide *;
    IsCollected(source, start, done, from, curly);
    var r := source[from..];
    MembersShape(r, curly);
    BehindNone(done, from - start);
    if Skip(r).Some? && Skip(r).value < |r| {
      var k := Skip(r).value;
      Suffix(source, from, k);
      NoneMore(done, source, from, k);
      BehindLast(done, from - start, [], r[..k], k + 1);
    }
  }

  lemma HeadNone(r: string, k: nat)
    requires k < |r| && ReadName(r[k..]).None?
    ensures ReadHead(r, k, true).None?
  {
  }

  lemma KeyShape(r: string)
    requires r == "" || r[0] != '"' || StringEnd(r[1..]).None?
    ensures ReadName(r).None?
  {
  }

  lemma KeyCases(source: string, from: nat, p: nat)
    requires from <= p < |source|
    ensures source[p] != '"' || StringEnd(source[p + 1..]).None? ==> ReadHead(source[from..], p - from, true).None?
  {
    hide *;
    Suffix(source, from, p - from);
    Suffix(source, p, 1);
    Suffix(source, p, 0);
    if source[p] != '"' || StringEnd(source[p + 1..]).None? {
      KeyShape(source[p..]);
      HeadNone(source[from..], p - from);
    }
  }

  lemma NameShape(r: string, k: nat)
    requires r != "" && r[0] == '"' && StringEnd(r[1..]) == Some(k - 1) && 0 < k <= |r|
    ensures Decode(r[..k]).None? || Skip(r[k..]).None? ==> ReadName(r).None?
    ensures Decode(r[..k]).Some? && Skip(r[k..]).Some? ==>
              ReadName(r) == NameAtColon(r, k, k + Skip(r[k..]).value) && k + Skip(r[k..]).value <= |r|
  {
    hide Decode, Skip, NameAtColon, StringEnd;
  }

  lemma ColonShape(r: string, k: nat, colon: nat)
    requires k <= colon <= |r|
    ensures colon == |r| || r[colon] != ':' || Skip(r[colon + 1..]).None? ==> NameAtColon(r, k, colon).None?
    ensures colon < |r| && r[colon] == ':' && Skip(r[colon + 1..]).Some? ==>
              var n := colon + 1 + Skip(r[colon + 1..]).value;
              n <= |r| && NameAtColon(r, k, colon) == Some((Name(r[..k], r[k..colon], r[colon + 1..n]), n))
  {
    hide Skip;
  }

  lemma Slices(source: string, p: nat, i: nat, j: nat)
    requires i <= j && p + j <= |source|
    ensures source[p..][i..j] == source[p + i..p + j] && source[p..][..j] == source[p..p + j]
    ensures source[p..][j..] == source[p + j..] && |source[p..]| == |source| - p
    ensures p + j < |source| ==> source[p..][j] == source[p + j]
  {
  }

  /** After a key that ends at `k`: what is left of the name, and whether there is one. */
  lemma MidShape(r: string, k: nat)
    requires r != "" && r[0] == '"' && StringEnd(r[1..]) == Some(k - 1) && 0 < k <= |r|
    ensures Decode(r[..k]).None? || Skip(r[k..]).None? ==> ReadName(r).None?
    ensures Decode(r[..k]).Some? && Skip(r[k..]).Some? ==>
              var c := k + Skip(r[k..]).value;
              && c <= |r| && ReadName(r) == NameAtColon(r, k, c)
              && (c == |r| || r[c] != ':' ==> ReadName(r).None?)
  {
    hide *;
    NameShape(r, k);
    if Decode(r[..k]).Some? && Skip(r[k..]).Some? {
      ColonShape(r, k, k + Skip(r[k..]).value);
    }
  }

  lemma Prefixes(source: string, p: nat, q: nat)
    requires p < q <= |source|
    ensures var r := source[p..];
            && r != "" && r[0] == source[p] && r[1..] == source[p + 1..] && r[..q - p] == source[p..q]
                && r[q - p..] == source[q..]
            && |r| == |source| - p
  {
  }

  lemma HeadWithout(source: string, from: nat, p: nat)
    requires from <= p < |source| && ReadName(source[p..]).None?
    ensures ReadHead(source[from..], p - from, true).None?
  {
    hide ReadName, ReadValue;
    assert source[from..][p - from..] == source[p..];
  }

  lemma MidCases(source: string, from: nat, p: nat, q: nat)
    requires from <= p < q <= |source| && source[p] == '"' && StringEnd(source[p + 1..]) == Some(q - p - 1)
    ensures Decode(source[p..q]).None? || Skip(source[q..]).None? ==> ReadHead(source[from..], p - from, true).None?
    ensures Decode(source[p..q]).Some? && Skip(source[q..]).Some? ==>
              var c := q + Skip(source[q..]).value;
              && c <= |source|
              && ReadName(source[p..]) == NameAtColon(source[p..], q - p, c - p)
              && (c == |source| || source[c] != ':' ==> ReadHead(source[from..], p - from, true).None?)
  {
    hide *;
    Prefixes(source, p, q);
    MidShape(source[p..], q - p);
    if Decode(source[p..q]).Some? && Skip(source[q..]).Some? {
      Suffix(source, p, q + Skip(source[q..]).value - p);
    }
    if ReadName(source[p..]).None? {
      HeadWithout(source, from, p);
    }
  }

  lemma HeadShape(r: string, k: nat, curly: bool)
    requires k < |r| && (curly ==> ReadName(r[k..]).Some?)
    ensures var n := if curly then ReadName(r[k..]).value.1 else 0;
            && k + n <= |r|
            && (ReadValue(r[k + n..]).None? ==> ReadHead(r, k, curly).None?)
            && (ReadValue(r[k + n..]).Some? ==>
                  ReadHead(r, k, curly)
                  == Some((Member(r[..k], if curly then Some(ReadName(r[k..]).value.0) else None,
                                  ReadValue(r[k + n..]).value.0, "", false), k + n + ReadValue(r[k + n..]).value.1)))
  {
    hide ReadName, ReadValue;
  }

  lemma AreReads(source: string, at: nat, node: Option<Node>, end: nat)
    requires at <= |source| && Reads(source, at, node, end)
    ensures Skip(source[at..]).None? ==> node.None?
    ensures Skip(source[at..]).Some? ==>
              var v := at + Skip(source[at..]).value;
              && v <= |source|
              && if ReadValue(source[v..]).None? then node.None?
                 else && node == Some(NodeAt(ReadValue(source[v..]).value.0, v))
                      && end == v + ReadValue(source[v..]).value.1
  {
    hide Skip, ReadValue, NodeAt;
  }

  lemma HeadLengths(source: string, from: nat, k: nat, curly: bool)
    requires from + k < |source| && ReadHead(source[from..], k, curly).Some?
    ensures var (m, end) := ReadHead(source[from..], k, curly).value;
            && |m.lead| == k && end == |m.lead| + |PrintName(m.name)| + |Print(m.value)| && from + end <= |source|
            && m.tail == "" && !m.comma
  {
    hide *;
    ReadHeadIsPrinted(source[from..], k, curly);
    var (m, end) := ReadHead(source[from..], k, curly).value;
    ThreeLengths(m.lead, PrintName(m.name), Print(m.value));
  }

  lemma ThreeLengths(a: string, b: string, c: string)
    ensures |a + (b + c)| == |a| + |b| + |c|
  {
  }

  lemma NameLength(r: string)
    requires ReadName(r).Some? && ReadName(r).value.1 < |r|
    ensures |PrintName(Some(ReadName(r).value.0))| == ReadName(r).value.1
  {
    hide *;
    ReadNameIsPrinted(r);
  }

  lemma KeyOfNamed(m: Member, name: Name)
    requires m.name == Some(name) && Decode(name.key).Some?
    ensures KeyOf(m) == Decode(name.key).value
  {
  }

  /** The colon at `c` ends the name of the key at `p`, with the trivia after it. */
  lemma NameAt(source: string, p: nat, q: nat, c: nat)
    requires p < q <= c < |source| && source[c] == ':'
    requires ReadName(source[p..]) == NameAtColon(source[p..], q - p, c - p)
    ensures Skip(source[c + 1..]).None? ==> ReadName(source[p..]).None?
    ensures Skip(source[c + 1..]).Some? ==>
              && ReadName(source[p..]).Some?
              && var (name, n) := ReadName(source[p..]).value;
                 name.key == source[p..q] && p + n == c + 1 + Skip(source[c + 1..]).value <= |source|
  {
    hide *;
    ColonShape(source[p..], q - p, c - p);
    Suffix(source, p, c - p);
    Suffix(source, p, c + 1 - p);
    Prefixes(source, p, q);
  }

  /** A head is a name, then a value. */
  lemma HeadAt(source: string, from: nat, p: nat)
    requires from <= p < |source| && ReadName(source[p..]).Some? && p + ReadName(source[p..]).value.1 < |source|
    ensures var (name, n) := ReadName(source[p..]).value;
            && (ReadValue(source[p + n..]).None? ==> ReadHead(source[from..], p - from, true).None?)
            && (ReadValue(source[p + n..]).Some? ==>
                  && ReadHead(source[from..], p - from, true).Some?
                  && var (m, end) := ReadHead(source[from..], p - from, true).value;
                     && from + end == p + n + ReadValue(source[p + n..]).value.1
                     && m.name == Some(name) && m.value == ReadValue(source[p + n..]).value.0
                     && n == |PrintName(m.name)|)
  {
    hide *;
    Suffix(source, from, p - from);
    HeadShape(source[from..], p - from, true);
    Suffix(source, from, p + ReadName(source[p..]).value.1 - from);
    NameLength(source[p..]);
  }

  lemma ValueAfterColon(source: string, from: nat, p: nat, q: nat, c: nat, value: Option<Node>, e: nat)
    requires from <= p < q <= c < |source| && source[c] == ':'
    requires Decode(source[p..q]).Some? && ReadName(source[p..]) == NameAtColon(source[p..], q - p, c - p)
    requires Reads(source, c + 1, value, e)
    ensures value.None? ==> ReadHead(source[from..], p - from, true).None?
    ensures value.Some? ==>
              && ReadHead(source[from..], p - from, true).Some?
              && var (m, end) := ReadHead(source[from..], p - from, true).value;
                 && from + end == e && e <= |source| && from + |m.lead| == p && m.tail == "" && !m.comma
                 && KeyOf(m) == Decode(source[p..q]).value
                 && value == Some(NodeAt(m.value, p + |PrintName(m.name)|))
                 && end == |m.lead| + |PrintName(m.name)| + |Print(m.value)|
  {
    hide *;
    AreReads(source, c + 1, value, e);
    NameAt(source, p, q, c);
    if Skip(source[c + 1..]).None? {
      HeadWithout(source, from, p);
    } else {
      EmptyReads(source, c + 1 + Skip(source[c + 1..]).value);
      if p + ReadName(source[p..]).value.1 < |source| {
        HeadAt(source, from, p);
      } else {
        HeadCut(source, from, p);
      }
      if value.Some? {
        HeadLengths(source, from, p - from, true);
        KeyOfNamed(ReadHead(source[from..], p - from, true).value.0, ReadName(source[p..]).value.0);
      }
    }
  }

  lemma EmptyReads(source: string, at: nat)
    requires at <= |source|
    ensures ReadValue(source[at..]).Some? ==> at < |source|
  {
  }

  /** A name at the very end of the text has no value. */
  lemma HeadCut(source: string, from: nat, p: nat)
    requires from <= p < |source| && ReadName(source[p..]).Some? && p + ReadName(source[p..]).value.1 == |source|
    ensures ReadHead(source[from..], p - from, true).None?
  {
    hide ReadName;
    assert source[from..][p - from..] == source[p..];
  }

  lemma SkipSolid(r: string)
    requires Solid(r)
    ensures Skip(r) == Some(0)
  {
  }

  lemma SolidSkips(source: string, from: nat, p: nat)
    requires from <= p < |source| && Skip(source[from..]) == Some(p - from)
    ensures Skip(source[p..]) == Some(0)
  {
    hide *;
    SkippedSlice(source, from, p);
    SkipSolid(source[p..]);
  }

  lemma ItemCases(source: string, from: nat, p: nat, item: Option<Node>, e: nat)
    requires from <= p < |source| && Skip(source[from..]) == Some(p - from) && Reads(source, p, item, e)
    ensures item.None? ==> ReadHead(source[from..], p - from, false).None?
    ensures item.Some? ==>
              && ReadHead(source[from..], p - from, false).Some?
              && var (m, end) := ReadHead(source[from..], p - from, false).value;
                 from + end == e <= |source| && end == |m.lead| + |PrintName(m.name)| + |Print(m.value)|
  {
    hide *;
    SolidSkips(source, from, p);
    AreReads(source, p, item, e);
    Slices(source, from, 0, p - from);
    HeadShape(source[from..], p - from, false);
    if item.Some? {
      HeadLengths(source, from, p - from, false);
    }
  }

  lemma AfterShape(r: string, m: Member, end: nat, curly: bool)
    requires end <= |r|
    ensures Skip(r[end..]).None? || end + Skip(r[end..]).value == |r| ==> ReadAfter(r, m, end, curly).None?
    ensures Skip(r[end..]).Some? && end + Skip(r[end..]).value < |r| ==>
              var stop := end + Skip(r[end..]).value;
              if r[stop] == ',' then
                ReadAfter(r, m, end, curly)
                == AndThen(m.(tail := r[end..stop], comma := true), stop + 1, ReadMembers(r[stop + 1..], curly))
              else if r[stop] == Close(curly) then ReadAfter(r, m, end, curly) == Some(([m], r[end..stop], stop + 1))
              else ReadAfter(r, m, end, curly).None?
  {
    hide Skip, ReadMembers;
  }

  lemma BehindThen(done: seq<Member>, n: nat, m: Member, k: nat, g: Option<(seq<Member>, string, nat)>)
    ensures Behind(done, n, AndThen(m, k, g)) == Behind(done + [m], n + k, g)
  {
    if g.Some? {
      assert done + ([m] + g.value.0) == (done + [m]) + g.value.0;
    }
  }

  lemma {:induction false} PrintMembersAppend(ms: seq<Member>, m: Member)
    ensures |PrintMembers(ms + [m])| == |PrintMembers(ms)| + |PrintMember(m)|
  {
    if ms == [] {
      assert [] + [m] == [m] && [m][1..] == [];
    } else {
      assert (ms + [m])[1..] == ms[1..] + [m];
      PrintMembersAppend(ms[1..], m);
    }
  }

  lemma CommaLength(m: Member)
    requires m.comma
    ensures |PrintMember(m)| == |m.lead| + |PrintName(m.name)| + |Print(m.value)| + |m.tail| + 1
  {
  }

  lemma NowCollected(source: string, start: nat, done: seq<Member>, at: nat, curly: bool)
    requires start <= at <= |source| && at == start + |PrintMembers(done)|
    requires ReadMembers(source[start..], curly) == Behind(done, at - start, ReadMembers(source[at..], curly))
    ensures Collected(source, start, done, at, curly)
  {
  }

  /** What comes after a value that ends at `from + end`. */
  lemma AfterAt(source: string, from: nat, m: Member, end: nat, curly: bool)
    requires from + end <= |source|
    ensures Skip(source[from + end..]).None? || from + end + Skip(source[from + end..]).value == |source|
            ==> ReadAfter(source[from..], m, end, curly).None?
    ensures Skip(source[from + end..]).Some? && from + end + Skip(source[from + end..]).value < |source| ==>
              var stop := from + end + Skip(source[from + end..]).value;
              var after := ReadAfter(source[from..], m, end, curly);
              if source[stop] == ',' then
                after == AndThen(m.(tail := source[from + end..stop], comma := true), stop + 1 - from,
                                 ReadMembers(source[stop + 1..], curly))
              else if source[stop] == Close(curly) then after == Some(([m], source[from + end..stop], stop + 1 - from))
              else after.None?
  {
    hide *;
    var r := source[from..];
    assert r[end..] == source[from + end..];
    AfterShape(r, m, end, curly);
    if Skip(r[end..]).Some? && from + end + Skip(r[end..]).value < |source| {
      AfterText(source, from, end, from + end + Skip(r[end..]).value);
    }
  }

  lemma AfterText(source: string, from: nat, end: nat, stop: nat)
    requires from + end <= stop < |source|
    ensures var r := source[from..];
            && stop - from < |r| && r[stop - from] == source[stop]
            && r[end..stop - from] == source[from + end..stop] && r[stop - from + 1..] == source[stop + 1..]
  {
  }

  lemma AfterCases(source: string, start: nat, done: seq<Member>, from: nat, m: Member, end: nat, curly: bool)
    requires start <= from && from + end <= |source| && Collected(source, start, done, from, curly)
    requires ReadMembers(source[from..], curly) == ReadAfter(source[from..], m, end, curly)
    requires end == |m.lead| + |PrintName(m.name)| + |Print(m.value)|
    ensures Skip(source[from + end..]).None? || from + end + Skip(source[from + end..]).value == |source|
            ==> ReadMembers(source[start..], curly).None?
    ensures Skip(source[from + end..]).Some? && from + end + Skip(source[from + end..]).value < |source| ==>
              var stop := from + end + Skip(source[from + end..]).value;
              if source[stop] == ',' then
                Collected(source, start, done + [m.(tail := source[from + end..stop], comma := true)], stop + 1, curly)
              else if source[stop] == Close(curly) then
                ReadMembers(source[start..], curly) == Some((done + [m], source[from + end..stop], stop + 1 - start))
              else ReadMembers(source[start..], curly).None?
  {
    hide *;
    IsCollected(source, start, done, from, curly);
    AfterAt(source, from, m, end, curly);
    BehindNone(done, from - start);
    if Skip(source[from + end..]).Some? && from + end + Skip(source[from + end..]).value < |source| {
      var stop := from + end + Skip(source[from + end..]).value;
      if source[stop] == ',' {
        CommaCollected(source, start, done, from, m, end, stop, curly);
      } else if source[stop] == Close(curly) {
        BehindLast(done, from - start, [m], source[from + end..stop], stop + 1 - from);
      }
    }
  }

  lemma CommaCollected(source: string, start: nat, done: seq<Member>, from: nat, m: Member, end: nat, stop: nat,
                       curly: bool)
    requires start <= from && from + end <= stop < |source| && from == start + |PrintMembers(done)|
    requires end == |m.lead| + |PrintName(m.name)| + |Print(m.value)|
    requires ReadMembers(source[start..], curly)
             == Behind(done, from - start, AndThen(m.(tail := source[from + end..stop], comma := true), stop + 1 - from,
                                                   ReadMembers(source[stop + 1..], curly)))
    ensures Collected(source, start, done + [m.(tail := source[from + end..stop], comma := true)], stop + 1, curly)
  {
    hide *;
    var full := m.(tail := source[from + end..stop], comma := true);
    BehindThen(done, from - start, full, stop + 1 - from, ReadMembers(source[stop + 1..], curly));
    PrintMembersAppend(done, full);
    CommaLength(full);
    NowCollected(source, start, done + [full], stop + 1, curly);
  }

  lemma MemberIs(m: Member, full: Member, from: nat, at: nat)
    requires full == m.(tail := full.tail, comma := full.comma)
    requires full.comma ==> at == from + |m.lead| + |PrintName(m.name)| + |Print(m.value)| + |full.tail|
    ensures MemberAt(full, from)
            == NodeMember(KeyOf(m), from + |m.lead|, NodeAt(m.value, from + |m.lead| + |PrintName(m.name)|),
                          if full.comma then Some(at) else None)
  {
  }

  /** The member at `p` decides how the group that opened before `start` goes on after `from`. */
  ghost predicate Decides(source: string, start: nat, from: nat, p: nat)
    requires start <= from <= p < |source|
  {
    var head := ReadHead(source[from..], p - from, true);
    && (head.None? ==> ReadMembers(source[start..], true).None?)
    && (head.Some? ==>
          && head.value.1 <= |source[from..]|
          && ReadMembers(source[from..], true) == ReadAfter(source[from..], head.value.0, head.value.1, true))
  }

  lemma HeadDecides(source: string, start: nat, done: seq<Member>, from: nat)
    requires start <= from <= |source| && Collected(source, start, done, from, true)
    ensures Skip(source[from..]).None? || from + Skip(source[from..]).value == |source|
            ==> ReadMembers(source[start..], true).None?
    ensures Skip(source[from..]).Some? && from + Skip(source[from..]).value < |source| ==>
              var p := from + Skip(source[from..]).value;
              if source[p] == '}' then
                ReadMembers(source[start..], true) == Some((done, source[from..p], p + 1 - start))
              else Decides(source, start, from, p)
  {
    hide Skip, ReadHead, ReadAfter, ReadMembers, Collected;
    MembersCases(source, start, done, from, true);
  }

  lemma KeyDecides(source: string, start: nat, from: nat, p: nat)
    requires start <= from <= p < |source| && Decides(source, start, from, p)
    ensures source[p] != '"' || StringEnd(source[p + 1..]).None? ==> ReadMembers(source[start..], true).None?
  {
    hide StringEnd, ReadHead, ReadAfter, ReadMembers;
    KeyCases(source, from, p);
  }

  lemma MidDecides(source: string, start: nat, from: nat, p: nat, q: nat)
    requires start <= from <= p < q <= |source| && Decides(source, start, from, p)
    requires source[p] == '"' && StringEnd(source[p + 1..]) == Some(q - p - 1)
    ensures Decode(source[p..q]).None? || Skip(source[q..]).None? ==> ReadMembers(source[start..], true).None?
    ensures Decode(source[p..q]).Some? && Skip(source[q..]).Some? ==>
              var c := q + Skip(source[q..]).value;
              && c <= |source|
              && ReadName(source[p..]) == NameAtColon(source[p..], q - p, c - p)
              && (c == |source| || source[c] != ':' ==> ReadMembers(source[start..], true).None?)
  {
    hide StringEnd, ReadHead, ReadAfter, ReadMembers, Decode, Skip, ReadName, NameAtColon;
    MidCases(source, from, p, q);
  }

  /** A member read from `p` to `e`: its key and its value's spans. */
  ghost predicate Pair(source: string, from: nat, p: nat, key: string, value: Node, e: nat)
    requires from <= p < |source|
  {
    var head := ReadHead(source[from..], p - from, true);
    && head.Some? && e <= |source|
    && var (m, end) := head.value;
       && from + end == e && from + |m.lead| == p && m.tail == "" && !m.comma
       && end == |m.lead| + |PrintName(m.name)| + |Print(m.value)|
       && key == KeyOf(m) && value == NodeAt(m.value, p + |PrintName(m.name)|)
  }

  lemma PairRead(source: string, start: nat, from: nat, p: nat, q: nat, c: nat, value: Option<Node>, e: nat)
    requires start <= from <= p < q <= c < |source| && source[c] == ':' && Decides(source, start, from, p)
    requires Decode(source[p..q]).Some? && ReadName(source[p..]) == NameAtColon(source[p..], q - p, c - p)
    requires Reads(source, c + 1, value, e)
    ensures value.None? ==> ReadMembers(source[start..], true).None?
    ensures value.Some? ==> Pair(source, from, p, Decode(source[p..q]).value, value.value, e)
  {
    hide StringEnd, ReadHead, ReadAfter, ReadMembers, Decode, Skip, ReadName, NameAtColon, Reads, NodeAt, KeyOf, Print,
         PrintName;
    ValueAfterColon(source, from, p, q, c, value, e);
  }

  lemma HeadDecided(source: string, start: nat, from: nat, p: nat)
    requires start <= from <= p < |source| && Decides(source, start, from, p)
             && ReadHead(source[from..], p - from, true).Some?
    ensures var head := ReadHead(source[from..], p - from, true);
            && head.value.1 <= |source[from..]|
            && ReadMembers(source[from..], true) == ReadAfter(source[from..], head.value.0, head.value.1, true)
  {
    hide ReadHead, ReadAfter, ReadMembers;
  }

  lemma PairParts(source: string, from: nat, p: nat, key: string, value: Node, e: nat)
    requires from <= p < |source| && Pair(source, from, p, key, value, e)
    ensures ReadHead(source[from..], p - from, true).Some? && e <= |source|
    ensures var (m, end) := ReadHead(source[from..], p - from, true).value;
            && from + end == e && from + |m.lead| == p && m.tail == "" && !m.comma
            && end == |m.lead| + |PrintName(m.name)| + |Print(m.value)|
            && key == KeyOf(m) && value == NodeAt(m.value, p + |PrintName(m.name)|)
  {
    hide ReadHead, NodeAt, KeyOf, Print, PrintName;
  }

  /** A whole member from its key to its value, and what may follow it. */
  lemma MemberRead(source: string, start: nat, done: seq<Member>, from: nat,
                   p: nat, key: string, value: Node, e: nat) returns (m: Member)
    requires start <= from <= p < |source| && Collected(source, start, done, from, true)
             && Decides(source, start, from, p)
    requires Pair(source, from, p, key, value, e)
    ensures e <= |source|
    ensures Skip(source[e..]).None? || e + Skip(source[e..]).value == |source| ==>
              ReadMembers(source[start..], true).None?
    ensures Skip(source[e..]).Some? && e + Skip(source[e..]).value < |source| ==>
              var stop := e + Skip(source[e..]).value;
              var comma := if source[stop] == ',' then Some(stop) else None;
              && NodesAt(done + [m], start) == NodesAt(done, start) + [NodeMember(key, p, value, comma)]
              && (source[stop] == ',' ==> Collected(source, start, done + [m], stop + 1, true))
              && (source[stop] == '}' ==>
                    ReadMembers(source[start..], true) == Some((done + [m], source[e..stop], stop + 1 - start)))
              && (source[stop] != ',' && source[stop] != '}' ==> ReadMembers(source[start..], true).None?)
  {
    hide *;
    Brackets();
    PairParts(source, from, p, key, value, e);
    HeadDecided(source, start, from, p);
    ghost var (head, end) := ReadHead(source[from..], p - from, true).value;
    m := head;
    AfterCases(source, start, done, from, head, end, true);
    IsCollected(source, start, done, from, true);
    if Skip(source[e..]).Some? && e + Skip(source[e..]).value < |source| {
      var stop := e + Skip(source[e..]).value;
      if source[stop] == ',' {
        m := head.(tail := source[e..stop], comma := true);
      }
      MemberNode(done, m, start, from);
      MemberIs(head, m, from, stop);
    }
  }

  lemma Brackets()
    ensures Open(true) == '{' && Open(false) == '[' && Close(true) == '}' && Close(false) == ']'
  {
  }

  lemma NodesStep(ms: seq<Member>, at: nat)
    requires ms != []
    ensures NodesAt(ms, at) == [MemberAt(ms[0], at)] + NodesAt(ms[1..], at + |PrintMember(ms[0])|)
    ensures |PrintMembers(ms)| == |PrintMember(ms[0])| + |PrintMembers(ms[1..])|
  {
  }

  lemma NodesNone(at: nat)
    ensures NodesAt([], at) == [] && PrintMembers([]) == ""
  {
  }

  lemma {:induction false} MemberNode(done: seq<Member>, m: Member, start: nat, from: nat)
    requires from == start + |PrintMembers(done)|
    ensures NodesAt(done + [m], start) == NodesAt(done, start) + [MemberAt(m, from)]
  {
    hide *;
    if done == [] {
      assert [] + [m] == [m] && [m][1..] == [];
      NodesStep([m], start);
      NodesNone(start);
      NodesNone(start + |PrintMember(m)|);
    } else {
      assert (done + [m])[1..] == done[1..] + [m] && (done + [m])[0] == done[0];
      NodesStep(done, start);
      NodesStep(done + [m], start);
      MemberNode(done[1..], m, start + |PrintMember(done[0])|, from);
    }
  }

  /** What the reader makes of a whole document: the root's spans, when the text is one document. */
  function Root(source: string): Option<Node> {
    var d := ReadDocument(source);
    if d.None? then None else Some(NodeAt(d.value.root, |d.value.lead|))
  }

  lemma RootNone(source: string)
    ensures Skip(source).None? ==> Root(source).None?
    ensures Skip(source).Some? && ReadValue(source[Skip(source).value..]).None? ==> Root(source).None?
    ensures Skip(source).Some? && ReadValue(source[Skip(source).value..]).Some? ==>
              var k := Skip(source).value;
              var end := k + ReadValue(source[k..]).value.1;
              && end <= |source|
              && (Skip(source[end..]) == Some(|source| - end) ==>
                    Root(source) == Some(NodeAt(ReadValue(source[k..]).value.0, k)))
              && (Skip(source[end..]) != Some(|source| - end) ==> Root(source).None?)
  {
    hide Skip, ReadValue, NodeAt;
  }

  lemma WholeText(source: string)
    ensures source[0..] == source
  {
  }

  /** The reader's spans are those of the document's tree; it fails exactly where the text is no document. */
  method ParseJsonc(source: string) returns (node: Option<Node>)
    ensures node == Root(source)
  {
    hide *;
    RootNone(source);
    WholeText(source);
    var reader := new Reader(source);
    node := reader.ReadAny();
    AreReads(source, 0, node, reader.at);
    if node.None? {
      return None;
    }
    var ok := reader.SkipTrivia();
    if !ok || reader.at != |source| {
      return None;
    }
  }
}
