/** Elements, attributes and sections of a report. */
module Xml {
  import opened Prelude
  import opened XmlText

  datatype Attribute = Attribute(name: string, value: string)

  datatype XmlElement = XmlElement(name: string, attributes: seq<Attribute>, children: seq<XmlElement>)

  // ---------------------------------------------------------------------------------------------
  // Tags
  // ---------------------------------------------------------------------------------------------

  function NameLength(r: string): (n: nat)
    ensures n <= |r|
  {
    if r == "" || !IsNameChar(r[0]) then 0 else 1 + NameLength(r[1..])
  }

  function Spaces(r: string): (n: nat)
    ensures n <= |r|
  {
    if r == "" || !IsSpace(r[0]) then 0 else 1 + Spaces(r[1..])
  }

  function TrimStart(s: string): string {
    s[Spaces(s)..]
  }

  function TrimEnd(s: string): (t: string)
    ensures |t| <= |s|
  {
    if s != "" && IsSpace(s[|s| - 1]) then TrimEnd(s[..|s| - 1]) else s
  }

  function Trim(s: string): string {
    TrimEnd(TrimStart(s))
  }

  /** Where a character first is; the length when it is not there. */
  function IndexOf(r: string, c: char): (n: nat)
    ensures n <= |r| && (n < |r| ==> r[n] == c)
  {
    if r == "" || r[0] == c then 0 else 1 + IndexOf(r[1..], c)
  }

  /** `name = "value"` at the start of `r`, with the white space after it: the raw value and the length. */
  function ReadAttribute(r: string): (a: Option<(Attribute, nat)>)
    ensures a.Some? ==> 0 < a.value.1 <= |r|
  {
    var n := NameLength(r);
    if n == 0 then None
    else
      var at := n + Spaces(r[n..]);
      if at == |r| || r[at] != '=' then None
      else QuotedValue(r, n, at + 1 + Spaces(r[at + 1..]))
  }

  function QuotedValue(r: string, n: nat, at: nat): (a: Option<(Attribute, nat)>)
    requires 0 < n < at <= |r|
    ensures a.Some? ==> 0 < a.value.1 <= |r|
  {
    if at == |r| || (r[at] != '"' && r[at] != '\'') then None
    else
      var end := at + 1 + IndexOf(r[at + 1..], r[at]);
      if end == |r| then None else Some((Attribute(r[..n], r[at + 1..end]), end + 1 + Spaces(r[end + 1..])))
  }

  predicate DistinctNames(attributes: seq<Attribute>) {
    forall i, j :: 0 <= i < j < |attributes| ==> attributes[i].name != attributes[j].name
  }

  predicate Has(attributes: seq<Attribute>, name: string) {
    exists i :: 0 <= i < |attributes| && attributes[i].name == name
  }

  /** Assigning to a plain object: a property of its own, but for `__proto__`, which a string does not change. */
  function Assign(attributes: seq<Attribute>, a: Attribute): seq<Attribute> {
    if a.name == "__proto__" then attributes else attributes + [a]
  }

  function ReadAttributes(r: string, known: seq<Attribute>): Option<seq<Attribute>>
    decreases |r|
  {
    if r == "" then Some(known)
    else
      var a := ReadAttribute(r);
      if a.None? || Has(known, a.value.0.name) then None
      else
        var value := DecodeEntities(a.value.0.value);
        if value.None? then None
        else ReadAttributes(r[a.value.1..], Assign(known, Attribute(a.value.0.name, value.value)))
  }

  method Attributes(input: string) returns (attributes: Option<seq<Attribute>>)
    ensures attributes == ReadAttributes(Trim(input), [])
  {
    hide ReadAttribute, DecodeEntities, Has;
    var values: seq<Attribute> := [];
    var remaining := Trim(input);
    while remaining != ""
      invariant ReadAttributes(Trim(input), []) == ReadAttributes(remaining, values)
      decreases |remaining|
    {
      var a := ReadAttribute(remaining);
      if a.None? || Has(values, a.value.0.name) {
        return None;
      }
      var value := DecodeEntities(a.value.0.value);
      if value.None? {
        return None;
      }
      values := Assign(values, Attribute(a.value.0.name, value.value));
      remaining := remaining[a.value.1..];
    }
    return Some(values);
  }

  /** Where the tag that `r` is inside of ends, `>` in quotes aside; `quote` is the open quote. */
  function TagEnd(r: string, quote: Option<char>): (n: Option<nat>)
    ensures n.Some? ==> n.value < |r|
  {
    if r == "" then None
    else if quote.Some? then Later(TagEnd(r[1..], if r[0] == quote.value then None else quote))
    else if r[0] == '"' || r[0] == '\'' then Later(TagEnd(r[1..], Some(r[0])))
    else if r[0] == '>' then Some(0)
    else Later(TagEnd(r[1..], None))
  }

  function Later(n: Option<nat>): Option<nat> {
    if n.None? then None else Some(n.value + 1)
  }

  method FindTagEnd(input: string, open: nat) returns (end: Option<nat>)
    requires open < |input|
    ensures TagEnd(input[open + 1..], None).None? ==> end.None?
    ensures TagEnd(input[open + 1..], None).Some? ==> end == Some(open + 1 + TagEnd(input[open + 1..], None).value)
  {
    var quote: Option<char> := None;
    var i := open + 1;
    while i < |input|
      invariant open < i <= |input|
      invariant TagEnd(input[i..], quote).None? <==> TagEnd(input[open + 1..], None).None?
      invariant TagEnd(input[i..], quote).Some? ==>
                  i + TagEnd(input[i..], quote).value == open + 1 + TagEnd(input[open + 1..], None).value
    {
      var character := input[i];
      assert input[i..][1..] == input[i + 1..];
      if quote.Some? {
        if character == quote.value {
          quote := None;
        }
      } else if character == '"' || character == '\'' {
        quote := Some(character);
      } else if character == '>' {
        return Some(i);
      }
      i := i + 1;
    }
    return None;
  }

  predicate ClosesItself(tag: string) {
    tag != "" && tag[|tag| - 1] == '/'
  }

  /** A tag's text without the slash that closes it. */
  function BodyOf(tag: string): string {
    if ClosesItself(tag) then Trim(tag[..|tag| - 1]) else tag
  }

  /** An opening tag's text: its element without children, and whether it closes itself. */
  function ReadNode(tag: string): Option<(XmlElement, bool)> {
    var selfClosing := ClosesItself(tag);
    var body := BodyOf(tag);
    var n := NameLength(body);
    if n == 0 then None
    else
      var attributes := ReadAttributes(Trim(body[n..]), []);
      if attributes.None? then None else Some((XmlElement(body[..n], attributes.value, []), selfClosing))
  }

  method XmlNode(tag: string) returns (node: Option<(XmlElement, bool)>)
    ensures node == ReadNode(tag)
  {
    var selfClosing := tag != "" && tag[|tag| - 1] == '/';
    var body := if selfClosing then Trim(tag[..|tag| - 1]) else tag;
    assert body == BodyOf(tag);
    var n := NameLength(body);
    if n == 0 {
      return None;
    }
    var attributes := Attributes(body[n..]);
    return if attributes.None? then None else Some((XmlElement(body[..n], attributes.value, []), selfClosing));
  }

  lemma {:induction false} NameIsLongest(r: string)
    ensures var n := NameLength(r);
            (forall i :: 0 <= i < n ==> IsNameChar(r[i])) && (n < |r| ==> !IsNameChar(r[n]))
  {
    if r != "" && IsNameChar(r[0]) {
      NameIsLongest(r[1..]);
      assert forall i :: 0 < i < NameLength(r) ==> r[i] == r[1..][i - 1];
    }
  }

  lemma {:induction false} AttributesDiffer(r: string, known: seq<Attribute>)
    requires DistinctNames(known) && !Has(known, "__proto__") && ReadAttributes(r, known).Some?
    ensures DistinctNames(ReadAttributes(r, known).value) && !Has(ReadAttributes(r, known).value, "__proto__")
    decreases |r|
  {
    hide ReadAttribute, DecodeEntities, IsNameChar;
    if r != "" {
      var a := ReadAttribute(r).value;
      var value := DecodeEntities(a.0.value).value;
      AttributesDiffer(r[a.1..], Assign(known, Attribute(a.0.name, value)));
    }
  }

  /**
   * A tag opens an element exactly when a name begins it and its attributes can be read; the
   * element has the longest such name, no two attributes of one name, and no children yet.
   */
  lemma NodeSays(tag: string)
    ensures ReadNode(tag).Some?
            <==> && BodyOf(tag) != "" && IsNameChar(BodyOf(tag)[0])
                 && ReadAttributes(Trim(BodyOf(tag)[NameLength(BodyOf(tag))..]), []).Some?
    ensures ReadNode(tag).Some? ==>
              var (e, selfClosing) := ReadNode(tag).value;
              && IsName(e.name) && e.name <= BodyOf(tag)
                  && (|e.name| < |BodyOf(tag)| ==> !IsNameChar(BodyOf(tag)[|e.name|]))
              && DistinctNames(e.attributes) && !Has(e.attributes, "__proto__") && e.children == []
              && (selfClosing <==> ClosesItself(tag))
  {
    hide ReadAttributes, IsNameChar, Trim;
    NameIsLongest(BodyOf(tag));
    if ReadNode(tag).Some? {
      AttributesDiffer(Trim(BodyOf(tag)[NameLength(BodyOf(tag))..]), []);
    }
  }

  // ---------------------------------------------------------------------------------------------
  // Sections
  // ---------------------------------------------------------------------------------------------

  predicate StartsWith(r: string, prefix: string) {
    prefix <= r
  }

  /** Just past the first `marker` at or after `from`. */
  function EndOf(r: string, marker: string, from: nat): (n: Option<nat>)
    ensures n.Some? ==> from <= n.value <= |r|
    decreases |r| - from
  {
    if from > |r| || |marker| > |r| - from then None
    else if r[from..from + |marker|] == marker then Some(from + |marker|)
    else EndOf(r, marker, from + 1)
  }

  datatype Section = Tag | Past(n: nat) | Refused

  function Past0(n: Option<nat>): Section {
    if n.None? then Refused else Past(n.value)
  }

  /** What `<` begins, other than a tag: a comment, character data inside the root, the declaration before it. */
  function SectionAt(r: string, hasRoot: bool, depth: nat): (s: Section)
    ensures s.Past? ==> 0 < s.n <= |r|
  {
    if StartsWith(r, "<!--") then Past0(EndOf(r, "-->", 4))
    else if StartsWith(r, "<![CDATA[") && depth > 0 then Past0(EndOf(r, "]]>", 9))
    else if StartsWith(r, "<?xml") && !hasRoot && depth == 0 then Past0(EndOf(r, "?>", 5))
    else if StartsWith(r, "<!") || StartsWith(r, "<?") then Refused
    else Tag
  }

  // ---------------------------------------------------------------------------------------------
  // The document
  // ---------------------------------------------------------------------------------------------

  /** The open elements, each with the children closed so far, and the root once it is closed. */
  datatype State = State(stack: seq<XmlElement>, done: Option<XmlElement>)

  function HasRoot(st: State): bool {
    st.stack != [] || st.done.Some?
  }

  const LIMIT := 64

  function Attach(st: State, e: XmlElement): State {
    if st.stack == [] then State([], Some(e))
    else
      var last := |st.stack| - 1;
      var parent := st.stack[last];
      st.(stack := st.stack[..last] + [parent.(children := parent.children + [e])])
  }

  /** A tag's effect: `</name>` closes the innermost element, any other opens one. */
  function TakeTag(st: State, tag: string): Option<State> {
    if tag != "" && tag[0] == '/' then
      var last := |st.stack| - 1;
      if st.stack == [] || st.stack[last].name != Trim(tag[1..]) then None
      else Some(Attach(st.(stack := st.stack[..last]), st.stack[last]))
    else
      var node := ReadNode(tag);
      if node.None? || (st.stack == [] && HasRoot(st)) then None
      else if node.value.1 then Some(Attach(st, node.value.0))
      else if |st.stack| + 1 > LIMIT then None
      else Some(st.(stack := st.stack + [node.value.0]))
  }

  predicate TextAllowed(text: string, depth: nat) {
    (depth == 0 ==> Trim(text) == "") && DecodeEntities(text).Some?
  }

  function Finish(st: State): Option<XmlElement> {
    if st.stack != [] then None else st.done
  }

  function Scan(r: string, st: State): Option<XmlElement>
    decreases |r|, 2
  {
    if r == "" then Finish(st)
    else if !TextAllowed(r[..IndexOf(r, '<')], |st.stack|) then None
    else if IndexOf(r, '<') == |r| then Finish(st)
    else ScanFrom(r, IndexOf(r, '<'), st)
  }

  /** The rest of the scan from a `<` on. */
  function ScanFrom(r: string, open: nat, st: State): Option<XmlElement>
    requires open < |r|
    decreases |r|, 1
  {
    match SectionAt(r[open..], HasRoot(st), |st.stack|)
    case Refused => None
    case Past(n) => Scan(r[open + n..], st)
    case Tag => ScanTag(r, open, st)
  }

  /** The rest of the scan from a tag on. */
  function ScanTag(r: string, open: nat, st: State): Option<XmlElement>
    requires open < |r|
    decreases |r|, 0
  {
    var end := TagEnd(r[open + 1..], None);
    if end.None? then None
    else
      var next := TakeTag(st, Trim(r[open + 1..open + 1 + end.value]));
      if next.None? then None else Scan(r[open + 1 + end.value + 1..], next.value)
  }

  function Parse(input: string): Option<XmlElement> {
    Scan(input, State([], None))
  }

  lemma ScanShape(r: string, st: State)
    ensures r == "" ==> Scan(r, st) == Finish(st)
    ensures var open := IndexOf(r, '<');
            && (r != "" && !TextAllowed(r[..open], |st.stack|) ==> Scan(r, st) == None)
            && (r != "" && TextAllowed(r[..open], |st.stack|) && open == |r| ==> Scan(r, st) == Finish(st))
            && (r != "" && TextAllowed(r[..open], |st.stack|) && open < |r| ==> Scan(r, st) == ScanFrom(r, open, st))
  {
    hide TextAllowed, ScanFrom, Finish, IndexOf;
  }

  lemma FromShape(r: string, open: nat, st: State)
    requires open < |r|
    ensures var section := SectionAt(r[open..], HasRoot(st), |st.stack|);
            && (section.Refused? ==> ScanFrom(r, open, st) == None)
            && (section.Past? ==> ScanFrom(r, open, st) == Scan(r[open + section.n..], st))
            && (section.Tag? ==> ScanFrom(r, open, st) == ScanTag(r, open, st))
  {
    hide SectionAt, Scan, ScanTag;
  }

  method CloseNode(st: State, tag: string) returns (closed: Option<State>)
    requires tag != "" && tag[0] == '/'
    ensures closed.None? <==> st.stack == [] || st.stack[|st.stack| - 1].name != Trim(tag[1..])
    ensures closed.Some? ==>
              var open, last := st.stack[..|st.stack| - 1], st.stack[|st.stack| - 1];
              if open == [] then closed.value == State([], Some(last))
              else && |closed.value.stack| == |open| && closed.value.done == st.done
                   && closed.value.stack[..|open| - 1] == open[..|open| - 1]
                   && closed.value.stack[|open| - 1]
                       == open[|open| - 1].(children := open[|open| - 1].children + [last])
    ensures closed == TakeTag(st, tag)
  {
    hide Trim;
    if st.stack == [] {
      return None;
    }
    var last := st.stack[|st.stack| - 1];
    if last.name != Trim(tag[1..]) {
      return None;
    }
    return Some(Attach(st.(stack := st.stack[..|st.stack| - 1]), last));
  }

  method ParseXml(input: string) returns (root: Option<XmlElement>)
    ensures root == Parse(input)
  {
    hide Scan, ScanFrom, ScanTag, TextAllowed, SectionAt, TagEnd, TakeTag, Trim, Finish, ReadNode, Attach;
    var st := State([], None);
    var cursor := 0;
    assert input[0..] == input;
    while cursor < |input|
      invariant cursor <= |input| && Scan(input[cursor..], st) == Parse(input)
      decreases |input| - cursor
    {
      ghost var r := input[cursor..];
      ScanShape(r, st);
      var open := cursor + IndexOf(input[cursor..], '<');
      Slices(input, cursor, open - cursor);
      if !TextAllowed(input[cursor..open], |st.stack|) {
        return None;
      }
      if open == |input| {
        return Finish(st);
      }
      FromShape(r, open - cursor, st);
      var section := SectionAt(input[open..], HasRoot(st), |st.stack|);
      if section.Refused? {
        return None;
      }
      if section.Past? {
        Slices(input, cursor, open - cursor + section.n);
        cursor := open + section.n;
        continue;
      }
      var end := FindTagEnd(input, open);
      ScanTagShape(input, cursor, open, st);
      if end.None? {
        return None;
      }
      var tag := Trim(input[open + 1..end.value]);
      cursor := end.value + 1;
      var next;
      if tag != "" && tag[0] == '/' {
        next := CloseNode(st, tag);
      } else {
        next := OpenNode(st, tag);
      }
      if next.None? {
        return None;
      }
      st := next.value;
    }
    ScanShape(input[cursor..], st);
    return Finish(st);
  }

  method OpenNode(st: State, tag: string) returns (after: Option<State>)
    requires tag == "" || tag[0] != '/'
    ensures after.None?
            <==>
            || ReadNode(tag).None? || (st.stack == [] && st.done.Some?)
            || (!ReadNode(tag).value.1 && |st.stack| >= LIMIT)
    ensures after.Some? && !ReadNode(tag).value.1 ==> after.value == State(st.stack + [ReadNode(tag).value.0], st.done)
    ensures after.Some? && ReadNode(tag).value.1 && st.stack == [] ==>
              after.value == State([], Some(ReadNode(tag).value.0))
    ensures after.Some? && ReadNode(tag).value.1 && st.stack != [] ==>
              var last := |st.stack| - 1;
              && |after.value.stack| == |st.stack| && after.value.done == st.done
                  && after.value.stack[..last] == st.stack[..last]
              && after.value.stack[last]
                  == st.stack[last].(children := st.stack[last].children + [ReadNode(tag).value.0])
    ensures after == TakeTag(st, tag)
  {
    hide Trim, ReadNode;
    var node := XmlNode(tag);
    if node.None? || (st.stack == [] && HasRoot(st)) {
      return None;
    }
    var (element, selfClosing) := node.value;
    if selfClosing {
      return Some(Attach(st, element));
    }
    var pushed := st.(stack := st.stack + [element]);
    return if |pushed.stack| > LIMIT then None else Some(pushed);
  }

  lemma Slices(input: string, cursor: nat, n: nat)
    requires cursor + n <= |input|
    ensures input[cursor..][..n] == input[cursor..cursor + n] && input[cursor..][n..] == input[cursor + n..]
    ensures |input[cursor..]| == |input| - cursor
  {
  }

  lemma ScanTagShape(input: string, cursor: nat, open: nat, st: State)
    requires cursor <= open < |input|
    ensures var end := TagEnd(input[open + 1..], None);
            && (end.None? ==> ScanTag(input[cursor..], open - cursor, st) == None)
            && (end.Some? ==>
                  var close := open + 1 + end.value;
                  && close < |input|
                  && var next := TakeTag(st, Trim(input[open + 1..close]));
                     ScanTag(input[cursor..], open - cursor, st) == if next.None? then None
                         else Scan(input[close + 1..], next.value))
  {
    hide Scan, TakeTag, Trim, TagEnd;
    var r := input[cursor..];
    assert r[open - cursor + 1..] == input[open + 1..];
    var end := TagEnd(input[open + 1..], None);
    if end.Some? {
      var close := open + 1 + end.value;
      assert r[open - cursor + 1..close - cursor] == input[open + 1..close];
      assert r[close - cursor + 1..] == input[close + 1..];
    }
  }
}
