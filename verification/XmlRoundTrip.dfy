/** What a printed XML document reads back as. */
module XmlRoundTrip {
  import opened Prelude
  import opened XmlText
  import opened Xml

  datatype Node = Element(name: string, attributes: seq<Attribute>, content: seq<Node>)
                | Text(text: string) | Comment(text: string) | CharacterData(text: string)

  function AttributeText(a: Attribute): string {
    a.name + ("=\"" + (Encode(a.value) + "\""))
  }

  function AttributeList(attributes: seq<Attribute>): string {
    if attributes == [] then ""
    else AttributeText(attributes[0]) + (if |attributes| == 1 then "" else " " + AttributeList(attributes[1..]))
  }

  /** A tag's text between `<` and `>`, or `/>`. */
  function TagText(name: string, attributes: seq<Attribute>): string {
    name + (if attributes == [] then "" else " " + AttributeList(attributes))
  }

  /** Elements without content close themselves; section 3.1 of XML 1.0. */
  function Print(n: Node): string
    decreases n
  {
    match n
    case Text(s) => Encode(s)
    case Comment(s) => "<!--" + (s + "-->")
    case CharacterData(s) => "<![CDATA[" + (s + "]]>")
    case Element(name, attributes, content) =>
      if content == [] then "<" + (TagText(name, attributes) + "/>")
      else "<" + (TagText(name, attributes) + (">" + (PrintAll(content) + ("</" + (name + ">")))))
  }

  function PrintAll(content: seq<Node>): string
    decreases content
  {
    if content == [] then "" else Print(content[0]) + PrintAll(content[1..])
  }

  predicate WellFormed(n: Node) {
    match n
    case Text(_) => true
    case Comment(s) => EndOf(s + "-->", "-->", 0) == Some(|s| + 3)
    case CharacterData(s) => EndOf(s + "]]>", "]]>", 0) == Some(|s| + 3)
    case Element(name, attributes, content) =>
      && IsName(name) && DistinctNames(attributes) && (forall i :: 0 <= i < |attributes| ==> IsName(attributes[i].name))
      && forall i :: 0 <= i < |content| ==> WellFormed(content[i])
  }

  /** How many elements with content are open at once inside a node, itself counted. */
  function Depth(n: Node): nat
    decreases n
  {
    if n.Element? && n.content != [] then 1 + DepthAll(n.content) else 0
  }

  function DepthAll(content: seq<Node>): nat
    decreases content
  {
    if content == [] then 0
    else if Depth(content[0]) >= DepthAll(content[1..]) then Depth(content[0]) else DepthAll(content[1..])
  }

  /** The attributes a plain object can hold as its own. */
  function Held(attributes: seq<Attribute>): seq<Attribute> {
    if attributes == [] then []
    else (if attributes[0].name == "__proto__" then [] else [attributes[0]]) + Held(attributes[1..])
  }

  /** The elements alone, text and comments aside. */
  function Skeleton(n: Node): XmlElement
    requires n.Element?
    decreases n
  {
    XmlElement(n.name, Held(n.attributes), Skeletons(n.content))
  }

  function Skeletons(content: seq<Node>): seq<XmlElement>
    decreases content
  {
    if content == [] then []
    else (if content[0].Element? then [Skeleton(content[0])] else []) + Skeletons(content[1..])
  }

  // ---------------------------------------------------------------------------------------------
  // Attributes
  // ---------------------------------------------------------------------------------------------

  lemma {:induction false} NameThen(name: string, x: string)
    requires (forall i :: 0 <= i < |name| ==> IsNameChar(name[i])) && (x == "" || !IsNameChar(x[0]))
    ensures NameLength(name + x) == |name|
  {
    if name == "" {
      assert name + x == x;
    } else {
      assert (name + x)[1..] == name[1..] + x;
      NameThen(name[1..], x);
    }
  }

  lemma {:induction false} IndexAfter(s: string, c: char, x: string)
    requires c !in s
    ensures IndexOf(s + x, c) == |s| + IndexOf(x, c)
  {
    if s == "" {
      assert s + x == x;
    } else {
      assert (s + x)[1..] == s[1..] + x;
      IndexAfter(s[1..], c, x);
    }
  }

  lemma NoSpace(r: string)
    requires r == "" || !IsSpace(r[0])
    ensures Spaces(r) == 0
  {
  }

  /** The places in `name="value"` and what follows it. */
  lemma AttributePlaces(name: string, value: string, x: string)
    ensures var r := name + ("=\"" + (value + ("\"" + x)));
            && |name| + 1 < |r| && r[|name|] == '=' && r[|name| + 1] == '"' && r[..|name|] == name
            && r[|name|..] == "=\"" + (value + ("\"" + x)) && r[|name| + 1..] == "\"" + (value + ("\"" + x))
            && r[|name| + 2..] == value + ("\"" + x) && r[|name| + 2..|name| + 2 + |value|] == value
            && |name| + 2 + |value| < |r| && r[|name| + 2 + |value| + 1..] == x
  {
    var r := name + ("=\"" + (value + ("\"" + x)));
    assert r[|name| + 2..] == value + ("\"" + x);
  }

  lemma AttributeShape(r: string, n: nat)
    requires NameLength(r) == n && 0 < n < |r| && r[n] == '=' && Spaces(r[n..]) == 0 && Spaces(r[n + 1..]) == 0
    ensures ReadAttribute(r) == QuotedValue(r, n, n + 1)
  {
    hide QuotedValue, NameLength, Spaces;
  }

  lemma QuotedShape(r: string, n: nat, at: nat, k: nat)
    requires 0 < n < at && at + 1 + k < |r| && r[at] == '"' && IndexOf(r[at + 1..], '"') == k
    ensures QuotedValue(r, n, at)
            == Some((Attribute(r[..n], r[at + 1..at + 1 + k]), at + 2 + k + Spaces(r[at + 2 + k..])))
  {
    hide IndexOf, Spaces;
  }

  lemma ReadsAttribute(name: string, value: string, x: string)
    requires IsName(name) && '"' !in value
    ensures ReadAttribute(name + ("=\"" + (value + ("\"" + x))))
            == Some((Attribute(name, value), |name| + |value| + 3 + Spaces(x)))
  {
    hide *;
    var r := name + ("=\"" + (value + ("\"" + x)));
    AttributePlaces(name, value, x);
    NameIs(name);
    MarkIsNoName();
    NameThen(name, "=\"" + (value + ("\"" + x)));
    NoSpace(r[|name|..]);
    NoSpace(r[|name| + 1..]);
    AttributeShape(r, |name|);
    IndexAfter(value, '"', "\"" + x);
    QuoteFirst(x);
    QuotedShape(r, |name|, |name| + 1, |value|);
  }

  lemma NameIs(name: string)
    requires IsName(name)
    ensures name != "" && forall i :: 0 <= i < |name| ==> IsNameChar(name[i])
  {
  }

  lemma MarkIsNoName()
    ensures !IsNameChar('=') && !IsNameChar('"') && !IsNameChar(' ') && !IsNameChar('/') && !IsNameChar('>')
    ensures !IsSpace('=') && !IsSpace('"') && !IsSpace('/')
  {
  }

  lemma QuoteFirst(x: string)
    ensures IndexOf("\"" + x, '"') == 0
  {
  }

  lemma AttributeListIs(attributes: seq<Attribute>)
    requires attributes != []
    ensures var a, tail := attributes[0], if |attributes| == 1 then "" else " " + AttributeList(attributes[1..]);
            AttributeList(attributes) == a.name + ("=\"" + (Encode(a.value) + ("\"" + tail)))
  {
    hide Encode;
    var a, tail := attributes[0], if |attributes| == 1 then "" else " " + AttributeList(attributes[1..]);
    Glue(a.name, Encode(a.value), tail);
  }

  lemma Glue(name: string, value: string, tail: string)
    ensures (name + ("=\"" + (value + "\""))) + tail == name + ("=\"" + (value + ("\"" + tail)))
  {
  }

  lemma StartsWithName(attributes: seq<Attribute>)
    requires attributes != [] && IsName(attributes[0].name)
    ensures AttributeList(attributes) != "" && AttributeList(attributes)[0] == attributes[0].name[0]
            && IsNameChar(AttributeList(attributes)[0])
    ensures Spaces(" " + AttributeList(attributes)) == 1
  {
    hide Encode;
    AttributeListIs(attributes);
    assert (" " + AttributeList(attributes))[1..] == AttributeList(attributes);
  }

  lemma ReadsNext(r: string, a: Attribute, n: nat, known: seq<Attribute>, value: string)
    requires r != "" && ReadAttribute(r) == Some((a, n)) && !Has(known, a.name)
             && DecodeEntities(a.value) == Some(value)
    ensures n <= |r| && ReadAttributes(r, known) == ReadAttributes(r[n..], Assign(known, Attribute(a.name, value)))
  {
    hide ReadAttribute, DecodeEntities, Has, Assign;
  }

  lemma DecodesWhole(s: string)
    ensures DecodeEntities(Encode(s)) == Some(s) && '"' !in Encode(s)
  {
    hide Encode;
    DecodesEncoded(s, "");
    EncodedIsSafe(s);
    assert Encode(s) + "" == Encode(s) && s + "" == s;
    assert DecodeEntities("") == Some("");
  }

  predicate NoneKnown(attributes: seq<Attribute>, known: seq<Attribute>) {
    forall i :: 0 <= i < |attributes| ==> !Has(known, attributes[i].name)
  }

  lemma StillUnknown(attributes: seq<Attribute>, known: seq<Attribute>)
    requires attributes != [] && DistinctNames(attributes) && NoneKnown(attributes, known)
    ensures DistinctNames(attributes[1..]) && NoneKnown(attributes[1..], Assign(known, attributes[0]))
            && !Has(known, attributes[0].name)
  {
    forall i | 0 <= i < |attributes[1..]| ensures !Has(Assign(known, attributes[0]), attributes[1..][i].name) {
      assert attributes[1..][i] == attributes[i + 1];
      assert !Has(known, attributes[i + 1].name);
    }
  }

  lemma HeldIs(attributes: seq<Attribute>)
    requires attributes != []
    ensures Held(attributes) == if attributes[0].name == "__proto__" then Held(attributes[1..])
            else [attributes[0]] + Held(attributes[1..])
  {
    assert [] + Held(attributes[1..]) == Held(attributes[1..]);
  }

  lemma AssignIs(known: seq<Attribute>, a: Attribute)
    ensures Assign(known, a) == if a.name == "__proto__" then known else known + [a]
  {
  }

  lemma Rejoin(known: seq<Attribute>, one: seq<Attribute>, rest: seq<Attribute>)
    ensures (known + one) + rest == known + (one + rest)
  {
  }

  lemma HeldStep(attributes: seq<Attribute>, known: seq<Attribute>)
    requires attributes != []
    ensures Assign(known, attributes[0]) + Held(attributes[1..]) == known + Held(attributes)
  {
    hide *;
    HeldIs(attributes);
    AssignIs(known, attributes[0]);
    Rejoin(known, [attributes[0]], Held(attributes[1..]));
  }

  /** A printed list of attributes reads back, but for what a plain object cannot hold. */
  lemma {:induction false} ReadsAttributes(attributes: seq<Attribute>, known: seq<Attribute>)
    requires DistinctNames(attributes) && NoneKnown(attributes, known) && forall i :: 0 <= i < |attributes| ==>
               IsName(attributes[i].name)
    ensures ReadAttributes(AttributeList(attributes), known) == Some(known + Held(attributes))
    decreases attributes
  {
    if attributes == [] {
      assert known + [] == known;
    } else {
      ReadsFirst(attributes, known);
    }
  }

  lemma ReadsFirst(attributes: seq<Attribute>, known: seq<Attribute>)
    requires attributes != [] && DistinctNames(attributes) && NoneKnown(attributes, known)
    requires forall i :: 0 <= i < |attributes| ==> IsName(attributes[i].name)
    ensures ReadAttributes(AttributeList(attributes), known) == Some(known + Held(attributes))
    decreases attributes, 0
  {
    hide ReadAttribute, DecodeEntities, Has, Assign, AttributeList, Encode, Held, ReadAttributes, IsName, Spaces,
         DistinctNames, NoneKnown;
    var a, r := attributes[0], AttributeList(attributes);
    var rest := attributes[1..];
    var tail := if |attributes| == 1 then "" else " " + AttributeList(rest);
    AttributeListIs(attributes);
    DecodesWhole(a.value);
    ReadsAttribute(a.name, Encode(a.value), tail);
    StillUnknown(attributes, known);
    ReadsAttributes(rest, Assign(known, a));
    HeldStep(attributes, known);
    AttributePlaces(a.name, Encode(a.value), tail);
    var n := |a.name| + |Encode(a.value)| + 3 + Spaces(tail);
    if |attributes| == 1 {
      NoSpace("");
      EmptyList(rest);
    } else {
      assert rest[0] == attributes[1];
      StartsWithName(rest);
      assert tail[1..] == AttributeList(rest);
    }
    assert r[n..] == AttributeList(rest);
    ReadsNext(r, Attribute(a.name, Encode(a.value)), n, known, a.value);
  }

  lemma EmptyList(rest: seq<Attribute>)
    requires rest == []
    ensures AttributeList(rest) == ""
  {
  }

  // ---------------------------------------------------------------------------------------------
  // Tags
  // ---------------------------------------------------------------------------------------------

  lemma {:induction false} EndAfterPlain(s: string, x: string)
    requires forall i :: 0 <= i < |s| ==> s[i] != '"' && s[i] != '\'' && s[i] != '>'
    ensures TagEnd(s + x, None) == Shift(|s|, TagEnd(x, None))
  {
    if s == "" {
      assert s + x == x;
    } else {
      assert (s + x)[1..] == s[1..] + x;
      EndAfterPlain(s[1..], x);
    }
  }

  function Shift(k: nat, n: Option<nat>): Option<nat> {
    if n.None? then None else Some(k + n.value)
  }

  lemma {:induction false} EndInQuotes(s: string, x: string)
    requires '"' !in s
    ensures TagEnd(s + ("\"" + x), Some('"')) == Shift(|s| + 1, TagEnd(x, None))
  {
    if s == "" {
      assert s + ("\"" + x) == "\"" + x;
      assert ("\"" + x)[1..] == x;
    } else {
      assert (s + ("\"" + x))[1..] == s[1..] + ("\"" + x);
      EndInQuotes(s[1..], x);
    }
  }

  lemma ShiftTwice(a: nat, b: nat, n: Option<nat>)
    ensures Shift(a, Shift(b, n)) == Shift(a + b, n)
  {
  }

  lemma NameIsPlain(name: string)
    requires IsName(name)
    ensures forall i :: 0 <= i < |name| ==>
              name[i] != '"' && name[i] != '\'' && name[i] != '>' && name[i] != '<' && name[i] != '/'
                  && !IsSpace(name[i])
  {
  }

  lemma OpensQuote(x: string)
    ensures TagEnd("\"" + x, None) == Shift(1, TagEnd(x, Some('"')))
  {
    assert ("\"" + x)[1..] == x;
  }

  lemma EndAfterAttribute(a: Attribute, x: string)
    requires IsName(a.name)
    ensures TagEnd(AttributeText(a) + x, None) == Shift(|AttributeText(a)|, TagEnd(x, None))
  {
    hide *;
    var value := Encode(a.value);
    AttributeTextIs(a);
    DecodesWhole(a.value);
    NameIsPlain(a.name);
    PlainEquals(a.name);
    Glue(a.name, value, x);
    assert a.name + ("=\"" + (value + ("\"" + x))) == (a.name + "=") + ("\"" + (value + ("\"" + x)));
    EndAfterPlain(a.name + "=", "\"" + (value + ("\"" + x)));
    OpensQuote(value + ("\"" + x));
    EndInQuotes(value, x);
    ShiftTwice(1, |value| + 1, TagEnd(x, None));
    ShiftTwice(|a.name + "="|, |value| + 2, TagEnd(x, None));
  }

  lemma PlainEquals(name: string)
    requires forall i :: 0 <= i < |name| ==> name[i] != '"' && name[i] != '\'' && name[i] != '>'
    ensures forall i :: 0 <= i < |name + "="| ==>
              (name + "=")[i] != '"' && (name + "=")[i] != '\'' && (name + "=")[i] != '>'
  {
  }

  lemma AttributeTextIs(a: Attribute)
    ensures AttributeText(a) == a.name + ("=\"" + (Encode(a.value) + "\""))
  {
  }

  lemma {:induction false} EndAfterList(attributes: seq<Attribute>, x: string)
    requires forall i :: 0 <= i < |attributes| ==> IsName(attributes[i].name)
    ensures TagEnd(AttributeList(attributes) + x, None) == Shift(|AttributeList(attributes)|, TagEnd(x, None))
    decreases attributes
  {
    hide IsName, TagEnd, AttributeText;
    if attributes == [] {
      assert AttributeList(attributes) + x == x;
    } else {
      var first, rest := AttributeText(attributes[0]), AttributeList(attributes[1..]);
      if |attributes| == 1 {
        assert first + "" == first;
        EndAfterAttribute(attributes[0], x);
      } else {
        EndAfterList(attributes[1..], x);
        assert (first + (" " + rest)) + x == first + (" " + (rest + x));
        EndAfterAttribute(attributes[0], " " + (rest + x));
        EndAfterPlain(" ", rest + x);
        ShiftTwice(1, |rest|, TagEnd(x, None));
        ShiftTwice(|first|, 1 + |rest|, TagEnd(x, None));
      }
    }
  }

  predicate NamedWell(name: string, attributes: seq<Attribute>) {
    IsName(name) && DistinctNames(attributes) && forall i :: 0 <= i < |attributes| ==> IsName(attributes[i].name)
  }

  lemma EndAfterTag(name: string, attributes: seq<Attribute>, x: string)
    requires NamedWell(name, attributes)
    ensures TagEnd(TagText(name, attributes) + x, None) == Shift(|TagText(name, attributes)|, TagEnd(x, None))
  {
    hide IsName, TagEnd, AttributeList;
    NameIsPlain(name);
    if attributes == [] {
      assert name + "" == name;
      EndAfterPlain(name, x);
    } else {
      var list := AttributeList(attributes);
      assert (name + (" " + list)) + x == name + (" " + (list + x));
      EndAfterList(attributes, x);
      EndAfterPlain(" ", list + x);
      EndAfterPlain(name, " " + (list + x));
      ShiftTwice(1, |list|, TagEnd(x, None));
      ShiftTwice(|name|, 1 + |list|, TagEnd(x, None));
    }
  }

  lemma TrimIs(s: string)
    requires s == "" || (!IsSpace(s[0]) && !IsSpace(s[|s| - 1]))
    ensures Trim(s) == s
  {
    assert s[0..] == s;
  }

  lemma {:induction false} ListEnds(attributes: seq<Attribute>)
    requires attributes != []
    ensures AttributeList(attributes) != "" && AttributeList(attributes)[|AttributeList(attributes)| - 1] == '"'
    decreases attributes
  {
    hide Encode;
    if |attributes| > 1 {
      ListEnds(attributes[1..]);
    }
  }

  /** A tag's text starts with its name and ends with neither white space nor a slash. */
  lemma TagTextEnds(name: string, attributes: seq<Attribute>)
    requires NamedWell(name, attributes)
    ensures var t := TagText(name, attributes);
            && t != "" && IsNameChar(t[0]) && !IsSpace(t[0]) && t[0] != '/' && t[0] != '!' && t[0] != '?'
            && !IsSpace(t[|t| - 1]) && t[|t| - 1] != '/'
    ensures TagText(name, attributes)[..|name|] == name
    ensures Trim(TagText(name, attributes)[|name|..]) == AttributeList(attributes)
    ensures NameLength(TagText(name, attributes)) == |name|
  {
    hide Encode, AttributeList;
    var t := TagText(name, attributes);
    NameIsPlain(name);
    NameIs(name);
    MarkIsNoName();
    if attributes == [] {
      assert name + "" == name && t[|name|..] == "";
      TrimIs("");
      EmptyList(attributes);
      NameThen(name, "");
    } else {
      var list := AttributeList(attributes);
      ListEnds(attributes);
      StartsWithName(attributes);
      assert t[|name|..] == " " + list;
      assert (" " + list)[1..] == list;
      NameThen(name, " " + list);
      TrimIs(list);
      FirstOfName(list);
    }
  }

  lemma FirstOfName(list: string)
    requires list != "" && IsNameChar(list[0]) && list[|list| - 1] == '"'
    ensures Trim(" " + list) == list
  {
    assert (" " + list)[1..] == list;
    NoSpace(list);
    assert TrimStart(" " + list) == list;
  }

  lemma NodeShape(tag: string, body: string, selfClosing: bool, n: nat)
    requires selfClosing == (tag != "" && tag[|tag| - 1] == '/')
    requires body == (if selfClosing then Trim(tag[..|tag| - 1]) else tag) && NameLength(body) == n > 0
    ensures n <= |body|
    ensures var attributes := ReadAttributes(Trim(body[n..]), []);
            ReadNode(tag) == if attributes.None? then None
                else Some((XmlElement(body[..n], attributes.value, []), selfClosing))
  {
    hide ReadAttributes, Trim, NameLength;
  }

  lemma NothingKnown(attributes: seq<Attribute>)
    ensures NoneKnown(attributes, [])
  {
  }

  lemma NamedParts(name: string, attributes: seq<Attribute>)
    requires NamedWell(name, attributes)
    ensures IsName(name) && DistinctNames(attributes) && forall i :: 0 <= i < |attributes| ==>
              IsName(attributes[i].name)
    ensures name != ""
  {
  }

  /** An opening tag's text reads back as its element. */
  lemma ReadsTag(name: string, attributes: seq<Attribute>)
    requires NamedWell(name, attributes)
    ensures ReadNode(TagText(name, attributes)) == Some((XmlElement(name, Held(attributes), []), false))
    ensures ReadNode(TagText(name, attributes) + "/") == Some((XmlElement(name, Held(attributes), []), true))
  {
    hide *;
    var t := TagText(name, attributes);
    NamedParts(name, attributes);
    TagTextEnds(name, attributes);
    NothingKnown(attributes);
    ReadsAttributes(attributes, []);
    assert [] + Held(attributes) == Held(attributes);
    NodeShape(t, t, false, |name|);
    assert (t + "/")[..|t + "/"| - 1] == t;
    TrimIs(t);
    NodeShape(t + "/", t, true, |name|);
  }

  // ---------------------------------------------------------------------------------------------
  // The document
  // ---------------------------------------------------------------------------------------------

  lemma TagSection(c: char, x: string, hasRoot: bool, depth: nat)
    requires c != '!' && c != '?'
    ensures SectionAt("<" + ([c] + x), hasRoot, depth) == Tag
    ensures IndexOf("<" + ([c] + x), '<') == 0
  {
    var r := "<" + ([c] + x);
    assert r[1] == c;
  }

  lemma NothingBefore(r: string, depth: nat)
    requires r != "" && IndexOf(r, '<') == 0
    ensures r[..0] == "" && r[0..] == r && TextAllowed(r[..0], depth)
  {
    TrimIs("");
  }

  lemma TagSlices(r: string, t: string, x: string)
    requires r == "<" + (t + (">" + x))
    ensures r[0..] == r && r[0 + 1..] == t + (">" + x) && |t| + 1 < |r|
    ensures r[0 + 1..0 + 1 + |t|] == t && r[0 + 1 + |t| + 1..] == x
  {
    var u := r[1..];
    assert u == t + (">" + x);
    assert u[..|t|] == t && u[|t|..] == ">" + x;
    assert u[|t|..][1..] == x;
    assert r[1..1 + |t|] == u[..|t|] && r[1 + |t| + 1..] == u[|t|..][1..];
  }

  /** A scan that stands at a tag takes it. */
  lemma ScansTag(t: string, x: string, st: State)
    requires t != "" && t[0] != '!' && t[0] != '?' && !IsSpace(t[0]) && !IsSpace(t[|t| - 1])
    requires TagEnd(t + (">" + x), None) == Some(|t|)
    ensures Scan("<" + (t + (">" + x)), st)
            == var next := TakeTag(st, t); if next.None? then None else Scan(x, next.value)
  {
    hide *;
    var r := "<" + (t + (">" + x));
    assert t + (">" + x) == [t[0]] + (t[1..] + (">" + x));
    TagSection(t[0], t[1..] + (">" + x), HasRoot(st), |st.stack|);
    NothingBefore(r, |st.stack|);
    ScanShape(r, st);
    FromShape(r, 0, st);
    ScanTagShape(r, 0, 0, st);
    TagSlices(r, t, x);
    TrimIs(t);
  }

  lemma EndsHere(x: string)
    ensures TagEnd(">" + x, None) == Some(0) && TagEnd("/" + (">" + x), None) == Some(1)
  {
    assert ("/" + (">" + x))[1..] == ">" + x;
  }

  lemma TakesOpen(st: State, t: string, e: XmlElement, selfClosing: bool)
    requires t != "" && t[0] != '/' && ReadNode(t) == Some((e, selfClosing)) && (st.stack == [] ==> !HasRoot(st))
    ensures TakeTag(st, t) == if selfClosing then Some(Attach(st, e))
                              else if |st.stack| + 1 > LIMIT then None
                              else Some(st.(stack := st.stack + [e]))
  {
    hide ReadNode, Attach;
  }

  /** An element without content attaches itself. */
  lemma ScansEmpty(name: string, attributes: seq<Attribute>, x: string, st: State)
    requires NamedWell(name, attributes) && (st.stack == [] ==> !HasRoot(st))
    ensures Scan("<" + (TagText(name, attributes) + "/>") + x, st)
            == Scan(x, Attach(st, XmlElement(name, Held(attributes), [])))
  {
    hide *;
    var t := TagText(name, attributes);
    TagTextEnds(name, attributes);
    MarkIsNoName();
    ReadsTag(name, attributes);
    assert ("<" + (t + "/>")) + x == "<" + ((t + "/") + (">" + x));
    assert (t + "/") + (">" + x) == t + ("/" + (">" + x));
    EndAfterTag(name, attributes, "/" + (">" + x));
    EndsHere(x);
    ShiftIs(|t|, 1);
    TakesOpen(st, t + "/", XmlElement(name, Held(attributes), []), true);
    ScansTag(t + "/", x, st);
  }

  lemma ShiftIs(k: nat, n: nat)
    ensures Shift(k, Some(n)) == Some(k + n)
  {
  }

  lemma ScansOpen(name: string, attributes: seq<Attribute>, x: string, st: State)
    requires NamedWell(name, attributes) && (st.stack == [] ==> !HasRoot(st))
    ensures Scan("<" + (TagText(name, attributes) + (">" + x)), st)
            == if |st.stack| + 1 > LIMIT then None
                else Scan(x, st.(stack := st.stack + [XmlElement(name, Held(attributes), [])]))
  {
    hide *;
    var t := TagText(name, attributes);
    TagTextEnds(name, attributes);
    ReadsTag(name, attributes);
    EndAfterTag(name, attributes, ">" + x);
    EndsHere(x);
    ShiftIs(|t|, 0);
    TakesOpen(st, t, XmlElement(name, Held(attributes), []), false);
    ScansTag(t, x, st);
  }

  lemma TakesClose(st: State, name: string)
    requires st.stack != [] && st.stack[|st.stack| - 1].name == name && IsName(name)
    ensures TakeTag(st, "/" + name) == Some(Attach(st.(stack := st.stack[..|st.stack| - 1]), st.stack[|st.stack| - 1]))
  {
    hide Attach;
    NameIsPlain(name);
    TrimIs(name);
    assert ("/" + name)[1..] == name;
  }

  lemma ScansClose(name: string, x: string, st: State)
    requires IsName(name) && st.stack != [] && st.stack[|st.stack| - 1].name == name
    ensures Scan(("</" + (name + ">")) + x, st)
            == Scan(x, Attach(st.(stack := st.stack[..|st.stack| - 1]), st.stack[|st.stack| - 1]))
  {
    hide *;
    NameIs(name);
    NameIsPlain(name);
    MarkIsNoName();
    var t := "/" + name;
    assert ("</" + (name + ">")) + x == "<" + (t + (">" + x));
    SlashName(name);
    EndAfterPlain(t, ">" + x);
    EndsHere(x);
    ShiftIs(|t|, 0);
    TakesClose(st, name);
    ScansTag(t, x, st);
  }

  lemma SlashName(name: string)
    requires forall i :: 0 <= i < |name| ==> name[i] != '"' && name[i] != '\'' && name[i] != '>'
    ensures forall i :: 0 <= i < |"/" + name| ==>
              ("/" + name)[i] != '"' && ("/" + name)[i] != '\'' && ("/" + name)[i] != '>'
  {
  }

  /** What is decided from a `<` on does not depend on the text before it. */
  lemma FromSame(a: string, r: string, open: nat, st: State)
    requires open < |r|
    ensures ScanFrom(a + r, |a| + open, st) == ScanFrom(r, open, st)
  {
    hide *;
    var s := a + r;
    assert s[|a| + open..] == r[open..];
    FromShape(s, |a| + open, st);
    FromShape(r, open, st);
    var section := SectionAt(r[open..], HasRoot(st), |st.stack|);
    if section.Past? {
      assert s[|a| + open + section.n..] == r[open + section.n..];
    } else if section.Tag? {
      assert s[0..] == s && r[0..] == r;
      ScanTagShape(s, 0, |a| + open, st);
      ScanTagShape(r, 0, open, st);
      assert s[|a| + open + 1..] == r[open + 1..];
      var end := TagEnd(r[open + 1..], None);
      if end.Some? {
        var close := open + 1 + end.value;
        assert s[|a| + open + 1..|a| + close] == r[open + 1..close] && s[|a| + close + 1..] == r[close + 1..];
      }
    }
  }

  lemma TextStays(s: string, t: string, depth: nat)
    requires depth > 0
    ensures TextAllowed(Encode(s) + t, depth) <==> TextAllowed(t, depth)
  {
    hide Encode, DecodeEntities, Trim;
    DecodesEncoded(s, t);
  }

  /** Text inside an element changes nothing. */
  lemma ScansText(s: string, x: string, st: State)
    requires st.stack != []
    ensures Scan(Encode(s) + x, st) == Scan(x, st)
  {
    hide *;
    var e := Encode(s);
    var r := e + x;
    EncodedIsSafe(s);
    IndexAfter(e, '<', x);
    var k := IndexOf(x, '<');
    assert r[..|e| + k] == e + x[..k];
    TextStays(s, x[..k], |st.stack|);
    ScanShape(r, st);
    ScanShape(x, st);
    if x == "" {
      assert x[..k] == "";
      NoText(|st.stack|);
      assert k == 0;
      if r == "" {
        assert e == "";
      }
    } else if k < |x| {
      FromSame(e, x, k, st);
    }
  }

  lemma NoText(depth: nat)
    ensures TextAllowed("", depth)
  {
    TrimIs("");
  }

  lemma {:induction false} EndWithMore(r: string, marker: string, from: nat, x: string)
    requires EndOf(r, marker, from).Some?
    ensures EndOf(r + x, marker, from) == EndOf(r, marker, from)
    decreases |r| - from
  {
    assert (r + x)[from..from + |marker|] == r[from..from + |marker|];
    if r[from..from + |marker|] != marker {
      EndWithMore(r, marker, from + 1, x);
    }
  }

  lemma {:induction false} EndFurtherOn(a: string, r: string, marker: string, from: nat)
    requires EndOf(r, marker, from).Some?
    ensures EndOf(a + r, marker, |a| + from) == Some(|a| + EndOf(r, marker, from).value)
    decreases |r| - from
  {
    assert (a + r)[|a| + from..|a| + from + |marker|] == r[from..from + |marker|];
    if r[from..from + |marker|] != marker {
      EndFurtherOn(a, r, marker, from + 1);
    }
  }

  /** A section between two marks is passed over. */
  lemma ScansSection(open: string, s: string, marker: string, x: string, st: State)
    requires EndOf(s + marker, marker, 0) == Some(|s| + |marker|)
    requires |open| > 1 && open[0] == '<'
    requires forall r :: StartsWith(r, open) ==>
               SectionAt(r, HasRoot(st), |st.stack|) == Past0(EndOf(r, marker, |open|))
    ensures Scan((open + (s + marker)) + x, st) == Scan(x, st)
  {
    hide *;
    var r := (open + (s + marker)) + x;
    assert r == open + ((s + marker) + x);
    EndWithMore(s + marker, marker, 0, x);
    EndFurtherOn(open, (s + marker) + x, marker, 0);
    StartsSo(open, (s + marker) + x);
    StartsAt(r);
    NothingBefore(r, |st.stack|);
    ScanShape(r, st);
    FromShape(r, 0, st);
    PastIs(|open| + |s| + |marker|);
    assert r[0 + (|open| + |s| + |marker|)..] == x;
  }

  lemma PastIs(n: nat)
    ensures Past0(Some(n)) == Past(n)
  {
  }

  lemma StartsSo(open: string, x: string)
    ensures StartsWith(open + x, open)
  {
  }

  lemma StartsAt(r: string)
    requires r != "" && r[0] == '<'
    ensures IndexOf(r, '<') == 0
  {
  }

  lemma CommentSection(hasRoot: bool, depth: nat)
    ensures forall r :: StartsWith(r, "<!--") ==> SectionAt(r, hasRoot, depth) == Past0(EndOf(r, "-->", |"<!--"|))
  {
    hide EndOf;
  }

  lemma CDataSection(hasRoot: bool, depth: nat)
    requires depth > 0
    ensures forall r :: StartsWith(r, "<![CDATA[") ==>
              SectionAt(r, hasRoot, depth) == Past0(EndOf(r, "]]>", |"<![CDATA["|))
  {
    hide EndOf;
    forall r | StartsWith(r, "<![CDATA[") ensures !StartsWith(r, "<!--") {
      assert r[2] == '[';
    }
  }

  function AttachNode(st: State, n: Node): State {
    if n.Element? then Attach(st, Skeleton(n)) else st
  }

  function AttachAll(st: State, content: seq<Node>): State
    decreases content
  {
    if content == [] then st else AttachAll(AttachNode(st, content[0]), content[1..])
  }

  /** More children for the innermost open element. */
  function WithChildren(st: State, es: seq<XmlElement>): State
    requires st.stack != []
  {
    var last := |st.stack| - 1;
    var parent := st.stack[last];
    st.(stack := st.stack[..last] + [parent.(children := parent.children + es)])
  }

  lemma OneChildMore(st: State, e: XmlElement, es: seq<XmlElement>)
    requires st.stack != []
    ensures Attach(st, e).stack != [] && WithChildren(Attach(st, e), es) == WithChildren(st, [e] + es)
  {
    var last := |st.stack| - 1;
    var parent := st.stack[last];
    assert (parent.children + [e]) + es == parent.children + ([e] + es);
    assert Attach(st, e).stack[..last] == st.stack[..last];
  }

  lemma NoChildMore(st: State)
    requires st.stack != []
    ensures WithChildren(st, []) == st
  {
    var last := |st.stack| - 1;
    assert st.stack[last].children + [] == st.stack[last].children;
    assert st.stack[..last] + [st.stack[last]] == st.stack;
  }

  lemma SkeletonsStep(content: seq<Node>)
    requires content != []
    ensures content[0].Element? ==> Skeletons(content) == [Skeleton(content[0])] + Skeletons(content[1..])
    ensures !content[0].Element? ==> Skeletons(content) == Skeletons(content[1..])
  {
    hide Skeleton;
    assert [] + Skeletons(content[1..]) == Skeletons(content[1..]);
  }

  lemma {:induction false} AttachesAll(st: State, content: seq<Node>)
    requires st.stack != []
    ensures AttachAll(st, content) == WithChildren(st, Skeletons(content))
    decreases content
  {
    hide Skeleton, Skeletons, Attach, WithChildren;
    if content == [] {
      NoChildMore(st);
      NoSkeletons();
    } else {
      SkeletonsStep(content);
      if content[0].Element? {
        OneChildMore(st, Skeleton(content[0]), Skeletons(content[1..]));
      }
      AttachesAll(AttachNode(st, content[0]), content[1..]);
    }
  }

  lemma NoSkeletons()
    ensures Skeletons([]) == []
  {
  }

  lemma ElementParts(n: Node)
    requires n.Element? && WellFormed(n)
    ensures NamedWell(n.name, n.attributes) && forall i :: 0 <= i < |n.content| ==> WellFormed(n.content[i])
    ensures n.content == [] ==> Print(n) == "<" + (TagText(n.name, n.attributes) + "/>")
    ensures n.content != [] ==>
              Print(n) == "<" + (TagText(n.name, n.attributes)
                                 + (">" + (PrintAll(n.content) + ("</" + (n.name + ">")))))
    ensures Skeleton(n) == XmlElement(n.name, Held(n.attributes), Skeletons(n.content))
    ensures Depth(n) == if n.content == [] then 0 else 1 + DepthAll(n.content)
    ensures n.content == [] ==> Skeletons(n.content) == []
  {
    hide IsName, EndOf;
  }

  lemma Reassociate(tag: string, content: string, close: string, x: string)
    ensures ("<" + (tag + (">" + (content + close)))) + x == "<" + (tag + (">" + (content + (close + x))))
  {
  }

  /**
   * Reading a printed node: its element is attached, when there is room for what it opens; otherwise the scan fails.
   */
  lemma {:induction false} ScansNode(n: Node, x: string, st: State)
    requires WellFormed(n) && (st.stack == [] ==> n.Element? && !HasRoot(st)) && |st.stack| <= LIMIT
    ensures Scan(Print(n) + x, st) == if |st.stack| + Depth(n) <= LIMIT then Scan(x, AttachNode(st, n)) else None
    decreases n, 1
  {
    match n
    case Text(s) => ScansText(s, x, st);
    case Comment(s) =>
      CommentSection(HasRoot(st), |st.stack|);
      ScansSection("<!--", s, "-->", x, st);
    case CharacterData(s) =>
      CDataSection(HasRoot(st), |st.stack|);
      ScansSection("<![CDATA[", s, "]]>", x, st);
    case Element(_, _, _) => ScansElement(n, x, st);
  }

  lemma AttachNodeIs(st: State, n: Node)
    requires n.Element?
    ensures AttachNode(st, n) == Attach(st, Skeleton(n))
  {
  }

  lemma ScansElement(n: Node, x: string, st: State)
    requires n.Element? && WellFormed(n) && (st.stack == [] ==> !HasRoot(st)) && |st.stack| <= LIMIT
    ensures Scan(Print(n) + x, st) == if |st.stack| + Depth(n) <= LIMIT then Scan(x, AttachNode(st, n)) else None
    decreases n, 0
  {
    hide *;
    ElementParts(n);
    AttachNodeIs(st, n);
    if n.content == [] {
      ScansEmpty(n.name, n.attributes, x, st);
    } else {
      var t, close := TagText(n.name, n.attributes), "</" + (n.name + ">");
      Reassociate(t, PrintAll(n.content), close, x);
      ScansOpen(n.name, n.attributes, PrintAll(n.content) + (close + x), st);
      if |st.stack| + 1 <= LIMIT {
        var e := XmlElement(n.name, Held(n.attributes), []);
        var inner := st.(stack := st.stack + [e]);
        ScansAll(n.content, close + x, inner);
        AttachesAll(inner, n.content);
        WithChildrenIs(inner, Skeletons(n.content));
        var full := e.(children := [] + Skeletons(n.content));
        assert [] + Skeletons(n.content) == Skeletons(n.content);
        assert inner.stack[..|st.stack|] == st.stack;
        var outer := inner.(stack := st.stack + [full]);
        assert outer.stack[..|st.stack|] == st.stack && st.(stack := st.stack) == st;
        NamedParts(n.name, n.attributes);
        ScansClose(n.name, x, outer);
      }
    }
  }

  lemma WithChildrenIs(st: State, es: seq<XmlElement>)
    requires st.stack != []
    ensures var last := |st.stack| - 1;
            WithChildren(st, es)
                == st.(stack := st.stack[..last] + [st.stack[last].(children := st.stack[last].children + es)])
  {
  }

  lemma {:induction false} ScansAll(content: seq<Node>, x: string, st: State)
    requires (forall i :: 0 <= i < |content| ==> WellFormed(content[i])) && st.stack != [] && |st.stack| <= LIMIT
    ensures Scan(PrintAll(content) + x, st)
            == if |st.stack| + DepthAll(content) <= LIMIT then Scan(x, AttachAll(st, content)) else None
    decreases content
  {
    hide Print, Scan, WellFormed, Depth, Skeleton;
    if content == [] {
      assert "" + x == x;
    } else {
      assert PrintAll(content) + x == Print(content[0]) + (PrintAll(content[1..]) + x);
      ScansNode(content[0], PrintAll(content[1..]) + x, st);
      if |st.stack| + Depth(content[0]) <= LIMIT {
        ScansAll(content[1..], x, AttachNode(st, content[0]));
      }
    }
  }

  /** Parsing a printed document gives its elements, exactly when at most 64 elements are open at once. */
  lemma ParsesPrinted(root: Node)
    requires root.Element? && WellFormed(root)
    ensures Parse(Print(root)) == if Depth(root) <= LIMIT then Some(Skeleton(root)) else None
  {
    hide Print, WellFormed, Depth, Skeleton;
    var st := State([], None);
    ScansNode(root, "", st);
    assert Print(root) + "" == Print(root);
  }

  // ---------------------------------------------------------------------------------------------
  // Element trees
  // ---------------------------------------------------------------------------------------------

  /** An element tree as a document without text. */
  function Written(e: XmlElement): Node {
    Element(e.name, e.attributes, WrittenAll(e.children))
  }

  function WrittenAll(es: seq<XmlElement>): (content: seq<Node>)
    ensures |content| == |es|
  {
    if es == [] then [] else [Written(es[0])] + WrittenAll(es[1..])
  }

  predicate Nameable(e: XmlElement) {
    NamedWell(e.name, e.attributes) && forall i :: 0 <= i < |e.children| ==> Nameable(e.children[i])
  }

  /** No attribute is called `__proto__`, which a plain object takes for something else. */
  predicate Holdable(e: XmlElement) {
    !Has(e.attributes, "__proto__") && forall i :: 0 <= i < |e.children| ==> Holdable(e.children[i])
  }

  lemma {:induction false} HeldAll(attributes: seq<Attribute>)
    ensures |Held(attributes)| <= |attributes|
    ensures Held(attributes) == attributes <==> !Has(attributes, "__proto__")
  {
    if attributes != [] {
      HeldAll(attributes[1..]);
      assert attributes == [attributes[0]] + attributes[1..];
      if attributes[0].name == "__proto__" {
        assert Has(attributes, "__proto__");
      } else {
        HasLater(attributes, "__proto__");
      }
    }
  }

  lemma HasLater(attributes: seq<Attribute>, name: string)
    requires attributes != [] && attributes[0].name != name
    ensures Has(attributes, name) <==> Has(attributes[1..], name)
  {
    if Has(attributes, name) {
      var i :| 0 <= i < |attributes| && attributes[i].name == name;
      assert attributes[1..][i - 1] == attributes[i];
    }
    if Has(attributes[1..], name) {
      var i :| 0 <= i < |attributes[1..]| && attributes[1..][i].name == name;
      assert attributes[i + 1].name == name;
    }
  }

  lemma {:induction false} WrittenWell(e: XmlElement)
    requires Nameable(e)
    ensures WellFormed(Written(e))
    ensures Skeleton(Written(e)) == e <==> Holdable(e)
    decreases e
  {
    hide Has, Held;
    HeldAll(e.attributes);
    WrittenAllWell(e.children);
  }

  lemma {:induction false} WrittenAllWell(es: seq<XmlElement>)
    requires forall i :: 0 <= i < |es| ==> Nameable(es[i])
    ensures forall i :: 0 <= i < |es| ==> WellFormed(WrittenAll(es)[i])
    ensures Skeletons(WrittenAll(es)) == es <==> forall i :: 0 <= i < |es| ==> Holdable(es[i])
    decreases es
  {
    hide WellFormed, Holdable, Nameable, Skeleton;
    if es != [] {
      WrittenWell(es[0]);
      WrittenAllWell(es[1..]);
      var content := WrittenAll(es);
      assert content[1..] == WrittenAll(es[1..]);
      assert forall i :: 0 < i < |es| ==> content[i] == content[1..][i - 1];
      assert Skeletons(content) == [Skeleton(content[0])] + Skeletons(content[1..]);
      assert es == [es[0]] + es[1..];
      assert (forall i :: 0 <= i < |es| ==> Holdable(es[i])) <==> Holdable(es[0]) && forall i :: 0 <= i < |es[1..]| ==>
               Holdable(es[1..][i]) by {
        if Holdable(es[0]) && forall i :: 0 <= i < |es[1..]| ==> Holdable(es[1..][i]) {
          forall i | 0 <= i < |es| ensures Holdable(es[i]) {
            assert i > 0 ==> es[i] == es[1..][i - 1];
          }
        }
      }
    }
  }

  /**
   * An element tree with proper names comes back from its printed form exactly
   * when it is not too deep and a plain object can hold its attributes.
   */
  lemma ElementRoundTrip(e: XmlElement)
    requires Nameable(e)
    ensures Parse(Print(Written(e))) == Some(e) <==> Depth(Written(e)) <= LIMIT && Holdable(e)
  {
    hide WellFormed, Holdable, Nameable, Skeleton, Print, Depth, Parse;
    WrittenWell(e);
    ParsesPrinted(Written(e));
  }

  /** An attribute that a plain object takes for its prototype is lost. */
  lemma PrototypeIsLost()
    ensures var e := XmlElement("a", [Attribute("__proto__", "b")], []);
            Nameable(e) && Parse(Print(Written(e))) != Some(e)
  {
    hide Parse, Print;
    var e := XmlElement("a", [Attribute("__proto__", "b")], []);
    assert e.attributes[0].name == "__proto__";
    ElementRoundTrip(e);
  }

  function Nested(n: nat): XmlElement {
    XmlElement("a", [], if n == 0 then [] else [Nested(n - 1)])
  }

  lemma {:induction false} NestedDepth(n: nat)
    ensures Nameable(Nested(n)) && Depth(Written(Nested(n))) == n
  {
    if n > 0 {
      NestedDepth(n - 1);
      var inner := Nested(n - 1);
      assert WrittenAll([inner]) == [Written(inner)] by { assert [inner][1..] == []; }
      assert DepthAll([Written(inner)]) == Depth(Written(inner)) by { assert [Written(inner)][1..] == []; }
    }
  }

  /** A tree with one element more inside than may be open is not read at all, one with as many comes back. */
  lemma TooDeepIsLost()
    ensures Parse(Print(Written(Nested(65)))) != Some(Nested(65))
    ensures Parse(Print(Written(Nested(64)))) == Some(Nested(64))
  {
    hide Parse, Print, Nested, Depth;
    NestedDepth(65);
    NestedDepth(64);
    NestedHoldable(64);
    ElementRoundTrip(Nested(65));
    ElementRoundTrip(Nested(64));
  }

  lemma {:induction false} NestedHoldable(n: nat)
    ensures Holdable(Nested(n))
  {
    if n > 0 {
      NestedHoldable(n - 1);
    }
  }
}
