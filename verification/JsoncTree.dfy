/** What a member edit does to a document's tree. */
module JsoncTree {
  // The values it renders, the object it lands in, and the tree it leaves.

  import opened Prelude
  import opened JsonString
  import opened JsoncSyntax
  import opened JsoncReader
  import opened JsoncLayout

  // ---------------------------------------------------------------------------------------------
  // JSON values and their text
  // ---------------------------------------------------------------------------------------------

  datatype Field = Field(key: string, value: Json)

  datatype Json = Literal(text: string) | Str(value: string) | List(items: seq<Json>) | Record(fields: seq<Field>)

  predicate ValidJson(j: Json) {
    match j
    case Literal(text) => LiteralToken(text)
    case Str(_) => true
    case List(items) => forall i :: 0 <= i < |items| ==> ValidJson(items[i])
    case Record(fields) => forall i :: 0 <= i < |fields| ==> ValidJson(fields[i].value)
  }

  function Nested(path: seq<string>, value: Json): Json {
    if path == [] then value else Record([Field(path[0], Nested(path[1..], value))])
  }

  /** `JSON.stringify`, compact or with every line after the first begun by `eol` and the step `unit`. */
  function Rendered(j: Json, compact: bool, eol: string, unit: string): Value
    decreases j, 0
  {
    match j
    case Literal(text) => Token(text)
    case Str(s) => Token(Quote(s))
    case List(items) => Group(false, RenderedItems(items, compact, eol + unit, unit),
                              if compact || items == [] then "" else eol)
    case Record(fields) => Group(true, RenderedFields(fields, compact, eol + unit, unit),
                                 if compact || fields == [] then "" else eol)
  }

  function RenderedItems(items: seq<Json>, compact: bool, eol: string, unit: string): seq<Member>
    decreases items
  {
    if items == [] then []
    else
      [Member(if compact then "" else eol, None, Rendered(items[0], compact, eol, unit), "", |items| > 1)]
      + RenderedItems(items[1..], compact, eol, unit)
  }

  function RenderedFields(fields: seq<Field>, compact: bool, eol: string, unit: string): seq<Member>
    decreases fields
  {
    if fields == [] then []
    else
      [Member(if compact then "" else eol, Some(Name(Quote(fields[0].key), "", if compact then "" else " ")),
              Rendered(fields[0].value, compact, eol, unit), "", |fields| > 1)]
      + RenderedFields(fields[1..], compact, eol, unit)
  }

  /** The value a tree stands for, its trivia and the spelling of its strings aside. */
  predicate Denotes(v: Value, j: Json)
    decreases j
  {
    match j
    case Literal(text) => v == Token(text)
    case Str(s) => v.Token? && Decode(v.text) == Some(s)
    case List(items) =>
      && v.Group? && !v.curly && |v.members| == |items|
      && forall i :: 0 <= i < |items| ==> Denotes(v.members[i].value, items[i])
    case Record(fields) =>
      && v.Group? && v.curly && |v.members| == |fields|
      && forall i :: 0 <= i < |fields| ==>
           KeyOf(v.members[i]) == fields[i].key && Denotes(v.members[i].value, fields[i].value)
  }

  lemma {:induction false} QuoteBodyEnds(s: string)
    ensures StringEnd(QuoteBody(s) + "\"") == Some(|QuoteBody(s)| + 1)
  {
    if s != "" {
      QuoteBodyEnds(s[1..]);
      var q, rest := QuoteChar(s[0]), QuoteBody(s[1..]) + "\"";
      assert QuoteBody(s) + "\"" == q + rest;
      QuoteCharPasses(s[0], rest);
    }
  }

  lemma QuoteCharPasses(c: char, rest: string)
    ensures StringEnd(QuoteChar(c) + rest) == Plus(|QuoteChar(c)|, StringEnd(rest))
  {
    var q := QuoteChar(c);
    var r := q + rest;
    if |q| == 1 {
      assert r[1..] == rest;
    } else if |q| == 2 {
      assert r[2..] == rest;
    } else {
      assert r[2..] == [q[2]] + ([q[3]] + ([q[4]] + ([q[5]] + rest)));
      PlainPasses(q[5], rest);
      PlainPasses(q[4], [q[5]] + rest);
      PlainPasses(q[3], [q[4]] + ([q[5]] + rest));
      PlainPasses(q[2], [q[3]] + ([q[4]] + ([q[5]] + rest)));
    }
  }

  lemma PlainPasses(c: char, rest: string)
    requires c != '"' && c != '\\' && c != '\n'
    ensures StringEnd([c] + rest) == Plus(1, StringEnd(rest))
  {
    assert ([c] + rest)[1..] == rest;
  }

  lemma QuoteIsKey(s: string)
    ensures StringToken(Quote(s)) && Decode(Quote(s)) == Some(s) && OneLine(Quote(s))
  {
    QuoteBodyEnds(s);
    assert Quote(s)[1..] == QuoteBody(s) + "\"";
    DecodeQuote(s);
    QuoteOneLine(s);
  }

  lemma {:induction false} QuoteOneLine(s: string)
    ensures OneLine(QuoteBody(s))
  {
    if s != "" {
      QuoteOneLine(s[1..]);
      assert OneLine(QuoteChar(s[0]));
    }
  }

  lemma RenderedIsWellFormed(j: Json, compact: bool, eol: string, unit: string)
    requires ValidJson(j) && Trivia(eol) && Trivia(unit)
    ensures WellFormed(Rendered(j, compact, eol, unit)) && Denotes(Rendered(j, compact, eol, unit), j)
    decreases j, 0
  {
    TriviaAppend(eol, unit);
    match j
    case Literal(_) =>
    case Str(s) => QuoteIsKey(s);
    case List(items) => ItemsAreWellFormed(items, compact, eol + unit, unit);
    case Record(fields) => FieldsAreWellFormed(fields, compact, eol + unit, unit);
  }

  lemma {:induction false} ItemsAreWellFormed(items: seq<Json>, compact: bool, eol: string, unit: string)
    requires (forall i :: 0 <= i < |items| ==> ValidJson(items[i])) && Trivia(eol) && Trivia(unit)
    ensures var ms := RenderedItems(items, compact, eol, unit);
            && WellFormedMembers(ms, false) && |ms| == |items|
            && forall i :: 0 <= i < |items| ==> Denotes(ms[i].value, items[i])
    decreases items
  {
    if items != [] {
      RenderedIsWellFormed(items[0], compact, eol, unit);
      ItemsAreWellFormed(items[1..], compact, eol, unit);
      ItemsStep(items, compact, eol, unit);
    }
  }

  lemma ItemsStep(items: seq<Json>, compact: bool, eol: string, unit: string)
    requires items != [] && Trivia(eol)
    requires WellFormed(Rendered(items[0], compact, eol, unit))
             && Denotes(Rendered(items[0], compact, eol, unit), items[0])
    requires var rest := RenderedItems(items[1..], compact, eol, unit);
             && WellFormedMembers(rest, false) && |rest| == |items| - 1
             && forall i :: 0 <= i < |items| - 1 ==> Denotes(rest[i].value, items[1..][i])
    ensures var ms := RenderedItems(items, compact, eol, unit);
            && WellFormedMembers(ms, false) && |ms| == |items|
            && forall i :: 0 <= i < |items| ==> Denotes(ms[i].value, items[i])
  {
    hide Rendered, Denotes, WellFormed;
    var rest := RenderedItems(items[1..], compact, eol, unit);
    var ms := RenderedItems(items, compact, eol, unit);
    assert ms[1..] == rest;
    forall i | 0 <= i < |items| ensures Denotes(ms[i].value, items[i]) {
      if i > 0 {
        assert ms[i] == rest[i - 1] && items[i] == items[1..][i - 1];
      }
    }
  }

  lemma {:induction false} FieldsAreWellFormed(fields: seq<Field>, compact: bool, eol: string, unit: string)
    requires (forall i :: 0 <= i < |fields| ==> ValidJson(fields[i].value)) && Trivia(eol) && Trivia(unit)
    ensures var ms := RenderedFields(fields, compact, eol, unit);
            && WellFormedMembers(ms, true) && |ms| == |fields|
            && forall i :: 0 <= i < |fields| ==> KeyOf(ms[i]) == fields[i].key && Denotes(ms[i].value, fields[i].value)
    decreases fields
  {
    if fields != [] {
      RenderedIsWellFormed(fields[0].value, compact, eol, unit);
      FieldsAreWellFormed(fields[1..], compact, eol, unit);
      FieldsStep(fields, compact, eol, unit);
    }
  }

  lemma FieldsStep(fields: seq<Field>, compact: bool, eol: string, unit: string)
    requires fields != [] && Trivia(eol)
    requires WellFormed(Rendered(fields[0].value, compact, eol, unit))
    requires Denotes(Rendered(fields[0].value, compact, eol, unit), fields[0].value)
    requires var rest := RenderedFields(fields[1..], compact, eol, unit);
             && WellFormedMembers(rest, true) && |rest| == |fields| - 1
             && forall i :: 0 <= i < |fields| - 1 ==>
                  KeyOf(rest[i]) == fields[1..][i].key && Denotes(rest[i].value, fields[1..][i].value)
    ensures var ms := RenderedFields(fields, compact, eol, unit);
            && WellFormedMembers(ms, true) && |ms| == |fields|
            && forall i :: 0 <= i < |fields| ==> KeyOf(ms[i]) == fields[i].key && Denotes(ms[i].value, fields[i].value)
  {
    hide Rendered, Denotes, WellFormed, Quote, Decode;
    var rest := RenderedFields(fields[1..], compact, eol, unit);
    var ms := RenderedFields(fields, compact, eol, unit);
    assert ms[1..] == rest;
    QuoteIsKey(fields[0].key);
    SpacesAreTrivia(" ");
    forall i | 0 <= i < |fields| ensures KeyOf(ms[i]) == fields[i].key && Denotes(ms[i].value, fields[i].value) {
      if i > 0 {
        assert ms[i] == rest[i - 1] && fields[i] == fields[1..][i - 1];
      }
    }
  }

  /** A compact rendering stays on its line. */
  lemma {:induction false} CompactIsOneLine(j: Json)
    requires ValidJson(j)
    ensures OneLine(Print(Rendered(j, true, "", "")))
    decreases j, 0
  {
    assert "" + "" == "";
    match j
    case Literal(text) => assert !IsLiteral('\n');
    case Str(s) => QuoteIsKey(s);
    case List(items) => ItemsOneLine(items);
    case Record(fields) => FieldsOneLine(fields);
  }

  lemma {:induction false} ItemsOneLine(items: seq<Json>)
    requires forall i :: 0 <= i < |items| ==> ValidJson(items[i])
    ensures OneLine(PrintMembers(RenderedItems(items, true, "", "")))
    decreases items
  {
    if items != [] {
      CompactIsOneLine(items[0]);
      ItemsOneLine(items[1..]);
      var ms := RenderedItems(items, true, "", "");
      assert ms[1..] == RenderedItems(items[1..], true, "", "");
      MemberOneLine(ms[0]);
    }
  }

  lemma {:induction false} FieldsOneLine(fields: seq<Field>)
    requires forall i :: 0 <= i < |fields| ==> ValidJson(fields[i].value)
    ensures OneLine(PrintMembers(RenderedFields(fields, true, "", "")))
    decreases fields
  {
    if fields != [] {
      CompactIsOneLine(fields[0].value);
      FieldsOneLine(fields[1..]);
      var ms := RenderedFields(fields, true, "", "");
      assert ms[1..] == RenderedFields(fields[1..], true, "", "");
      QuoteIsKey(fields[0].key);
      MemberOneLine(ms[0]);
    }
  }

  lemma MemberOneLine(m: Member)
    requires OneLine(m.lead) && OneLine(m.tail) && OneLine(Print(m.value))
    requires m.name.Some? ==> OneLine(m.name.value.key) && OneLine(m.name.value.mid) && OneLine(m.name.value.gap)
    ensures OneLine(PrintMember(m))
  {
  }

  // ---------------------------------------------------------------------------------------------
  // Finding the object an edit lands in
  // ---------------------------------------------------------------------------------------------

  datatype Found = Absent | Once(index: nat) | Twice

  function Find(keys: seq<string>, key: string): (f: Found)
    ensures f.Once? ==> f.index < |keys|
  {
    if keys == [] then Absent
    else
      var n := |keys| - 1;
      var f := Find(keys[..n], key);
      if keys[n] != key then f else if f.Absent? then Once(n) else Twice
  }

  /** No member has the key, exactly one has it, or there are two. */
  lemma {:induction false} FindMeans(keys: seq<string>, key: string)
    ensures Find(keys, key).Absent? <==> key !in keys
    ensures forall i :: 0 <= i < |keys| ==> (Find(keys, key) == Once(i) <==> OnlyAt(keys, key, i))
  {
    if keys != [] {
      var n := |keys| - 1;
      FindMeans(keys[..n], key);
      FindMore(keys, key);
    }
  }

  predicate OnlyAt(keys: seq<string>, key: string, i: nat)
    requires i < |keys|
  {
    keys[i] == key && forall j :: 0 <= j < |keys| && j != i ==> keys[j] != key
  }

  lemma FindMore(keys: seq<string>, key: string)
    requires keys != []
    requires Find(keys[..|keys| - 1], key).Absent? <==> key !in keys[..|keys| - 1]
    requires forall i :: 0 <= i < |keys| - 1 ==>
               (Find(keys[..|keys| - 1], key) == Once(i) <==> OnlyAt(keys[..|keys| - 1], key, i))
    ensures Find(keys, key).Absent? <==> key !in keys
    ensures forall i :: 0 <= i < |keys| ==> (Find(keys, key) == Once(i) <==> OnlyAt(keys, key, i))
  {
    var n := |keys| - 1;
    var front := keys[..n];
    assert keys == front + [keys[n]];
    forall i | 0 <= i < |keys| ensures Find(keys, key) == Once(i) <==> OnlyAt(keys, key, i) {
      if i < n {
        assert OnlyAt(keys, key, i) <==> OnlyAt(front, key, i) && keys[n] != key by {
          assert forall j :: 0 <= j < n ==> front[j] == keys[j];
        }
      } else {
        assert OnlyAt(keys, key, n) <==> keys[n] == key && key !in front;
      }
    }
  }

  function Keys(ms: seq<Member>): (keys: seq<string>)
    ensures |keys| == |ms| && forall i :: 0 <= i < |ms| ==> keys[i] == KeyOf(ms[i])
  {
    seq(|ms|, i requires 0 <= i < |ms| => KeyOf(ms[i]))
  }

  predicate IsObject(v: Value) {
    v.Group? && v.curly
  }

  /** Where a value of a printed object begins. */
  function ValueOffset(o: Value, i: nat): nat
    requires IsObject(o) && i < |o.members|
  {
    1 + |PrintMembers(o.members[..i])| + |o.members[i].lead| + |PrintName(o.members[i].name)|
  }

  /**
   * The object an edit of `path` lands in, where it is, and what
   * is left of the path; None when the way there is unclear.
   */
  datatype Stop = Blocked | Stop(owner: Value, at: nat, rest: seq<string>)

  function Descend(v: Value, at: nat, path: seq<string>): (stop: Stop)
    requires IsObject(v) && path != []
    ensures stop.Stop? ==> IsObject(stop.owner) && stop.rest != []
    decreases path
  {
    match Find(Keys(v.members), path[0])
    case Absent => Stop(v, at, path)
    case Twice => Blocked
    case Once(i) =>
      if |path| == 1 then Stop(v, at, path)
      else if !IsObject(v.members[i].value) then Blocked
      else Descend(v.members[i].value, at + ValueOffset(v, i), path[1..])
  }

  function WithValue(v: Value, i: nat, value: Value): Value
    requires IsObject(v) && i < |v.members|
  {
    Group(true, v.members[i := v.members[i].(value := value)], v.close)
  }

  /** The tree with another object where the edit of `path` lands. */
  function Put(v: Value, path: seq<string>, owner: Value): Value
    requires IsObject(v) && path != []
    decreases path
  {
    var found := Find(Keys(v.members), path[0]);
    if found.Once? && |path| > 1 && IsObject(v.members[found.index].value) then
      WithValue(v, found.index, Put(v.members[found.index].value, path[1..], owner))
    else owner
  }

  /** The text holds this part at this place. */
  predicate Holds(text: string, at: nat, part: string) {
    at + |part| <= |text| && text[at..at + |part|] == part
  }

  /** The text with another part in the place of the one it holds there. */
  function Swap(text: string, at: nat, part: string, other: string): string
    requires Holds(text, at, part)
  {
    text[..at] + other + text[at + |part|..]
  }

  lemma {:induction false} PrintMembersSplit(a: seq<Member>, b: seq<Member>)
    ensures PrintMembers(a + b) == PrintMembers(a) + PrintMembers(b)
  {
    if a == [] {
      assert a + b == b;
    } else {
      assert (a + b)[1..] == a[1..] + b;
      PrintMembersSplit(a[1..], b);
    }
  }

  lemma PrintMembersAt(ms: seq<Member>, i: nat)
    requires i < |ms|
    ensures PrintMembers(ms) == PrintMembers(ms[..i]) + (PrintMember(ms[i]) + PrintMembers(ms[i + 1..]))
  {
    assert ms == ms[..i] + ms[i..] && ms[i..][1..] == ms[i + 1..];
    PrintMembersSplit(ms[..i], ms[i..]);
  }

  lemma ObjectText(o: Value, i: nat)
    requires IsObject(o) && i < |o.members|
    ensures Print(o)
            == ['{'] + ((PrintMembers(o.members[..i]) + (PrintMember(o.members[i]) + PrintMembers(o.members[i + 1..])))
                        + (o.close + ['}']))
    ensures var m := o.members[i];
            PrintMember(m) == m.lead + (PrintName(m.name) + (Print(m.value) + (if m.comma then m.tail + [','] else "")))
  {
    PrintMembersAt(o.members, i);
  }

  lemma SwapValue(a: string, lead: string, name: string, value: string, tail: string, b: string, close: string,
                  part: string)
    ensures var text := ['{'] + ((a + ((lead + (name + (value + tail))) + b)) + (close + ['}']));
            var at := 1 + |a| + |lead| + |name|;
            && Holds(text, at, value)
            && Swap(text, at, value, part)
               == ['{'] + ((a + ((lead + (name + (part + tail))) + b)) + (close + ['}']))
  {
    var text := ['{'] + ((a + ((lead + (name + (value + tail))) + b)) + (close + ['}']));
    var at := 1 + |a| + |lead| + |name|;
    assert text == (['{'] + a + lead + name) + value + (tail + b + close + ['}']);
  }

  /** Another value for one member swaps just that value's text. */
  lemma WithValuePrints(o: Value, i: nat, value: Value)
    requires IsObject(o) && i < |o.members|
    ensures var at := ValueOffset(o, i);
            var was := Print(o.members[i].value);
            && Holds(Print(o), at, was)
            && Print(WithValue(o, i, value)) == Swap(Print(o), at, was, Print(value))
  {
    hide Print, PrintMembers, PrintMember, PrintName, Holds, Swap;
    var other := WithValue(o, i, value);
    ObjectText(o, i);
    ObjectText(other, i);
    assert other.members[..i] == o.members[..i] && other.members[i + 1..] == o.members[i + 1..];
    var m := o.members[i];
    SwapValue(PrintMembers(o.members[..i]), m.lead, PrintName(m.name), Print(m.value),
              if m.comma then m.tail + [','] else "", PrintMembers(o.members[i + 1..]), o.close, Print(value));
  }

  lemma SwapInner(text: string, at: nat, value: string, from: nat, part: string, other: string)
    requires Holds(text, at, value) && Holds(value, from, part)
    ensures Holds(text, at + from, part)
    ensures Swap(text, at, value, Swap(value, from, part, other)) == Swap(text, at + from, part, other)
  {
    assert text == text[..at] + value + text[at + |value|..];
  }

  /** Whether the way down the path goes on below `v`. */
  predicate Deeper(v: Value, path: seq<string>)
    requires IsObject(v) && path != []
  {
    Find(Keys(v.members), path[0]).Once? && |path| > 1
  }

  lemma GoDeeper(v: Value, at: nat, path: seq<string>, owner: Value) returns (i: nat, inner: Value)
    requires IsObject(v) && path != [] && Descend(v, at, path).Stop? && Deeper(v, path)
    ensures Find(Keys(v.members), path[0]) == Once(i) && i < |v.members| && inner == v.members[i].value
            && IsObject(inner)
    ensures |path| > 1 && path[1..] != []
    ensures Descend(v, at, path) == Descend(inner, at + ValueOffset(v, i), path[1..])
    ensures Put(v, path, owner) == WithValue(v, i, Put(inner, path[1..], owner))
  {
    hide Find, Keys, ValueOffset, WithValue;
    i := Find(Keys(v.members), path[0]).index;
    inner := v.members[i].value;
  }

  lemma StayHere(v: Value, at: nat, path: seq<string>, owner: Value)
    requires IsObject(v) && path != [] && Descend(v, at, path).Stop? && !Deeper(v, path)
    ensures Descend(v, at, path) == Stop(v, at, path) && Put(v, path, owner) == owner
  {
  }

  /** Putting another object in swaps just that object's text. */
  lemma {:induction false} PutPrints(v: Value, at: nat, path: seq<string>, owner: Value)
    requires IsObject(v) && path != [] && Descend(v, at, path).Stop?
    ensures var stop := Descend(v, at, path);
            && at <= stop.at && Holds(Print(v), stop.at - at, Print(stop.owner))
            && Print(Put(v, path, owner)) == Swap(Print(v), stop.at - at, Print(stop.owner), Print(owner))
    decreases path
  {
    hide *;
    if Deeper(v, path) {
      var i, inner := GoDeeper(v, at, path, owner);
      var offset := ValueOffset(v, i);
      PutPrints(inner, at + offset, path[1..], owner);
      WithValuePrints(v, i, Put(inner, path[1..], owner));
      var stop := Descend(v, at, path);
      SwapInner(Print(v), offset, Print(inner), stop.at - at - offset, Print(stop.owner), Print(owner));
    } else {
      StayHere(v, at, path, owner);
      SwapWhole(Print(v), Print(owner));
    }
  }

  lemma SwapWhole(text: string, other: string)
    ensures Holds(text, 0, text) && Swap(text, 0, text, other) == other
  {
  }

  predicate Fits(m: Member, curly: bool, last: bool) {
    WellFormedMember(m, curly) && (m.comma || last)
  }

  /** Members are well formed one by one. */
  lemma {:induction false} MembersWellFormed(ms: seq<Member>, curly: bool)
    ensures WellFormedMembers(ms, curly) <==> forall i :: 0 <= i < |ms| ==> Fits(ms[i], curly, i + 1 == |ms|)
  {
    if ms != [] {
      MembersWellFormed(ms[1..], curly);
      MembersWellFormedStep(ms, curly);
    }
  }

  lemma MembersWellFormedStep(ms: seq<Member>, curly: bool)
    requires ms != []
    requires WellFormedMembers(ms[1..], curly)
             <==> forall i :: 0 <= i < |ms[1..]| ==> Fits(ms[1..][i], curly, i + 1 == |ms[1..]|)
    ensures WellFormedMembers(ms, curly) <==> forall i :: 0 <= i < |ms| ==> Fits(ms[i], curly, i + 1 == |ms|)
  {
    hide WellFormedMember;
    var rest := ms[1..];
    assert WellFormedMembers(ms, curly) <==> Fits(ms[0], curly, |ms| == 1) && WellFormedMembers(rest, curly);
    assert forall i :: 0 <= i < |rest| ==> rest[i] == ms[i + 1];
    if forall i :: 0 <= i < |ms| ==> Fits(ms[i], curly, i + 1 == |ms|) {
      assert Fits(ms[0], curly, 0 + 1 == |ms|);
      forall i | 0 <= i < |rest| ensures Fits(rest[i], curly, i + 1 == |rest|) {
        assert Fits(ms[i + 1], curly, (i + 1) + 1 == |ms|);
      }
    } else {
      var i :| 0 <= i < |ms| && !Fits(ms[i], curly, i + 1 == |ms|);
      if i > 0 {
        assert !Fits(rest[i - 1], curly, (i - 1) + 1 == |rest|);
      }
    }
  }

  lemma ValueFits(m: Member, value: Value, curly: bool, last: bool)
    requires Fits(m, curly, last) && WellFormed(value)
    ensures Fits(m.(value := value), curly, last) && WellFormed(m.value)
  {
  }

  lemma ObjectWellFormed(o: Value)
    requires IsObject(o)
    ensures WellFormed(o) <==> Trivia(o.close) && forall i :: 0 <= i < |o.members| ==>
              Fits(o.members[i], true, i + 1 == |o.members|)
  {
    hide Trivia, WellFormedMember, Fits;
    MembersWellFormed(o.members, true);
  }

  lemma MemberIsWellFormed(o: Value, i: nat)
    requires IsObject(o) && WellFormed(o) && i < |o.members|
    ensures Fits(o.members[i], true, i + 1 == |o.members|) && WellFormed(o.members[i].value)
  {
    hide WellFormed, Trivia;
    ObjectWellFormed(o);
  }

  lemma WithValueIsWellFormed(o: Value, i: nat, value: Value)
    requires IsObject(o) && WellFormed(o) && i < |o.members| && WellFormed(value)
    ensures WellFormed(WithValue(o, i, value))
  {
    hide WellFormed, Fits, Trivia;
    var other := WithValue(o, i, value);
    ObjectWellFormed(o);
    ObjectWellFormed(other);
    forall j | 0 <= j < |other.members| ensures Fits(other.members[j], true, j + 1 == |other.members|) {
      assert Fits(o.members[j], true, j + 1 == |o.members|);
      if j == i {
        ValueFits(o.members[i], value, true, i + 1 == |o.members|);
      }
    }
  }

  lemma {:induction false} PutIsWellFormed(v: Value, at: nat, path: seq<string>, owner: Value)
    requires IsObject(v) && path != [] && WellFormed(v) && Descend(v, at, path).Stop?
    ensures WellFormed(Descend(v, at, path).owner)
    ensures WellFormed(owner) && IsObject(owner) ==> WellFormed(Put(v, path, owner)) && IsObject(Put(v, path, owner))
    decreases path
  {
    hide *;
    if Deeper(v, path) {
      var i, inner := GoDeeper(v, at, path, owner);
      MemberIsWellFormed(v, i);
      PutIsWellFormed(inner, at + ValueOffset(v, i), path[1..], owner);
      if WellFormed(owner) && IsObject(owner) {
        WithValueIsWellFormed(v, i, Put(inner, path[1..], owner));
        WithValueIsObject(v, i, Put(inner, path[1..], owner));
      }
    } else {
      StayHere(v, at, path, owner);
    }
  }

  lemma WithValueIsObject(o: Value, i: nat, value: Value)
    requires IsObject(o) && i < |o.members|
    ensures IsObject(WithValue(o, i, value))
  {
  }

  lemma WithValueTwice(o: Value, i: nat, v: Value, w: Value)
    requires IsObject(o) && i < |o.members|
    ensures Keys(WithValue(o, i, v).members) == Keys(o.members)
            && ValueOffset(WithValue(o, i, v), i) == ValueOffset(o, i)
    ensures WithValue(WithValue(o, i, v), i, w) == WithValue(o, i, w) && WithValue(o, i, o.members[i].value) == o
  {
    hide Print, PrintMembers, PrintName, Decode;
    var other := WithValue(o, i, v);
    assert other.members[..i] == o.members[..i];
    assert forall j :: 0 <= j < |o.members| ==> KeyOf(other.members[j]) == KeyOf(o.members[j]);
    assert o.members[i := o.members[i].(value := o.members[i].value)] == o.members;
  }

  /** The way to an object that was put in is the way to the one it replaced. */
  lemma {:induction false} PutDescends(v: Value, at: nat, path: seq<string>, owner: Value, other: Value)
    requires IsObject(v) && path != [] && IsObject(owner) && Descend(v, at, path).Stop?
             && |Descend(v, at, path).rest| == 1
    requires !Find(Keys(owner.members), Descend(v, at, path).rest[0]).Twice?
    ensures var after := Put(v, path, owner);
            && IsObject(after) && Descend(after, at, path) == Descend(v, at, path).(owner := owner)
            && Put(after, path, other) == Put(v, path, other)
    ensures Put(v, path, Descend(v, at, path).owner) == v
    decreases path
  {
    hide *;
    if Deeper(v, path) {
      var i, inner := GoDeeper(v, at, path, owner);
      var offset := ValueOffset(v, i);
      PutDescends(inner, at + offset, path[1..], owner, other);
      var after := Put(inner, path[1..], owner);
      WithValueTwice(v, i, after, Put(inner, path[1..], other));
      WithValueIsObject(v, i, after);
      var _, _ := GoDeeper(v, at, path, other);
      var _, _ := GoDeeper(v, at, path, Descend(v, at, path).owner);
      OnlyThatValue(v, i, after);
      GoesDeeper(Put(v, path, owner), at, path, i, other);
    } else {
      StayHere(v, at, path, owner);
      StayHere(v, at, path, Descend(v, at, path).owner);
      StayHere(v, at, path, other);
      StaysHere(owner, at, path, other);
    }
  }

  lemma GoesDeeper(v: Value, at: nat, path: seq<string>, i: nat, owner: Value)
    requires IsObject(v) && |path| > 1 && Find(Keys(v.members), path[0]) == Once(i) && i < |v.members|
             && IsObject(v.members[i].value)
    ensures Descend(v, at, path) == Descend(v.members[i].value, at + ValueOffset(v, i), path[1..])
    ensures Put(v, path, owner) == WithValue(v, i, Put(v.members[i].value, path[1..], owner))
  {
    hide Find, Keys, ValueOffset, WithValue;
  }

  lemma StaysHere(v: Value, at: nat, path: seq<string>, owner: Value)
    requires IsObject(v) && |path| == 1 && !Find(Keys(v.members), path[0]).Twice?
    ensures Descend(v, at, path) == Stop(v, at, path) && Put(v, path, owner) == owner
  {
  }

  /** No key on the way appears twice, and every value on the way is an object. */
  predicate Clear(v: Value, path: seq<string>)
    requires IsObject(v) && path != []
    decreases path
  {
    match Find(Keys(v.members), path[0])
    case Absent => true
    case Twice => false
    case Once(i) => |path| > 1 ==> IsObject(v.members[i].value) && Clear(v.members[i].value, path[1..])
  }

  lemma {:induction false} StopsWhenClear(v: Value, at: nat, path: seq<string>)
    requires IsObject(v) && path != []
    ensures Descend(v, at, path).Stop? <==> Clear(v, path)
    ensures var stop := Descend(v, at, path);
            stop.Stop? ==>
              var found := Find(Keys(stop.owner.members), stop.rest[0]);
              !found.Twice? && (found.Once? ==> |stop.rest| == 1)
    decreases path
  {
    hide Keys, ValueOffset, Find;
    var found := Find(Keys(v.members), path[0]);
    if found.Once? && |path| > 1 && IsObject(v.members[found.index].value) {
      StopsWhenClear(v.members[found.index].value, at + ValueOffset(v, found.index), path[1..]);
    }
  }

  // ---------------------------------------------------------------------------------------------
  // What setting and removing a member mean
  // ---------------------------------------------------------------------------------------------

  /** The same key and the very same value, comments inside it included. */
  predicate Kept(a: Member, b: Member) {
    KeyOf(a) == KeyOf(b) && a.value == b.value
  }

  /** The path holds the value, and every other member is kept in its place. */
  ghost predicate SetAt(before: Value, after: Value, path: seq<string>, value: Json)
    requires path != []
    decreases path
  {
    && IsObject(before) && IsObject(after)
    && match Find(Keys(before.members), path[0])
       case Twice => false
       case Absent => AddedLast(before.members, after.members, path[0], Nested(path[1..], value))
       case Once(i) =>
         && OnlyOther(before.members, after.members, i)
         && if |path| == 1 then Denotes(after.members[i].value, value)
            else SetAt(before.members[i].value, after.members[i].value, path[1..], value)
  }

  ghost predicate AddedLast(before: seq<Member>, after: seq<Member>, key: string, value: Json) {
    && |after| == |before| + 1
    && (forall i :: 0 <= i < |before| ==> Kept(before[i], after[i]))
    && KeyOf(after[|before|]) == key && Denotes(after[|before|].value, value)
  }

  /** The same keys, and the same values but for one. */
  predicate OnlyOther(before: seq<Member>, after: seq<Member>, i: nat) {
    && i < |before| == |after| && KeyOf(before[i]) == KeyOf(after[i])
    && forall j :: 0 <= j < |before| && j != i ==> Kept(before[j], after[j])
  }

  /** The member at the path is gone, and every other member is kept in order. */
  ghost predicate RemovedAt(before: Value, after: Value, path: seq<string>)
    requires path != []
    decreases path
  {
    && IsObject(before) && IsObject(after)
    && match Find(Keys(before.members), path[0])
       case Twice => false
       case Absent => false
       case Once(i) =>
         if |path| == 1 then
           && |after.members| == |before.members| - 1
           && (forall j :: 0 <= j < i ==> Kept(before.members[j], after.members[j]))
           && (forall j :: i < j < |before.members| ==> Kept(before.members[j], after.members[j - 1]))
         else
           && OnlyOther(before.members, after.members, i)
           && RemovedAt(before.members[i].value, after.members[i].value, path[1..])
  }

  lemma OnlyThatValue(o: Value, i: nat, value: Value)
    requires IsObject(o) && i < |o.members|
    ensures var other := WithValue(o, i, value);
            IsObject(other) && OnlyOther(o.members, other.members, i) && other.members[i].value == value
  {
  }

  lemma SetDeeper(before: Value, after: Value, path: seq<string>, value: Json, i: nat)
    requires IsObject(before) && IsObject(after) && |path| > 1 && Find(Keys(before.members), path[0]) == Once(i)
    requires OnlyOther(before.members, after.members, i)
    ensures SetAt(before, after, path, value)
            == SetAt(before.members[i].value, after.members[i].value, path[1..], value)
    ensures RemovedAt(before, after, path) == RemovedAt(before.members[i].value, after.members[i].value, path[1..])
  {
    hide Denotes, OnlyOther, Keys, Find;
  }

  /** A change made in the object where the edit lands is a change of the whole tree at the whole path. */
  lemma {:induction false} PutSets(v: Value, at: nat, path: seq<string>, owner: Value, value: Json)
    requires IsObject(v) && path != [] && Descend(v, at, path).Stop?
    requires var stop := Descend(v, at, path); SetAt(stop.owner, owner, stop.rest, value)
    ensures SetAt(v, Put(v, path, owner), path, value)
    decreases path
  {
    hide *;
    if Deeper(v, path) {
      var i, inner := GoDeeper(v, at, path, owner);
      PutSets(inner, at + ValueOffset(v, i), path[1..], owner, value);
      OnlyThatValue(v, i, Put(inner, path[1..], owner));
      SetDeeper(v, Put(v, path, owner), path, value, i);
    } else {
      StayHere(v, at, path, owner);
    }
  }

  lemma {:induction false} PutRemoves(v: Value, at: nat, path: seq<string>, owner: Value)
    requires IsObject(v) && path != [] && Descend(v, at, path).Stop?
    requires var stop := Descend(v, at, path); RemovedAt(stop.owner, owner, stop.rest)
    ensures RemovedAt(v, Put(v, path, owner), path)
    decreases path
  {
    hide *;
    if Deeper(v, path) {
      var i, inner := GoDeeper(v, at, path, owner);
      PutRemoves(inner, at + ValueOffset(v, i), path[1..], owner);
      OnlyThatValue(v, i, Put(inner, path[1..], owner));
      SetDeeper(v, Put(v, path, owner), path, Str(""), i);
    } else {
      StayHere(v, at, path, owner);
    }
  }
}
