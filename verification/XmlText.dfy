/** XML text: entities, names and attributes, as the report reader takes them. */
module XmlText {
  import opened Prelude

  predicate IsNameChar(c: char) {
    'A' <= c <= 'Z' || 'a' <= c <= 'z' || '0' <= c <= '9' || c == '_' || c == ':' || c == '.' || c == '-'
  }

  predicate IsName(s: string) {
    s != "" && forall i :: 0 <= i < |s| ==> IsNameChar(s[i])
  }

  predicate IsDigit(c: char) {
    '0' <= c <= '9'
  }

  predicate IsHexDigit(c: char) {
    IsDigit(c) || 'a' <= c <= 'f' || 'A' <= c <= 'F'
  }

  function DigitValue(c: char): nat
    requires IsHexDigit(c)
  {
    if IsDigit(c) then c as int - '0' as int
    else if c <= 'F' then c as int - 'A' as int + 10
    else c as int - 'a' as int + 10
  }

  predicate AllDigits(s: string, base: nat)
    requires base == 10 || base == 16
  {
    s != "" && forall i :: 0 <= i < |s| ==> if base == 10 then IsDigit(s[i]) else IsHexDigit(s[i])
  }

  function NumberOf(s: string, base: nat): nat
    requires (base == 10 || base == 16) && AllDigits(s, base)
  {
    (if |s| == 1 then 0 else NumberOf(s[..|s| - 1], base) * base) + DigitValue(s[|s| - 1])
  }

  /** `String.fromCodePoint` for the code points this model's characters have: all but the surrogates. */
  function FromCodePoint(point: nat): Option<char> {
    if 0 < point <= 0x10FFFF && !(0xD800 <= point < 0xE000) then Some(point as char) else None
  }

  /** The character an entity between `&` and `;` names. */
  function Entity(name: string): Option<char> {
    if name == "amp" then Some('&')
    else if name == "lt" then Some('<')
    else if name == "gt" then Some('>')
    else if name == "quot" then Some('"')
    else if name == "apos" then Some('\'')
    else if |name| > 2 && name[0] == '#' && name[1] == 'x'
            && AllDigits(name[2..], 16) then
      FromCodePoint(NumberOf(name[2..], 16))
    else if |name| > 1 && name[0] == '#' && AllDigits(name[1..], 10) then FromCodePoint(NumberOf(name[1..], 10))
    else None
  }

  /** How many characters before the next semicolon or white space. */
  function EntityLength(r: string): (n: nat)
    ensures n <= |r|
  {
    if r == "" || r[0] == ';' || IsSpace(r[0]) then 0 else 1 + EntityLength(r[1..])
  }

  function Prepend(c: char, rest: Option<string>): Option<string> {
    if rest.None? then None else Some([c] + rest.value)
  }

  /** Every `&name;` replaced; None where one is not known. An `&` that begins no entity stays. */
  function DecodeEntities(r: string): Option<string>
    decreases |r|
  {
    if r == "" then Some("")
    else
      var n := if r[0] == '&' then EntityLength(r[1..]) else 0;
      if n > 0 && n + 1 < |r| && r[n + 1] == ';' then
        var c := Entity(r[1..n + 1]);
        if c.None? then None else Prepend(c.value, DecodeEntities(r[n + 2..]))
      else Prepend(r[0], DecodeEntities(r[1..]))
  }

  function EncodeChar(c: char): string {
    match c
    case '&' => "&amp;"
    case '<' => "&lt;"
    case '>' => "&gt;"
    case '"' => "&quot;"
    case _ => [c]
  }

  /** Character data as section 2.4 of XML 1.0 has it written: markup characters as their entities (section 4.6). */
  function Encode(s: string): string {
    if s == "" then "" else EncodeChar(s[0]) + Encode(s[1..])
  }

  function Then(s: string, rest: Option<string>): Option<string> {
    if rest.None? then None else Some(s + rest.value)
  }

  lemma {:induction false} EntityText(name: string, x: string)
    requires forall i :: 0 <= i < |name| ==> name[i] != ';' && !IsSpace(name[i])
    ensures EntityLength(name + ([';'] + x)) == |name|
  {
    if name == "" {
      assert name + ([';'] + x) == [';'] + x;
    } else {
      assert (name + ([';'] + x))[1..] == name[1..] + ([';'] + x);
      EntityText(name[1..], x);
    }
  }

  lemma DecodesEntity(name: string, c: char, x: string)
    requires name != "" && (forall i :: 0 <= i < |name| ==> name[i] != ';' && !IsSpace(name[i]))
             && Entity(name) == Some(c)
    ensures DecodeEntities(['&'] + (name + ([';'] + x))) == Prepend(c, DecodeEntities(x))
  {
    hide Entity;
    var r := ['&'] + (name + ([';'] + x));
    EntityText(name, x);
    assert r[1..] == name + ([';'] + x);
    assert r[1..|name| + 1] == name && r[|name| + 1] == ';' && r[|name| + 2..] == x;
  }

  lemma DecodesChar(c: char, x: string)
    ensures DecodeEntities(EncodeChar(c) + x) == Prepend(c, DecodeEntities(x))
  {
    hide DecodeEntities, Prepend;
    match c
    case '&' =>
      assert "&amp;" == "&" + "amp" + ";";
      DecodesNamed("amp", c, x);
    case '<' =>
      assert "&lt;" == "&" + "lt" + ";";
      DecodesNamed("lt", c, x);
    case '>' =>
      assert "&gt;" == "&" + "gt" + ";";
      DecodesNamed("gt", c, x);
    case '"' =>
      assert "&quot;" == "&" + "quot" + ";";
      DecodesNamed("quot", c, x);
    case _ => DecodesPlain(c, x);
  }

  lemma DecodesNamed(name: string, c: char, x: string)
    requires name == "amp" || name == "lt" || name == "gt" || name == "quot"
    requires Entity(name) == Some(c)
    ensures DecodeEntities("&" + name + ";" + x) == Prepend(c, DecodeEntities(x))
  {
    hide Entity, DecodeEntities, Prepend;
    DecodesEntity(name, c, x);
    assert "&" + name + ";" + x == ['&'] + (name + ([';'] + x));
  }

  lemma DecodesPlain(c: char, x: string)
    requires c != '&'
    ensures DecodeEntities([c] + x) == Prepend(c, DecodeEntities(x))
  {
    assert ([c] + x)[1..] == x;
  }

  lemma ThenStep(c: char, s: string, rest: Option<string>)
    ensures Prepend(c, Then(s, rest)) == Then([c] + s, rest) && Then("", rest) == rest
  {
    if rest.Some? {
      assert [c] + (s + rest.value) == ([c] + s) + rest.value;
      assert "" + rest.value == rest.value;
    }
  }

  lemma EncodeStep(s: string, x: string)
    requires s != ""
    ensures Encode(s) + x == EncodeChar(s[0]) + (Encode(s[1..]) + x) && s == [s[0]] + s[1..]
  {
    Assoc(EncodeChar(s[0]), Encode(s[1..]), x);
  }

  lemma Assoc(a: string, b: string, c: string)
    ensures (a + b) + c == a + (b + c)
  {
  }

  /** Encoded text decodes to itself, whatever follows it. */
  lemma {:induction false} DecodesEncoded(s: string, x: string)
    ensures DecodeEntities(Encode(s) + x) == Then(s, DecodeEntities(x))
  {
    hide *;
    if s == "" {
      NothingEncoded(x);
      ThenStep('&', "", DecodeEntities(x));
    } else {
      EncodeStep(s, x);
      DecodesEncoded(s[1..], x);
      DecodesChar(s[0], Encode(s[1..]) + x);
      ThenStep(s[0], s[1..], DecodeEntities(x));
    }
  }

  lemma NothingEncoded(x: string)
    ensures Encode("") + x == x
  {
    assert Encode("") == "";
  }

  lemma {:induction false} EncodedIsSafe(s: string)
    ensures '<' !in Encode(s) && '>' !in Encode(s) && '"' !in Encode(s)
  {
    if s != "" {
      EncodedIsSafe(s[1..]);
      assert '<' !in EncodeChar(s[0]) && '>' !in EncodeChar(s[0]) && '"' !in EncodeChar(s[0]);
    }
  }
}
