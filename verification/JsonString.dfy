/** JSON strings, written and read back. */
module JsonString {
  import opened Prelude

  predicate IsHex(c: char) {
    '0' <= c <= '9' || 'a' <= c <= 'f' || 'A' <= c <= 'F'
  }

  function HexValue(c: char): (d: nat)
    requires IsHex(c)
    ensures d < 16
  {
    if c <= '9' then c as int - '0' as int
    else if c <= 'F' then c as int - 'A' as int + 10
    else c as int - 'a' as int + 10
  }

  function HexDigit(d: nat): (c: char)
    requires d < 16
    ensures IsHex(c) && HexValue(c) == d
  {
    if d < 10 then (d + '0' as int) as char else (d - 10 + 'a' as int) as char
  }

  /** The one-letter escapes: the letter after the backslash and the character it stands for. */
  function Short(letter: char): Option<char> {
    match letter
    case '"' => Some('"')
    case '\\' => Some('\\')
    case '/' => Some('/')
    case 'b' => Some(8 as char)
    case 'f' => Some(12 as char)
    case 'n' => Some('\n')
    case 'r' => Some('\r')
    case 't' => Some('\t')
    case _ => None
  }

  /** One character as JSON.stringify writes it inside quotes. */
  function QuoteChar(c: char): string {
    if c == '"' then "\\\""
    else if c == '\\' then "\\\\"
    else if c == 8 as char then "\\b"
    else if c == 12 as char then "\\f"
    else if c == '\n' then "\\n"
    else if c == '\r' then "\\r"
    else if c == '\t' then "\\t"
    else if c as int < 0x20 then "\\u00" + [HexDigit(c as int / 16), HexDigit(c as int % 16)]
    else [c]
  }

  function QuoteBody(s: string): string {
    if s == "" then "" else QuoteChar(s[0]) + QuoteBody(s[1..])
  }

  function Quote(s: string): string {
    "\"" + QuoteBody(s) + "\""
  }

  /**
   * The text between the quotes of a JSON string, decoded; None
   * when JSON.parse refuses it, or for half a surrogate pair.
   */
  function DecodeBody(r: string): Option<string> {
    if r == "" then Some("")
    else if r[0] == '"' || r[0] as int < 0x20 then None
    else if r[0] != '\\' then Prepend(r[0], DecodeBody(r[1..]))
    else if |r| >= 2 && Short(r[1]).Some? then Prepend(Short(r[1]).value, DecodeBody(r[2..]))
    else if IsUnit(r) then
      if !IsSurrogate(Unit(r)) then Prepend(Unit(r) as char, DecodeBody(r[6..]))
      else if IsPair(r) then Prepend(PairValue(Unit(r), Unit(r[6..])) as char, DecodeBody(r[12..]))
      else None
    else None
  }

  /** An escape of one UTF-16 code unit. */
  predicate IsUnit(r: string) {
    |r| >= 6 && r[0] == '\\' && r[1] == 'u' && IsHex(r[2]) && IsHex(r[3]) && IsHex(r[4]) && IsHex(r[5])
  }

  function Unit(r: string): (code: nat)
    requires IsUnit(r)
    ensures code < 0x10000
  {
    ((HexValue(r[2]) * 16 + HexValue(r[3])) * 16 + HexValue(r[4])) * 16 + HexValue(r[5])
  }

  predicate IsSurrogate(code: nat) {
    0xD800 <= code < 0xE000
  }

  /** Escapes of a high and a low surrogate, which together stand for one character. */
  predicate IsPair(r: string) {
    IsUnit(r) && IsUnit(r[6..]) && 0xD800 <= Unit(r) < 0xDC00 <= Unit(r[6..]) < 0xE000
  }

  function PairValue(high: nat, low: nat): (code: nat)
    requires 0xD800 <= high < 0xDC00 <= low < 0xE000
    ensures 0x10000 <= code < 0x11_0000
  {
    0x10000 + (high - 0xD800) * 0x400 + (low - 0xDC00)
  }

  function Prepend(c: char, rest: Option<string>): Option<string> {
    if rest.None? then None else Some([c] + rest.value)
  }

  function Decode(text: string): Option<string> {
    if |text| >= 2 && text[0] == '"' && text[|text| - 1] == '"' then DecodeBody(text[1..|text| - 1]) else None
  }

  lemma DecodeQuoteChar(c: char, rest: string)
    ensures DecodeBody(QuoteChar(c) + rest) == Prepend(c, DecodeBody(rest))
  {
    hide Prepend;
    var q := QuoteChar(c);
    assert (q + rest)[|q|..] == rest;
  }

  lemma {:induction false} DecodeQuoteBody(s: string)
    ensures DecodeBody(QuoteBody(s)) == Some(s)
  {
    hide QuoteChar, DecodeBody;
    if s == "" {
      assert DecodeBody("") == Some("") by { DecodeNothing(); }
    } else {
      DecodeQuoteBody(s[1..]);
      DecodeQuoteChar(s[0], QuoteBody(s[1..]));
      assert [s[0]] + s[1..] == s;
    }
  }

  lemma DecodeNothing()
    ensures DecodeBody("") == Some("")
  {
  }

  /** Every key survives being written and read back. */
  lemma DecodeQuote(s: string)
    ensures Decode(Quote(s)) == Some(s)
  {
    DecodeQuoteBody(s);
    assert Quote(s)[1..|Quote(s)| - 1] == QuoteBody(s);
  }
}
