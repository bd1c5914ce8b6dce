/** Command lines for Windows batch shims: what is written for cmd.exe, and what the program is given. */
module WindowsCommand {
  import opened Prelude

  function Repeat(c: char, n: nat): (s: string)
    ensures |s| == n
  {
    if n == 0 then "" else [c] + Repeat(c, n - 1)
  }

  /** How many backslashes a text begins with. */
  function Slashes(r: string): (n: nat)
    ensures n <= |r| && (n < |r| ==> r[n] != '\\')
  {
    if r == "" || r[0] != '\\' then 0 else 1 + Slashes(r[1..])
  }

  // ---------------------------------------------------------------------------------------------
  // Writing
  // ---------------------------------------------------------------------------------------------

  /** The first replacement: backslashes before a quote are doubled, and the quote gets one of its own. */
  function BeforeQuotes(s: string): string
    decreases |s|
  {
    var n := Slashes(s);
    if n == |s| then s
    else if s[n] == '"' then Repeat('\\', 2 * n) + ("\\\"" + BeforeQuotes(s[n + 1..]))
    else s[..n + 1] + BeforeQuotes(s[n + 1..])
  }

  function Trailing(s: string): (n: nat)
    ensures n <= |s|
  {
    if s == "" || s[|s| - 1] != '\\' then 0 else 1 + Trailing(s[..|s| - 1])
  }

  /** The second replacement: backslashes at the end are doubled. */
  function DoubleTrailing(s: string): string {
    s + Repeat('\\', Trailing(s))
  }

  predicate IsMeta(c: char) {
    || c == '(' || c == ')' || c == ']' || c == '[' || c == '%' || c == '!' || c == '^' || c == '"' || c == '`'
        || c == '<'
    || c == '>' || c == '&' || c == '|' || c == ';' || c == ',' || c == ' ' || c == '*' || c == '?'
  }

  /** A caret before everything cmd.exe would take for itself. */
  function Caret(s: string): string {
    if s == "" then "" else (if IsMeta(s[0]) then ['^', s[0]] else [s[0]]) + Caret(s[1..])
  }

  function EscapeArgument(value: string, doubleEscape: bool): string {
    var escaped := Caret("\"" + (DoubleTrailing(BeforeQuotes(value)) + "\""));
    if doubleEscape then Caret(escaped) else escaped
  }

  /** Every argument with a space before it. */
  function ArgumentsText(args: seq<string>, doubleEscape: bool): string {
    if args == [] then "" else " " + (EscapeArgument(args[0], doubleEscape) + ArgumentsText(args[1..], doubleEscape))
  }

  predicate IsSeparator(c: char) {
    c == '\\' || c == '/'
  }

  function Lower(s: string): (t: string)
    ensures |t| == |s|
  {
    if s == "" then "" else [if 'A' <= s[0] <= 'Z' then (s[0] as int + 32) as char else s[0]] + Lower(s[1..])
  }

  predicate IsBatch(resolved: string) {
    EndsWith(Lower(resolved), ".cmd") || EndsWith(Lower(resolved), ".bat")
  }

  /** The file name after the last separator. */
  function BaseName(path: string): (name: string)
    ensures |name| <= |path|
  {
    if path == "" || IsSeparator(path[|path| - 1]) then "" else BaseName(path[..|path| - 1]) + [path[|path| - 1]]
  }

  /** `node_modules/.bin/name.cmd`, with either separator and in any case. */
  predicate IsShim(resolved: string) {
    var path := Lower(resolved);
    var name := BaseName(path);
    var before := path[..|path| - |name|];
    && EndsWith(name, ".cmd") && |name| > 4
    && |before| >= 6 && IsSeparator(before[|before| - 1]) && EndsWith(before[..|before| - 1], ".bin")
    && IsSeparator(before[|before| - 6]) && EndsWith(before[..|before| - 6], "node_modules")
  }

  datatype Prepared = Prepared(file: string, args: seq<string>, verbatim: bool)

  function CommandLine(resolved: string, args: seq<string>): string {
    Caret(resolved) + ArgumentsText(args, IsShim(resolved))
  }

  /** `resolved` is what looking the file up on the path gave. */
  function PrepareCommand(file: string, resolved: string, args: seq<string>, win32: bool, comSpec: string): Prepared {
    if !win32 then Prepared(file, args, false)
    else if !IsBatch(resolved) then Prepared(resolved, args, false)
    else Prepared(comSpec, ["/d", "/s", "/c", "\"" + CommandLine(resolved, args) + "\""], true)
  }

  // ---------------------------------------------------------------------------------------------
  // Reading
  // ---------------------------------------------------------------------------------------------

  predicate IsNewline(c: char) {
    c == '\n' || c == '\r'
  }

  predicate OneLine(s: string) {
    forall i :: 0 <= i < |s| ==> !IsNewline(s[i])
  }

  /** What pipes, redirects, joins or groups commands. */
  predicate IsOperator(c: char) {
    c == '&' || c == '|' || c == '<' || c == '>' || c == '(' || c == ')'
  }

  /** What ends the name of a command. */
  predicate IsDelimiter(c: char) {
    c == ' ' || c == '\t' || c == ',' || c == ';' || c == '='
  }

  function Then(s: string, rest: Option<string>): Option<string> {
    if rest.None? then None else Some(s + rest.value)
  }

  /**
   * What cmd.exe makes of the text after a command's name. A quote without a caret opens or closes a quoted part, in
   * which carets and operators are text; outside, a caret goes and keeps the next character as it is, and an operator
   * ends the command. None when more than this one command would come of it.
   */
  function CmdText(r: string, quoted: bool): Option<string>
    decreases |r|
  {
    if r == "" then Some("")
    else if IsNewline(r[0]) then None
    else if quoted then Then([r[0]], CmdText(r[1..], r[0] != '"'))
    else if r[0] == '^' then
      if |r| == 1 then Some("") else if IsNewline(r[1]) then None else Then([r[1]], CmdText(r[2..], false))
    else if IsOperator(r[0]) then None
    else Then([r[0]], CmdText(r[1..], r[0] == '"'))
  }

  /** A command's name and the text after it. */
  datatype Command = Command(name: string, text: string)

  function Named(s: string, rest: Option<Command>): Option<Command> {
    if rest.None? then None else Some(Command(s + rest.value.name, rest.value.text))
  }

  /** The same for a whole line: a delimiter outside quotes and without a caret ends the command's name. */
  function CmdLine(r: string, quoted: bool): Option<Command>
    decreases |r|
  {
    if r == "" then Some(Command("", ""))
    else if IsNewline(r[0]) then None
    else if quoted then Named([r[0]], CmdLine(r[1..], r[0] != '"'))
    else if r[0] == '^' then
      if |r| == 1 then Some(Command("", "")) else if IsNewline(r[1]) then None
      else Named([r[1]], CmdLine(r[2..], false))
    else if IsOperator(r[0]) then None
    else if IsDelimiter(r[0]) then
      var text := CmdText(r, false);
      if text.None? then None else Some(Command("", text.value))
    else Named([r[0]], CmdLine(r[1..], r[0] == '"'))
  }

  predicate IsBlank(c: char) {
    c == ' ' || c == '\t'
  }

  function Prepend(s: string, rest: (string, string)): (string, string) {
    (s + rest.0, rest.1)
  }

  /**
   * The Windows C runtime's rules for one argument: backslashes stand for themselves unless a quote follows; then two
   * stand for one, an odd one makes the quote literal, and else the quote opens or closes a quoted part, in which two
   * quotes are one. A blank outside quotes ends the argument.
   */
  function TakeArgument(r: string, quoted: bool): (a: (string, string))
    ensures |a.1| <= |r|
    decreases |r|
  {
    var n := Slashes(r);
    if n == |r| then (r, "")
    else if r[n] == '"' then
      if n % 2 == 1 then Prepend(Repeat('\\', n / 2) + "\"", TakeArgument(r[n + 1..], quoted))
      else if quoted && n + 1 < |r| && r[n + 1] == '"' then
        Prepend(Repeat('\\', n / 2) + "\"", TakeArgument(r[n + 2..], quoted))
      else Prepend(Repeat('\\', n / 2), TakeArgument(r[n + 1..], !quoted))
    else if !quoted && IsBlank(r[n]) then (r[..n], r[n..])
    else Prepend(r[..n + 1], TakeArgument(r[n + 1..], quoted))
  }

  function SplitArguments(r: string): seq<string>
    decreases |r|
  {
    if r == "" then []
    else if IsBlank(r[0]) then SplitArguments(r[1..])
    else
      var (argument, rest) := TakeArgument(r, false);
      if |rest| < |r| then [argument] + SplitArguments(rest) else [argument]
  }

  // ---------------------------------------------------------------------------------------------
  // What is read is what was written
  // ---------------------------------------------------------------------------------------------

  /** The text of one character, with its caret where it has one. */
  function CaretOne(c: char): string {
    if IsMeta(c) then ['^', c] else [c]
  }

  lemma CaretParts(s: string, x: string)
    requires s != ""
    ensures Caret(s) + x == CaretOne(s[0]) + (Caret(s[1..]) + x)
  {
  }

  lemma TextTakesOne(c: char, x: string)
    ensures CmdText(CaretOne(c) + x, false) == if IsNewline(c) then None else Then([c], CmdText(x, false))
  {
    if IsMeta(c) {
      assert (['^', c] + x)[2..] == x;
    } else {
      assert ([c] + x)[1..] == x;
    }
  }

  lemma ThenParts(c: char, s: string, rest: Option<string>)
    ensures Then([c], Then(s, rest)) == Then([c] + s, rest) && Then("", rest) == rest
  {
    if rest.Some? {
      assert [c] + (s + rest.value) == ([c] + s) + rest.value && "" + rest.value == rest.value;
    }
  }

  lemma OneLineParts(s: string)
    requires s != ""
    ensures OneLine(s) <==> !IsNewline(s[0]) && OneLine(s[1..])
    ensures s == [s[0]] + s[1..]
  {
    assert s == [s[0]] + s[1..];
    if !IsNewline(s[0]) && OneLine(s[1..]) {
      forall i | 0 <= i < |s| ensures !IsNewline(s[i]) {
        assert i > 0 ==> s[i] == s[1..][i - 1];
      }
    }
    if OneLine(s) {
      forall i | 0 <= i < |s[1..]| ensures !IsNewline(s[1..][i]) {
        assert s[1..][i] == s[i + 1];
      }
    }
  }

  /**
   * Text with its carets is read as the text, with no character
   * of it taken for an operator or a quote, if it is one line.
   */
  lemma {:induction false} TextReadsCaret(s: string, x: string)
    ensures CmdText(Caret(s) + x, false) == if OneLine(s) then Then(s, CmdText(x, false)) else None
  {
    hide CmdText, CaretOne, IsNewline, IsMeta, OneLine, Then, Caret;
    if s == "" {
      NoCaret(x);
      ThenParts('a', "", CmdText(x, false));
    } else {
      TextReadsCaret(s[1..], x);
      CaretParts(s, x);
      TextTakesOne(s[0], Caret(s[1..]) + x);
      OneLineParts(s);
      ThenParts(s[0], s[1..], CmdText(x, false));
      ThenNone([s[0]]);
    }
  }

  lemma ThenNone(s: string)
    ensures Then(s, None) == None && Named(s, None) == None
  {
  }

  lemma NoCaret(x: string)
    ensures Caret("") + x == x && OneLine("")
  {
  }

  /** cmd.exe can be told this name: nothing in it ends the line or the name in spite of the carets. */
  predicate Startable(name: string) {
    forall i :: 0 <= i < |name| ==> Nameable(name[i])
  }

  predicate Nameable(c: char) {
    !IsNewline(c) && c != '=' && c != '\t'
  }

  lemma LineTakesOne(c: char, x: string)
    ensures Nameable(c) ==> CmdLine(CaretOne(c) + x, false) == Named([c], CmdLine(x, false))
    ensures IsNewline(c) ==> CmdLine(CaretOne(c) + x, false) == None
    ensures !Nameable(c) ==> CmdLine(CaretOne(c) + x, false).None? || CmdLine(CaretOne(c) + x, false).value.name == ""
  {
    hide CmdText;
    if IsMeta(c) {
      assert (['^', c] + x)[2..] == x;
    } else {
      assert ([c] + x)[1..] == x;
    }
  }

  lemma NamedParts(c: char, s: string, rest: Option<Command>)
    ensures Named([c], Named(s, rest)) == Named([c] + s, rest) && Named("", rest) == rest
  {
    if rest.Some? {
      assert [c] + (s + rest.value.name) == ([c] + s) + rest.value.name && "" + rest.value.name == rest.value.name;
    }
  }

  lemma StartableParts(s: string)
    requires s != ""
    ensures Startable(s) <==> Nameable(s[0]) && Startable(s[1..])
    ensures s == [s[0]] + s[1..]
  {
    assert s == [s[0]] + s[1..];
    if Nameable(s[0]) && Startable(s[1..]) {
      forall i | 0 <= i < |s| ensures Nameable(s[i]) {
        assert i > 0 ==> s[i] == s[1..][i - 1];
      }
    }
    if Startable(s) {
      forall i | 0 <= i < |s[1..]| ensures Nameable(s[1..][i]) {
        assert s[1..][i] == s[i + 1];
      }
    }
  }

  /** A startable name is read as a part of the name; another one gives no command, or one with a shorter name. */
  lemma {:induction false} LineReadsCaret(s: string, x: string)
    ensures Startable(s) ==> CmdLine(Caret(s) + x, false) == Named(s, CmdLine(x, false))
    ensures !Startable(s) ==> CmdLine(Caret(s) + x, false).None? || |CmdLine(Caret(s) + x, false).value.name| < |s|
  {
    hide CmdLine, CaretOne, Nameable, IsMeta, Startable, Caret;
    if s == "" {
      NoCaret(x);
      NamedParts('a', "", CmdLine(x, false));
      NothingUnstartable();
    } else {
      LineReadsCaret(s[1..], x);
      CaretParts(s, x);
      LineTakesOne(s[0], Caret(s[1..]) + x);
      StartableParts(s);
      NamedParts(s[0], s[1..], CmdLine(x, false));
    }
  }

  lemma NothingUnstartable()
    ensures Startable("")
  {
  }

  /** Both replacements in one pass. */
  function Escaped(s: string): string
    decreases |s|
  {
    var n := Slashes(s);
    if n == |s| then Repeat('\\', 2 * n)
    else if s[n] == '"' then Repeat('\\', 2 * n) + ("\\\"" + Escaped(s[n + 1..]))
    else s[..n + 1] + Escaped(s[n + 1..])
  }

  lemma {:induction false} RepeatSum(c: char, m: nat, n: nat)
    ensures Repeat(c, m) + Repeat(c, n) == Repeat(c, m + n)
  {
    if m > 0 {
      RepeatSum(c, m - 1, n);
    }
  }

  lemma {:induction false} SlashesAre(s: string)
    ensures s[..Slashes(s)] == Repeat('\\', Slashes(s))
  {
    if s != "" && s[0] == '\\' {
      SlashesAre(s[1..]);
      var n := Slashes(s[1..]);
      assert s[..1 + n] == [s[0]] + s[1..][..n];
    }
  }

  lemma {:induction false} AllTrailing(n: nat)
    ensures Trailing(Repeat('\\', n)) == n
  {
    if n > 0 {
      AllTrailing(n - 1);
      RepeatSum('\\', n - 1, 1);
      var s := Repeat('\\', n);
      assert s == Repeat('\\', n - 1) + ['\\'] by {
        assert Repeat('\\', 1) == ['\\'] + Repeat('\\', 0);
      }
      assert s[..n - 1] == Repeat('\\', n - 1);
    }
  }

  lemma {:induction false} TrailingAfter(a: string, b: string)
    requires a != "" && a[|a| - 1] != '\\'
    ensures Trailing(a + b) == Trailing(b)
  {
    if b == "" {
      assert a + b == a;
    } else {
      assert (a + b)[..|a + b| - 1] == a + b[..|b| - 1];
      TrailingAfter(a, b[..|b| - 1]);
    }
  }

  lemma TrailingDoubles(a: string, b: string)
    requires a != "" && a[|a| - 1] != '\\'
    ensures DoubleTrailing(a + b) == a + DoubleTrailing(b)
  {
    TrailingAfter(a, b);
    assert (a + b) + Repeat('\\', Trailing(b)) == a + (b + Repeat('\\', Trailing(b)));
  }

  lemma {:induction false} EscapedIs(s: string)
    ensures DoubleTrailing(BeforeQuotes(s)) == Escaped(s)
    decreases |s|
  {
    var n := Slashes(s);
    SlashesAre(s);
    if n == |s| {
      assert s[..n] == s;
      AllTrailing(n);
      RepeatSum('\\', n, n);
    } else {
      EscapedIs(s[n + 1..]);
      if s[n] == '"' {
        var a := Repeat('\\', 2 * n) + "\\\"";
        assert BeforeQuotes(s) == a + BeforeQuotes(s[n + 1..]);
        TrailingDoubles(a, BeforeQuotes(s[n + 1..]));
        assert a + Escaped(s[n + 1..]) == Repeat('\\', 2 * n) + ("\\\"" + Escaped(s[n + 1..]));
      } else {
        TrailingDoubles(s[..n + 1], BeforeQuotes(s[n + 1..]));
      }
    }
  }

  lemma {:induction false} SlashesThen(n: nat, x: string)
    requires x == "" || x[0] != '\\'
    ensures Slashes(Repeat('\\', n) + x) == n
  {
    if n == 0 {
      assert "" + x == x;
    } else {
      assert (Repeat('\\', n) + x)[1..] == Repeat('\\', n - 1) + x;
      SlashesThen(n - 1, x);
    }
  }

  /** Where one argument's text ends in a line of them. */
  predicate Ends(x: string) {
    x == "" || x[0] == ' '
  }

  lemma TakesQuote(n: nat, x: string, quoted: bool)
    ensures TakeArgument(Repeat('\\', 2 * n + 1) + ("\"" + x), quoted)
            == Prepend(Repeat('\\', n) + "\"", TakeArgument(x, quoted))
  {
    hide Repeat, Slashes;
    var r := Repeat('\\', 2 * n + 1) + ("\"" + x);
    SlashesThen(2 * n + 1, "\"" + x);
    assert r[2 * n + 1] == '"' && r[2 * n + 2..] == x;
    TakesOdd(r, n, quoted);
  }

  lemma TakesOdd(r: string, n: nat, quoted: bool)
    requires Slashes(r) == 2 * n + 1 < |r| && r[2 * n + 1] == '"'
    ensures TakeArgument(r, quoted) == Prepend(Repeat('\\', n) + "\"", TakeArgument(r[2 * n + 2..], quoted))
  {
    hide Repeat, Slashes, Prepend;
  }

  lemma TakesEnd(n: nat, x: string)
    requires Ends(x)
    ensures TakeArgument(Repeat('\\', 2 * n) + ("\"" + x), true) == (Repeat('\\', n), x)
  {
    var r := Repeat('\\', 2 * n) + ("\"" + x);
    SlashesThen(2 * n, "\"" + x);
    assert r[2 * n] == '"' && r[2 * n + 1..] == x;
    assert Repeat('\\', n) + "" == Repeat('\\', n);
    if x != "" {
      assert r[2 * n + 1] == ' ';
      assert Slashes(x) == 0 && x[..0] == "" && x[0..] == x;
    } else {
      assert TakeArgument("", false) == ("", "");
    }
  }

  lemma TakesPlain(s: string, n: nat, x: string)
    requires n == Slashes(s) < |s| && s[n] != '"'
    ensures TakeArgument(s[..n + 1] + x, true) == Prepend(s[..n + 1], TakeArgument(x, true))
  {
    var r := s[..n + 1] + x;
    SlashesAre(s);
    assert r == Repeat('\\', n) + ([s[n]] + x) by {
      assert s[..n + 1] == s[..n] + [s[n]];
    }
    SlashesThen(n, [s[n]] + x);
    assert r[n + 1..] == x && r[..n + 1] == s[..n + 1];
  }

  lemma EscapedParts(s: string)
    ensures var n := Slashes(s);
            && (n == |s| ==> Escaped(s) == Repeat('\\', 2 * n) && s == Repeat('\\', n))
            && (n < |s| && s[n] != '"' ==>
                  Escaped(s) == s[..n + 1] + Escaped(s[n + 1..]) && s == s[..n + 1] + s[n + 1..])
  {
    hide Slashes, Repeat;
    SlashesAre(s);
    if Slashes(s) == |s| {
      assert s[..|s|] == s;
    }
  }

  /** An escaped argument, read inside its quotes, is the argument. */
  lemma {:induction false} TakesEscaped(s: string, x: string)
    requires Ends(x)
    ensures TakeArgument(Escaped(s) + ("\"" + x), true) == (s, x)
    decreases |s|
  {
    hide *;
    var n := Slashes(s);
    EscapedParts(s);
    if n == |s| {
      TakesEnd(n, x);
    } else {
      var rest := s[n + 1..];
      TakesEscaped(rest, x);
      if s[n] == '"' {
        TakesQuoted(s, n, x);
      } else {
        assert (s[..n + 1] + Escaped(rest)) + ("\"" + x) == s[..n + 1] + (Escaped(rest) + ("\"" + x));
        TakesPlain(s, n, Escaped(rest) + ("\"" + x));
        Prepends(s[..n + 1], rest, x);
      }
    }
  }

  lemma TakesQuoted(s: string, n: nat, x: string)
    requires n == Slashes(s) < |s| && s[n] == '"'
             && TakeArgument(Escaped(s[n + 1..]) + ("\"" + x), true) == (s[n + 1..], x)
    ensures TakeArgument(Escaped(s) + ("\"" + x), true) == (s, x)
  {
    hide *;
    var rest := s[n + 1..];
    SlashesAre(s);
    RepeatSum('\\', 2 * n, 1);
    QuoteParts(s, n);
    QuoteGlue(Repeat('\\', 2 * n), Escaped(rest), "\"" + x);
    TakesQuote(n, Escaped(rest) + ("\"" + x), true);
    Prepends(Repeat('\\', n) + "\"", rest, x);
  }

  lemma QuoteParts(s: string, n: nat)
    requires n == Slashes(s) < |s| && s[n] == '"'
    ensures Escaped(s) == Repeat('\\', 2 * n) + ("\\\"" + Escaped(s[n + 1..])) && Repeat('\\', 1) == "\\"
    ensures s == s[..n] + "\"" + s[n + 1..]
  {
    hide Slashes, Repeat, Escaped;
    EscapedQuote(s, n);
    OneSlash();
    assert s == s[..n] + [s[n]] + s[n + 1..];
  }

  lemma EscapedQuote(s: string, n: nat)
    requires n == Slashes(s) < |s| && s[n] == '"'
    ensures Escaped(s) == Repeat('\\', 2 * n) + ("\\\"" + Escaped(s[n + 1..]))
  {
    hide Slashes, Repeat;
  }

  lemma OneSlash()
    ensures Repeat('\\', 1) == "\\"
  {
    assert Repeat('\\', 1) == ['\\'] + Repeat('\\', 0);
  }

  lemma QuoteGlue(slashes: string, rest: string, x: string)
    ensures (slashes + ("\\\"" + rest)) + x == (slashes + "\\") + ("\"" + (rest + x))
  {
  }

  lemma Prepends(a: string, b: string, x: string)
    ensures Prepend(a, (b, x)) == (a + b, x)
  {
  }

  lemma TakesOpen(x: string)
    ensures TakeArgument("\"" + x, false) == TakeArgument(x, true)
  {
    var r := "\"" + x;
    assert r[1..] == x;
    var rest := TakeArgument(x, true);
    assert "" + rest.0 == rest.0;
  }

  /** An argument in its quotes, escaped. */
  function Quoted(argument: string): string {
    "\"" + (Escaped(argument) + "\"")
  }

  /** Arguments in quotes, with spaces before them. */
  function QuotedText(args: seq<string>): string {
    if args == [] then "" else " " + (Quoted(args[0]) + QuotedText(args[1..]))
  }

  lemma {:induction false} SplitsQuoted(args: seq<string>)
    ensures SplitArguments(QuotedText(args)) == args
  {
    hide *;
    if args == [] {
      SplitsNothing();
    } else {
      SplitsQuoted(args[1..]);
      var rest := QuotedText(args[1..]);
      QuotedParts(args);
      TakesOpen(Escaped(args[0]) + ("\"" + rest));
      TakesEscaped(args[0], rest);
      SplitsOne("\"" + (Escaped(args[0]) + ("\"" + rest)), args[0], rest);
      assert [args[0]] + args[1..] == args;
    }
  }

  lemma SplitsNothing()
    ensures SplitArguments(QuotedText([])) == []
  {
  }

  lemma QuotedParts(args: seq<string>)
    requires args != []
    ensures Ends(QuotedText(args[1..])) && !IsBlank('"')
    ensures QuotedText(args) == " " + ("\"" + (Escaped(args[0]) + ("\"" + QuotedText(args[1..]))))
  {
    hide Escaped;
    var e, rest := Escaped(args[0]), QuotedText(args[1..]);
    assert ("\"" + (e + "\"")) + rest == "\"" + (e + ("\"" + rest));
  }

  lemma SplitsOne(r: string, argument: string, rest: string)
    requires r != "" && !IsBlank(r[0]) && TakeArgument(r, false) == (argument, rest) && |rest| < |r|
    ensures SplitArguments(r) == [argument] + SplitArguments(rest)
    ensures SplitArguments(" " + r) == SplitArguments(r)
  {
    hide TakeArgument, Prepend;
    assert (" " + r)[1..] == r;
  }

  predicate AllOneLine(args: seq<string>) {
    forall i :: 0 <= i < |args| ==> OneLine(args[i])
  }

  lemma AllOneLineParts(args: seq<string>)
    requires args != []
    ensures AllOneLine(args) <==> OneLine(args[0]) && AllOneLine(args[1..])
  {
    hide OneLine;
    if OneLine(args[0]) && AllOneLine(args[1..]) {
      forall i | 0 <= i < |args| ensures OneLine(args[i]) {
        assert i > 0 ==> args[i] == args[1..][i - 1];
      }
    }
    if AllOneLine(args) {
      forall i | 0 <= i < |args[1..]| ensures OneLine(args[1..][i]) {
        assert args[1..][i] == args[i + 1];
      }
    }
  }

  lemma OneLineJoins(a: string, b: string)
    ensures OneLine(a + b) <==> OneLine(a) && OneLine(b)
  {
    var s := a + b;
    if OneLine(s) {
      forall i | 0 <= i < |a| ensures !IsNewline(a[i]) {
        assert s[i] == a[i];
      }
      forall i | 0 <= i < |b| ensures !IsNewline(b[i]) {
        assert s[|a| + i] == b[i];
      }
    }
  }

  lemma {:induction false} SlashesOneLine(n: nat)
    ensures OneLine(Repeat('\\', n))
  {
    if n > 0 {
      SlashesOneLine(n - 1);
      OneLineJoins("\\", Repeat('\\', n - 1));
      assert Repeat('\\', n) == "\\" + Repeat('\\', n - 1);
    }
  }

  lemma {:induction false} EscapedOneLine(s: string)
    ensures OneLine(Escaped(s)) <==> OneLine(s)
    decreases |s|
  {
    hide *;
    var n := Slashes(s);
    SlashesAre(s);
    SlashesOneLine(n);
    SlashesOneLine(2 * n);
    EscapedParts(s);
    if n < |s| {
      EscapedOneLine(s[n + 1..]);
      if s[n] == '"' {
        QuoteParts(s, n);
        QuotesOneLine();
        OneLineJoins(s[..n] + "\"", s[n + 1..]);
        OneLineJoins(s[..n], "\"");
        OneLineJoins(Repeat('\\', 2 * n), "\\\"" + Escaped(s[n + 1..]));
        OneLineJoins("\\\"", Escaped(s[n + 1..]));
      } else {
        OneLineJoins(s[..n + 1], s[n + 1..]);
        OneLineJoins(s[..n + 1], Escaped(s[n + 1..]));
      }
    }
  }

  lemma QuotesOneLine()
    ensures OneLine("\"") && OneLine("\\\"") && OneLine(" ")
  {
  }

  lemma {:induction false} CaretOneLine(s: string)
    ensures OneLine(Caret(s)) <==> OneLine(s)
  {
    if s != "" {
      CaretOneLine(s[1..]);
      OneLineParts(s);
      OneLineJoins(CaretOne(s[0]), Caret(s[1..]));
      assert Caret(s) == CaretOne(s[0]) + Caret(s[1..]);
      CaretedOne(s[0]);
    }
  }

  lemma CaretedOne(c: char)
    ensures OneLine(CaretOne(c)) <==> !IsNewline(c)
  {
    var t := CaretOne(c);
    assert t[|t| - 1] == c;
  }

  lemma ArgumentIs(argument: string, doubleEscape: bool)
    ensures EscapeArgument(argument, doubleEscape)
            == if doubleEscape then Caret(Caret(Quoted(argument))) else Caret(Quoted(argument))
    ensures OneLine(Caret(Quoted(argument))) <==> OneLine(argument)
    ensures OneLine(Quoted(argument)) <==> OneLine(argument)
  {
    hide BeforeQuotes, DoubleTrailing, Escaped, Caret, OneLine;
    EscapedIs(argument);
    EscapedOneLine(argument);
    QuotesOneLine();
    OneLineJoins("\"", Escaped(argument) + "\"");
    OneLineJoins(Escaped(argument), "\"");
    CaretOneLine(Quoted(argument));
  }

  lemma TextSpace(x: string)
    ensures CmdText(" " + x, false) == Then(" ", CmdText(x, false))
    ensures CmdLine(" " + x, false)
            == var text := CmdText(" " + x, false); if text.None? then None else Some(Command("", text.value))
  {
    assert (" " + x)[1..] == x;
  }

  /**
   * One pass of cmd.exe over the arguments takes one layer of
   * carets off, unless a newline in one of them ends the line.
   */
  lemma {:induction false} OneLayer(args: seq<string>, doubleEscape: bool)
    ensures CmdText(ArgumentsText(args, doubleEscape), false)
            == if !AllOneLine(args) then None
                else Some(if doubleEscape then ArgumentsText(args, false) else QuotedText(args))
  {
    hide CmdText, AllOneLine, OneLine, Caret, EscapeArgument, ArgumentsText, QuotedText, Quoted;
    if args == [] {
      NoArguments(doubleEscape);
    } else {
      OneLayer(args[1..], doubleEscape);
      AllOneLineParts(args);
      ArgumentIs(args[0], doubleEscape);
      ArgumentIs(args[0], false);
      ArgumentsParts(args, doubleEscape);
      ArgumentsParts(args, false);
      var rest := ArgumentsText(args[1..], doubleEscape);
      var inner := if doubleEscape then Caret(Quoted(args[0])) else Quoted(args[0]);
      TextReadsCaret(inner, rest);
      TextSpace(Caret(inner) + rest);
    }
  }

  lemma NoArguments(doubleEscape: bool)
    ensures ArgumentsText([], doubleEscape) == "" == QuotedText([]) && ArgumentsText([], false) == "" && AllOneLine([])
            && CmdText("", false) == Some("")
  {
  }

  lemma ArgumentsParts(args: seq<string>, doubleEscape: bool)
    requires args != []
    ensures ArgumentsText(args, doubleEscape)
            == " " + (EscapeArgument(args[0], doubleEscape) + ArgumentsText(args[1..], doubleEscape))
    ensures QuotedText(args) == " " + (Quoted(args[0]) + QuotedText(args[1..]))
  {
    hide EscapeArgument;
  }

  /**
   * What cmd.exe makes of the text after the name, and for a
   * shim's own command line once more, splits into the arguments.
   */
  predicate Passes(line: string, resolved: string, args: seq<string>) {
    var command := CmdLine(line, false);
    && command.Some? && command.value.name == resolved
    && var text := if IsShim(resolved) then CmdText(command.value.text, false) else Some(command.value.text);
       text.Some? && SplitArguments(text.value) == args
  }

  /**
   * cmd.exe, given the line, starts exactly this file with exactly these arguments, no character of them acting as
   * syntax, if and only if the file's name can be told to it and no argument holds a newline.
   */
  lemma ArgumentsComeBack(resolved: string, args: seq<string>)
    ensures Passes(CommandLine(resolved, args), resolved, args) <==> Startable(resolved) && AllOneLine(args)
  {
    hide *;
    var shim := IsShim(resolved);
    var rest := ArgumentsText(args, shim);
    LineIs(resolved, args);
    LineReadsCaret(resolved, rest);
    OneLayer(args, shim);
    OneLayer(args, false);
    SplitsQuoted(args);
    if Startable(resolved) {
      AfterName(args, shim);
      NamedIs(resolved, CmdText(rest, false));
    }
    PassesIs(CommandLine(resolved, args), resolved, args);
  }

  lemma LineIs(resolved: string, args: seq<string>)
    ensures CommandLine(resolved, args) == Caret(resolved) + ArgumentsText(args, IsShim(resolved))
  {
    hide IsShim, Caret, ArgumentsText;
  }

  lemma AfterName(args: seq<string>, doubleEscape: bool)
    ensures var text := CmdText(ArgumentsText(args, doubleEscape), false);
            CmdLine(ArgumentsText(args, doubleEscape), false) == if text.None? then None
                else Some(Command("", text.value))
  {
    hide EscapeArgument;
    if args != [] {
      TextSpace(EscapeArgument(args[0], doubleEscape) + ArgumentsText(args[1..], doubleEscape));
    }
  }

  lemma NamedIs(name: string, text: Option<string>)
    ensures Named(name, if text.None? then None else Some(Command("", text.value)))
            == if text.None? then None else Some(Command(name, text.value))
  {
    assert name + "" == name;
  }

  lemma PassesIs(line: string, resolved: string, args: seq<string>)
    ensures Passes(line, resolved, args)
            <==> var command := CmdLine(line, false);
                 && command.Some? && command.value.name == resolved
                 && var text :=
                      if IsShim(resolved) then CmdText(command.value.text, false) else Some(command.value.text);
                    text.Some? && SplitArguments(text.value) == args
  {
    hide CmdLine, CmdText, IsShim, SplitArguments;
  }

  /** Without a batch file the arguments go as they are; with one, as a quoted line that passes exactly when it can. */
  lemma PreparedKeepsArguments(file: string, resolved: string, args: seq<string>, win32: bool, comSpec: string)
    ensures var p := PrepareCommand(file, resolved, args, win32, comSpec);
            if !win32 || !IsBatch(resolved) then
              p.args == args && !p.verbatim && p.file == if win32 then resolved else file
            else && p.verbatim && p.file == comSpec && |p.args| == 4 && p.args[..3] == ["/d", "/s", "/c"]
                 && |p.args[3]| >= 2 && p.args[3][0] == '"' && p.args[3][|p.args[3]| - 1] == '"'
                 && (Passes(p.args[3][1..|p.args[3]| - 1], resolved, args) <==> Startable(resolved) && AllOneLine(args))
  {
    hide IsShim, IsBatch, CommandLine, Passes, Startable, AllOneLine;
    var line := CommandLine(resolved, args);
    assert ("\"" + line + "\"")[1..|"\"" + line + "\""| - 1] == line;
    ArgumentsComeBack(resolved, args);
  }

  /** A file with an equals sign in its path cannot be started: the command's name ends there. */
  lemma EqualsEndsTheName()
    ensures !Passes(CommandLine("a=b.cmd", []), "a=b.cmd", [])
  {
    hide *;
    ArgumentsComeBack("a=b.cmd", []);
    EqualsIsUnstartable();
  }

  lemma EqualsIsUnstartable()
    ensures !Startable("a=b.cmd")
  {
    assert "a=b.cmd"[1] == '=' && !Nameable("a=b.cmd"[1]);
  }
}
