/** The commands stack.ts prints for the user's login shell, and how a POSIX shell reads them back. */
module Shell {

  // --- Printing -----------------------------------------------------------------------

  /** `value.replace(/'/g, "'\\''")`. */
  function EscapeQuotes(value: string): string {
    if value == "" then "" else (if value[0] == '\'' then "'\\''" else [value[0]]) + EscapeQuotes(value[1..])
  }

  function ShellQuote(value: string): string {
    "'" + EscapeQuotes(value) + "'"
  }

  function Decimal(n: nat): string {
    if n < 10 then [('0' as int + n) as char] else Decimal(n / 10) + [('0' as int + n % 10) as char]
  }

  const GRACEFUL_SHUTDOWN_SECONDS := 10

  /** `parts.join(' ')`. */
  function JoinSpaced(parts: seq<string>): string {
    if parts == [] then "" else if |parts| == 1 then parts[0] else parts[0] + (" " + JoinSpaced(parts[1..]))
  }

  function MakeBackendCommand(repo: string, port: nat): string {
    JoinSpaced(["exec", "make", "-C", ShellQuote(repo), "backend", ShellQuote(GracefulFlags()),
        "LLLM_BACKEND_PORT=" + Decimal(port)])
  }

  function GracefulFlags(): string {
    "LLLM_UVICORN_FLAGS=--timeout-graceful-shutdown " + Decimal(GRACEFUL_SHUTDOWN_SECONDS)
  }

  /** `webDir` and `composeFile` are `path.join`s of the repository path. */
  function BuildUiCommand(webDir: string): string {
    JoinSpaced(["cd", ShellQuote(webDir), "&&", "bun", "install", "--frozen-lockfile", "&&", "bun", "run", "build"])
  }

  function ComposeDownCommand(composeFile: string): string {
    JoinSpaced(["docker", "compose", "-f", ShellQuote(composeFile), "down"])
  }

  function ComposeRunningCommand(composeFile: string): string {
    JoinSpaced(["docker", "compose", "-f", ShellQuote(composeFile), "ps", "-a", "-q"])
  }

  // --- Reading back ----------------------------------------------------------------------

  datatype Token = Word(text: string) | Operator(text: string)

  datatype Reading = Refused | Tokens(tokens: seq<Token>)

  predicate Blank(c: char) { c == ' ' || c == '\t' }

  /** Characters that stand for themselves outside quotes and end no word; `=` does, past a command's name. */
  predicate Plain(c: char) {
    'a' <= c <= 'z' || 'A' <= c <= 'Z' || '0' <= c <= '9' || c == '-' || c == '_' || c == '=' || c == '.' || c == '/'
  }

  function Prepend(token: Token, rest: Reading): Reading {
    if rest.Refused? then Refused else Tokens([token] + rest.tokens)
  }

  /** The word under way, if one has begun. */
  datatype Current = NoWord | InWord(text: string) {
    function Add(more: string): Current {
      InWord(if NoWord? then more else text + more)
    }

    function End(rest: Reading): Reading {
      if NoWord? then rest else Prepend(Word(text), rest)
    }
  }

  /** Sections 2.2.1 (escape character), 2.2.2 (single quotes) and 2.3 (token recognition) of the POSIX shell
      command language, IEEE Std 1003.1, with the quotes removed. What these sections leave to others (double
      quotes, expansions, patterns, comments, operators other than newline and `&&`) is refused. */
  function Read(text: string, word: Current): Reading
    decreases |text|
  {
    if text == "" then word.End(Tokens([]))
    else if text[0] == '\'' then ReadQuoted(text[1..], word.Add(""))
    else if text[0] == '\\' then
      if |text| == 1 then Refused
      else if text[1] == '\n' then Read(text[2..], word)
      else Read(text[2..], word.Add([text[1]]))
    else if Blank(text[0]) then word.End(Read(text[1..], NoWord))
    else if text[0] == '\n' then word.End(Prepend(Operator("\n"), Read(text[1..], NoWord)))
    else if "&&" <= text then word.End(Prepend(Operator("&&"), Read(text[2..], NoWord)))
    else if Plain(text[0]) then Read(text[1..], word.Add([text[0]]))
    else Refused
  }

  function ReadQuoted(text: string, word: Current): Reading
    decreases |text|
  {
    if text == "" then Refused
    else if text[0] == '\'' then Read(text[1..], word)
    else ReadQuoted(text[1..], word.Add([text[0]]))
  }

  // --- Round trips -------------------------------------------------------------------------

  lemma AddConcat(word: Current, a: string, b: string)
    ensures word.Add(a).Add(b) == word.Add(a + b)
  {
    if word.InWord? { assert word.text + a + b == word.text + (a + b); }
  }

  /** Leaving the quotes, an escaped quote, and back into them. */
  lemma EscapedQuote(tail: string, word: Current)
    requires word.InWord?
    ensures ReadQuoted("'\\''" + tail, word) == ReadQuoted(tail, word.Add("'"))
  {
    var text := "'\\''" + tail;
    assert text[1..] == "\\''" + tail && text[1..][2..] == "'" + tail && ("'" + tail)[1..] == tail;
    AddConcat(word, "'", "");
    assert "'" + "" == "'";
    assert ReadQuoted(text, word) == Read("\\''" + tail, word) == Read("'" + tail, word.Add("'"));
  }

  lemma QuotedCharacter(c: char, tail: string, word: Current)
    requires c != '\''
    ensures ReadQuoted([c] + tail, word) == ReadQuoted(tail, word.Add([c]))
  {
    assert ([c] + tail)[1..] == tail;
  }

  lemma EscapeOneMore(value: string, end: string)
    requires value != ""
    ensures EscapeQuotes(value) + end
            == (if value[0] == '\'' then "'\\''" else [value[0]]) + (EscapeQuotes(value[1..]) + end)
  {
  }

  /** Inside quotes, the escaped value is read back and the closing quote ends it. */
  lemma {:induction false} QuotedReadsBack(value: string, rest: string, word: Current)
    requires word.InWord?
    ensures ReadQuoted(EscapeQuotes(value) + ("'" + rest), word) == Read(rest, word.Add(value))
    decreases |value|
  {
    if value == "" {
      assert "" + ("'" + rest) == "'" + rest && ("'" + rest)[1..] == rest;
      assert word.text + "" == word.text;
    } else {
      var c, tail := value[0], EscapeQuotes(value[1..]) + ("'" + rest);
      EscapeOneMore(value, "'" + rest);
      if c == '\'' {
        EscapedQuote(tail, word);
      } else {
        QuotedCharacter(c, tail, word);
      }
      QuotedReadsBack(value[1..], rest, word.Add([c]));
      AddConcat(word, [c], value[1..]);
      assert [c] + value[1..] == value;
    }
  }

  lemma OpeningQuote(tail: string, word: Current)
    ensures Read("'" + tail, word) == ReadQuoted(tail, word.Add(""))
  {
    assert ("'" + tail)[1..] == tail;
  }

  lemma QuoteSpelling(value: string, rest: string)
    ensures ShellQuote(value) + rest == "'" + (EscapeQuotes(value) + ("'" + rest))
  {
  }

  /** A quoted value adds exactly itself to the word, whatever characters it holds. */
  lemma QuoteReadsBack(value: string, rest: string, word: Current)
    ensures Read(ShellQuote(value) + rest, word) == Read(rest, word.Add(value))
  {
    QuoteSpelling(value, rest);
    OpeningQuote(EscapeQuotes(value) + ("'" + rest), word);
    QuotedReadsBack(value, rest, word.Add(""));
    AddConcat(word, "", value);
    assert "" + value == value;
  }

  lemma PlainCharacter(c: char, tail: string, word: Current)
    requires Plain(c)
    ensures Read([c] + tail, word) == Read(tail, word.Add([c]))
  {
    assert ([c] + tail)[1..] == tail;
  }

  lemma {:induction false} PlainReadsBack(plain: string, rest: string, word: Current)
    requires plain != "" && forall c <- plain :: Plain(c)
    ensures Read(plain + rest, word) == Read(rest, word.Add(plain))
    decreases |plain|
  {
    assert plain[0] in plain && plain + rest == [plain[0]] + (plain[1..] + rest);
    PlainCharacter(plain[0], plain[1..] + rest, word);
    assert [plain[0]] + plain[1..] == plain;
    AddConcat(word, [plain[0]], plain[1..]);
    if |plain| > 1 {
      PlainReadsBack(plain[1..], rest, word.Add([plain[0]]));
    } else {
      assert plain == [plain[0]] && plain[1..] + rest == rest;
    }
  }

  /** A command line as meant: bare words, quoted values and `&&`, one space apart. */
  datatype Part = Bare(text: string) | Quoted(value: string) | And

  predicate Proper(part: Part) {
    part.Bare? ==> part.text != "" && forall c <- part.text :: Plain(c)
  }

  function Spell(part: Part): string {
    match part
    case Bare(text) => text
    case Quoted(value) => ShellQuote(value)
    case And => "&&"
  }

  function Meaning(part: Part): Token {
    match part
    case Bare(text) => Word(text)
    case Quoted(value) => Word(value)
    case And => Operator("&&")
  }

  function SpellAll(parts: seq<Part>): seq<string> {
    seq(|parts|, i requires 0 <= i < |parts| => Spell(parts[i]))
  }

  function MeaningAll(parts: seq<Part>): seq<Token> {
    seq(|parts|, i requires 0 <= i < |parts| => Meaning(parts[i]))
  }

  lemma PartReadsBack(part: Part, rest: string)
    requires Proper(part)
    ensures Read(Spell(part) + (" " + rest), NoWord) == Prepend(Meaning(part), Read(rest, NoWord))
  {
    var after := " " + rest;
    assert after[1..] == rest;
    match part
    case Bare(text) => PlainReadsBack(text, after, NoWord);
    case Quoted(value) => QuoteReadsBack(value, after, NoWord);
    case And =>
      var text := "&&" + after;
      assert "&&" <= text && text[2..] == after;
  }

  lemma LastPartReadsBack(part: Part)
    requires Proper(part)
    ensures Read(Spell(part), NoWord) == Tokens([Meaning(part)])
  {
    assert Spell(part) + "" == Spell(part);
    match part
    case Bare(text) => PlainReadsBack(text, "", NoWord);
    case Quoted(value) => QuoteReadsBack(value, "", NoWord);
    case And => assert "&&"[2..] == "";
  }

  lemma FirstPart(parts: seq<Part>)
    requires |parts| > 1
    ensures JoinSpaced(SpellAll(parts)) == Spell(parts[0]) + (" " + JoinSpaced(SpellAll(parts[1..])))
    ensures MeaningAll(parts) == [Meaning(parts[0])] + MeaningAll(parts[1..])
  {
    assert SpellAll(parts)[1..] == SpellAll(parts[1..]);
  }

  /** A command line is read back as it was meant. */
  lemma {:induction false} CommandReadsBack(parts: seq<Part>)
    requires forall part <- parts :: Proper(part)
    ensures Read(JoinSpaced(SpellAll(parts)), NoWord) == Tokens(MeaningAll(parts))
    decreases |parts|
  {
    if |parts| == 1 {
      LastPartReadsBack(parts[0]);
      assert SpellAll(parts) == [Spell(parts[0])] && MeaningAll(parts) == [Meaning(parts[0])];
    } else if |parts| > 1 {
      FirstPart(parts);
      PartReadsBack(parts[0], JoinSpaced(SpellAll(parts[1..])));
      CommandReadsBack(parts[1..]);
    }
  }

  /** The number that decimal digits stand for, the first the most significant. */
  function Number(digits: string): int {
    if digits == "" then 0
    else
      var n := |digits| - 1;
      Number(digits[..n]) * 10 + (digits[n] as int - '0' as int)
  }

  /** Digits alone, of that number, and no zero in front. */
  predicate Spells(digits: string, n: nat) {
    && digits != "" && (forall c <- digits :: '0' <= c <= '9')
    && Number(digits) == n
    && (digits[0] == '0' ==> |digits| == 1)
  }

  lemma {:induction false} DecimalSpells(n: nat)
    ensures Spells(Decimal(n), n)
  {
    if n < 10 {
      assert Decimal(n)[..0] == "";
    } else {
      DecimalSpells(n / 10);
      assert Decimal(n)[..|Decimal(n)| - 1] == Decimal(n / 10);
    }
  }

  lemma GracefulFlagsAre()
    ensures GracefulFlags() == "LLLM_UVICORN_FLAGS=--timeout-graceful-shutdown 10"
  {
    assert Decimal(1) == "1" && Decimal(10) == "1" + "0";
  }

  /** `make backend` is given the repository path and the port as they are, for every path and port. */
  lemma MakeBackendReadsBack(repo: string, port: nat)
    ensures Spells(Decimal(port), port)
    ensures Read(MakeBackendCommand(repo, port), NoWord) == Tokens([
      Word("exec"), Word("make"), Word("-C"), Word(repo), Word("backend"),
      Word("LLLM_UVICORN_FLAGS=--timeout-graceful-shutdown 10"), Word("LLLM_BACKEND_PORT=" + Decimal(port))])
  {
    DecimalSpells(port);
    GracefulFlagsAre();
    MakeBackendProper(port);
    MakeWithSettings(repo, GracefulFlags(), "LLLM_BACKEND_PORT=" + Decimal(port));
  }

  lemma MakeWithSettings(repo: string, flags: string, setting: string)
    requires Proper(Bare(setting))
    ensures Read(JoinSpaced(["exec", "make", "-C", ShellQuote(repo), "backend", ShellQuote(flags), setting]), NoWord)
            == Tokens([Word("exec"), Word("make"), Word("-C"), Word(repo), Word("backend"), Word(flags), Word(setting)])
  {
    var parts := [Bare("exec"), Bare("make"), Bare("-C"), Quoted(repo), Bare("backend"), Quoted(flags), Bare(setting)];
    CommandReadsBack(parts);
    assert SpellAll(parts) == ["exec", "make", "-C", ShellQuote(repo), "backend", ShellQuote(flags), setting];
    assert MeaningAll(parts)
           == [Word("exec"), Word("make"), Word("-C"), Word(repo), Word("backend"), Word(flags), Word(setting)];
  }

  lemma MakeBackendProper(port: nat)
    ensures Proper(Bare("LLLM_BACKEND_PORT=" + Decimal(port)))
  {
    DecimalSpells(port);
    assert Proper(Bare("LLLM_BACKEND_PORT="));
  }

  function BuildUiParts(webDir: string): seq<Part> {
    [Bare("cd"), Quoted(webDir), And, Bare("bun"), Bare("install"), Bare("--frozen-lockfile"), And, Bare("bun"),
     Bare("run"), Bare("build")]
  }

  lemma BuildUiSpelling(webDir: string)
    ensures BuildUiCommand(webDir) == JoinSpaced(SpellAll(BuildUiParts(webDir)))
  {
    assert SpellAll(BuildUiParts(webDir))
           == ["cd", ShellQuote(webDir), "&&", "bun", "install", "--frozen-lockfile", "&&", "bun", "run", "build"];
  }

  lemma BuildUiProper(webDir: string)
    ensures forall part <- BuildUiParts(webDir) :: Proper(part)
  {
  }

  lemma BuildUiReadsBack(webDir: string)
    ensures Read(BuildUiCommand(webDir), NoWord) == Tokens([
      Word("cd"), Word(webDir), Operator("&&"), Word("bun"), Word("install"), Word("--frozen-lockfile"),
      Operator("&&"), Word("bun"), Word("run"), Word("build")])
  {
    BuildUiSpelling(webDir);
    BuildUiProper(webDir);
    CommandReadsBack(BuildUiParts(webDir));
    assert MeaningAll(BuildUiParts(webDir)) == [
      Word("cd"), Word(webDir), Operator("&&"), Word("bun"), Word("install"), Word("--frozen-lockfile"),
      Operator("&&"), Word("bun"), Word("run"), Word("build")];
  }

  lemma ComposeDownReadsBack(composeFile: string)
    ensures Read(ComposeDownCommand(composeFile), NoWord) == Tokens([
      Word("docker"), Word("compose"), Word("-f"), Word(composeFile), Word("down")])
  {
    var parts := [Bare("docker"), Bare("compose"), Bare("-f"), Quoted(composeFile), Bare("down")];
    CommandReadsBack(parts);
    assert SpellAll(parts) == ["docker", "compose", "-f", ShellQuote(composeFile), "down"];
    assert MeaningAll(parts) == [Word("docker"), Word("compose"), Word("-f"), Word(composeFile), Word("down")];
  }

  lemma ComposeRunningReadsBack(composeFile: string)
    ensures Read(ComposeRunningCommand(composeFile), NoWord) == Tokens([
      Word("docker"), Word("compose"), Word("-f"), Word(composeFile), Word("ps"), Word("-a"), Word("-q")])
  {
    var parts := [Bare("docker"), Bare("compose"), Bare("-f"), Quoted(composeFile), Bare("ps"), Bare("-a"), Bare("-q")];
    CommandReadsBack(parts);
    assert SpellAll(parts) == ["docker", "compose", "-f", ShellQuote(composeFile), "ps", "-a", "-q"];
    assert MeaningAll(parts)
           == [Word("docker"), Word("compose"), Word("-f"), Word(composeFile), Word("ps"), Word("-a"), Word("-q")];
  }
}
