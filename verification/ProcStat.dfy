/** Reading /proc/<pid>/stat (stack.ts): the command name stands in parentheses and may itself hold
    parentheses and spaces. */
module ProcStat {
  import opened Text

  datatype Stat = Stat(comm: string, startTicks: string)

  predicate Space(c: char) {
    c == ' ' || c == '\t' || c == '\n' || c == '\r'
  }

  function IndexOf(text: string, c: char): (at: int)
    ensures -1 <= at < |text|
    ensures at >= 0 ==> text[at] == c
    ensures forall i :: 0 <= i < (if at < 0 then |text| else at) ==> text[i] != c
  {
    if text == "" then -1
    else if text[0] == c then 0
    else
      var rest := IndexOf(text[1..], c);
      if rest < 0 then -1 else rest + 1
  }

  function LastIndexOf(text: string, c: char): (at: int)
    ensures -1 <= at < |text|
    ensures at >= 0 ==> text[at] == c
    ensures forall i :: at < i < |text| ==> text[i] != c
  {
    if text == "" then -1
    else if text[|text| - 1] == c then |text| - 1
    else LastIndexOf(text[..|text| - 1], c)
  }

  function TrimEnd(text: string): string {
    if text != "" && Space(text[|text| - 1]) then TrimEnd(text[..|text| - 1]) else text
  }

  function TrimStart(text: string): string {
    if text != "" && Space(text[0]) then TrimStart(text[1..]) else text
  }

  function FirstSpace(text: string): (n: nat)
    ensures n <= |text| && (n < |text| ==> Space(text[n]))
    ensures forall i :: 0 <= i < n ==> !Space(text[i])
  {
    if text == "" || Space(text[0]) then 0 else 1 + FirstSpace(text[1..])
  }

  /** `text.split(/\s+/)`. */
  function SplitAtSpaces(text: string): seq<string>
    decreases |text|
  {
    var n := FirstSpace(text);
    if n == |text| then [text]
    else
      ShorterTrimmed(text[n + 1..]);
      [text[..n]] + SplitAtSpaces(TrimStart(text[n + 1..]))
  }

  lemma {:induction false} ShorterTrimmed(text: string)
    ensures |TrimStart(text)| <= |text|
  {
    if text != "" && Space(text[0]) { ShorterTrimmed(text[1..]); }
  }

  /** `text.slice(at)`. */
  function After(text: string, at: nat): string {
    if at <= |text| then text[at..] else ""
  }

  function WordsOf(text: string): seq<string> {
    SplitAtSpaces(TrimStart(TrimEnd(text)))
  }

  /** `parseProcStat`: field 22 of the line is the 20th word after the last closing parenthesis. */
  function ParseProcStat(text: string): Option<Stat> {
    var open, close := IndexOf(text, '('), LastIndexOf(text, ')');
    if open < 0 || close < open then None
    else StatOf(text[open + 1..close], WordsOf(After(text, close + 2)))
  }

  function StatOf(comm: string, words: seq<string>): Option<Stat> {
    if |words| < 20 || words[19] == "" then None else Some(Stat(comm, words[19]))
  }

  // --- Every command name is read back -------------------------------------------------------

  /** A field as the kernel prints one: characters one can see, no closing parenthesis among them. */
  predicate Word(text: string) {
    text != "" && forall c <- text :: '!' <= c <= '~' && c != ')'
  }

  /** The line as the kernel writes it. */
  function StatLine(pid: string, comm: string, fields: seq<string>): string
    requires fields != []
  {
    pid + " (" + comm + (") " + (Join(fields, ' ') + "\n"))
  }

  lemma {:induction false} JoinedWords(fields: seq<string>)
    requires fields != [] && forall f <- fields :: Word(f)
    ensures var text := Join(fields, ' ');
            text != "" && !Space(text[0]) && !Space(text[|text| - 1]) && ')' !in text
    decreases |fields|
  {
    var first := fields[0];
    assert Word(first) && first[0] in first && first[|first| - 1] in first;
    if |fields| > 1 { JoinedWords(fields[1..]); }
  }

  lemma {:induction false} WordsComeBack(fields: seq<string>)
    requires fields != [] && forall f <- fields :: Word(f)
    ensures SplitAtSpaces(Join(fields, ' ')) == fields
    decreases |fields|
  {
    var first := fields[0];
    if |fields| == 1 {
      OnlyWord(first);
    } else {
      WordsComeBack(fields[1..]);
      JoinedWords(fields[1..]);
      FirstWord(first, Join(fields[1..], ' '));
      assert fields == [first] + fields[1..];
    }
  }

  lemma OnlyWord(word: string)
    requires Word(word)
    ensures SplitAtSpaces(word) == [word]
  {
    assert forall i :: 0 <= i < |word| ==> word[i] in word;
  }

  lemma FirstWord(first: string, rest: string)
    requires Word(first) && rest != "" && !Space(rest[0])
    ensures SplitAtSpaces(first + [' '] + rest) == [first] + SplitAtSpaces(rest)
  {
    var text := first + [' '] + rest;
    assert forall i :: 0 <= i < |first| ==> text[i] == first[i] && first[i] in first;
    assert text[|first|] == ' ';
    assert FirstSpace(text) == |first|;
    assert text[..|first|] == first && text[|first| + 1..] == rest;
  }

  lemma WordsReadBack(fields: seq<string>)
    requires fields != [] && forall f <- fields :: Word(f)
    ensures WordsOf(Join(fields, ' ') + "\n") == fields
  {
    WordsComeBack(fields);
    JoinedWords(fields);
    Trims(Join(fields, ' '));
  }

  lemma Trims(words: string)
    requires words != "" && !Space(words[0]) && !Space(words[|words| - 1])
    ensures TrimStart(TrimEnd(words + "\n")) == words
  {
    assert (words + "\n")[..|words|] == words;
  }

  lemma OpensAfterPid(line: string, pid: string, rest: string)
    requires '(' !in pid && line == pid + " (" + rest
    ensures IndexOf(line, '(') == |pid| + 1
  {
    assert line[|pid| + 1] == '(' && line[|pid|] == ' ';
    assert forall i :: 0 <= i < |pid| ==> line[i] == pid[i] && pid[i] in pid;
  }

  lemma ClosesBeforeWords(line: string, front: string, rest: string)
    requires ')' !in rest && line == front + ") " + rest
    ensures LastIndexOf(line, ')') == |front| && line[..|front|] == front && After(line, |front| + 2) == rest
  {
    assert line[|front|] == ')' && line[|front| + 1] == ' ';
    assert forall i :: |front| + 2 <= i < |line| ==> line[i] == rest[i - |front| - 2] && rest[i - |front| - 2] in rest;
  }

  /** The name comes back whole, whatever parentheses and spaces it holds, and so does the start time, the 22nd field
      of the line; a line cut short before it gives nothing. */
  lemma StatComesBack(pid: string, comm: string, fields: seq<string>)
    requires '(' !in pid && fields != [] && forall f <- fields :: Word(f)
    ensures ParseProcStat(StatLine(pid, comm, fields))
            == if |fields| >= 20 then Some(Stat(comm, fields[19])) else None
  {
    JoinedWords(fields);
    WordsReadBack(fields);
    assert |fields| >= 20 ==> fields[19] in fields;
    LineParses(StatLine(pid, comm, fields), pid, comm, Join(fields, ' ') + "\n");
  }

  lemma LineParses(line: string, pid: string, comm: string, rest: string)
    requires '(' !in pid && ')' !in rest && line == pid + " (" + comm + (") " + rest)
    ensures ParseProcStat(line) == StatOf(comm, WordsOf(rest))
  {
    var front := pid + " (" + comm;
    assert line == pid + " (" + (comm + ") " + rest);
    OpensAfterPid(line, pid, comm + ") " + rest);
    assert line == front + ") " + rest;
    ClosesBeforeWords(line, front, rest);
    assert line[|pid| + 2..|front|] == front[|pid| + 2..] == comm;
  }

  /** Whatever the text, the name is what stands between its first opening and its last closing parenthesis, and the
      fields are counted from there; where no parentheses enclose anything there is no name. */
  lemma NameIsInParentheses(text: string, i: int, j: int)
    requires 0 <= i < |text| && text[i] == '(' && forall k :: 0 <= k < i ==> text[k] != '('
    requires 0 <= j < |text| && text[j] == ')' && forall k :: j < k < |text| ==> text[k] != ')'
    ensures ParseProcStat(text) == if i < j then StatOf(text[i + 1..j], WordsOf(After(text, j + 2))) else None
  {
    FirstIsIndexOf(text, '(', i);
    LastIsLastIndexOf(text, ')', j);
  }

  lemma FirstIsIndexOf(text: string, c: char, i: int)
    requires 0 <= i < |text| && text[i] == c && forall k :: 0 <= k < i ==> text[k] != c
    ensures IndexOf(text, c) == i
  {
  }

  lemma LastIsLastIndexOf(text: string, c: char, j: int)
    requires 0 <= j < |text| && text[j] == c && forall k :: j < k < |text| ==> text[k] != c
    ensures LastIndexOf(text, c) == j
  {
  }

  lemma NoParenthesesNoName(text: string)
    requires '(' !in text || ')' !in text
    ensures ParseProcStat(text).None?
  {
  }
}
