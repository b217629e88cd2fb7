/** Glob search over LIKE: models/files.py turns a glob into a LIKE pattern by five
    rewrites; the `like` function of internal/db.py compiles that pattern into a
    regular expression, behind a cache, and matches the lower-cased file name. */
module Like {
  import opened Text

  /** `str.lower()`, one character at a time: a character may lower to several. */
  type CaseMap = char -> string

  predicate Special(c: char) {
    c == '%' || c == '_' || c == '\\' || c == '*' || c == '?'
  }

  /** SQLite's own `lower()`, which folds ASCII only. */
  function AsciiLower(c: char): char {
    if 'A' <= c <= 'Z' then (c as int + 32) as char else c
  }

  /** What the pipeline needs of lower-casing: the pattern characters are fixed and come from nothing
      else, and folding ASCII first changes nothing. */
  ghost predicate ProperCaseMap(lower: CaseMap) {
    && (forall c {:trigger lower(c)} :: Special(c) ==> lower(c) == [c])
    && (forall c, d :: d in lower(c) && Special(d) ==> Special(c))
    && (forall c :: lower(AsciiLower(c)) == lower(c))
  }

  function Lower(lower: CaseMap, text: string): string {
    if text == "" then "" else lower(text[0]) + Lower(lower, text[1..])
  }

  function SqlLower(text: string): string {
    seq(|text|, i requires 0 <= i < |text| => AsciiLower(text[i]))
  }

  lemma AsciiFoldingIsProper()
    ensures ProperCaseMap(c => [AsciiLower(c)])
  {
  }

  // --- The glob's rewrites (files.py) ----------------------------------------------

  /** `text.replace(old, new)` for a one-character `old`. */
  function Replace(text: string, old_: char, new_: string): string {
    if text == "" then ""
    else (if text[0] == old_ then new_ else [text[0]]) + Replace(text[1..], old_, new_)
  }

  /** `_glob_to_like_pattern`. */
  function GlobToLike(glob: string): string {
    var pattern := Replace(glob, '\\', "\\\\");
    var pattern := Replace(pattern, '%', "\\%");
    var pattern := Replace(pattern, '_', "\\_");
    var pattern := Replace(pattern, '*', "%");
    Replace(pattern, '?', "_")
  }

  /** One translation of each glob character, in one pass. */
  function Translate(glob: string): string {
    if glob == "" then "" else TranslateChar(glob[0]) + Translate(glob[1..])
  }

  function TranslateChar(c: char): string {
    if c == '\\' || c == '%' || c == '_' then ['\\', c]
    else if c == '*' then "%"
    else if c == '?' then "_"
    else [c]
  }

  lemma {:induction false} ReplaceConcat(a: string, b: string, old_: char, new_: string)
    ensures Replace(a + b, old_, new_) == Replace(a, old_, new_) + Replace(b, old_, new_)
  {
    if a == "" {
      assert a + b == b;
    } else {
      ReplaceConcat(a[1..], b, old_, new_);
      var one, rest := if a[0] == old_ then new_ else [a[0]], Replace(a[1..], old_, new_);
      assert one + (rest + Replace(b, old_, new_)) == one + rest + Replace(b, old_, new_);
      assert (a + b)[1..] == a[1..] + b;
    }
  }

  lemma GlobToLikeConcat(a: string, b: string)
    ensures GlobToLike(a + b) == GlobToLike(a) + GlobToLike(b)
  {
    var a1, b1 := Replace(a, '\\', "\\\\"), Replace(b, '\\', "\\\\");
    ReplaceConcat(a, b, '\\', "\\\\");
    var a2, b2 := Replace(a1, '%', "\\%"), Replace(b1, '%', "\\%");
    ReplaceConcat(a1, b1, '%', "\\%");
    var a3, b3 := Replace(a2, '_', "\\_"), Replace(b2, '_', "\\_");
    ReplaceConcat(a2, b2, '_', "\\_");
    ReplaceConcat(a3, b3, '*', "%");
    ReplaceConcat(Replace(a3, '*', "%"), Replace(b3, '*', "%"), '?', "_");
  }

  lemma {:induction false} ReplaceAbsent(text: string, old_: char, new_: string)
    requires old_ !in text
    ensures Replace(text, old_, new_) == text
  {
    if text != "" {
      ReplaceAbsent(text[1..], old_, new_);
      assert [text[0]] + text[1..] == text;
    }
  }

  lemma ReplaceOnly(old_: char, new_: string)
    ensures Replace([old_], old_, new_) == new_
  {
    assert Replace([old_], old_, new_) == new_ + "";
  }

  lemma GlobToLikeChar(c: char)
    ensures GlobToLike([c]) == TranslateChar(c)
  {
    var t1 := if c == '\\' then "\\\\" else [c];
    if c == '\\' { ReplaceOnly(c, t1); } else { ReplaceAbsent([c], '\\', "\\\\"); }
    var t2 := if c == '%' then "\\%" else t1;
    if c == '%' { ReplaceOnly(c, t2); } else { ReplaceAbsent(t1, '%', "\\%"); }
    var t3 := if c == '_' then "\\_" else t2;
    if c == '_' { ReplaceOnly(c, t3); } else { ReplaceAbsent(t2, '_', "\\_"); }
    var t4 := if c == '*' then "%" else t3;
    if c == '*' { ReplaceOnly(c, t4); } else { ReplaceAbsent(t3, '*', "%"); }
    if c == '?' { ReplaceOnly(c, "_"); } else { ReplaceAbsent(t4, '?', "_"); }
  }

  /** The order of the five rewrites never lets one rewrite another's output. */
  lemma {:induction false} FiveRewritesAreOneTranslation(glob: string)
    ensures GlobToLike(glob) == Translate(glob)
  {
    if glob != "" {
      FiveRewritesAreOneTranslation(glob[1..]);
      GlobToLikeConcat([glob[0]], glob[1..]);
      GlobToLikeChar(glob[0]);
      assert [glob[0]] + glob[1..] == glob;
    }
  }

  // --- What a pattern means -----------------------------------------------------------

  /** Plain glob matching: `*` any run of characters, `?` any one, everything else itself. */
  ghost predicate GlobMatches(glob: string, name: string) {
    if glob == "" then name == ""
    else if glob[0] == '*' then exists k :: 0 <= k <= |name| && GlobMatches(glob[1..], name[k..])
    else name != "" && (glob[0] == '?' || glob[0] == name[0]) && GlobMatches(glob[1..], name[1..])
  }

  /** SQL's LIKE: `%` any run, `_` any one, and the character after the escape is itself; a pattern that
      ends in a lone escape matches nothing. An escape that is not one character long escapes nothing. */
  ghost predicate LikeMatches(pattern: string, escape: Option<string>, value: string)
    decreases |pattern|
  {
    if pattern == "" then value == ""
    else if escape == Some([pattern[0]]) then
      |pattern| >= 2 && value != "" && value[0] == pattern[1] && LikeMatches(pattern[2..], escape, value[1..])
    else if pattern[0] == '%' then exists k :: 0 <= k <= |value| && LikeMatches(pattern[1..], escape, value[k..])
    else value != "" && (pattern[0] == '_' || pattern[0] == value[0]) && LikeMatches(pattern[1..], escape, value[1..])
  }

  // --- The compiled pattern (db.py) ---------------------------------------------------

  /** The three pieces `like` builds its regular expression from: `.*`, `.` and an escaped character. */
  datatype Token = AnyRun | AnyOne | Literal(c: char)

  /** `re.compile(..., re.DOTALL).fullmatch(value) is not None`, over those pieces. */
  predicate FullMatch(regex: seq<Token>, value: string)
    decreases |regex| + |value|
  {
    if regex == [] then value == ""
    else if regex[0] == AnyRun then FullMatch(regex[1..], value) || (value != "" && FullMatch(regex, value[1..]))
    else value != "" && (regex[0] == AnyOne || regex[0] == Literal(value[0])) && FullMatch(regex[1..], value[1..])
  }

  function TokenFor(c: char, escaped: bool): Token {
    if !escaped && c == '%' then AnyRun else if !escaped && c == '_' then AnyOne else Literal(c)
  }

  predicate IsEscape(c: char, escape: Option<string>) {
    escape == Some([c])
  }

  /** What is left to append for `pattern`; None when it ends in the middle of an escape. */
  function Compile(pattern: string, escape: Option<string>, escaped: bool): Option<seq<Token>> {
    if pattern == "" then if escaped then None else Some([])
    else if !escaped && IsEscape(pattern[0], escape) then Compile(pattern[1..], escape, true)
    else
      var rest := Compile(pattern[1..], escape, false);
      if rest.None? then None else Some([TokenFor(pattern[0], escaped)] + rest.value)
  }

  lemma {:induction false} AnyRunSkips(rest: seq<Token>, value: string)
    ensures FullMatch([AnyRun] + rest, value) <==> exists k :: 0 <= k <= |value| && FullMatch(rest, value[k..])
  {
    var regex := [AnyRun] + rest;
    assert regex[1..] == rest;
    assert value[0..] == value;
    if value != "" {
      AnyRunSkips(rest, value[1..]);
      if k :| 0 <= k <= |value[1..]| && FullMatch(rest, value[1..][k..]) {
        assert value[1..][k..] == value[k + 1..];
      }
      if k :| 0 < k <= |value| && FullMatch(rest, value[k..]) {
        assert value[1..][k - 1..] == value[k..];
      }
    }
  }

  /** The compiled expression accepts exactly what LIKE means; a dangling escape accepts nothing. */
  lemma {:induction false} CompiledMeansLike(pattern: string, escape: Option<string>, value: string)
    ensures LikeMatches(pattern, escape, value)
            <==> Compile(pattern, escape, false).Some? && FullMatch(Compile(pattern, escape, false).value, value)
    decreases |pattern|
  {
    if pattern != "" {
      if IsEscape(pattern[0], escape) {
        if |pattern| >= 2 {
          var tail := pattern[1..];
          assert tail[1..] == pattern[2..];
          if value != "" { CompiledMeansLike(pattern[2..], escape, value[1..]); }
        }
      } else {
        var rest := Compile(pattern[1..], escape, false);
        if pattern[0] == '%' {
          forall k | 0 <= k <= |value|
            ensures LikeMatches(pattern[1..], escape, value[k..]) <==> rest.Some? && FullMatch(rest.value, value[k..])
          {
            CompiledMeansLike(pattern[1..], escape, value[k..]);
          }
          if rest.Some? { AnyRunSkips(rest.value, value); }
        } else if value != "" {
          CompiledMeansLike(pattern[1..], escape, value[1..]);
        }
      }
    }
  }

  // --- The glob's pattern means the glob -------------------------------------------------

  const BACKSLASH: Option<string> := Some("\\")

  lemma {:induction false} TranslationMeansGlob(glob: string, name: string)
    ensures LikeMatches(Translate(glob), BACKSLASH, name) <==> GlobMatches(glob, name)
    decreases |glob|
  {
    if glob != "" {
      var pattern := Translate(glob);
      if |TranslateChar(glob[0])| == 2 {
        assert pattern[2..] == Translate(glob[1..]) && pattern[1] == glob[0];
      } else {
        assert pattern[1..] == Translate(glob[1..]);
      }
      if glob[0] == '*' {
        forall k | 0 <= k <= |name|
          ensures LikeMatches(pattern[1..], BACKSLASH, name[k..]) <==> GlobMatches(glob[1..], name[k..])
        {
          TranslationMeansGlob(glob[1..], name[k..]);
        }
      } else if name != "" {
        TranslationMeansGlob(glob[1..], name[1..]);
      }
    }
  }

  lemma {:induction false} LowerConcat(lower: CaseMap, a: string, b: string)
    ensures Lower(lower, a + b) == Lower(lower, a) + Lower(lower, b)
  {
    if a == "" {
      assert a + b == b;
    } else {
      LowerConcat(lower, a[1..], b);
      var one, rest := lower(a[0]), Lower(lower, a[1..]);
      assert one + (rest + Lower(lower, b)) == one + rest + Lower(lower, b);
      assert (a + b)[1..] == a[1..] + b;
    }
  }

  lemma {:induction false} TranslateConcat(a: string, b: string)
    ensures Translate(a + b) == Translate(a) + Translate(b)
  {
    if a == "" {
      assert a + b == b;
    } else {
      TranslateConcat(a[1..], b);
      var one, rest := TranslateChar(a[0]), Translate(a[1..]);
      assert one + (rest + Translate(b)) == one + rest + Translate(b);
      assert (a + b)[1..] == a[1..] + b;
    }
  }

  lemma {:induction false} TranslatePlain(text: string)
    requires forall c <- text :: !Special(c)
    ensures Translate(text) == text
  {
    if text != "" {
      TranslatePlain(text[1..]);
      assert text[0] in text;
      assert [text[0]] + text[1..] == text;
    }
  }

  /** Lower-casing the pattern is the same as translating the lower-cased glob. */
  lemma {:induction false} LowerTranslates(lower: CaseMap, glob: string)
    requires ProperCaseMap(lower)
    ensures Lower(lower, Translate(glob)) == Translate(Lower(lower, glob))
  {
    if glob != "" {
      var c := glob[0];
      LowerTranslates(lower, glob[1..]);
      LowerConcat(lower, TranslateChar(c), Translate(glob[1..]));
      TranslateConcat(lower(c), Lower(lower, glob[1..]));
      LowerTranslatesChar(lower, c);
    }
  }

  lemma LowerTranslatesChar(lower: CaseMap, c: char)
    requires ProperCaseMap(lower)
    ensures Lower(lower, TranslateChar(c)) == Translate(lower(c))
  {
    assert forall d :: Lower(lower, [d]) == lower(d) + "";
    if Special(c) {
      assert Translate([c]) == TranslateChar(c) + "";
      if |TranslateChar(c)| == 2 {
        LowerConcat(lower, "\\", [c]);
        assert TranslateChar(c) == "\\" + [c];
      }
    } else {
      TranslatePlain(lower(c));
    }
  }

  lemma {:induction false} LowerAbsorbsSqlLower(lower: CaseMap, text: string)
    requires ProperCaseMap(lower)
    ensures Lower(lower, SqlLower(text)) == Lower(lower, text)
  {
    if text != "" {
      assert SqlLower(text)[1..] == SqlLower(text[1..]);
      LowerAbsorbsSqlLower(lower, text[1..]);
    }
  }

  /** The whole pipeline means plain glob matching, ignoring case. */
  lemma PipelineMeansGlob(lower: CaseMap, glob: string, name: string)
    requires ProperCaseMap(lower)
    ensures LikeMatches(Lower(lower, SqlLower(GlobToLike(glob))), BACKSLASH, Lower(lower, SqlLower(name)))
            <==> GlobMatches(Lower(lower, glob), Lower(lower, name))
  {
    LowerAbsorbsSqlLower(lower, GlobToLike(glob));
    LowerAbsorbsSqlLower(lower, name);
    FiveRewritesAreOneTranslation(glob);
    LowerTranslates(lower, glob);
    TranslationMeansGlob(Lower(lower, glob), Lower(lower, name));
  }

  // --- On the characters as they stand ---------------------------------------------------

  /** Glob matching without lower-casing anything first: `?` is one character of the name, and a character stands for
      every character that lowers to the same. */
  ghost predicate FoldedMatches(lower: CaseMap, glob: string, name: string) {
    if glob == "" then name == ""
    else if glob[0] == '*' then exists k :: 0 <= k <= |name| && FoldedMatches(lower, glob[1..], name[k..])
    else
      && name != "" && (glob[0] == '?' || lower(glob[0]) == lower(name[0]))
      && FoldedMatches(lower, glob[1..], name[1..])
  }

  /** No character is lowered to more or fewer than one. */
  predicate LowersOneToOne(lower: CaseMap, text: string) {
    forall c <- text :: |lower(c)| == 1
  }

  lemma {:induction false} LowerFrom(lower: CaseMap, text: string, k: nat)
    requires LowersOneToOne(lower, text) && k <= |text|
    ensures |Lower(lower, text)| == |text| && Lower(lower, text)[k..] == Lower(lower, text[k..])
    decreases |text|
  {
    if text != "" {
      assert text[0] in text && forall c <- text[1..] :: c in text;
      LowerFrom(lower, text[1..], if k == 0 then 0 else k - 1);
      if k > 0 {
        assert text[1..][k - 1..] == text[k..];
        assert Lower(lower, text)[k..] == Lower(lower, text[1..])[k - 1..];
      } else {
        assert text[0..] == text;
      }
    }
  }

  lemma {:induction false} LoweredGlobIsFolded(lower: CaseMap, glob: string, name: string)
    requires ProperCaseMap(lower) && LowersOneToOne(lower, glob) && LowersOneToOne(lower, name)
    ensures GlobMatches(Lower(lower, glob), Lower(lower, name)) <==> FoldedMatches(lower, glob, name)
    decreases |glob|
  {
    LowerFrom(lower, name, 0);
    if glob != "" {
      var g, n := Lower(lower, glob), Lower(lower, name);
      FirstLowered(lower, glob);
      if glob[0] == '*' {
        forall k | 0 <= k <= |name|
          ensures GlobMatches(g[1..], n[k..]) <==> FoldedMatches(lower, glob[1..], name[k..])
        {
          LowerFrom(lower, name, k);
          LoweredGlobIsFolded(lower, glob[1..], name[k..]);
        }
      } else if name != "" {
        FirstLowered(lower, name);
        LoweredGlobIsFolded(lower, glob[1..], name[1..]);
      }
    }
  }

  lemma FirstLowered(lower: CaseMap, text: string)
    requires ProperCaseMap(lower) && LowersOneToOne(lower, text) && text != ""
    ensures var lowered := Lower(lower, text);
            && lowered != "" && lower(text[0]) == [lowered[0]] && lowered[1..] == Lower(lower, text[1..])
            && (Special(text[0]) || Special(lowered[0]) ==> lowered[0] == text[0])
  {
    assert text[0] in text;
    LowerFrom(lower, text, 1);
    assert lower(text[0]) == [lower(text[0])[0]];
    assert lower(text[0])[0] in lower(text[0]);
  }

  predicate Over(chars: set<char>, text: string) {
    forall c <- text :: c in chars
  }

  /** Over some characters, the pipeline means matching on the characters as they stand, whatever the glob and the name,
      exactly when each of them lowers to one character. */
  lemma PipelineMeansFoldedIff(lower: CaseMap, chars: set<char>)
    requires ProperCaseMap(lower)
    ensures (forall glob, name :: Over(chars + {'*', '?'}, glob) && Over(chars, name)
                ==> (GlobMatches(Lower(lower, glob), Lower(lower, name)) <==> FoldedMatches(lower, glob, name)))
            <==> forall c <- chars :: |lower(c)| == 1
  {
    if forall c <- chars :: |lower(c)| == 1 {
      forall glob, name | Over(chars + {'*', '?'}, glob) && Over(chars, name)
        ensures GlobMatches(Lower(lower, glob), Lower(lower, name)) <==> FoldedMatches(lower, glob, name)
      {
        assert Special('*') && Special('?');
        LoweredGlobIsFolded(lower, glob, name);
      }
    }
    forall c | c in chars && |lower(c)| != 1
      ensures Over(chars, [c]) && FoldedMatches(lower, "?", [c]) && !GlobMatches(Lower(lower, "?"), Lower(lower, [c]))
    {
      QuestionMarkMisses(lower, c);
    }
    assert Over(chars + {'*', '?'}, "?");
  }

  /** `?` does not find a one-character name that lowers to several characters, or to none. */
  lemma QuestionMarkMisses(lower: CaseMap, c: char)
    requires ProperCaseMap(lower) && |lower(c)| != 1
    ensures FoldedMatches(lower, "?", [c]) && !GlobMatches(Lower(lower, "?"), Lower(lower, [c]))
  {
    assert [c][1..] == "" && "?"[1..] == "";
    assert Special('?');
    assert Lower(lower, "?") == "?" + "" && Lower(lower, [c]) == lower(c) + "";
  }

  // --- The SQL function and its cache ---------------------------------------------------

  const CACHE_LIMIT := 512

  /** The closure `like` and its `compiled_patterns`; None there is the False a broken pattern leaves. */
  class LikeFunction {
    const lower: CaseMap
    var compiledPatterns: map<(string, Option<string>), Option<seq<Token>>>

    ghost predicate Valid()
      reads this
    {
      && |compiledPatterns| <= CACHE_LIMIT
      && forall key <- compiledPatterns :: compiledPatterns[key] == Compile(key.0, key.1, false)
    }

    constructor (lower: CaseMap)
      ensures Valid() && this.lower == lower && compiledPatterns == map[]
    {
      this.lower, compiledPatterns := lower, map[];
    }

    /** The answer is fixed by the arguments alone, whatever the cache holds; NULL gives NULL. */
    method Like(pattern: Option<string>, value: Option<string>, escape: Option<string>) returns (answer: Option<bool>)
      requires Valid()
      modifies this
      ensures Valid()
      ensures answer.None? <==> pattern.None? || value.None?
      ensures answer.Some? ==>
        (answer.value <==> LikeMatches(Lower(lower, pattern.value), LowerEscape(escape), Lower(lower, value.value)))
    {
      if pattern.None? || value.None? {
        return None;
      }
      var text, escapeText := Lower(lower, pattern.value), LowerEscape(escape);
      CompiledMeansLike(text, escapeText, Lower(lower, value.value));
      var key := (text, escapeText);
      if key in compiledPatterns {
        if compiledPatterns[key].None? {
          return Some(false);
        }
        return Some(FullMatch(compiledPatterns[key].value, Lower(lower, value.value)));
      }
      var compiled := CompilePattern(text, escapeText);
      Remember(key, compiled);
      if compiled.None? {
        return Some(false);
      }
      return Some(FullMatch(compiled.value, Lower(lower, value.value)));
    }

    function LowerEscape(escape: Option<string>): Option<string> {
      if escape.None? then None else Some(Lower(lower, escape.value))
    }

    /** A full cache is emptied before the new entry goes in. */
    method Remember(key: (string, Option<string>), compiled: Option<seq<Token>>)
      requires Valid() && key !in compiledPatterns && compiled == Compile(key.0, key.1, false)
      modifies this
      ensures Valid()
      ensures compiledPatterns
              == if |old(compiledPatterns)| >= CACHE_LIMIT then map[key := compiled]
                  else old(compiledPatterns)[key := compiled]
    {
      if |compiledPatterns| >= CACHE_LIMIT {
        compiledPatterns := map[];
      }
      ghost var before := compiledPatterns;
      compiledPatterns := compiledPatterns[key := compiled];
      assert compiledPatterns.Keys == before.Keys + {key};
      assert |compiledPatterns.Keys| == |before.Keys| + 1;
    }
  }

  /** The loop over the pattern's characters. */
  method CompilePattern(pattern: string, escape: Option<string>) returns (compiled: Option<seq<Token>>)
    ensures compiled == Compile(pattern, escape, false)
  {
    var regex: seq<Token>, escaped := [], false;
    assert pattern[0..] == pattern;
    assert forall rest: seq<Token> :: [] + rest == rest;
    for i := 0 to |pattern|
      invariant Compile(pattern, escape, false)
                == var rest := Compile(pattern[i..], escape, escaped);
                   if rest.None? then None else Some(regex + rest.value)
    {
      var c := pattern[i];
      assert pattern[i..][1..] == pattern[i + 1..];
      if !escaped && IsEscape(c, escape) {
        escaped := true;
      } else {
        var rest := Compile(pattern[i + 1..], escape, false);
        assert rest.Some? ==>
                 regex + ([TokenFor(c, escaped)] + rest.value) == regex + [TokenFor(c, escaped)] + rest.value;
        regex := regex + [TokenFor(c, escaped)];
        escaped := false;
      }
    }
    assert regex + [] == regex;
    return if escaped then None else Some(regex);
  }

  // --- Searching files ---------------------------------------------------------------------

  datatype File = File(id: string, userId: string, filename: string)

  /** What a search for `glob` is to return, before paging. */
  ghost predicate Wanted(lower: CaseMap, userId: Option<string>, glob: string, file: File) {
    && (userId.Some? && userId.value != "" ==> file.userId == userId.value)
    && GlobMatches(Lower(lower, glob), Lower(lower, file.filename))
  }

  ghost function AllWanted(lower: CaseMap, userId: Option<string>, glob: string, rows: seq<File>): seq<File> {
    if rows == [] then []
    else AllWanted(lower, userId, glob, rows[..|rows| - 1])
         + if Wanted(lower, userId, glob, rows[|rows| - 1]) then [rows[|rows| - 1]] else []
  }

  /** `search_files` up to its paging, on any state of the cache; `rows` come in the order asked for. */
  method SearchFiles(like: LikeFunction, rows: seq<File>, userId: Option<string>, filename: string)
    returns (files: seq<File>)
    requires like.Valid() && ProperCaseMap(like.lower)
    modifies like
    ensures like.Valid()
    ensures files == AllWanted(like.lower, userId, filename, rows)
  {
    var pattern := GlobToLike(filename);
    OnlyStarTranslatesToPercent(filename);
    files := [];
    for i := 0 to |rows|
      invariant like.Valid()
      invariant files == AllWanted(like.lower, userId, filename, rows[..i])
    {
      var file := rows[i];
      assert rows[..i + 1][..i] == rows[..i];
      var selected := true;
      if userId.Some? && userId.value != "" {
        selected := file.userId == userId.value;
      }
      if pattern != "%" {
        var matched := like.Like(Some(SqlLower(pattern)), Some(SqlLower(file.filename)), BACKSLASH);
        LowerOfBackslash(like.lower);
        PipelineMeansGlob(like.lower, filename, file.filename);
        selected := selected && matched == Some(true);
      } else {
        StarMatchesAll(like.lower, file.filename);
      }
      if selected {
        files := files + [file];
      }
    }
    assert rows[..|rows|] == rows;
  }

  /** So no filter is needed for the bare `*`. */
  lemma StarMatchesAll(lower: CaseMap, name: string)
    requires ProperCaseMap(lower)
    ensures GlobMatches(Lower(lower, "*"), Lower(lower, name))
  {
    assert Special('*') && Lower(lower, "*") == "*" + "";
    var n := Lower(lower, name);
    assert n[|n|..] == "" && GlobMatches("*"[1..], n[|n|..]);
  }

  lemma LowerOfBackslash(lower: CaseMap)
    requires ProperCaseMap(lower)
    ensures Lower(lower, "\\") == "\\"
  {
    assert Lower(lower, "\\") == lower('\\') + "";
  }

  lemma OnlyStarTranslatesToPercent(glob: string)
    ensures GlobToLike(glob) == "%" <==> glob == "*"
  {
    FiveRewritesAreOneTranslation(glob);
    if glob != "" {
      assert Translate(glob) == TranslateChar(glob[0]) + Translate(glob[1..]);
      if |glob| == 1 {
        assert glob == [glob[0]];
        assert glob[1..] == "";
        var one := TranslateChar(glob[0]);
        assert one + "" == one;
        assert one == "%" <==> |one| == 1 && one[0] == '%';
      } else {
        assert Translate(glob[1..]) == TranslateChar(glob[1..][0]) + Translate(glob[1..][1..]);
      }
    }
  }
}
