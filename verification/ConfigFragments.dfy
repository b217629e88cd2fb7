/** Splitting the rest of a legacy row's key into a connection key and a field path
    (models/config.py, `_split_api_config_fragment`). Connection keys may be URLs, dots included. */
module ConfigFragments {
  import opened Text

  const API_CONFIG_FIELDS: seq<string> := [
    "enable", "key", "prefix_id", "tags", "model_ids", "connection_type", "provider", "auth_type",
    "headers", "azure", "api_type", "api_version", "extra_params", "passthrough_params"
  ]

  datatype Fragment = Fragment(connection: string, field: seq<string>)

  /** `str.isdigit()`, for ASCII. */
  predicate AllDigits(text: string) {
    text != "" && forall c <- text :: '0' <= c <= '9'
  }

  /** `text.partition('.')`: what stands before and after the first dot. */
  function Partition(text: string): (parts: (string, string))
    ensures '.' !in parts.0 && parts.0 <= text
    ensures '.' in text ==> text == parts.0 + ("." + parts.1)
    ensures '.' !in text ==> parts == (text, "")
  {
    if text == "" then ("", "")
    else if text[0] == '.' then
      assert text == "" + ("." + text[1..]);
      ("", text[1..])
    else
      var rest := Partition(text[1..]);
      assert text == [text[0]] + text[1..];
      ([text[0]] + rest.0, rest.1)
  }

  /** `text.rfind(part)`: where the last occurrence starts, or -1. */
  function RFind(text: string, part: string, end: nat): (at: int)
    requires end <= |text| + 1
    ensures -1 <= at < end
    ensures at >= 0 ==> part <= text[at..]
    ensures forall i :: at < i < end ==> !(part <= text[i..])
  {
    if end == 0 then -1
    else if part <= text[end - 1..] then end - 1
    else RFind(text, part, end - 1)
  }

  // --- Where a field begins -------------------------------------------------------------

  predicate StartsField(fields: seq<string>, text: string) {
    exists field :: field in fields && field <= text
  }

  /** A dot with a known field's name right after it. */
  predicate IsMark(fields: seq<string>, text: string, at: int) {
    0 <= at < |text| && text[at] == '.' && StartsField(fields, text[at + 1..])
  }

  ghost predicate IsLastMark(fields: seq<string>, text: string, at: int) {
    && (at == -1 || IsMark(fields, text, at))
    && forall i :: IsMark(fields, text, i) ==> i <= at
  }

  lemma DotPrefix(text: string, field: string, at: int)
    requires 0 <= at <= |text|
    ensures ("." + field) <= text[at..] <==> at < |text| && text[at] == '.' && field <= text[at + 1..]
  {
    var marker, tail := "." + field, text[at..];
    if at < |text| {
      assert tail[1..] == text[at + 1..];
      if text[at] == '.' && field <= text[at + 1..] {
        assert marker == tail[..|marker|];
      }
      if marker <= tail {
        assert marker[1..] == field && tail[0] == marker[0];
        assert field == tail[1..][..|field|];
      }
    }
  }

  /** The last mark before `end`, or -1. */
  function LastMark(fields: seq<string>, text: string, end: nat): (at: int)
    ensures at == -1 || (at < end && IsMark(fields, text, at))
    ensures forall i :: at < i < end ==> !IsMark(fields, text, i)
  {
    if end == 0 then -1 else if IsMark(fields, text, end - 1) then end - 1 else LastMark(fields, text, end - 1)
  }

  /** What `_split_api_config_fragment` gives: it splits at the last mark, wherever the loop found it. */
  function SplitOf(fields: seq<string>, fragment: string): Option<Fragment> {
    var (first, rest) := Partition(fragment);
    if fragment == "" then None
    else if AllDigits(first) && rest != "" then Some(Fragment(first, Split(rest, '.')))
    else SplitAt(fragment, LastMark(fields, fragment, |fragment|))
  }

  function SplitAt(fragment: string, mark: int): Option<Fragment> {
    if mark <= 0 || mark >= |fragment| then None
    else Some(Fragment(fragment[..mark], Split(fragment[mark + 1..], '.')))
  }

  method SplitApiConfigFragment(fragment: string) returns (split: Option<Fragment>)
    ensures split == SplitOf(API_CONFIG_FIELDS, fragment)
  {
    split := SplitByFields(API_CONFIG_FIELDS, fragment);
  }

  method SplitByFields(fields: seq<string>, fragment: string) returns (split: Option<Fragment>)
    ensures split == SplitOf(fields, fragment)
  {
    if fragment == "" {
      return None;
    }
    var (first, rest) := Partition(fragment);
    if AllDigits(first) && rest != "" {
      return Some(Fragment(first, Split(rest, '.')));
    }
    var mark := FindLastMark(fields, fragment);
    if mark != -1 {
      var connectionKey := fragment[..mark];
      var fieldPath := fragment[mark + 1..];
      if connectionKey != "" {
        return Some(Fragment(connectionKey, Split(fieldPath, '.')));
      }
    }
    return None;
  }

  /** The loop over the known fields. */
  method FindLastMark(fields: seq<string>, fragment: string) returns (mark: int)
    ensures mark == LastMark(fields, fragment, |fragment|)
  {
    mark := -1;
    for i := 0 to |fields|
      invariant IsLastMark(fields[..i], fragment, mark)
    {
      var markerIndex := RFind(fragment, "." + fields[i], |fragment| + 1);
      MarkerIsMark(fields[i], fragment, markerIndex);
      MarksOfMore(fields[..i], fields[i], fragment, mark, markerIndex);
      assert fields[..i + 1] == fields[..i] + [fields[i]];
      if markerIndex != -1 && (mark == -1 || markerIndex > mark) {
        mark := markerIndex;
      }
    }
    assert fields[..|fields|] == fields && IsLastMark(fields, fragment, LastMark(fields, fragment, |fragment|));
  }

  /** The last place a marker occurs is the last mark of its field. */
  lemma MarkerIsMark(field: string, fragment: string, at: int)
    requires -1 <= at <= |fragment| && (at >= 0 ==> ("." + field) <= fragment[at..])
    requires forall i :: at < i <= |fragment| ==> !(("." + field) <= fragment[i..])
    ensures IsLastMark([field], fragment, at)
  {
    assert forall text :: StartsField([field], text) <==> field <= text by { assert field in [field]; }
    if at >= 0 { DotPrefix(fragment, field, at); }
    forall i | IsMark([field], fragment, i) ensures i <= at { DotPrefix(fragment, field, i); }
  }

  lemma MarksOfMore(fields: seq<string>, field: string, fragment: string, mark: int, at: int)
    requires IsLastMark(fields, fragment, mark) && IsLastMark([field], fragment, at)
    ensures IsLastMark(fields + [field], fragment, if at > mark then at else mark)
  {
    forall text
      ensures StartsField(fields + [field], text) <==> StartsField(fields, text) || StartsField([field], text)
    {
      if StartsField([field], text) { assert field in fields + [field]; }
      if g :| g in fields && g <= text { assert g in fields + [field]; }
      if g :| g in fields + [field] && g <= text { assert g in fields || g in [field]; }
    }
    forall i
      ensures IsMark(fields + [field], fragment, i) <==> IsMark(fields, fragment, i) || IsMark([field], fragment, i)
    {
    }
  }

  // --- When splitting undoes joining --------------------------------------------------------

  function JoinFragment(f: Fragment): string
    requires f.field != []
  {
    f.connection + ("." + Join(f.field, '.'))
  }

  predicate DotFree(path: seq<string>) {
    path != [] && forall part <- path :: '.' !in part
  }

  /** Some part after the first starts like a field. */
  predicate LaterField(fields: seq<string>, path: seq<string>) {
    exists i :: 1 <= i < |path| && StartsField(fields, path[i])
  }

  predicate IsNumber(text: string) {
    text != "" && forall c <- text :: c in "0123456789"
  }

  lemma DigitsAreNumbers(text: string)
    ensures AllDigits(text) <==> IsNumber(text)
  {
    forall c: char ensures '0' <= c <= '9' <==> c in "0123456789" {
      if '0' <= c <= '9' { assert "0123456789"[c as int - '0' as int] == c; }
    }
  }

  /** What a caller can check before the split: the key is a number, or does not start with one, its field is a
      known one, and nothing further down is named like one. */
  predicate Splittable(fields: seq<string>, f: Fragment)
    requires f.field != []
  {
    || (IsNumber(f.connection) && Join(f.field, '.') != "")
    || (f.connection != "" && !IsNumber(Partition(f.connection).0)
        && StartsField(fields, f.field[0]) && !LaterField(fields, f.field))
  }

  lemma KnownFieldsAreDotFree()
    ensures forall field <- API_CONFIG_FIELDS :: '.' !in field && field != ""
  {
  }

  /** No field's name reaches past a dot. */
  lemma StartsFieldBeforeDot(fields: seq<string>, part: string, rest: string)
    requires forall field <- fields :: '.' !in field
    ensures StartsField(fields, part + ("." + rest)) <==> StartsField(fields, part)
  {
    var text := part + ("." + rest);
    forall field | field in fields ensures field <= text <==> field <= part {
      assert text[|part|] == '.' && part == text[..|part|];
      if field <= text {
        assert forall i :: 0 <= i < |field| ==> field[i] == text[i] && field[i] in field;
        assert |field| <= |part|;
        assert field == part[..|field|];
      }
    }
  }

  lemma JoinStartsField(fields: seq<string>, path: seq<string>)
    requires DotFree(path) && forall field <- fields :: '.' !in field
    ensures StartsField(fields, Join(path, '.')) <==> StartsField(fields, path[0])
  {
    if |path| > 1 {
      StartsFieldBeforeDot(fields, path[0], Join(path[1..], '.'));
      assert Join(path, '.') == path[0] + ("." + Join(path[1..], '.'));
    }
  }

  /** The marks of `front.rest` past `front` are its first dot, when `rest` starts like a field, and those of `rest`. */
  lemma MarksPastDot(fields: seq<string>, front: string, rest: string, at: int)
    requires at >= |front|
    ensures IsMark(fields, front + ("." + rest), at)
            <==> if at == |front| then StartsField(fields, rest) else IsMark(fields, rest, at - |front| - 1)
  {
    var text := front + ("." + rest);
    if at == |front| {
      assert text[at + 1..] == rest;
    } else if at < |text| {
      assert text[at + 1..] == rest[at - |front|..];
    }
  }

  lemma NoMarkBeforeDot(fields: seq<string>, front: string, rest: string, at: int)
    requires '.' !in front && IsMark(fields, front + ("." + rest), at)
    ensures at >= |front|
  {
    assert forall i :: 0 <= i < |front| ==> (front + ("." + rest))[i] == front[i] && front[i] in front;
  }

  ghost predicate HasMark(fields: seq<string>, text: string) {
    exists at :: IsMark(fields, text, at)
  }

  /** The marks inside a joined path are at its later parts that start like a field. */
  lemma {:induction false} MarksInJoin(fields: seq<string>, path: seq<string>)
    requires DotFree(path) && forall field <- fields :: '.' !in field
    ensures HasMark(fields, Join(path, '.')) <==> LaterField(fields, path)
    decreases |path|
  {
    if |path| == 1 {
      assert forall i :: 0 <= i < |path[0]| ==> path[0][i] in path[0];
    } else {
      var front, rest := path[0], Join(path[1..], '.');
      assert Join(path, '.') == front + ("." + rest);
      MarksInJoin(fields, path[1..]);
      JoinStartsField(fields, path[1..]);
      HasMarkPastDot(fields, front, rest);
      LaterFieldOfTail(fields, path);
    }
  }

  lemma HasMarkPastDot(fields: seq<string>, front: string, rest: string)
    requires '.' !in front
    ensures HasMark(fields, front + ("." + rest)) <==> StartsField(fields, rest) || HasMark(fields, rest)
  {
    var text := front + ("." + rest);
    if HasMark(fields, text) {
      var at :| IsMark(fields, text, at);
      NoMarkBeforeDot(fields, front, rest, at);
      MarksPastDot(fields, front, rest, at);
    }
    MarksPastDot(fields, front, rest, |front|);
    if HasMark(fields, rest) {
      var at :| IsMark(fields, rest, at);
      MarksPastDot(fields, front, rest, at + |front| + 1);
    }
  }

  lemma LaterFieldOfTail(fields: seq<string>, path: seq<string>)
    requires |path| > 1
    ensures LaterField(fields, path) <==> StartsField(fields, path[1]) || LaterField(fields, path[1..])
  {
    if LaterField(fields, path) {
      var i :| 1 <= i < |path| && StartsField(fields, path[i]);
      if i > 1 { assert path[1..][i - 1] == path[i]; }
    }
    if LaterField(fields, path[1..]) {
      var i :| 1 <= i < |path[1..]| && StartsField(fields, path[1..][i]);
      assert path[i + 1] == path[1..][i];
    }
  }

  lemma PartitionOfJoined(connection: string, tail: string)
    ensures var text := connection + ("." + tail);
            Partition(text).0 == Partition(connection).0
            && if '.' in connection then Partition(text).1 != "" else Partition(text) == (connection, tail)
  {
    var text := connection + ("." + tail);
    assert text[|connection|] == '.';
    var (a, b) := Partition(text);
    var (c, d) := Partition(connection);
    assert text == a + ("." + b);
    if '.' in connection {
      Regroup(c, d, tail);
      SameFirstDot(a, c, b, d + ("." + tail));
    } else {
      SameFirstDot(a, c, b, tail);
    }
  }

  lemma Regroup(c: string, d: string, tail: string)
    ensures c + ("." + d) + ("." + tail) == c + ("." + (d + ("." + tail)))
  {
  }

  lemma SameFirstDot(a: string, c: string, b: string, d: string)
    requires '.' !in a && '.' !in c && a + ("." + b) == c + ("." + d)
    ensures a == c && b == d
  {
    var text := a + ("." + b);
    assert text[|a|] == '.' && text[|c|] == '.';
    assert forall i :: 0 <= i < |a| ==> text[i] == a[i] && a[i] in a;
    assert forall i :: 0 <= i < |c| ==> text[i] == c[i] && c[i] in c;
    assert a == text[..|a|] && c == text[..|c|];
    assert b == text[|a| + 1..] && d == text[|c| + 1..];
  }

  /** Splitting a joined key gives the connection key and the field path back exactly when it is splittable. */
  lemma SplitUndoesJoinIff(fields: seq<string>, f: Fragment)
    requires forall field <- fields :: '.' !in field && field != ""
    requires DotFree(f.field)
    ensures SplitOf(fields, JoinFragment(f)) == Some(f) <==> Splittable(fields, f)
  {
    var tail := Join(f.field, '.');
    PartitionOfJoined(f.connection, tail);
    SplitUndoesJoin(f.field, '.');
    var (first, rest) := Partition(JoinFragment(f));
    DigitsHaveNoDot(f.connection);
    DigitsAreNumbers(f.connection);
    DigitsAreNumbers(Partition(f.connection).0);
    if !(AllDigits(first) && rest != "") {
      var mark := LastMark(fields, JoinFragment(f), |JoinFragment(f)|);
      LastMarkIsJoint(fields, f, mark);
      SplitAtJoint(f, mark);
      if tail == "" { assert f.field[0] == ""; }
    }
  }

  /** A split takes nothing away and adds nothing: joined again it is the fragment. */
  lemma SplitJoinsBack(fields: seq<string>, fragment: string, f: Fragment)
    requires SplitOf(fields, fragment) == Some(f)
    ensures DotFree(f.field) && JoinFragment(f) == fragment
  {
    var (first, rest) := Partition(fragment);
    if AllDigits(first) && rest != "" {
      JoinUndoesSplit(rest, '.');
    } else {
      SplitAtJoinsBack(fragment, LastMark(fields, fragment, |fragment|), f);
    }
  }

  lemma SplitAtJoinsBack(fragment: string, mark: int, f: Fragment)
    requires SplitAt(fragment, mark) == Some(f) && fragment[mark] == '.'
    ensures DotFree(f.field) && JoinFragment(f) == fragment
  {
    JoinUndoesSplit(fragment[mark + 1..], '.');
    assert fragment == fragment[..mark] + ("." + fragment[mark + 1..]);
  }

  /** `f` is a way to read a fragment: joined it is the fragment, and its parts are such as can be told apart. */
  ghost predicate Reads(fields: seq<string>, fragment: string, f: Fragment) {
    DotFree(f.field) && JoinFragment(f) == fragment && Splittable(fields, f)
  }

  /** A fragment is split into just what reads it; so there is one way to read it at most. */
  lemma SplitReadsIff(fields: seq<string>, fragment: string, f: Fragment)
    requires forall field <- fields :: '.' !in field && field != ""
    ensures SplitOf(fields, fragment) == Some(f) <==> Reads(fields, fragment, f)
  {
    if SplitOf(fields, fragment) == Some(f) { SplitJoinsBack(fields, fragment, f); }
    if DotFree(f.field) { SplitUndoesJoinIff(fields, f); }
  }

  /** And it is not split exactly when nothing reads it. */
  lemma NotSplitIff(fields: seq<string>, fragment: string)
    requires forall field <- fields :: '.' !in field && field != ""
    ensures SplitOf(fields, fragment) == None <==> forall f :: !Reads(fields, fragment, f)
  {
    if SplitOf(fields, fragment).Some? { SplitReadsIff(fields, fragment, SplitOf(fields, fragment).value); }
    forall f | Reads(fields, fragment, f) ensures SplitOf(fields, fragment) == Some(f) {
      SplitReadsIff(fields, fragment, f);
    }
  }

  lemma DigitsHaveNoDot(text: string)
    ensures AllDigits(text) ==> '.' !in text && Partition(text).0 == text
  {
  }

  /** The last mark is where key and path were joined exactly when the path starts with a field and has no later one. */
  lemma LastMarkIsJoint(fields: seq<string>, f: Fragment, mark: int)
    requires forall field <- fields :: '.' !in field
    requires DotFree(f.field) && IsLastMark(fields, JoinFragment(f), mark)
    ensures mark == |f.connection| <==> StartsField(fields, f.field[0]) && !LaterField(fields, f.field)
  {
    var tail, n := Join(f.field, '.'), |f.connection|;
    JoinStartsField(fields, f.field);
    MarksInJoin(fields, f.field);
    MarksPastDot(fields, f.connection, tail, n);
    if HasMark(fields, tail) {
      var at :| IsMark(fields, tail, at);
      MarksPastDot(fields, f.connection, tail, at + n + 1);
    }
    if mark > n {
      MarksPastDot(fields, f.connection, tail, mark);
    }
  }

  lemma SplitAtJoint(f: Fragment, mark: int)
    requires DotFree(f.field) && mark < |JoinFragment(f)|
    ensures SplitAt(JoinFragment(f), mark) == Some(f) <==> mark == |f.connection| && mark > 0
  {
    var text, tail, n := JoinFragment(f), Join(f.field, '.'), |f.connection|;
    SplitUndoesJoin(f.field, '.');
    assert text[..n] == f.connection && text[n + 1..] == tail;
  }
}
