/** Option, and splitting text at a separator and joining it back: the
    `split`/`join` pair that the log tailer and the config rows both use. */
module Text {

  datatype Option<+T> = None | Some(value: T)

  /** `text.split(sep)`: always at least one piece. */
  function Split(text: string, sep: char): (pieces: seq<string>)
    ensures pieces != []
  {
    if text == "" then [""]
    else
      var rest := Split(text[1..], sep);
      if text[0] == sep then [""] + rest else [[text[0]] + rest[0]] + rest[1..]
  }

  function Join(pieces: seq<string>, sep: char): string
    requires pieces != []
  {
    if |pieces| == 1 then pieces[0]
    else pieces[0] + [sep] + Join(pieces[1..], sep)
  }

  /** Joining undoes splitting, and no piece of a split holds the separator. */
  lemma {:induction false} JoinUndoesSplit(text: string, sep: char)
    ensures Join(Split(text, sep), sep) == text
    ensures forall piece <- Split(text, sep) :: sep !in piece
  {
    if text != "" {
      JoinUndoesSplit(text[1..], sep);
      var rest := Split(text[1..], sep);
      if text[0] == sep {
        assert ([""] + rest)[1..] == rest;
      } else {
        var pieces := [[text[0]] + rest[0]] + rest[1..];
        assert pieces[1..] == rest[1..];
        assert Join(pieces, sep) == [text[0]] + Join(rest, sep);
      }
    }
  }

  /** Splitting undoes joining, when no piece holds the separator. */
  lemma {:induction false} SplitUndoesJoin(pieces: seq<string>, sep: char)
    requires pieces != [] && forall piece <- pieces :: sep !in piece
    ensures Split(Join(pieces, sep), sep) == pieces
  {
    if |pieces| == 1 {
      SplitFree(pieces[0], sep);
    } else {
      SplitUndoesJoin(pieces[1..], sep);
      SplitAfterFree(pieces[0], sep, Join(pieces[1..], sep));
      assert Join(pieces, sep) == pieces[0] + ([sep] + Join(pieces[1..], sep));
    }
  }

  lemma {:induction false} SplitFree(piece: string, sep: char)
    requires sep !in piece
    ensures Split(piece, sep) == [piece]
  {
    if piece != "" {
      SplitFree(piece[1..], sep);
      assert [piece[0]] + piece[1..] == piece;
    }
  }

  lemma {:induction false} SplitAfterFree(piece: string, sep: char, rest: string)
    requires sep !in piece
    ensures Split(piece + ([sep] + rest), sep) == [piece] + Split(rest, sep)
  {
    var all := piece + ([sep] + rest);
    if piece == "" {
      assert all == [sep] + rest && all[1..] == rest;
    } else {
      SplitAfterFree(piece[1..], sep, rest);
      assert all[1..] == piece[1..] + ([sep] + rest);
      assert [piece[0]] + piece[1..] == piece;
    }
  }

  /** Splitting a text read in two parts: the last piece of the first part runs on into the second. */
  lemma {:induction false} SplitConcat(a: string, b: string, sep: char)
    ensures var left := Split(a, sep);
            var open := left[|left| - 1];
            Split(a + b, sep) == left[..|left| - 1] + Split(open + b, sep)
  {
    if a == "" {
      assert a + b == b && [] + b == b;
    } else {
      SplitConcat(a[1..], b, sep);
      assert (a + b)[1..] == a[1..] + b;
      SplitConcatStep(a[0], Split(a[1..], sep), Split(a, sep), b, sep);
      assert [a[0]] + a[1..] == a;
    }
  }

  lemma SplitConcatStep(c: char, rest: seq<string>, left: seq<string>, b: string, sep: char)
    requires rest != []
    requires left == if c == sep then [""] + rest else [[c] + rest[0]] + rest[1..]
    ensures var tail := rest[..|rest| - 1] + Split(rest[|rest| - 1] + b, sep);
            left[..|left| - 1] + Split(left[|left| - 1] + b, sep)
            == if c == sep then [""] + tail else [[c] + tail[0]] + tail[1..]
  {
    if c != sep && |rest| == 1 {
      var open := [c] + rest[0] + b;
      assert open[1..] == rest[0] + b;
      assert open == left[0] + b;
    }
  }
}
