/** Following a log file as it grows (stack.ts): bytes come in reads of any size, lines go out whole. */
module LogTail {
  import opened Text
  import Progress

  newtype byte = x: int | 0 <= x < 256

  /** The text of the complete characters at the front of some bytes. */
  type Decoding = seq<byte> -> string

  /** What StringDecoder documents: more bytes only ever add text, and none are none. */
  ghost predicate Incremental(decode: Decoding) {
    decode([]) == "" && forall a, b :: decode(a) <= decode(a + b)
  }

  const READ_SIZE := 64 * 1024

  /** The file as others append to it. */
  class GrowingFile {
    var bytes: seq<byte>

    constructor (bytes: seq<byte>)
      ensures this.bytes == bytes
    {
      this.bytes := bytes;
    }
  }

  /** A `StringDecoder`, which holds back the bytes of a character not complete yet. */
  class Decoder {
    const decode: Decoding
    var fed: seq<byte>

    constructor (decode: Decoding)
      ensures this.decode == decode && fed == []
    {
      this.decode, fed := decode, [];
    }

    method Write(chunk: seq<byte>) returns (text: string)
      requires Incremental(decode)
      modifies this
      ensures fed == old(fed) + chunk
      ensures decode(fed) == decode(old(fed)) + text
    {
      assert decode(fed) <= decode(fed + chunk);
      text := decode(fed + chunk)[|decode(fed)|..];
      fed := fed + chunk;
    }
  }

  class Tail {
    const file: GrowingFile
    const decoder: Decoder
    var offset: nat
    var partial: string
    /** Every line handed to `onLine`, in order. */
    var lines: seq<string>
    /** Where reading began. */
    ghost var from: nat

    constructor (file: GrowingFile, decode: Decoding)
      requires Incremental(decode)
      ensures this.file == file && fresh(decoder) && decoder.decode == decode
      ensures offset == 0 && lines == [] && Following()
    {
      this.file := file;
      decoder := new Decoder(decode);
      offset, partial, lines, from := 0, "", [], 0;
    }

    /** The lines handed over and the open last one are the text read so far, split at newlines. */
    ghost predicate Following()
      reads this, file, decoder
    {
      && Incremental(decoder.decode)
      && from <= offset <= |file.bytes|
      && decoder.fed == file.bytes[from..offset]
      && lines + [partial] == Split(decoder.decode(decoder.fed), '\n')
    }

    /** `start`: `size` is what `statSync` gave, None when it failed. */
    method Start(fromEnd: bool, size: Option<nat>)
      requires Following() && offset == 0 && lines == []
      requires size.Some? ==> size.value <= |file.bytes|
      modifies this
      ensures Following() && lines == []
      ensures offset == if fromEnd && size.Some? then size.value else 0
      ensures from == offset
    {
      if fromEnd {
        if size.Some? {
          offset := size.value;
        } else {
          offset := 0;
        }
      }
      from := offset;
      assert decoder.fed == [] && file.bytes[from..offset] == [];
    }

    /** `poll`: reads until nothing is left. Before the n-th read the file grows by `growth[n]`, and the
        read gives `sizes(n)` bytes when that many are there and fit the buffer. */
    method Poll(canOpen: bool, growth: seq<seq<byte>>, sizes: nat -> nat)
      requires Following()
      modifies this, file, decoder
      ensures Following() && from == old(from)
      ensures old(file.bytes) <= file.bytes && old(lines) <= lines
      ensures canOpen ==> offset == |file.bytes|
      ensures !canOpen ==> file.bytes == old(file.bytes) && lines == old(lines) && partial == old(partial)
    {
      if !canOpen {
        return;
      }
      var n := 0;
      while true
        invariant Following() && from == old(from)
        invariant old(file.bytes) <= file.bytes && old(lines) <= lines
        decreases if n < |growth| then |growth| - n else 0, |file.bytes| - offset
      {
        if n < |growth| {
          file.bytes := file.bytes + growth[n];
        }
        var read := ReadSize(|file.bytes| - offset, sizes(n));
        if read <= 0 {
          break;
        }
        TakeIn(file.bytes[offset..offset + read]);
        n := n + 1;
      }
    }

    function ReadSize(available: nat, wanted: nat): (read: nat)
      ensures read <= available && (available > 0 ==> read > 0)
    {
      if 0 < wanted <= available && wanted <= READ_SIZE then wanted
      else if available <= READ_SIZE then available else READ_SIZE
    }

    /** One turn of the loop: what was read is decoded, split, and its whole lines handed over. */
    method TakeIn(chunk: seq<byte>)
      requires Following() && offset + |chunk| <= |file.bytes| && chunk == file.bytes[offset..offset + |chunk|]
      modifies this, decoder
      ensures Following() && offset == old(offset) + |chunk| && from == old(from) && old(lines) <= lines
    {
      ghost var before := decoder.decode(decoder.fed);
      SliceOn(file.bytes, from, offset, chunk);
      var text := decoder.Write(chunk);
      var pieces := Split(partial + text, '\n');
      SplitOn(lines, partial, before, text);
      offset := offset + |chunk|;
      partial := pieces[|pieces| - 1];
      HandOver(pieces[..|pieces| - 1]);
    }

    /** `for (const line of lines) this.onLine(line)`. */
    method HandOver(whole: seq<string>)
      modifies this`lines
      ensures lines == old(lines) + whole
    {
      for i := 0 to |whole|
        invariant lines == old(lines) + whole[..i]
      {
        lines := lines + [whole[i]];
      }
    }

    static lemma SliceOn(bytes: seq<byte>, a: nat, b: nat, chunk: seq<byte>)
      requires a <= b && b + |chunk| <= |bytes| && chunk == bytes[b..b + |chunk|]
      ensures bytes[a..b] + chunk == bytes[a..b + |chunk|]
    {
    }

    static lemma SplitOn(lines: seq<string>, partial: string, before: string, text: string)
      requires lines + [partial] == Split(before, '\n')
      ensures var pieces := Split(partial + text, '\n');
              lines + pieces[..|pieces| - 1] + [pieces[|pieces| - 1]] == Split(before + text, '\n')
    {
      SplitConcat(before, text, '\n');
      Glue(lines, partial, Split(before, '\n'), Split(partial + text, '\n'));
    }

    static lemma Glue(lines: seq<string>, partial: string, left: seq<string>, right: seq<string>)
      requires left == lines + [partial] && right != []
      ensures left[..|left| - 1] == lines && left[|left| - 1] == partial
      ensures lines + right[..|right| - 1] + [right[|right| - 1]] == lines + right
    {
    }

    /** `stop`: reads what is left and hands over the open line, unless it is empty. */
    method Stop(canOpen: bool, growth: seq<seq<byte>>, sizes: nat -> nat)
      requires Following()
      modifies this, file, decoder
      ensures old(file.bytes) <= file.bytes && from == old(from) <= offset <= |file.bytes| && partial == ""
      ensures canOpen ==> offset == |file.bytes|
      ensures lines == Lines(decoder.decode(file.bytes[from..offset]))
    {
      Poll(canOpen, growth, sizes);
      ghost var pieces := Split(decoder.decode(decoder.fed), '\n');
      assert pieces[..|pieces| - 1] == lines && pieces[|pieces| - 1] == partial;
      if partial != "" {
        lines := lines + [partial];
      }
      partial := "";
    }
  }

  /** A text as lines: split at newlines, an empty last piece dropped. */
  function Lines(text: string): seq<string> {
    var pieces := Split(text, '\n');
    if pieces[|pieces| - 1] == "" then pieces[..|pieces| - 1] else pieces
  }

  // --- What reaches the dialog ------------------------------------------------------------

  /** The line events a tail dispatches, each at the time it was read. */
  function LineEvents(lines: seq<string>, times: seq<int>): seq<Progress.Event>
    requires |times| == |lines|
  {
    seq(|lines|, i requires 0 <= i < |lines| => Progress.Line(lines[i], times[i]))
  }

  function Cleaned(clean: string -> string, lines: seq<string>): seq<string> {
    if lines == [] then []
    else (if clean(lines[0]) == "" then [] else [clean(lines[0])]) + Cleaned(clean, lines[1..])
  }

  lemma {:induction false} LinesFeed(clean: string -> string, lines: seq<string>, times: seq<int>)
    requires |times| == |lines|
    ensures Progress.AllFed(clean, LineEvents(lines, times)) == Cleaned(clean, lines)
  {
    if lines != [] {
      LinesFeed(clean, lines[1..], times[1..]);
      assert LineEvents(lines, times)[1..] == LineEvents(lines[1..], times[1..]);
    }
  }

  /** The dialog's log depends on the text alone, not on how it was cut into reads or when they came. */
  lemma DialogShowsLastLines(clean: string -> string, progress: Progress.Checklist, text: string, times: seq<int>)
    requires |times| == |Lines(text)| && |progress.log| <= Progress.LOG_LINES
    ensures Progress.Run(clean, progress, LineEvents(Lines(text), times)).log
            == Progress.LastLines(progress.log + Cleaned(clean, Lines(text)))
  {
    LinesFeed(clean, Lines(text), times);
    Progress.LogIsLastLines(clean, progress, LineEvents(Lines(text), times));
  }
}
