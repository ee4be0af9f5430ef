/**
 A journal file as bytes, and the two ways its last lines are read: backwards
 in blocks, and forwards through a window for a compressed archive.
 */
module JournalText {
  import opened Seqs

  type byte = b: int | 0 <= b < 256
  type Bytes = seq<byte>

  const NL: byte := 10

  function CountNL(b: Bytes): nat {
    if b == [] then 0 else (if b[0] == NL then 1 else 0) + CountNL(b[1..])
  }

  /** Two texts put end to end, in pieces: the last of one and the first of the other meet. */
  function Glue<T>(x: seq<seq<T>>, y: seq<seq<T>>): (r: seq<seq<T>>)
    requires x != [] && y != []
    ensures |r| == |x| + |y| - 1
  {
    x[..|x| - 1] + [x[|x| - 1] + y[0]] + y[1..]
  }

  lemma GlueOfCons<T>(first: seq<T>, x: seq<seq<T>>, y: seq<seq<T>>)
    requires x != [] && y != []
    ensures Glue([first] + x, y) == [first] + Glue(x, y)
  {
  }

  lemma GlueWithFront<T>(c: T, x: seq<seq<T>>, y: seq<seq<T>>)
    requires x != [] && y != []
    ensures var g := Glue(x, y); Glue([[c] + x[0]] + x[1..], y) == [[c] + g[0]] + g[1..]
  {
    assert ([c] + x[0]) + y[0] == [c] + (x[0] + y[0]);
  }

  /** A text that ends at a line break does not tear what follows. */
  lemma GlueAfterBreak<T>(x: seq<seq<T>>, y: seq<seq<T>>)
    requires x != [] && y != [] && x[|x| - 1] == []
    ensures Glue(x, y) == x[..|x| - 1] + y
  {
    assert [] + y[0] == y[0];
  }

  function WithoutEmptyLast(pieces: seq<Bytes>): seq<Bytes> {
    if pieces != [] && pieces[|pieces| - 1] == [] then pieces[..|pieces| - 1] else pieces
  }

  /** The lines of a whole file. */
  function Lines(b: Bytes): seq<Bytes> {
    WithoutEmptyLast(Split(b, NL))
  }

  /** One piece more than there are newlines. */
  lemma {:induction false} PiecesOfText(b: Bytes)
    ensures |Split(b, NL)| == CountNL(b) + 1
  {
    if b != [] {
      PiecesOfText(b[1..]);
    }
  }

  lemma {:induction false} CountNLOfConcat(a: Bytes, b: Bytes)
    ensures CountNL(a + b) == CountNL(a) + CountNL(b)
  {
    if a == [] {
      assert a + b == b;
    } else {
      CountNLOfConcat(a[1..], b);
      assert (a + b)[1..] == a[1..] + b;
    }
  }

  /** A cut anywhere tears at most the one piece it falls in. */
  lemma {:induction false} SplitOfConcat(a: Bytes, b: Bytes)
    ensures Split(a + b, NL) == Glue(Split(a, NL), Split(b, NL))
  {
    if a == [] {
      assert a + b == b;
      GlueAfterBreak([[]], Split(b, NL));
    } else {
      SplitOfConcat(a[1..], b);
      assert (a + b)[1..] == a[1..] + b;
      if a[0] == NL {
        GlueOfCons([], Split(a[1..], NL), Split(b, NL));
      } else {
        GlueWithFront(a[0], Split(a[1..], NL), Split(b, NL));
      }
    }
  }

  /**
   Why one newline more than asked for keeps a torn line out: a suffix with
   more than `wanted` newlines ends in the same `wanted` lines as the file.
   */
  lemma SuffixEndsAlike(front: Bytes, back: Bytes, wanted: nat)
    requires wanted >= 1 && CountNL(back) > wanted
    ensures LastN(Lines(back), wanted) == LastN(Lines(front + back), wanted)
    ensures |Lines(front + back)| > wanted
  {
    SplitOfConcat(front, back);
    PiecesOfText(back);
    GluedEndsAlike(Split(front, NL), Split(back, NL), wanted);
  }

  lemma GluedEndsAlike(x: seq<Bytes>, y: seq<Bytes>, wanted: nat)
    requires x != [] && |y| > wanted + 1
    ensures LastN(WithoutEmptyLast(y), wanted) == LastN(WithoutEmptyLast(Glue(x, y)), wanted)
    ensures |WithoutEmptyLast(Glue(x, y))| > wanted
  {
    var g := Glue(x, y);
    var l, r := WithoutEmptyLast(y), WithoutEmptyLast(g);
    assert g[|g| - 1] == y[|y| - 1];
    var tl, tr := LastN(l, wanted), LastN(r, wanted);
    forall i | 0 <= i < wanted
      ensures tl[i] == tr[i]
    {
      assert tl[i] == y[|l| - wanted + i];
      assert tr[i] == g[|r| - wanted + i];
    }
  }

  /* -------------------- backwards, in blocks -------------------- */

  /** The blocks in file order: they were collected from the end. */
  function JoinReversed(chunks: seq<Bytes>): Bytes {
    if chunks == [] then [] else chunks[|chunks| - 1] + JoinReversed(chunks[..|chunks| - 1])
  }

  /** `lines[-wanted:]`, which for `wanted == 0` is every line. */
  function SliceFromEnd<T>(s: seq<T>, wanted: nat): seq<T> {
    if wanted == 0 then s else LastN(s, wanted)
  }

  /** One more block, one step further back. */
  lemma BlockJoins(file: Bytes, lo: nat, hi: nat, chunks: seq<Bytes>)
    requires lo <= hi <= |file| && JoinReversed(chunks) == file[hi..]
    ensures JoinReversed(chunks + [file[lo..hi]]) == file[lo..]
    ensures CountNL(file[lo..]) == CountNL(file[lo..hi]) + CountNL(file[hi..])
  {
    assert (chunks + [file[lo..hi]])[..|chunks|] == chunks;
    assert file[lo..] == file[lo..hi] + file[hi..];
    CountNLOfConcat(file[lo..hi], file[hi..]);
  }

  /** What is left in the buffer when the loop stops decides the answer. */
  lemma BufferDecides(file: Bytes, position: nat, wanted: nat)
    requires position <= |file| && wanted >= 1
    requires position == 0 || CountNL(file[position..]) > wanted
    ensures LastN(Lines(file[position..]), wanted) == LastN(Lines(file), wanted)
    ensures position > 0 ==> |Lines(file)| > wanted
  {
    assert file == file[..position] + file[position..];
    if position > 0 {
      SuffixEndsAlike(file[..position], file[position..], wanted);
    } else {
      assert file[position..] == file;
    }
  }

  /** Blocks from the end, until they hold more newlines than lines were asked for. */
  method FillBuffer(file: Bytes, wanted: nat, block: nat) returns (position: nat, buffer: Bytes)
    requires block >= 1
    ensures position <= |file| && buffer == file[position..]
    ensures position == 0 || CountNL(buffer) > wanted
    ensures |file| <= block ==> position == 0
  {
    position := |file|;
    var chunks: seq<Bytes> := [];
    var newlines := 0;
    while position > 0 && newlines <= wanted
      invariant position <= |file|
      invariant JoinReversed(chunks) == file[position..]
      invariant newlines == CountNL(file[position..])
      invariant position == 0 || position == |file| || |file| - position >= block
    {
      var step := if block < position then block else position;
      position := position - step;
      var chunk := file[position..position + step];
      BlockJoins(file, position, position + step, chunks);
      chunks := chunks + [chunk];
      newlines := newlines + CountNL(chunk);
    }
    buffer := JoinReversed(chunks);
  }

  /**
   The last `wanted` lines, read backwards `block` bytes at a time. The flag
   says whether the read got to the first byte; where it did not, the file has
   more lines than were asked for. The reverse is not promised: a file that
   fits one block is read to its start however many of its lines are dropped.
   */
  method ReadBackwards(file: Bytes, wanted: nat, block: nat) returns (lines: seq<Bytes>, reachedStart: bool)
    requires block >= 1
    ensures wanted >= 1 ==> lines == LastN(Lines(file), wanted)
    ensures wanted >= 1 && !reachedStart ==> |Lines(file)| > wanted
    ensures |file| <= block ==> reachedStart
    ensures wanted == 0 && reachedStart ==> lines == Lines(file)
  {
    var position, buffer := FillBuffer(file, wanted, block);
    reachedStart := position == 0;
    lines := SliceFromEnd(Lines(buffer), wanted);
    if wanted >= 1 {
      BufferDecides(file, position, wanted);
    } else if position == 0 {
      assert file[position..] == file;
    }
  }

  /* -------------------- forwards, through a window -------------------- */

  /** A line as a file is iterated: up to and including its newline, if it has one. */
  ghost predicate IsRawLine(raw: Bytes) {
    raw != [] && forall k :: 0 <= k < |raw| - 1 ==> raw[k] != NL
  }

  function StripNL(raw: Bytes): Bytes
    requires raw != []
  {
    if raw[|raw| - 1] == NL then raw[..|raw| - 1] else raw
  }

  lemma SplitOfNL()
    ensures Split([NL], NL) == [[], []]
  {
    assert Split([NL][1..], NL) == [[]];
  }

  /** After a newline the next line has not begun. */
  lemma EndsEmpty(b: Bytes)
    requires b == [] || b[|b| - 1] == NL
    ensures Split(b, NL)[|Split(b, NL)| - 1] == []
  {
    if b != [] {
      var front := b[..|b| - 1];
      SplitOfConcat(front, [NL]);
      SplitOfNL();
      assert front + [NL] == b;
    }
  }

  lemma SplitOfTerminated(body: Bytes)
    requires NL !in body
    ensures Split(body + [NL], NL) == [body, []]
  {
    SplitOfFree(body, NL);
    SplitOfConcat(body, [NL]);
    SplitOfNL();
    assert body + [] == body;
  }

  lemma TrimmedEnd(pieces: seq<Bytes>, line: Bytes)
    ensures WithoutEmptyLast(pieces + [line, []]) == pieces + [line]
    ensures line != [] ==> WithoutEmptyLast(pieces + [line]) == pieces + [line]
  {
    assert (pieces + [line, []])[..|pieces| + 1] == pieces + [line];
  }

  /** What follows a line break starts a line of its own. */
  lemma SplitAfterBreak(done: Bytes, next: Bytes)
    requires done == [] || done[|done| - 1] == NL
    ensures Split(done + next, NL) == Lines(done) + Split(next, NL)
  {
    SplitOfConcat(done, next);
    EndsEmpty(done);
    GlueAfterBreak(Split(done, NL), Split(next, NL));
  }

  /** Reading one more raw line adds exactly one line. */
  lemma LinesOfNext(done: Bytes, raw: Bytes)
    requires done == [] || done[|done| - 1] == NL
    requires IsRawLine(raw)
    ensures Lines(done + raw) == Lines(done) + [StripNL(raw)]
  {
    SplitAfterBreak(done, raw);
    TrimmedEnd(Lines(done), StripNL(raw));
    SplitOfRaw(raw);
  }

  lemma SplitOfRaw(raw: Bytes)
    requires IsRawLine(raw)
    ensures Split(raw, NL) == [StripNL(raw), []] || (raw == StripNL(raw) && Split(raw, NL) == [raw])
  {
    if raw[|raw| - 1] == NL {
      var body := raw[..|raw| - 1];
      assert raw == body + [NL];
      SplitOfTerminated(body);
    } else {
      SplitOfFree(raw, NL);
    }
  }

  /** Where the raw line that starts here ends. */
  method RawLineEnd(file: Bytes, start: nat) returns (end: nat)
    requires start < |file|
    ensures start < end <= |file| && IsRawLine(file[start..end])
    ensures end == |file| || file[end - 1] == NL
  {
    end := start;
    while end < |file| && file[end] != NL
      invariant start <= end <= |file|
      invariant forall k :: start <= k < end ==> file[k] != NL
    {
      end := end + 1;
    }
    if end < |file| {
      end := end + 1;
    }
  }

  /** The window follows the file one raw line at a time. */
  lemma WindowSlides(file: Bytes, at: nat, end: nat, wanted: nat)
    requires at < end <= |file| && (at == 0 || file[at - 1] == NL) && IsRawLine(file[at..end])
    ensures LastN(LastN(Lines(file[..at]), wanted) + [StripNL(file[at..end])], wanted) == LastN(Lines(file[..end]), wanted)
  {
    LinesOfNext(file[..at], file[at..end]);
    assert file[..at] + file[at..end] == file[..end];
    WindowAppend(Lines(file[..at]), StripNL(file[at..end]), wanted);
  }

  /** The last `wanted` lines, holding never more than a window of them. */
  method ReadForwards(file: Bytes, wanted: nat) returns (lines: seq<Bytes>)
    ensures lines == LastN(Lines(file), wanted)
  {
    var at := 0;
    lines := [];
    while at < |file|
      invariant 0 <= at <= |file| && (at == 0 || at == |file| || file[at - 1] == NL)
      invariant lines == LastN(Lines(file[..at]), wanted)
    {
      var end := RawLineEnd(file, at);
      WindowSlides(file, at, end, wanted);
      lines := LastN(lines + [StripNL(file[at..end])], wanted);
      at := end;
    }
    assert file[..at] == file;
  }
}
