/** The end of a journal, across the live file and its archives. */
module JournalReader {
  import opened Wrappers
  import opened Seqs
  import opened JournalText
  import opened JournalFilter

  const HARD_LIMIT := 2000
  const SCAN_LIMIT := 50_000
  const BLOCK := 64 * 1024

  /** A file in the journal's directory; `content` is absent once it is gone. */
  datatype FileEntry = FileEntry(name: string, packed: bool, content: Option<Bytes>)

  /** The live file, and its archives newest first. */
  datatype Directory = Directory(live: FileEntry, archives: seq<FileEntry>)

  datatype JournalLine = JournalLine(raw: Bytes, source: string)

  datatype JournalPage = JournalPage(
    lines: seq<JournalLine>, totalScanned: nat, reachedStart: bool, filesRead: seq<string>, oldestAvailable: Option<string>)

  function Tag(lines: seq<Bytes>, source: string): (r: seq<JournalLine>)
    ensures |r| == |lines|
  {
    seq(|lines|, i requires 0 <= i < |lines| => JournalLine(lines[i], source))
  }

  function LinesOf(f: FileEntry): seq<JournalLine> {
    if f.content.None? then [] else Tag(Lines(f.content.value), f.name)
  }

  /** All lines of these files, oldest first; the files come newest first. */
  function History(files: seq<FileEntry>): seq<JournalLine> {
    Backlog(LinesOf, files)
  }

  /** The names of the files that are there. */
  function Existing(files: seq<FileEntry>): seq<string> {
    if files == [] then []
    else
      var last := files[|files| - 1];
      Existing(files[..|files| - 1]) + if last.content.Some? then [last.name] else []
  }

  /** What a read may open. */
  function Readable(dir: Directory, includeArchives: bool): seq<FileEntry> {
    [dir.live] + if includeArchives then dir.archives else []
  }

  function Wanted(limit: int): nat {
    var capped := if limit < HARD_LIMIT then limit else HARD_LIMIT;
    if capped < 0 then 0 else capped
  }

  predicate IsPlain(where: Option<JournalFilter>) {
    where.None? || where.value.IsEmpty()
  }

  /** How far one read may look. */
  function Budget(wanted: nat, where: Option<JournalFilter>, deep: bool): nat {
    if deep || !IsPlain(where) then SCAN_LIMIT else wanted
  }

  function Keeps(parse: Bytes -> Fields, where: Option<JournalFilter>): JournalLine -> bool {
    var lookingFor := if where.Some? then where.value else Anything;
    (line: JournalLine) => lookingFor.Matches(parse(line.raw))
  }

  /* -------------------- what a page is -------------------- */

  /** The page shows the last matches among the newest lines it scanned. */
  ghost predicate ShowsTheEnd(lines: seq<JournalLine>, scanned: nat, history: seq<JournalLine>, keep: JournalLine -> bool, wanted: nat, budget: nat) {
    && scanned <= budget && scanned <= |history|
    && lines == LastN(Filter(keep, LastN(history, scanned)), wanted)
    && (|lines| < wanted ==> scanned == |history| || scanned == budget)
  }

  /** The start was reached: nothing was cut off, and no archive lies unread. */
  ghost predicate NothingOlder(dir: Directory, includeArchives: bool, keep: JournalLine -> bool, wanted: nat, budget: nat) {
    var files := Readable(dir, includeArchives);
    && |History(files)| < budget && |Filter(keep, History(files))| < wanted
    && (dir.archives == [] || (includeArchives && Existing(files) != []))
  }

  /** The whole contract of one read. */
  ghost predicate IsPageOf(page: JournalPage, parse: Bytes -> Fields, dir: Directory, limit: int, includeArchives: bool, where: Option<JournalFilter>, deep: bool) {
    var keep, wanted := Keeps(parse, where), Wanted(limit);
    var budget := Budget(wanted, where, deep);
    && ShowsTheEnd(page.lines, page.totalScanned, History(Readable(dir, includeArchives)), keep, wanted, budget)
    && (page.reachedStart <==> NothingOlder(dir, includeArchives, keep, wanted, budget))
  }

  /** A full page is the last `wanted` matches of all readable history. */
  lemma FullPageIsExact(page: JournalPage, history: seq<JournalLine>, keep: JournalLine -> bool, wanted: nat, budget: nat)
    requires ShowsTheEnd(page.lines, page.totalScanned, history, keep, wanted, budget) && |page.lines| == wanted
    ensures page.lines == LastN(Filter(keep, history), wanted)
  {
    LastMatches(keep, history, page.totalScanned, wanted);
  }

  /** Where the start was reached, every line of every file there is was scanned. */
  lemma ReachedStartIsHonest(dir: Directory, includeArchives: bool, keep: JournalLine -> bool, wanted: nat, budget: nat, page: JournalPage)
    requires ShowsTheEnd(page.lines, page.totalScanned, History(Readable(dir, includeArchives)), keep, wanted, budget)
    requires NothingOlder(dir, includeArchives, keep, wanted, budget)
    ensures page.totalScanned == |History([dir.live] + dir.archives)|
    ensures page.lines == Filter(keep, History([dir.live] + dir.archives))
  {
    var history := History(Readable(dir, includeArchives));
    var scanned := LastN(history, page.totalScanned);
    assert Readable(dir, includeArchives) == [dir.live] + dir.archives;
    assert history == history[..|history| - |scanned|] + scanned;
    FilterOfConcat(keep, history[..|history| - |scanned|], scanned);
  }

  /* -------------------- reading -------------------- */

  lemma TagOfEnd(lines: seq<Bytes>, n: nat, source: string)
    ensures Tag(LastN(lines, n), source) == LastN(Tag(lines, source), n)
  {
  }

  /** The end of one file, by whichever way its shape allows. */
  method LinesBackwards(file: FileEntry, wanted: nat) returns (lines: seq<JournalLine>, hitStart: bool)
    requires file.content.Some?
    ensures wanted >= 1 ==> lines == LastN(LinesOf(file), wanted)
    ensures wanted >= 1 && !hitStart ==> |LinesOf(file)| > wanted
  {
    var raw;
    if file.packed {
      raw := ReadForwards(file.content.value, wanted);
      hitStart := true;
    } else {
      raw, hitStart := ReadBackwards(file.content.value, wanted, BLOCK);
    }
    lines := Tag(raw, file.name);
    TagOfEnd(Lines(file.content.value), wanted, file.name);
  }

  lemma ExistingGrows(files: seq<FileEntry>, k: nat)
    requires k < |files|
    ensures Existing(files[..k + 1]) == Existing(files[..k]) + if files[k].content.Some? then [files[k].name] else []
  {
    assert files[..k + 1][..k] == files[..k];
  }

  /**
   The loop over the files, newest first, until the page or the budget is
   full. `reachedStart` is what the last file said of its own start, and
   false once the loop was left early.
   */
  method Scan(files: seq<FileEntry>, keep: JournalLine -> bool, wanted: nat, budget: nat)
    returns (collected: seq<JournalLine>, scanned: nat, filesRead: seq<string>, reachedStart: bool, broke: bool, ghost visited: nat)
    requires wanted >= 1 && budget >= 1
    ensures visited <= |files| && filesRead == Existing(files[..visited])
    ensures broke ==> Looked(LinesOf, files, keep, collected, scanned) && !reachedStart
    ensures broke ==> scanned <= budget && (|collected| >= wanted || scanned == budget)
    ensures !broke ==> visited == |files| && ReadThrough(LinesOf, files, visited, keep, collected, scanned)
    ensures !broke ==> scanned < budget && |collected| < wanted && (reachedStart <==> filesRead != [])
    ensures scanned <= |History(files[..visited])|
  {
    collected, scanned, filesRead, reachedStart, broke := [], 0, [], false, false;
    var k := 0;
    while k < |files|
      invariant 0 <= k <= |files| && filesRead == Existing(files[..k])
      invariant ReadThrough(LinesOf, files, k, keep, collected, scanned)
      invariant scanned < budget && |collected| < wanted && (reachedStart <==> filesRead != [])
    {
      var file := files[k];
      ExistingGrows(files, k);
      // The source leaves the loop here when no room is left; a read that
      // spent its budget has left it already, so every file is asked for at
      // least one line.
      var room := budget - scanned;
      assert room >= 1;
      ScanStep(LinesOf, files, k, keep, collected, scanned, room);
      BacklogGrows(LinesOf, files, k);
      k := k + 1;
      if file.content.Some? {
        var lines, hitStart := LinesBackwards(file, room);
        filesRead := filesRead + [file.name];
        scanned := scanned + |lines|;
        collected := Filter(keep, lines) + collected;
        reachedStart := hitStart;
        if |collected| >= wanted || scanned >= budget {
          reachedStart, broke, visited := false, true, k;
          return;
        }
      }
    }
    visited := k;
  }

  /** The page of a read that wants something, and how many files it got to. */
  method ReadFiles(dir: Directory, includeArchives: bool, keep: JournalLine -> bool, wanted: nat, budget: nat)
    returns (lines: seq<JournalLine>, scanned: nat, reachedStart: bool, filesRead: seq<string>, ghost visited: nat)
    requires wanted >= 1 && budget >= 1
    ensures ShowsTheEnd(lines, scanned, History(Readable(dir, includeArchives)), keep, wanted, budget)
    ensures reachedStart <==> NothingOlder(dir, includeArchives, keep, wanted, budget)
    ensures visited <= |Readable(dir, includeArchives)| && filesRead == Existing(Readable(dir, includeArchives)[..visited])
    ensures scanned <= |History(Readable(dir, includeArchives)[..visited])|
    ensures visited < |Readable(dir, includeArchives)| ==> |lines| == wanted || scanned == budget
  {
    var files := Readable(dir, includeArchives);
    var collected, broke;
    collected, scanned, filesRead, reachedStart, broke, visited := Scan(files, keep, wanted, budget);
    if !broke {
      if filesRead == [] && dir.archives == [] {
        reachedStart := true;
      } else {
        reachedStart := reachedStart && (includeArchives || dir.archives == []);
      }
      assert files[..visited] == files;
      ReadThroughIsThePage(files, keep, wanted, budget, collected, scanned);
    } else {
      BrokenReadIsNotTheStart(History(files), scanned, keep, wanted, budget);
    }
    lines := LastN(collected, wanted);
  }

  /**
   One read. `visited` is how many of the readable files it got to. The page
   is the end of the history, and `reachedStart` says exactly that nothing
   older exists.
   */
  method ReadOnce(parse: Bytes -> Fields, dir: Directory, limit: int, includeArchives: bool, where: Option<JournalFilter>, deep: bool)
    returns (page: JournalPage, ghost visited: nat)
    ensures Wanted(limit) > 0 ==> IsPageOf(page, parse, dir, limit, includeArchives, where, deep)
    ensures Wanted(limit) > 0 ==>
      && visited <= |Readable(dir, includeArchives)| && page.filesRead == Existing(Readable(dir, includeArchives)[..visited])
      && page.totalScanned <= |History(Readable(dir, includeArchives)[..visited])|
      && (visited < |Readable(dir, includeArchives)| ==>
            |page.lines| == Wanted(limit) || page.totalScanned == Budget(Wanted(limit), where, deep))
    ensures Wanted(limit) == 0 ==> page.lines == [] && page.totalScanned == 0 && !page.reachedStart && page.filesRead == []
    ensures page.oldestAvailable == if dir.archives == [] then None else Some(dir.archives[|dir.archives| - 1].name)
  {
    var wanted := Wanted(limit);
    var oldest := if dir.archives == [] then None else Some(dir.archives[|dir.archives| - 1].name);
    if wanted == 0 {
      return JournalPage([], 0, false, [], oldest), 0;
    }
    var lines, scanned, reachedStart, filesRead;
    lines, scanned, reachedStart, filesRead, visited :=
      ReadFiles(dir, includeArchives, Keeps(parse, where), wanted, Budget(wanted, where, deep));
    page := JournalPage(lines, scanned, reachedStart, filesRead, oldest);
  }

  /** Everything there was to read has been scanned. */
  lemma ReadThroughIsThePage(files: seq<FileEntry>, keep: JournalLine -> bool, wanted: nat, budget: nat, collected: seq<JournalLine>, scanned: nat)
    requires ReadThrough(LinesOf, files, |files|, keep, collected, scanned)
    ensures scanned == |History(files)| && collected == Filter(keep, History(files)) == Filter(keep, LastN(History(files), scanned))
  {
    assert files[..|files|] == files;
  }

  /** A read that stopped because the page or the window was full has not seen the start. */
  lemma BrokenReadIsNotTheStart(history: seq<JournalLine>, scanned: nat, keep: JournalLine -> bool, wanted: nat, budget: nat)
    requires scanned <= |history|
    requires |Filter(keep, LastN(history, scanned))| >= wanted || scanned == budget
    ensures |Filter(keep, history)| >= wanted || |history| >= budget
  {
    var tail := LastN(history, scanned);
    assert history == history[..|history| - scanned] + tail;
    FilterOfConcat(keep, history[..|history| - scanned], tail);
  }

  /**
   The most recent lines. A plain read that came back short, because the
   chains' own probe records took places on its page, is made a second time
   to the full scan limit.

   Whatever happened, the page is the end of the readable history within
   the scan limit, it is short only where that history or the limit ran out,
   and a claim to have reached the start is never made of less than all.
   */
  method Tail(parse: Bytes -> Fields, dir: Directory, limit: int, includeArchives: bool, where: Option<JournalFilter>)
    returns (page: JournalPage)
    ensures |page.lines| <= Wanted(limit) && page.totalScanned <= 50_000
    ensures IsPlain(where) && NothingDropped(Keeps(parse, where), LastN(History(Readable(dir, includeArchives)), Wanted(limit))) ==>
      page.totalScanned <= Wanted(limit)
    ensures Wanted(limit) > 0 ==> exists deep :: IsPageOf(page, parse, dir, limit, includeArchives, where, deep)
    ensures 0 < |page.lines| == Wanted(limit) ==>
      page.lines == LastN(Filter(Keeps(parse, where), History(Readable(dir, includeArchives))), Wanted(limit))
    ensures |page.lines| < Wanted(limit) ==>
      page.totalScanned == |History(Readable(dir, includeArchives))| || page.totalScanned == 50_000
    ensures page.reachedStart ==>
      && page.totalScanned == |History([dir.live] + dir.archives)|
      && page.lines == Filter(Keeps(parse, where), History([dir.live] + dir.archives))
  {
    ghost var visited;
    page, visited := ReadOnce(parse, dir, limit, includeArchives, where, false);
    ghost var first := page;
    var short := |page.lines| < Wanted(limit);
    ghost var deep := false;
    if short && !page.reachedStart && IsPlain(where) {
      page, visited := ReadOnce(parse, dir, limit, includeArchives, where, true);
      deep := true;
    }
    if Wanted(limit) > 0 {
      PageFacts(page, parse, dir, limit, includeArchives, where, deep);
    }
    ghost var history := History(Readable(dir, includeArchives));
    if deep && Wanted(limit) > 0 && NothingDropped(Keeps(parse, where), LastN(history, Wanted(limit))) {
      ShortWithoutDrops(first, history, Keeps(parse, where), Wanted(limit));
    }
  }

  /** Every line of a stretch answers the search. */
  ghost predicate NothingDropped(keep: JournalLine -> bool, lines: seq<JournalLine>) {
    forall i :: 0 <= i < |lines| ==> keep(lines[i])
  }

  lemma {:induction false} FilterKeepsAll(keep: JournalLine -> bool, lines: seq<JournalLine>)
    requires NothingDropped(keep, lines)
    ensures Filter(keep, lines) == lines
  {
    if lines != [] {
      FilterKeepsAll(keep, lines[1..]);
    }
  }

  /** A first read that dropped nothing comes back short only of a history as short. */
  lemma ShortWithoutDrops(page: JournalPage, history: seq<JournalLine>, keep: JournalLine -> bool, wanted: nat)
    requires ShowsTheEnd(page.lines, page.totalScanned, history, keep, wanted, wanted) && |page.lines| < wanted
    requires NothingDropped(keep, LastN(history, wanted))
    ensures |history| < wanted
  {
    if page.totalScanned == wanted {
      FilterKeepsAll(keep, LastN(history, wanted));
    }
  }

  /** The clamp: what was asked for, between nothing and two thousand. */
  lemma WantedIsClamped(limit: int)
    ensures Wanted(limit) == if limit <= 0 then 0 else if limit <= 2000 then limit else 2000
  {
  }

  /* -------------------- what the history is -------------------- */

  /** The lines of one file after the other, oldest file first, under their own names. */
  function InOrder(files: seq<FileEntry>): seq<(Bytes, string)> {
    if files == [] then []
    else
      var newest := files[0];
      InOrder(files[1..]) +
      if newest.content.None? then [] else Named(Lines(newest.content.value), newest.name)
  }

  function Named(lines: seq<Bytes>, name: string): seq<(Bytes, string)> {
    seq(|lines|, i requires 0 <= i < |lines| => (lines[i], name))
  }

  function Pairs(lines: seq<JournalLine>): seq<(Bytes, string)> {
    seq(|lines|, i requires 0 <= i < |lines| => (lines[i].raw, lines[i].source))
  }

  /** The history holds every line of every file that is there, in the order they were written. */
  lemma {:induction false} HistoryIsTheFiles(files: seq<FileEntry>)
    ensures Pairs(History(files)) == InOrder(files)
  {
    if files != [] {
      HistoryIsTheFiles(files[1..]);
      assert files == files[..1] + files[1..];
      BacklogSplits(LinesOf, files[..1], files[1..]);
      BacklogGrows(LinesOf, files, 0);
      assert LinesOf(files[0]) + [] == LinesOf(files[0]);
      assert History(files) == History(files[1..]) + LinesOf(files[0]);
    }
  }

  /** What a page promises, spelled out. */
  lemma PageFacts(page: JournalPage, parse: Bytes -> Fields, dir: Directory, limit: int, includeArchives: bool, where: Option<JournalFilter>, deep: bool)
    requires Wanted(limit) > 0 && IsPageOf(page, parse, dir, limit, includeArchives, where, deep)
    ensures var keep, history := Keeps(parse, where), History(Readable(dir, includeArchives));
      && (|page.lines| == Wanted(limit) ==> page.lines == LastN(Filter(keep, history), Wanted(limit)))
      && (page.reachedStart ==> page.totalScanned == |History([dir.live] + dir.archives)|)
      && (page.reachedStart ==> page.lines == Filter(keep, History([dir.live] + dir.archives)))
  {
    var keep, history := Keeps(parse, where), History(Readable(dir, includeArchives));
    var wanted := Wanted(limit);
    var budget := Budget(wanted, where, deep);
    if |page.lines| == wanted {
      FullPageIsExact(page, history, keep, wanted, budget);
    }
    if page.reachedStart {
      ReachedStartIsHonest(dir, includeArchives, keep, wanted, budget, page);
    }
  }
}
