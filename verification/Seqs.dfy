/** Ends of sequences, filtering, splitting and joining. */
module Seqs {
  function Front<T>(s: seq<T>): seq<T>
    requires s != []
  {
    s[..|s| - 1]
  }

  function Last<T>(s: seq<T>): T
    requires s != []
  {
    s[|s| - 1]
  }

  /** The last `n` elements, or all of them if there are fewer. */
  function LastN<T>(s: seq<T>, n: nat): (r: seq<T>)
    ensures |r| == if |s| < n then |s| else n
  {
    if |s| <= n then s else s[|s| - n..]
  }

  lemma LastNOfConcat<T>(a: seq<T>, b: seq<T>, n: nat)
    requires n <= |b|
    ensures LastN(a + b, n) == LastN(b, n)
  {
  }

  lemma EndOfConcat<T>(a: seq<T>, b: seq<T>)
    ensures LastN(a + b, |b|) == b
  {
  }

  /** The end of one part and all that follows it are the end of the whole. */
  lemma EndJoins<T>(older: seq<T>, part: seq<T>, seen: seq<T>, n: nat)
    ensures var end := LastN(part, n);
      end + seen == LastN(older + (part + seen), |end| + |seen|)
  {
    var end := LastN(part, n);
    var front := part[..|part| - |end|];
    assert part == front + end;
    assert older + (part + seen) == (older + front) + (end + seen);
    EndOfConcat(older + front, end + seen);
  }

  /** A bounded window, appended to and trimmed, is the end of all that was appended. */
  lemma WindowAppend<T>(a: seq<T>, x: T, n: nat)
    ensures LastN(LastN(a, n) + [x], n) == LastN(a + [x], n)
  {
  }

  function Filter<T>(keep: T -> bool, s: seq<T>): seq<T> {
    if s == [] then []
    else if keep(s[0]) then [s[0]] + Filter(keep, s[1..])
    else Filter(keep, s[1..])
  }

  lemma {:induction false} FilterOfConcat<T>(keep: T -> bool, a: seq<T>, b: seq<T>)
    ensures Filter(keep, a + b) == Filter(keep, a) + Filter(keep, b)
  {
    if a == [] {
      assert a + b == b;
    } else {
      FilterOfConcat(keep, a[1..], b);
      assert (a + b)[1..] == a[1..] + b;
    }
  }

  lemma {:induction false} FilterShrinks<T>(keep: T -> bool, s: seq<T>)
    ensures |Filter(keep, s)| <= |s|
  {
    if s != [] {
      FilterShrinks(keep, s[1..]);
    }
  }

  /** Enough matches at the end decide the last of them for the whole. */
  lemma LastMatches<T>(keep: T -> bool, s: seq<T>, m: nat, n: nat)
    requires |Filter(keep, LastN(s, m))| >= n
    ensures LastN(Filter(keep, s), n) == LastN(Filter(keep, LastN(s, m)), n)
  {
    var tail := LastN(s, m);
    var head := s[..|s| - |tail|];
    assert s == head + tail;
    FilterOfConcat(keep, head, tail);
    LastNOfConcat(Filter(keep, head), Filter(keep, tail), n);
  }

  /* -------------------- parts read newest first -------------------- */

  /** The parts laid end to end, the last of them first. */
  function Backlog<F, T>(linesOf: F -> seq<T>, parts: seq<F>): seq<T> {
    if parts == [] then [] else linesOf(parts[|parts| - 1]) + Backlog(linesOf, parts[..|parts| - 1])
  }

  lemma BacklogGrows<F, T>(linesOf: F -> seq<T>, parts: seq<F>, k: nat)
    requires k < |parts|
    ensures Backlog(linesOf, parts[..k + 1]) == linesOf(parts[k]) + Backlog(linesOf, parts[..k])
  {
    assert parts[..k + 1][..k] == parts[..k];
  }

  lemma {:induction false} BacklogSplits<F, T>(linesOf: F -> seq<T>, newer: seq<F>, older: seq<F>)
    ensures Backlog(linesOf, newer + older) == Backlog(linesOf, older) + Backlog(linesOf, newer)
  {
    if older == [] {
      assert newer + older == newer;
    } else {
      var parts, front := newer + older, older[..|older| - 1];
      BacklogSplits(linesOf, newer, front);
      assert parts[..|parts| - 1] == newer + front;
    }
  }

  /** The end of the next part joins what was read before it. */
  lemma PartJoins<F, T>(linesOf: F -> seq<T>, parts: seq<F>, k: nat, room: nat, seen: seq<T>, end: seq<T>)
    requires k < |parts| && seen == Backlog(linesOf, parts[..k]) && end == LastN(linesOf(parts[k]), room)
    ensures |end| + |seen| <= |Backlog(linesOf, parts)|
    ensures LastN(Backlog(linesOf, parts), |end| + |seen|) == end + seen
  {
    BacklogGrows(linesOf, parts, k);
    assert parts == parts[..k + 1] + parts[k + 1..];
    BacklogSplits(linesOf, parts[..k + 1], parts[k + 1..]);
    EndJoins(Backlog(linesOf, parts[k + 1..]), linesOf(parts[k]), seen, room);
  }

  /** What a scan of the parts, newest first, knows after `k` of them read through. */
  ghost predicate ReadThrough<F, T>(linesOf: F -> seq<T>, parts: seq<F>, k: nat, keep: T -> bool, collected: seq<T>, scanned: nat)
    requires k <= |parts|
  {
    scanned == |Backlog(linesOf, parts[..k])| && collected == Filter(keep, Backlog(linesOf, parts[..k]))
  }

  /** What it knows wherever it stops: the newest `scanned` lines were looked at. */
  ghost predicate Looked<F, T>(linesOf: F -> seq<T>, parts: seq<F>, keep: T -> bool, collected: seq<T>, scanned: nat) {
    scanned <= |Backlog(linesOf, parts)| && collected == Filter(keep, LastN(Backlog(linesOf, parts), scanned))
  }

  lemma ScanStep<F, T>(linesOf: F -> seq<T>, parts: seq<F>, k: nat, keep: T -> bool, collected: seq<T>, scanned: nat, room: nat)
    requires k < |parts| && ReadThrough(linesOf, parts, k, keep, collected, scanned)
    ensures var end := LastN(linesOf(parts[k]), room);
      && Looked(linesOf, parts, keep, Filter(keep, end) + collected, scanned + |end|)
      && (|end| < room ==> ReadThrough(linesOf, parts, k + 1, keep, Filter(keep, end) + collected, scanned + |end|))
    ensures linesOf(parts[k]) == [] ==> ReadThrough(linesOf, parts, k + 1, keep, collected, scanned)
  {
    var seen, end := Backlog(linesOf, parts[..k]), LastN(linesOf(parts[k]), room);
    PartJoins(linesOf, parts, k, room, seen, end);
    FilterOfConcat(keep, end, seen);
    BacklogGrows(linesOf, parts, k);
  }

  /* -------------------- splitting at a separator -------------------- */

  function Join<T>(parts: seq<seq<T>>, sep: T): seq<T>
    requires parts != []
  {
    if |parts| == 1 then parts[0] else parts[0] + [sep] + Join(parts[1..], sep)
  }

  lemma JoinOfCons<T>(first: seq<T>, rest: seq<seq<T>>, sep: T)
    requires rest != []
    ensures Join([first] + rest, sep) == first + [sep] + Join(rest, sep)
  {
    assert ([first] + rest)[1..] == rest;
  }

  predicate Free<T(==)>(s: seq<T>, sep: T) {
    forall i :: 0 <= i < |s| ==> s[i] != sep
  }

  /** The pieces between separators; one more than there are separators. */
  function Split<T(==)>(s: seq<T>, sep: T): (r: seq<seq<T>>)
    ensures r != []
  {
    if s == [] then [[]]
    else if s[0] == sep then [[]] + Split(s[1..], sep)
    else
      var rest := Split(s[1..], sep);
      [[s[0]] + rest[0]] + rest[1..]
  }

  lemma {:induction false} SplitOfFree<T>(s: seq<T>, sep: T)
    requires Free(s, sep)
    ensures Split(s, sep) == [s]
  {
    if s != [] {
      SplitOfFree(s[1..], sep);
      assert [s[0]] + s[1..] == s;
    }
  }

  lemma {:induction false} SplitAtFirst<T>(a: seq<T>, rest: seq<T>, sep: T)
    requires Free(a, sep)
    ensures Split(a + [sep] + rest, sep) == [a] + Split(rest, sep)
  {
    if a == [] {
      assert (a + [sep] + rest)[1..] == rest;
    } else {
      SplitAtFirst(a[1..], rest, sep);
      assert (a + [sep] + rest)[1..] == a[1..] + [sep] + rest;
      assert ([a[1..]] + Split(rest, sep))[1..] == Split(rest, sep);
      assert [a[0]] + a[1..] == a;
    }
  }

  /** Splitting undoes joining. */
  lemma {:induction false} SplitOfJoin<T>(parts: seq<seq<T>>, sep: T)
    requires parts != [] && forall i :: 0 <= i < |parts| ==> Free(parts[i], sep)
    ensures Split(Join(parts, sep), sep) == parts
  {
    if |parts| == 1 {
      SplitOfFree(parts[0], sep);
    } else {
      SplitOfJoin(parts[1..], sep);
      SplitAtFirst(parts[0], Join(parts[1..], sep), sep);
    }
  }

  /** Joining undoes splitting, and no piece holds a separator. */
  lemma {:induction false} JoinOfSplit<T>(s: seq<T>, sep: T)
    ensures Join(Split(s, sep), sep) == s
    ensures forall i :: 0 <= i < |Split(s, sep)| ==> Free(Split(s, sep)[i], sep)
  {
    if s != [] {
      JoinOfSplit(s[1..], sep);
      var rest := Split(s[1..], sep);
      if s[0] == sep {
        assert ([[]] + rest)[1..] == rest;
      } else {
        assert ([[s[0]] + rest[0]] + rest[1..])[1..] == rest[1..];
      }
    }
  }

  /** A trailing separator adds one empty piece. */
  lemma JoinWithTrailing<T>(parts: seq<seq<T>>, sep: T)
    requires parts != []
    ensures Join(parts + [[]], sep) == Join(parts, sep) + [sep]
  {
    assert (parts + [[]])[1..] == parts[1..] + [[]];
    if |parts| > 1 {
      JoinWithTrailing(parts[1..], sep);
    }
  }
}
