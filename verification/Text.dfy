/** Cutting strings at a separator. */
module Text {
  import opened Seqs

  /* -------------------- cutting at one separator -------------------- */

  /** Up to the first separator, or everything. */
  function Before(s: string, sep: char): string {
    if s == "" || s[0] == sep then "" else [s[0]] + Before(s[1..], sep)
  }

  /** What follows the first separator, if any. */
  function After(s: string, sep: char): (r: string)
    ensures s != "" ==> |r| < |s|
  {
    if s == "" then "" else if s[0] == sep then s[1..] else After(s[1..], sep)
  }

  /** What follows the last separator, or everything. */
  function AfterLast(s: string, sep: char): (r: string)
    ensures |r| <= |s|
    decreases |s|
  {
    if sep in s then AfterLast(After(s, sep), sep) else s
  }

  lemma {:induction false} CutAt(a: string, b: string, sep: char)
    requires Free(a, sep)
    ensures Before(a + [sep] + b, sep) == a && After(a + [sep] + b, sep) == b
  {
    if a == "" {
      assert (a + [sep] + b)[1..] == b;
    } else {
      CutAt(a[1..], b, sep);
      assert (a + [sep] + b)[1..] == a[1..] + [sep] + b;
    }
  }

  lemma {:induction false} CutNowhere(s: string, sep: char)
    requires Free(s, sep)
    ensures Before(s, sep) == s && After(s, sep) == ""
  {
    if s != "" {
      CutNowhere(s[1..], sep);
    }
  }

  lemma {:induction false} CutJoins(s: string, sep: char)
    ensures s == Before(s, sep) + if sep in s then [sep] + After(s, sep) else ""
    ensures Free(Before(s, sep), sep)
  {
    if s != "" && s[0] != sep {
      CutJoins(s[1..], sep);
    }
  }

  /** Neither piece holds a character the whole does not hold. */
  lemma CutKeepsFree(s: string, sep: char, c: char)
    requires Free(s, c)
    ensures Free(Before(s, sep), c) && Free(After(s, sep), c)
  {
    CutJoins(s, sep);
    var a, b := Before(s, sep), After(s, sep);
    forall i | 0 <= i < |a| ensures a[i] != c {
      assert s[i] == a[i];
    }
    if sep in s {
      forall i | 0 <= i < |b| ensures b[i] != c {
        assert s[|a| + 1 + i] == b[i];
      }
    } else {
      CutNowhere(s, sep);
    }
  }

  /* -------------------- cutting at the last separator -------------------- */

  lemma AfterLastOfFree(s: string, sep: char)
    requires Free(s, sep)
    ensures AfterLast(s, sep) == s
  {
  }

  lemma {:induction false} AfterLastOfConcat(a: string, b: string, sep: char)
    requires sep in a && Free(b, sep)
    ensures AfterLast(a + b, sep) == AfterLast(a, sep) + b
    decreases |a|
  {
    CutJoins(a, sep);
    assert a + b == Before(a, sep) + [sep] + (After(a, sep) + b);
    CutAt(Before(a, sep), After(a, sep) + b, sep);
    if sep in After(a, sep) {
      AfterLastOfConcat(After(a, sep), b, sep);
    } else {
      assert sep !in After(a, sep) + b;
    }
  }

  /** A string is a head that ends in the separator, if it has one, and what follows. */
  lemma {:induction false} AfterLastIsATail(s: string, sep: char) returns (head: string)
    ensures Free(AfterLast(s, sep), sep) && s == head + AfterLast(s, sep)
    ensures if sep in s then head != "" && head[|head| - 1] == sep else head == ""
    decreases |s|
  {
    if sep in s {
      CutJoins(s, sep);
      var more := AfterLastIsATail(After(s, sep), sep);
      head := Before(s, sep) + [sep] + more;
    } else {
      head := "";
    }
  }

  lemma HeadOf(s: string, sep: char, head: string)
    requires s == head + AfterLast(s, sep)
    ensures s[..|s| - |AfterLast(s, sep)|] == head
  {
  }

  lemma NothingAfterLast(head: string, sep: char)
    requires head != "" && head[|head| - 1] == sep
    ensures AfterLast(head, sep) == ""
  {
    var more := AfterLastIsATail(head, sep);
    if AfterLast(head, sep) != "" {
      assert false;
    }
  }

  /** What follows a head that ends in the separator, or no head at all, is found again. */
  lemma CutAtLast(head: string, rest: string, sep: char)
    requires Free(rest, sep) && (head == "" || head[|head| - 1] == sep)
    ensures AfterLast(head + rest, sep) == rest
  {
    if head == "" {
      assert head + rest == rest;
    } else {
      NothingAfterLast(head, sep);
      AfterLastOfConcat(head, rest, sep);
      assert "" + rest == rest;
    }
  }
}
