/** Normalising an authority twice, and when two of them become the same. */
module UrlNormalAuthority {
  import opened Wrappers
  import opened Seqs
  import opened Text
  import opened Ipv4Host
  import opened UrlAuthority

  /** No step from the raw host to its ASCII form brings a delimiter in. */
  lemma AsciiHostStaysFree(f: Foreign, netloc: string, d: char)
    requires Sound(f) && d in DELIMITERS && Free(HostInfo(netloc).0, d) && AsciiHost(f, netloc).Some?
    ensures Free(AsciiHost(f, netloc).value, d)
  {
    var host, name := HostInfo(netloc).0, Hostname(f, netloc);
    CutKeepsFree(host, '%', d);
    assert Free(f.lower(Before(host, '%')), d);
    assert Free(name, d);
    var plain := WithoutRoot(name);
    assert Free(plain, d);
    if !IsAscii(plain) {
      assert IdnaOutput(f.idna(plain).value);
    }
  }

  /** Credentials end in their separator, and the rest holds none. */
  lemma UserInfoEnds(netloc: string)
    ensures var u, info := UserInfo(netloc), AfterLast(netloc, '@');
            netloc == u + info && Free(info, '@') && (u == "" || u[|u| - 1] == '@')
    ensures Free(netloc, '@') ==> UserInfo(netloc) == ""
  {
    var head := AfterLastIsATail(netloc, '@');
    HeadOf(netloc, '@', head);
  }

  /** Which delimiters the host of an authority can hold. */
  lemma HostOfNetloc(netloc: string)
    ensures var host, info := HostInfo(netloc).0, AfterLast(netloc, '@');
            && Free(host, '@') && (forall d <- DELIMITERS :: Free(netloc, d) ==> Free(host, d))
            && (if '[' in info then Free(host, ']') else Free(host, '[') && Free(host, ':'))
  {
    var info := AfterLast(netloc, '@');
    UserInfoEnds(netloc);
    var host := HostInfo(netloc).0;
    forall d | Free(info, d) ensures Free(host, d) {
      CutKeepsFree(info, '[', d);
      CutKeepsFree(After(info, '['), ']', d);
      CutKeepsFree(info, ':', d);
    }
    forall d <- DELIMITERS | Free(netloc, d) ensures Free(info, d) {
      assert info == netloc[|UserInfo(netloc)|..];
    }
    if '[' in info {
      CutJoins(After(info, '['), ']');
    } else {
      CutJoins(info, ':');
    }
  }

  lemma BracketsFollowTheSource(f: Foreign, netloc: string)
    requires Sound(f) && AsciiHost(f, netloc).Some?
    ensures Bracketed(f, netloc) <==> '[' in netloc
  {
    HostOfNetloc(netloc);
    UserInfoEnds(netloc);
    if '[' !in netloc {
      assert '[' !in AfterLast(netloc, '@');
      AsciiHostStaysFree(f, netloc, ':');
    }
  }

  /** An ASCII host in lower case is its own host name. */
  lemma LowerHostIsItsName(f: Foreign, h: string)
    requires Sound(f) && IsAscii(h) && AsciiLower(h) == h
    ensures f.lower(Before(h, '%')) + (if '%' in h then "%" + After(h, '%') else "") == h
  {
    CutJoins(h, '%');
    var a := Before(h, '%');
    forall i | 0 <= i < |a| ensures a[i] < 128 as char && LowerChar(a[i]) == a[i] {
      assert a[i] == h[i] && AsciiLower(h)[i] == LowerChar(h[i]);
    }
    assert AsciiLower(a) == a;
  }

  /**
   A bracket in the credentials puts brackets around a bare host; if that host holds
   a closing one, what is shown cannot be read back.
   */
  predicate Torn(f: Foreign, netloc: string) {
    '[' in netloc && AsciiHost(f, netloc).Some? && ']' in AsciiHost(f, netloc).value
  }

  /** The shape of a normalised authority. */
  lemma NormalShape(f: Foreign, scheme: string, netloc: string)
    requires Sound(f) && NormalAuthority(f, scheme, netloc).Some?
    ensures var h := AsciiHost(f, netloc).value;
            && NormalAuthority(f, scheme, netloc).value
                 == UserInfo(netloc) + (Shown(h, '[' in netloc) + ShownPort(KeptPort(scheme, netloc)))
            && IsAscii(h) && AsciiLower(h) == h && Free(h, '@')
            && ('[' !in netloc ==> Free(h, '[') && Free(h, ':'))
            && ('[' in AfterLast(netloc, '@') ==> Free(h, ']'))
            && ('[' !in AfterLast(netloc, '@') ==> Free(h, ':'))
  {
    BracketsFollowTheSource(f, netloc);
    HostOfNetloc(netloc);
    UserInfoEnds(netloc);
    AsciiFormIsStable(f, Hostname(f, netloc));
    AsciiHostStaysFree(f, netloc, '@');
    assert '[' in AfterLast(netloc, '@') ==> '[' in netloc;
    if '[' in AfterLast(netloc, '@') {
      AsciiHostStaysFree(f, netloc, ']');
    } else {
      AsciiHostStaysFree(f, netloc, '[');
      AsciiHostStaysFree(f, netloc, ':');
    }
  }

  /** Credentials in front of an authority that holds none of their separators. */
  lemma BehindCredentials(u: string, shown: string)
    requires Free(shown, '@') && (u == "" || u[|u| - 1] == '@')
    ensures UserInfo(u + shown) == u && HostInfo(u + shown) == HostInfo(shown)
  {
    CutAtLast(u, shown, '@');
    AfterLastOfFree(shown, '@');
  }

  /** What a normalised authority shows is what it is read back as, unless it is torn. */
  lemma NormalReadsBack(f: Foreign, scheme: string, netloc: string)
    requires Sound(f) && NormalAuthority(f, scheme, netloc).Some? && !Torn(f, netloc)
    ensures var h, n := AsciiHost(f, netloc).value, NormalAuthority(f, scheme, netloc).value;
            && UserInfo(n) == UserInfo(netloc) && ('[' in n <==> '[' in netloc)
            && HostInfo(n).0 == h && Hostname(f, n) == h
            && ReadPort(HostInfo(n).1) == KeptPort(scheme, netloc)
  {
    var h, port := AsciiHost(f, netloc).value, KeptPort(scheme, netloc);
    var u, shown := UserInfo(netloc), Shown(h, '[' in netloc) + ShownPort(port);
    NormalShape(f, scheme, netloc);
    UserInfoEnds(netloc);
    ShownReadsBack(h, '[' in netloc, port);
    BehindCredentials(u, shown);
    LowerHostIsItsName(f, h);
    assert '[' in u ==> '[' in netloc;
  }

  lemma ShownReadsBack(h: string, bracketed: bool, port: PortRead)
    requires Free(h, '@') && (port.NoPort? || (port.Port? && port.n <= 65535))
    requires if bracketed then Free(h, ']') else Free(h, '[') && Free(h, ':')
    ensures var shown := Shown(h, bracketed) + ShownPort(port);
            && Free(shown, '@') && ('[' in shown <==> bracketed)
            && HostInfo(shown).0 == h && ReadPort(HostInfo(shown).1) == port
  {
    if bracketed {
      BracketedReadsBack(h, port);
    } else {
      BareReadsBack(h, port);
    }
  }

  /**
   Normalising a second time changes nothing, exactly when the ASCII host does not
   end in a single dot and is not torn.
   */
  lemma AuthorityTwice(f: Foreign, scheme: string, netloc: string)
    requires Sound(f) && NormalAuthority(f, scheme, netloc).Some?
    ensures var h, n := AsciiHost(f, netloc).value, NormalAuthority(f, scheme, netloc).value;
            && NormalAuthority(f, scheme, n).Some?
            && (NormalAuthority(f, scheme, n).value == n <==> WithoutRoot(h) == h && !Torn(f, netloc))
  {
    if Torn(f, netloc) {
      TornIsCutOff(f, scheme, netloc);
    } else {
      WholeTwice(f, scheme, netloc);
    }
  }

  lemma WholeTwice(f: Foreign, scheme: string, netloc: string)
    requires Sound(f) && NormalAuthority(f, scheme, netloc).Some? && !Torn(f, netloc)
    ensures var h, n := AsciiHost(f, netloc).value, NormalAuthority(f, scheme, netloc).value;
            NormalAuthority(f, scheme, n).Some? && (NormalAuthority(f, scheme, n).value == n <==> WithoutRoot(h) == h)
  {
    var h, n := AsciiHost(f, netloc).value, NormalAuthority(f, scheme, netloc).value;
    var tail := ShownPort(KeptPort(scheme, netloc));
    WholeReread(f, scheme, netloc);
    NormalShape(f, scheme, netloc);
    NormalShape(f, scheme, n);
    if WithoutRoot(h) != h {
      ShorterShows(UserInfo(netloc), h, AsciiHost(f, n).value, '[' in netloc, tail);
    }
  }

  /** What the second pass reads. */
  lemma WholeReread(f: Foreign, scheme: string, netloc: string)
    requires Sound(f) && NormalAuthority(f, scheme, netloc).Some? && !Torn(f, netloc)
    ensures var h, n := AsciiHost(f, netloc).value, NormalAuthority(f, scheme, netloc).value;
            && UserInfo(n) == UserInfo(netloc) && ('[' in n <==> '[' in netloc) && KeptPort(scheme, n) == KeptPort(scheme, netloc)
            && AsciiHost(f, n) == Some(if WithoutRoot(h) == h then h else AsciiLower(WithoutRoot(h)))
            && NormalAuthority(f, scheme, n).Some?
  {
    NormalReadsBack(f, scheme, netloc);
    AsciiFormIsStable(f, Hostname(f, netloc));
  }

  /** A torn host loses what follows its closing bracket. */
  lemma TornIsCutOff(f: Foreign, scheme: string, netloc: string)
    requires Sound(f) && NormalAuthority(f, scheme, netloc).Some? && Torn(f, netloc)
    ensures var n := NormalAuthority(f, scheme, netloc).value;
            NormalAuthority(f, scheme, n).Some? && NormalAuthority(f, scheme, n).value != n
  {
    var h, n := AsciiHost(f, netloc).value, NormalAuthority(f, scheme, netloc).value;
    var host := Before(h, ']');
    NormalShape(f, scheme, netloc);
    TornReread(f, scheme, netloc);
    TornHostIsAscii(h);
    LowerHostIsItsName(f, host);
    assert AsciiHost(f, n) == Some(AsciiLower(WithoutRoot(host)));
    NormalShape(f, scheme, n);
    ShorterShows(UserInfo(netloc), h, AsciiHost(f, n).value, true, ShownPort(KeptPort(scheme, netloc)));
  }

  lemma TornReread(f: Foreign, scheme: string, netloc: string)
    requires Sound(f) && NormalAuthority(f, scheme, netloc).Some? && Torn(f, netloc)
    ensures var n := NormalAuthority(f, scheme, netloc).value;
            && '[' in n && UserInfo(n) == UserInfo(netloc) && KeptPort(scheme, n) == KeptPort(scheme, netloc)
            && HostInfo(n).0 == Before(AsciiHost(f, netloc).value, ']') && !ReadPort(HostInfo(n).1).BadPort?
  {
    var h, port := AsciiHost(f, netloc).value, KeptPort(scheme, netloc);
    NormalShape(f, scheme, netloc);
    UserInfoEnds(netloc);
    TornReadsShort(h, port);
    BehindCredentials(UserInfo(netloc), Shown(h, true) + ShownPort(port));
  }

  lemma ShorterShows(u: string, h: string, shorter: string, bracketed: bool, tail: string)
    requires |shorter| < |h|
    ensures u + (Shown(shorter, bracketed) + tail) != u + (Shown(h, bracketed) + tail)
  {
    assert |u + (Shown(shorter, bracketed) + tail)| < |u + (Shown(h, bracketed) + tail)|;
  }

  lemma TornReadsShort(h: string, port: PortRead)
    requires ']' in h && Free(h, '@') && Free(h, ':') && (port.NoPort? || (port.Port? && port.n <= 65535))
    ensures var shown := Shown(h, true) + ShownPort(port);
            && Free(shown, '@') && '[' in shown
            && HostInfo(shown).0 == Before(h, ']') && ReadPort(HostInfo(shown).1) == port
  {
    PastTheBracket(h, port);
    TornRest(h, ShownPort(port));
    TornTail(h, port);
  }

  lemma TornRest(h: string, tail: string)
    requires ']' in h
    ensures Before(h + "]" + tail, ']') == Before(h, ']') && After(h + "]" + tail, ']') == (After(h, ']') + "]") + tail
  {
    var a, b := Before(h, ']'), After(h, ']');
    CutJoins(h, ']');
    assert h + "]" + tail == a + "]" + ((b + "]") + tail);
    CutAt(a, (b + "]") + tail, ']');
  }

  lemma TornTail(h: string, port: PortRead)
    requires Free(h, ':') && (port.NoPort? || (port.Port? && port.n <= 65535))
    ensures ReadPort(After((After(h, ']') + "]") + ShownPort(port), ':')) == port
  {
    CutKeepsFree(h, ']', ':');
    TailAfter(After(h, ']') + "]", port);
  }

  lemma TailAfter(s: string, port: PortRead)
    requires Free(s, ':') && (port.NoPort? || (port.Port? && port.n <= 65535))
    ensures ReadPort(After(s + ShownPort(port), ':')) == port
  {
    if port.Port? {
      var digits := Digits(port.n, Decimal);
      assert s + ShownPort(port) == s + ":" + digits;
      CutAt(s, digits, ':');
      PortReadsBack(port.n);
    } else {
      assert s + ShownPort(port) == s;
      CutNowhere(s, ':');
    }
  }

  lemma TornHostIsAscii(h: string)
    requires IsAscii(h) && AsciiLower(h) == h && ']' in h
    ensures var a := Before(h, ']'); IsAscii(a) && AsciiLower(a) == a && |a| < |h|
  {
    CutJoins(h, ']');
    var a := Before(h, ']');
    forall i | 0 <= i < |a| ensures a[i] < 128 as char && LowerChar(a[i]) == a[i] {
      assert a[i] == h[i] && AsciiLower(h)[i] == LowerChar(h[i]);
    }
  }

  /** The label rule for names: at least two labels, none of them empty. */
  predicate LabelsAreFilled(h: string) {
    forall i :: 0 <= i < |Split(h, '.')| ==> Split(h, '.')[i] != ""
  }

  /** A name that passes it ends in no dot, so admitted names normalise once and for all. */
  lemma FilledLabelsLeaveNoRoot(h: string)
    requires LabelsAreFilled(h)
    ensures WithoutRoot(h) == h
  {
    if h != "" && h[|h| - 1] == '.' {
      DotLeavesAnEmptyLabel(h);
    }
  }

  lemma DotLeavesAnEmptyLabel(h: string)
    requires h != "" && h[|h| - 1] == '.'
    ensures !LabelsAreFilled(h)
  {
    SplitAtTheEnd(h[..|h| - 1]);
    assert h == h[..|h| - 1] + ".";
    assert Split(h, '.')[|Split(h, '.')| - 1] == "";
  }

  lemma SplitAtTheEnd(s: string)
    ensures Split(s + ".", '.') == Split(s, '.') + [""]
  {
    JoinOfSplit(s, '.');
    var parts := Split(s, '.');
    JoinWithTrailing(parts, '.');
    SplitOfJoin(parts + [""], '.');
  }

  /**
   Two authorities are normalised alike under http or https exactly when they agree
   on ASCII host, bracketing and effective port; the scheme is part of the URL and
   has to agree as well.
   */
  lemma SameAuthority(f: Foreign, scheme: string, netloc: string, other: string, netloc2: string)
    requires Sound(f) && Free(netloc, '@') && Free(netloc2, '@')
    requires scheme in {"http", "https"} && other in {"http", "https"}
    requires NormalAuthority(f, scheme, netloc).Some? && NormalAuthority(f, other, netloc2).Some?
    ensures (scheme == other && NormalAuthority(f, scheme, netloc) == NormalAuthority(f, other, netloc2))
       <==> (&& scheme == other && AsciiHost(f, netloc) == AsciiHost(f, netloc2)
             && ('[' in netloc <==> '[' in netloc2)
             && EffectivePort(scheme, netloc) == EffectivePort(other, netloc2))
  {
    NotTornWithoutCredentials(f, netloc);
    NotTornWithoutCredentials(f, netloc2);
    NormalReadsBack(f, scheme, netloc);
    NormalReadsBack(f, other, netloc2);
    NormalShape(f, scheme, netloc);
    NormalShape(f, other, netloc2);
    UserInfoEnds(netloc);
    UserInfoEnds(netloc2);
    if scheme == other {
      assert KeptPort(scheme, netloc) == KeptPort(other, netloc2)
        <==> EffectivePort(scheme, netloc) == EffectivePort(other, netloc2);
    }
  }

  lemma NotTornWithoutCredentials(f: Foreign, netloc: string)
    requires Sound(f) && Free(netloc, '@')
    ensures !Torn(f, netloc)
  {
    AfterLastOfFree(netloc, '@');
    HostOfNetloc(netloc);
    if '[' in netloc && AsciiHost(f, netloc).Some? {
      AsciiHostStaysFree(f, netloc, ']');
    }
  }

  /* -------------------- what becomes of ports and of the root -------------------- */

  /** A bare host: no credentials, no brackets, no port. */
  predicate BareHost(host: string) {
    Free(host, '@') && Free(host, '[') && Free(host, ':')
  }

  lemma BareHostInfo(host: string)
    requires BareHost(host)
    ensures HostInfo(host) == (host, "") && UserInfo(host) == ""
  {
    AfterLastOfFree(host, '@');
    CutNowhere(host, ':');
  }

  lemma PortedHostInfo(host: string, text: string)
    requires BareHost(host) && AllDigits(text, 10)
    ensures var netloc := host + ":" + text;
            HostInfo(netloc) == (host, text) && UserInfo(netloc) == "" && '[' !in netloc
  {
    var netloc := host + ":" + text;
    forall i | 0 <= i < |netloc| ensures netloc[i] != '@' && netloc[i] != '[' {
      assert i > |host| ==> netloc[i] == text[i - |host| - 1];
    }
    AfterLastOfFree(netloc, '@');
    CutAt(host, text, ':');
  }

  /**
   A port leaves no mark exactly if it is the scheme's own, 80 for http and 443 for
   https, however many zeros it is written with; any other is kept, as its number.
   */
  lemma PortsAreShownExactly(f: Foreign, scheme: string, host: string, text: string)
    requires scheme in {"http", "https"} && BareHost(host)
    requires text != "" && AllDigits(text, 10) && Value(text, 10) <= 65535
    ensures var plain, ported := NormalAuthority(f, scheme, host), NormalAuthority(f, scheme, host + ":" + text);
            var n := Value(text, 10);
            && (plain.Some? <==> ported.Some?)
            && (plain.Some? ==>
                  ported.value == if (scheme == "http" && n == 80) || (scheme == "https" && n == 443) then plain.value
                                  else plain.value + ":" + Digits(n, Decimal))
  {
    BareHostInfo(host);
    PortedHostInfo(host, text);
    var plain := NormalAuthority(f, scheme, host);
    assert AsciiHost(f, host + ":" + text) == AsciiHost(f, host);
    if plain.Some? {
      PortJoins(Shown(AsciiHost(f, host).value, Bracketed(f, host)), Digits(Value(text, 10), Decimal));
    }
  }

  /** A port that is no number, or beyond 65535, leaves no normal form; no port after the colon is none. */
  lemma BadPortsAreRefused(f: Foreign, scheme: string, host: string, text: string)
    requires BareHost(host) && Free(text, '@') && Free(text, '[')
    ensures text != "" && !(AllDigits(text, 10) && Value(text, 10) <= 65535) ==> NormalAuthority(f, scheme, host + ":" + text) == None
    ensures text == "" ==> NormalAuthority(f, scheme, host + ":" + text) == NormalAuthority(f, scheme, host)
  {
    var netloc := host + ":" + text;
    assert Free(netloc, '@') && '[' !in netloc;
    AfterLastOfFree(netloc, '@');
    CutAt(host, text, ':');
    BareHostInfo(host);
    assert HostInfo(netloc) == (host, text);
  }

  lemma PortJoins(shown: string, digits: string)
    ensures "" + (shown + "") == shown && "" + (shown + (":" + digits)) == shown + ":" + digits
  {
  }

  /** An ASCII host is shown in lower case, with or without the dot of the root. */
  lemma RootAndCaseAreDropped(f: Foreign, scheme: string, host: string)
    requires Sound(f) && BareHost(host) && Free(host, '%') && IsAscii(host) && host != "" && host[|host| - 1] != '.'
    ensures NormalAuthority(f, scheme, host) == Some(AsciiLower(host))
    ensures NormalAuthority(f, scheme, host + ".") == Some(AsciiLower(host))
  {
    AsciiHostShown(f, scheme, host, host);
    AsciiHostShown(f, scheme, host + ".", host);
  }

  lemma AsciiHostShown(f: Foreign, scheme: string, netloc: string, name: string)
    requires Sound(f) && BareHost(netloc) && Free(netloc, '%') && IsAscii(netloc)
    requires WithoutRoot(netloc) == name && name != "" && name[|name| - 1] != '.'
    requires netloc == name || netloc == name + "."
    ensures NormalAuthority(f, scheme, netloc) == Some(AsciiLower(name))
  {
    assert Free(AsciiLower(name), ':') by {
      assert forall i :: 0 <= i < |name| ==> netloc[i] == name[i];
    }
    BareHostInfo(netloc);
    CutNowhere(netloc, '%');
    LowerHostname(f, netloc);
    RootOfLower(netloc, name);
    assert AsciiHost(f, netloc) == Some(AsciiLower(name));
    ShownBare(f, scheme, netloc, AsciiLower(name));
  }

  lemma LowerHostname(f: Foreign, netloc: string)
    requires Sound(f) && IsAscii(netloc) && HostInfo(netloc).0 == netloc && Free(netloc, '%') && Before(netloc, '%') == netloc
    ensures Hostname(f, netloc) == AsciiLower(netloc)
  {
    assert AsciiLower(netloc) + "" == AsciiLower(netloc);
  }

  lemma RootOfLower(netloc: string, name: string)
    requires IsAscii(netloc) && name != "" && name[|name| - 1] != '.' && (netloc == name || netloc == name + ".")
    ensures var lower := WithoutRoot(AsciiLower(netloc));
            lower == AsciiLower(name) && IsAscii(lower) && AsciiLower(lower) == lower
  {
    var lower := AsciiLower(netloc);
    assert forall i :: 0 <= i < |name| ==> netloc[i] == name[i];
    assert lower[|name| - 1] == LowerChar(name[|name| - 1]) != '.';
    assert lower[..|name|] == AsciiLower(name);
    assert |lower| == |name| ==> lower == AsciiLower(name);
    LowerTwice(name);
  }

  lemma ShownBare(f: Foreign, scheme: string, netloc: string, h: string)
    requires HostInfo(netloc).1 == "" && UserInfo(netloc) == "" && AsciiHost(f, netloc) == Some(h)
    requires Free(h, ':') && Free(netloc, '[')
    ensures NormalAuthority(f, scheme, netloc) == Some(h)
  {
    PortJoins(h, "");
  }
}
