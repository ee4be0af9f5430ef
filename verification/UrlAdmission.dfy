/** Which URLs may enter, what normalising makes of them, and of rows that never did. */
module UrlAdmission {
  import opened Wrappers
  import opened Seqs
  import opened Text
  import opened UrlAuthority
  import opened UrlNormalAuthority
  import opened UrlNormalize

  /** No control characters. */
  predicate Printable(s: string) {
    forall i :: 0 <= i < |s| ==> s[i] >= ' ' && s[i] != 127 as char
  }

  predicate IsAlphanumeric(c: char) {
    IsLetter(c) || '0' <= c <= '9'
  }

  /** One to sixty-three letters, digits and hyphens, no hyphen at either end. */
  predicate LabelOk(s: string) {
    && 1 <= |s| <= 63 && IsAlphanumeric(s[0]) && IsAlphanumeric(s[|s| - 1])
    && forall i :: 0 <= i < |s| ==> IsAlphanumeric(s[i]) || s[i] == '-'
  }

  /** An address, `localhost`, or a name whose ASCII form has two labels or more, all of them good. */
  predicate HostAdmitted(f: Foreign, isAddress: string -> bool, host: string) {
    var name := WithoutRoot(host);
    && host != ""
    && (|| isAddress(name) || name == "localhost"
        || (var ascii := ToAsciiHost(f, name);
            && ascii.Some? && '.' in ascii.value && |ascii.value| <= 253
            && forall i :: 0 <= i < |Split(ascii.value, '.')| ==> LabelOk(Split(ascii.value, '.')[i])))
  }

  /**
   What may enter: the rules that bear on the authority. Where internal targets are
   not let in too, the host is put into its ASCII form to be judged, and a URL whose
   host has none is refused.
   */
  predicate Admitted(f: Foreign, isAddress: string -> bool, internalToo: bool, url: string) {
    && Printable(url) && Parse(url).Some?
    && var p := Parse(url).value;
       && p.scheme in {"http", "https"} && p.netloc != "" && Free(p.netloc, '@')
       && EffectivePort(p.scheme, p.netloc) != BadPort && EffectivePort(p.scheme, p.netloc) != Port(0)
       && HostAdmitted(f, isAddress, Hostname(f, p.netloc))
       && (!internalToo ==> AsciiHost(f, p.netloc).Some?)
  }

  /** The host is an address with a zone beyond ASCII. */
  predicate ForeignZone(f: Foreign, isAddress: string -> bool, url: string)
    requires Parse(url).Some?
  {
    var name := WithoutRoot(Hostname(f, Parse(url).value.netloc));
    isAddress(name) && !IsAscii(name)
  }

  /** An address with characters beyond ASCII is a scoped IPv6 one. */
  ghost predicate AddressesAreAscii(isAddress: string -> bool) {
    forall s :: isAddress(s) && !IsAscii(s) ==> ':' in s
  }

  /** The ASCII form of an admitted host never ends in a dot. */
  lemma AdmittedHostHasNoRoot(f: Foreign, isAddress: string -> bool, host: string)
    requires Sound(f) && AddressesAreAscii(isAddress) && HostAdmitted(f, isAddress, host) && ToAsciiHost(f, host).Some?
    ensures var h := ToAsciiHost(f, host).value; WithoutRoot(h) == h
  {
    var name, h := WithoutRoot(host), ToAsciiHost(f, host).value;
    AsciiFormIsStable(f, host);
    if !IsAscii(host) {
      assert !IsAscii(name) && f.idna(name) == Some(h) && Free(name, ':');
      assert !isAddress(name);
      assert name != "localhost";
      assert WithoutRoot(name) == name && ToAsciiHost(f, name) == Some(h);
      assert LabelsAreFilled(h);
      FilledLabelsLeaveNoRoot(h);
    }
  }

  /**
   An admitted URL has a normal form exactly when its host is not an address with a
   zone beyond ASCII. Such a host is let in only where internal targets are.
   */
  lemma AdmittedNormalizes(f: Foreign, isAddress: string -> bool, internalToo: bool, url: string)
    requires Sound(f) && AddressesAreAscii(isAddress) && Admitted(f, isAddress, internalToo, url)
    ensures Normalize(f, url).Some? <==> !ForeignZone(f, isAddress, url)
    ensures !internalToo ==> !ForeignZone(f, isAddress, url)
  {
    var netloc := Parse(url).value.netloc;
    var name := WithoutRoot(Hostname(f, netloc));
    assert WithoutRoot(name) == name;
    if ForeignZone(f, isAddress, url) {
      assert ':' in name && !Free(name, ':');
    } else if !IsAscii(name) {
      assert name != "localhost";
      assert AsciiHost(f, netloc) == ToAsciiHost(f, name);
    }
  }

  /** Every admitted URL that has a normal form at all is normalised once and for all. */
  lemma AdmittedNormalizeOnce(f: Foreign, isAddress: string -> bool, internalToo: bool, url: string)
    requires Sound(f) && AddressesAreAscii(isAddress) && Admitted(f, isAddress, internalToo, url)
    ensures if internalToo && ForeignZone(f, isAddress, url) then Normalize(f, url) == None
            else Normalize(f, url).Some? && Normalize(f, Normalize(f, url).value) == Normalize(f, url)
  {
    AdmittedNormalizes(f, isAddress, internalToo, url);
    if Normalize(f, url).Some? {
      var netloc := Parse(url).value.netloc;
      NormalizeTwice(f, url);
      NotTornWithoutCredentials(f, netloc);
      AdmittedHostHasNoRoot(f, isAddress, Hostname(f, netloc));
    }
  }

  /* -------------------- inputs on which it fails -------------------- */

  /** Nothing in it ends an authority or a pair of brackets. */
  predicate Contained(host: string) {
    Free(host, '@') && Free(host, ']') && Free(host, '/') && Free(host, '?') && Free(host, '#')
  }

  /** The URL of an authority and nothing else, in components and as text. */
  function Bare(netloc: string): Parsed {
    Parsed("http", netloc, "/", "", "")
  }

  function BareUrl(netloc: string): string {
    "http://" + netloc + "/"
  }

  lemma BareUrlParses(netloc: string)
    requires Free(netloc, '/') && Free(netloc, '?') && Free(netloc, '#')
    ensures Parse(BareUrl(netloc)) == Some(Bare(netloc))
  {
    assert AsciiLower("http") == "http";
    NothingAfterLast("/", '/');
    assert forall i :: 0 <= i < |netloc| ==> netloc[i] !in "/?#";
    UnparseReadsBack(Bare(netloc));
    assert Unparse(Bare(netloc)) == BareUrl(netloc);
  }

  lemma BracketedHost(f: Foreign, host: string)
    requires Contained(host) && f.lower(Before(host, '%')) == Before(host, '%')
    ensures var netloc := "[" + host + "]"; HostInfo(netloc) == (host, "") && Hostname(f, netloc) == host
  {
    var netloc := "[" + host + "]";
    assert netloc == Shown(host, true) + ShownPort(NoPort);
    PastTheBracket(host, NoPort);
    CutAt(host, "", ']');
    assert host + "]" + "" == host + "]";
    CutJoins(host, '%');
  }

  lemma PrintableAround(netloc: string)
    requires Printable(netloc)
    ensures Printable(BareUrl(netloc))
  {
  }

  /** Of a bare URL everything turns on its authority. */
  lemma BareNormalizes(f: Foreign, url: string, netloc: string)
    requires Parse(url) == Some(Bare(netloc))
    ensures Normalize(f, url).Some? <==> NormalAuthority(f, "http", netloc).Some?
  {
  }

  lemma BareTwice(f: Foreign, url: string, netloc: string)
    requires Sound(f) && Parse(url) == Some(Bare(netloc)) && HostInfo(netloc).1 == "" && AsciiHost(f, netloc).Some?
    requires var h := AsciiHost(f, netloc).value; WithoutRoot(h) != h || Torn(f, netloc)
    ensures Normalize(f, url).Some? && Normalize(f, Normalize(f, url).value) != Normalize(f, url)
  {
    BareNormalizes(f, url, netloc);
    NormalizeTwice(f, url);
  }

  lemma ForeignZoneIn(f: Foreign, isAddress: string -> bool, url: string, netloc: string, host: string)
    requires Sound(f) && AddressesAreAscii(isAddress) && Parse(url) == Some(Bare(netloc)) && Printable(url)
    requires netloc != "" && Free(netloc, '@') && HostInfo(netloc) == (host, "") && Hostname(f, netloc) == host
    requires host != "" && WithoutRoot(host) == host && isAddress(host) && !IsAscii(host)
    ensures Admitted(f, isAddress, true, url) && Normalize(f, url) == None
  {
    AdmittedNormalizes(f, isAddress, true, url);
  }

  /**
   Every address with a zone beyond ASCII is such a host: admitted in brackets where
   internal targets are, and without a normal form.
   */
  lemma ForeignZonesHaveNoNormalForm(f: Foreign, isAddress: string -> bool, host: string)
    requires Sound(f) && AddressesAreAscii(isAddress) && isAddress(host) && !IsAscii(host) && WithoutRoot(host) == host
    requires Contained(host) && Printable(host) && f.lower(Before(host, '%')) == Before(host, '%')
    ensures var url := BareUrl("[" + host + "]");
            Admitted(f, isAddress, true, url) && Normalize(f, url) == None
  {
    var netloc := "[" + host + "]";
    InBrackets(host);
    BareUrlParses(netloc);
    BracketedHost(f, host);
    PrintableAround(netloc);
    ForeignZoneIn(f, isAddress, BareUrl(netloc), netloc, host);
  }

  lemma InBrackets(host: string)
    requires Contained(host) && Printable(host)
    ensures var netloc := "[" + host + "]";
            Free(netloc, '@') && Free(netloc, '/') && Free(netloc, '?') && Free(netloc, '#') && Printable(netloc)
  {
  }

  /** The loopback with a zone beyond ASCII. */
  const ZONED: string := "::1%\U{00e9}"

  lemma ZonedHasNoNormalForm(f: Foreign, isAddress: string -> bool)
    requires Sound(f) && AddressesAreAscii(isAddress) && isAddress(ZONED)
    ensures var url := BareUrl("[" + ZONED + "]");
            Admitted(f, isAddress, true, url) && Normalize(f, url) == None
  {
    ZonedIsForeign();
    assert AsciiLower("::1") == "::1";
    ForeignZonesHaveNoNormalForm(f, isAddress, ZONED);
  }

  lemma ZonedIsForeign()
    ensures Contained(ZONED) && Printable(ZONED) && !IsAscii(ZONED) && WithoutRoot(ZONED) == ZONED
    ensures Before(ZONED, '%') == "::1" && IsAscii("::1")
  {
    assert ZONED[4] == '\U{00e9}';
    CutAt("::1", "\U{00e9}", '%');
    assert ZONED == "::1" + "%" + "\U{00e9}";
  }

  /** A name that ends in an ideographic full stop. */
  const STOPPED: string := "\U{0435}\U{044e}\U{3002}eu\U{3002}"

  /**
   Outside admission it can fail: a stored row whose host ends in an ideographic
   full stop keeps a root label in its first normal form and loses it in the second.
   */
  lemma StoppedNameNormalizesTwice(f: Foreign)
    requires Sound(f) && f.lower(STOPPED) == STOPPED && f.idna(STOPPED) == Some("xn--e1a4c.eu.")
    ensures var url := BareUrl(STOPPED);
            Normalize(f, url).Some? && Normalize(f, Normalize(f, url).value) != Normalize(f, url)
  {
    StoppedIsPlain();
    BareUrlParses(STOPPED);
    StoppedHost(f);
    BareTwice(f, BareUrl(STOPPED), STOPPED);
  }

  lemma StoppedHost(f: Foreign)
    requires f.lower(STOPPED) == STOPPED && f.idna(STOPPED) == Some("xn--e1a4c.eu.")
    ensures AsciiHost(f, STOPPED) == Some("xn--e1a4c.eu.") && HostInfo(STOPPED).1 == ""
    ensures WithoutRoot("xn--e1a4c.eu.") != "xn--e1a4c.eu."
  {
    var s := STOPPED;
    StoppedIsPlain();
    AfterLastOfFree(s, '@');
    CutNowhere(s, ':');
    CutNowhere(s, '%');
    assert HostInfo(s) == (s, "");
    assert Hostname(f, s) == s;
  }

  lemma StoppedIsPlain()
    ensures Free(STOPPED, '@') && Free(STOPPED, '[') && Free(STOPPED, ':') && Free(STOPPED, '%')
    ensures Free(STOPPED, '/') && Free(STOPPED, '?') && Free(STOPPED, '#')
    ensures !IsAscii(STOPPED) && WithoutRoot(STOPPED) == STOPPED
  {
    assert STOPPED[0] == '\U{0435}';
  }

  /**
   The other way it can fail: with brackets among the credentials and a closing one in
   a bare host, the second normal form cuts the host off.
   */
  lemma TornRowsNormalizeTwice(f: Foreign, credentials: string, host: string)
    requires Sound(f) && '[' in credentials && credentials[|credentials| - 1] == '@'
    requires ']' in host && IsAscii(host) && AsciiLower(host) == host && WithoutRoot(host) == host
    requires Free(host, '@') && Free(host, '[') && Free(host, ':') && Free(host, '%')
    requires var netloc := credentials + host; Free(netloc, '/') && Free(netloc, '?') && Free(netloc, '#')
    ensures var url := BareUrl(credentials + host);
            Normalize(f, url).Some? && Normalize(f, Normalize(f, url).value) != Normalize(f, url)
  {
    var netloc := credentials + host;
    BareUrlParses(netloc);
    TornHost(f, credentials, host);
    BareTwice(f, BareUrl(netloc), netloc);
  }

  lemma TornHost(f: Foreign, credentials: string, host: string)
    requires Sound(f) && '[' in credentials && credentials[|credentials| - 1] == '@'
    requires ']' in host && IsAscii(host) && AsciiLower(host) == host && WithoutRoot(host) == host
    requires Free(host, '@') && Free(host, '[') && Free(host, ':') && Free(host, '%')
    ensures var netloc := credentials + host; HostInfo(netloc) == (host, "") && Torn(f, netloc)
  {
    var netloc := credentials + host;
    CutAtLast(credentials, host, '@');
    CutNowhere(host, ':');
    CutNowhere(host, '%');
    assert HostInfo(netloc) == (host, "");
    assert f.lower(host) == host && host + "" == host;
    assert Hostname(f, netloc) == host;
    assert AsciiHost(f, netloc) == Some(host);
  }

  /** A row of that kind whose brackets hold an address. */
  lemma TornRow(f: Foreign)
    requires Sound(f)
    ensures var url := BareUrl("[::1]@" + "c]d");
            Normalize(f, url).Some? && Normalize(f, Normalize(f, url).value) != Normalize(f, url)
  {
    var u: string, host: string := "[::1]@", "c]d";
    assert u[0] == '[' && host[1] == ']';
    assert AsciiLower(host) == host;
    TornRowsNormalizeTwice(f, u, host);
  }
}
