/**
 The authority of a URL: how host and port are read out of it, and what
 normalisation makes of it. What the language and the IDNA library do to
 characters beyond ASCII is a parameter.
 */
module UrlAuthority {
  import opened Wrappers
  import opened Seqs
  import opened Text
  import opened Ipv4Host

  /** Characters that end or divide an authority. */
  const DELIMITERS: string := "/?#@[]:"

  predicate IsAscii(s: string) {
    forall i :: 0 <= i < |s| ==> s[i] < 128 as char
  }

  function LowerChar(c: char): char {
    if 'A' <= c <= 'Z' then c - 'A' + 'a' else c
  }

  function AsciiLower(s: string): string {
    seq(|s|, i requires 0 <= i < |s| => LowerChar(s[i]))
  }

  /** Lower-casing, and encoding an international name. */
  datatype Foreign = Foreign(lower: string -> string, idna: string -> Option<string>)

  predicate IdnaOutput(o: string) {
    IsAscii(o) && AsciiLower(o) == o && forall d <- DELIMITERS :: Free(o, d)
  }

  /**
   What is relied on: neither brings a delimiter in, lower-casing is the ASCII one on
   ASCII, and no name with a colon is encoded.
   */
  ghost predicate Sound(f: Foreign) {
    && (forall s :: IsAscii(s) ==> f.lower(s) == AsciiLower(s))
    && (forall s, d :: d in DELIMITERS && Free(s, d) ==> Free(f.lower(s), d))
    && (forall s :: f.idna(s).Some? ==> IdnaOutput(f.idna(s).value) && Free(s, ':'))
  }

  /** Drops the single trailing dot of a fully qualified name. */
  function WithoutRoot(host: string): string {
    if |host| > 0 && host[|host| - 1] == '.' && !(|host| > 1 && host[|host| - 2] == '.') then host[..|host| - 1]
    else host
  }

  function ToAsciiHost(f: Foreign, host: string): Option<string> {
    var name := WithoutRoot(host);
    if IsAscii(name) then Some(AsciiLower(name)) else f.idna(name)
  }

  /* -------------------- reading an authority -------------------- */

  /** The credentials, with their separator. */
  function UserInfo(netloc: string): string {
    netloc[..|netloc| - |AfterLast(netloc, '@')|]
  }

  function HostInfo(netloc: string): (string, string) {
    var info := AfterLast(netloc, '@');
    if '[' in info then
      var bracketed := After(info, '[');
      (Before(bracketed, ']'), After(After(bracketed, ']'), ':'))
    else
      (Before(info, ':'), After(info, ':'))
  }

  /** Lower-cased but for the zone of a scoped address. */
  function Hostname(f: Foreign, netloc: string): string {
    var host := HostInfo(netloc).0;
    f.lower(Before(host, '%')) + if '%' in host then "%" + After(host, '%') else ""
  }

  datatype PortRead = NoPort | Port(n: nat) | BadPort

  function ReadPort(text: string): PortRead {
    if text == "" then NoPort
    else if !AllDigits(text, 10) || Value(text, 10) > 65535 then BadPort
    else Port(Value(text, 10))
  }

  function DefaultPort(scheme: string): PortRead {
    if scheme == "http" then Port(80) else if scheme == "https" then Port(443) else NoPort
  }

  /** The port a client would use. */
  function EffectivePort(scheme: string, netloc: string): PortRead {
    var port := ReadPort(HostInfo(netloc).1);
    if port.NoPort? then DefaultPort(scheme) else port
  }

  /* -------------------- normalisation -------------------- */

  function Shown(host: string, bracketed: bool): string {
    if bracketed then "[" + host + "]" else host
  }

  function ShownPort(port: PortRead): string {
    if port.Port? then ":" + Digits(port.n, Decimal) else ""
  }

  /** The port kept: none, or one that is not the scheme's own. */
  function KeptPort(scheme: string, netloc: string): PortRead {
    var port := ReadPort(HostInfo(netloc).1);
    if port == DefaultPort(scheme) then NoPort else port
  }

  function AsciiHost(f: Foreign, netloc: string): Option<string> {
    ToAsciiHost(f, Hostname(f, netloc))
  }

  predicate Bracketed(f: Foreign, netloc: string)
    requires AsciiHost(f, netloc).Some?
  {
    ':' in AsciiHost(f, netloc).value || '[' in netloc
  }

  /** The normalised authority, or `None` where a host or port cannot be read. */
  function NormalAuthority(f: Foreign, scheme: string, netloc: string): Option<string> {
    if AsciiHost(f, netloc).None? || ReadPort(HostInfo(netloc).1).BadPort? then None
    else
      Some(UserInfo(netloc) + (Shown(AsciiHost(f, netloc).value, Bracketed(f, netloc)) + ShownPort(KeptPort(scheme, netloc))))
  }

  /* -------------------- the host by itself -------------------- */

  lemma LowerTwice(s: string)
    ensures AsciiLower(AsciiLower(s)) == AsciiLower(s)
    ensures IsAscii(s) ==> IsAscii(AsciiLower(s))
  {
  }

  lemma LowerKeepsDots(s: string)
    requires WithoutRoot(s) == s
    ensures WithoutRoot(AsciiLower(s)) == AsciiLower(s)
  {
  }

  /**
   Taking the ASCII form again changes nothing, exactly when the form does not end
   in a root label of its own. An ASCII host never leaves one; an international
   name whose last dot is not an ASCII one can.
   */
  lemma AsciiFormIsStable(f: Foreign, host: string)
    requires Sound(f) && ToAsciiHost(f, host).Some?
    ensures var h := ToAsciiHost(f, host).value;
            && IsAscii(h) && AsciiLower(h) == h
            && (ToAsciiHost(f, h) == Some(h) <==> WithoutRoot(h) == h)
            && (IsAscii(host) ==> WithoutRoot(h) == h)
  {
    var name, h := WithoutRoot(host), ToAsciiHost(f, host).value;
    if IsAscii(name) {
      LowerTwice(name);
    }
    assert WithoutRoot(name) == name;
    if IsAscii(host) {
      LowerKeepsDots(name);
    }
    LowerTwice(WithoutRoot(h));
    if WithoutRoot(h) != h {
      assert |AsciiLower(WithoutRoot(h))| < |h|;
    }
  }

  /* -------------------- reading back what was shown -------------------- */

  lemma PortReadsBack(n: nat)
    requires n <= 65535
    ensures ReadPort(Digits(n, Decimal)) == Port(n)
  {
    DigitsDenote(n, Decimal);
  }

  lemma ShownPortIsPlain(port: PortRead)
    requires !port.BadPort?
    ensures forall i :: 0 <= i < |ShownPort(port)| ==> IsDigit(ShownPort(port)[i], 10) || ShownPort(port)[i] == ':'
  {
    if port.Port? {
      DigitsDenote(port.n, Decimal);
    }
  }

  /** Where a reader is once past the opening bracket. */
  lemma PastTheBracket(host: string, port: PortRead)
    requires Free(host, '@') && !port.BadPort?
    ensures var shown, rest := Shown(host, true) + ShownPort(port), host + "]" + ShownPort(port);
            && Free(shown, '@') && '[' in shown
            && HostInfo(shown) == (Before(rest, ']'), After(After(rest, ']'), ':'))
  {
    var tail := ShownPort(port);
    var shown, rest := Shown(host, true) + tail, host + "]" + tail;
    ShownPortIsPlain(port);
    assert shown == "" + "[" + rest;
    assert Free(shown, '@') by {
      forall i | 0 <= i < |shown| ensures shown[i] != '@' {
        if i >= |host| + 2 {
          assert shown[i] == tail[i - |host| - 2];
        }
      }
    }
    AfterLastOfFree(shown, '@');
    assert shown[0] == '[';
    CutAt("", rest, '[');
  }

  /** A bracketed host and port are read back as they were shown. */
  lemma BracketedReadsBack(host: string, port: PortRead)
    requires Free(host, ']') && Free(host, '@')
    requires port.NoPort? || (port.Port? && port.n <= 65535)
    ensures var shown := Shown(host, true) + ShownPort(port);
            Free(shown, '@') && HostInfo(shown).0 == host && ReadPort(HostInfo(shown).1) == port && '[' in shown
  {
    PastTheBracket(host, port);
    CutAt(host, ShownPort(port), ']');
    TailReadsBack(port);
  }

  lemma TailReadsBack(port: PortRead)
    requires port.NoPort? || (port.Port? && port.n <= 65535)
    ensures ReadPort(After(ShownPort(port), ':')) == port
  {
    if port.Port? {
      PortReadsBack(port.n);
      assert ShownPort(port) == "" + ":" + Digits(port.n, Decimal);
      CutAt("", Digits(port.n, Decimal), ':');
    }
  }

  /** So are a bare host and port. */
  lemma BareReadsBack(host: string, port: PortRead)
    requires Free(host, '[') && Free(host, '@') && Free(host, ':')
    requires port.NoPort? || (port.Port? && port.n <= 65535)
    ensures var shown := Shown(host, false) + ShownPort(port);
            Free(shown, '@') && HostInfo(shown).0 == host && ReadPort(HostInfo(shown).1) == port && '[' !in shown
  {
    var tail := ShownPort(port);
    var shown := host + tail;
    ShownPortIsPlain(port);
    forall i | 0 <= i < |shown| ensures shown[i] != '@' && shown[i] != '[' {
      if i >= |host| {
        assert shown[i] == tail[i - |host|];
      }
    }
    AfterLastOfFree(shown, '@');
    if port.Port? {
      assert shown == host + ":" + Digits(port.n, Decimal);
      CutAt(host, Digits(port.n, Decimal), ':');
      PortReadsBack(port.n);
    } else {
      assert shown == host;
      CutNowhere(host, ':');
    }
  }
}
