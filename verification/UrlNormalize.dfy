/**
 Whole URLs: splitting a string into its components, putting components back
 together, and normalising. For http and https, on strings without control
 characters, which is what admission lets through.
 */
module UrlNormalize {
  import opened Wrappers
  import opened Seqs
  import opened Text
  import opened UrlAuthority
  import opened UrlNormalAuthority

  datatype Parsed = Parsed(scheme: string, netloc: string, path: string, params: string, query: string)

  predicate IsSchemeChar(c: char) {
    'a' <= c <= 'z' || 'A' <= c <= 'Z' || '0' <= c <= '9' || c == '+' || c == '-' || c == '.'
  }

  predicate IsLetter(c: char) {
    'a' <= c <= 'z' || 'A' <= c <= 'Z'
  }

  predicate IsScheme(s: string) {
    s != "" && IsLetter(s[0]) && forall i :: 0 <= i < |s| ==> IsSchemeChar(s[i])
  }

  function Stripped(s: string): string {
    if s != "" && s[0] == ' ' then Stripped(s[1..]) else s
  }

  /** Up to the first character that ends an authority. */
  function NetlocOf(s: string): string {
    if s == "" || s[0] in "/?#" then "" else [s[0]] + NetlocOf(s[1..])
  }

  lemma {:induction false} NetlocIsAPrefix(s: string)
    ensures |NetlocOf(s)| <= |s| && s == NetlocOf(s) + s[|NetlocOf(s)|..]
    ensures forall i :: 0 <= i < |NetlocOf(s)| ==> NetlocOf(s)[i] !in "/?#"
    ensures |NetlocOf(s)| < |s| ==> s[|NetlocOf(s)|] in "/?#"
  {
    if s != "" && s[0] !in "/?#" {
      NetlocIsAPrefix(s[1..]);
    }
  }

  function RestAfterNetloc(s: string): string {
    NetlocIsAPrefix(s);
    s[|NetlocOf(s)|..]
  }

  /** The path without the parameters of its last segment. */
  function PathOf(s: string): string {
    if '/' in s then s[..|s| - |AfterLast(s, '/')|] + Before(AfterLast(s, '/'), ';') else Before(s, ';')
  }

  function ParamsOf(s: string): string {
    if '/' in s then After(AfterLast(s, '/'), ';') else After(s, ';')
  }

  /** `None` where there is no scheme or no authority. The fragment is read and let go. */
  function Parse(url: string): Option<Parsed> {
    var s := Stripped(url);
    var scheme := Before(s, ':');
    if ':' !in s || !IsScheme(scheme) then None
    else
      var rest := After(s, ':');
      if |rest| < 2 || rest[..2] != "//" then None else Some(ParseRest(AsciiLower(scheme), rest[2..]))
  }

  function ParseRest(scheme: string, rest: string): Parsed {
    var upToFragment := Before(RestAfterNetloc(rest), '#');
    var place := Before(upToFragment, '?');
    Parsed(scheme, NetlocOf(rest), PathOf(place), ParamsOf(place), After(upToFragment, '?'))
  }

  /** Empty parameters and an empty query leave no mark. */
  function Unparse(p: Parsed): string {
    p.scheme + ":" + ("//" + (p.netloc + (Place(p) + Question(p))))
  }

  function Place(p: Parsed): string {
    p.path + if p.params == "" then "" else ";" + p.params
  }

  function Question(p: Parsed): string {
    if p.query == "" then "" else "?" + p.query
  }

  /** The components of the normalised URL. */
  function NormalParts(f: Foreign, p: Parsed): Option<Parsed> {
    match NormalAuthority(f, p.scheme, p.netloc)
    case None => None
    case Some(netloc) => Some(p.(netloc := netloc, path := if p.path == "" then "/" else p.path))
  }

  function Normalize(f: Foreign, url: string): Option<string> {
    match Parse(url)
    case None => None
    case Some(p) =>
      match NormalParts(f, p)
      case None => None
      case Some(n) => Some(Unparse(n))
  }

  /* -------------------- reading back -------------------- */

  /** What components taken from a string look like, once the path is not empty. */
  predicate WellFormed(p: Parsed) {
    && IsScheme(p.scheme) && AsciiLower(p.scheme) == p.scheme
    && (forall i :: 0 <= i < |p.netloc| ==> p.netloc[i] !in "/?#")
    && p.path != "" && p.path[0] == '/' && Free(p.path, '?') && Free(p.path, '#')
    && Free(AfterLast(p.path, '/'), ';')
    && Free(p.params, '/') && Free(p.params, '?') && Free(p.params, '#')
    && Free(p.query, '#')
  }

  lemma {:induction false} NetlocReadsBack(netloc: string, rest: string)
    requires forall i :: 0 <= i < |netloc| ==> netloc[i] !in "/?#"
    requires rest != "" && rest[0] in "/?#"
    ensures NetlocOf(netloc + rest) == netloc && RestAfterNetloc(netloc + rest) == rest
  {
    if netloc != "" {
      NetlocReadsBack(netloc[1..], rest);
      assert (netloc + rest)[1..] == netloc[1..] + rest;
    } else {
      assert netloc + rest == rest;
    }
    assert NetlocOf(netloc + rest) == netloc;
  }

  /** Path and parameters are read back as they were put together. */
  lemma PlaceReadsBack(p: Parsed)
    requires WellFormed(p)
    ensures PathOf(Place(p)) == p.path && ParamsOf(Place(p)) == p.params
  {
    var tail := if p.params == "" then "" else ";" + p.params;
    var s, last := Place(p), AfterLast(p.path, '/');
    assert s[0] == p.path[0];
    PlaceAfterLast(p.path, tail);
    LastSegmentReadsBack(last, p.params);
    assert p.path == p.path[..|p.path| - |last|] + last by {
      var head := AfterLastIsATail(p.path, '/');
    }
  }

  /** Parameters do not move the last slash. */
  lemma PlaceAfterLast(path: string, tail: string)
    requires '/' in path && Free(tail, '/')
    ensures var s, last := path + tail, AfterLast(path, '/');
            AfterLast(s, '/') == last + tail && s[..|s| - |last + tail|] == path[..|path| - |last|]
  {
    AfterLastOfConcat(path, tail, '/');
    var head := AfterLastIsATail(path, '/');
  }

  lemma LastSegmentReadsBack(last: string, params: string)
    requires Free(last, ';')
    ensures var s := last + if params == "" then "" else ";" + params;
            Before(s, ';') == last && After(s, ';') == params
  {
    if params == "" {
      assert last + "" == last;
      CutNowhere(last, ';');
    } else {
      assert last + (";" + params) == last + ";" + params;
      CutAt(last, params, ';');
    }
  }

  lemma PlaceIsPlain(p: Parsed)
    requires WellFormed(p)
    ensures Free(Place(p), '?') && Free(Place(p), '#') && Place(p) != "" && Place(p)[0] == '/'
  {
  }

  lemma QuestionReadsBack(p: Parsed)
    requires WellFormed(p)
    ensures var s := Place(p) + Question(p);
            Free(s, '#') && Before(s, '?') == Place(p) && After(s, '?') == p.query
  {
    PlaceIsPlain(p);
    if p.query == "" {
      assert Place(p) + Question(p) == Place(p);
      CutNowhere(Place(p), '?');
    } else {
      assert Place(p) + Question(p) == Place(p) + "?" + p.query;
      CutAt(Place(p), p.query, '?');
    }
  }

  /** Parsing undoes putting together. */
  lemma UnparseReadsBack(p: Parsed)
    requires WellFormed(p)
    ensures Parse(Unparse(p)) == Some(p)
  {
    var rest := p.netloc + (Place(p) + Question(p));
    SchemeReadsBack(p.scheme, "//" + rest);
    SlashesReadBack(rest);
    RestReadsBack(p);
  }

  lemma SlashesReadBack(rest: string)
    ensures ("//" + rest)[..2] == "//" && ("//" + rest)[2..] == rest
  {
  }

  lemma RestReadsBack(p: Parsed)
    requires WellFormed(p)
    ensures ParseRest(p.scheme, p.netloc + (Place(p) + Question(p))) == p
  {
    var tail := Place(p) + Question(p);
    PlaceIsPlain(p);
    PlaceReadsBack(p);
    QuestionReadsBack(p);
    NetlocReadsBack(p.netloc, tail);
    CutNowhere(tail, '#');
  }

  lemma SchemeReadsBack(scheme: string, rest: string)
    requires IsScheme(scheme)
    ensures var s := scheme + ":" + rest;
            Stripped(s) == s && ':' in s && Before(s, ':') == scheme && After(s, ':') == rest
  {
    var s := scheme + ":" + rest;
    assert s[0] == scheme[0] && s[|scheme|] == ':';
    CutAt(scheme, rest, ':');
  }

  /** The components of any string that parses, with a path put in where there is none. */
  lemma ParsedIsWellFormed(url: string)
    requires Parse(url).Some?
    ensures var p := Parse(url).value;
            WellFormed(p.(path := if p.path == "" then "/" else p.path))
  {
    var s := Stripped(url);
    var rest := After(s, ':')[2..];
    var after := RestAfterNetloc(rest);
    var upToFragment := Before(after, '#');
    var place := Before(upToFragment, '?');
    SchemeInLowerCase(Before(s, ':'));
    NetlocIsAPrefix(rest);
    CutJoins(after, '#');
    CutKeepsFree(upToFragment, '?', '#');
    CutJoins(upToFragment, '?');
    if place != "" {
      assert place[0] == upToFragment[0] == after[0];
      assert after[0] == rest[|NetlocOf(rest)|];
    }
    PlaceIsWellFormed(place);
  }

  lemma SchemeInLowerCase(s: string)
    requires IsScheme(s)
    ensures IsScheme(AsciiLower(s)) && AsciiLower(AsciiLower(s)) == AsciiLower(s)
  {
    LowerTwice(s);
  }

  lemma PlaceIsWellFormed(place: string)
    requires Free(place, '?') && Free(place, '#') && (place != "" ==> place[0] == '/')
    ensures var path := if PathOf(place) == "" then "/" else PathOf(place);
            && path[0] == '/' && Free(path, '?') && Free(path, '#') && Free(AfterLast(path, '/'), ';')
            && Free(ParamsOf(place), '/') && Free(ParamsOf(place), '?') && Free(ParamsOf(place), '#')
  {
    if place != "" {
      var last := AfterLast(place, '/');
      var head := AfterLastIsATail(place, '/');
      HeadOf(place, '/', head);
      forall d | d == '?' || d == '#' ensures Free(last, d) && Free(head, d) {
        assert last == place[|head|..];
      }
      CutKeepsFree(last, ';', '?');
      CutKeepsFree(last, ';', '#');
      CutKeepsFree(last, ';', '/');
      CutJoins(last, ';');
      var path := PathOf(place);
      assert path == head + Before(last, ';') && head[|head| - 1] == '/';
      NothingAfterLast(head, '/');
      AfterLastOfConcat(head, Before(last, ';'), '/');
      assert "" + Before(last, ';') == Before(last, ';');
      assert path[0] == place[0];
    }
  }

  /* -------------------- normalising twice -------------------- */

  lemma NormalNetlocStaysFree(f: Foreign, scheme: string, netloc: string, d: char)
    requires Sound(f) && NormalAuthority(f, scheme, netloc).Some?
    requires d in "/?#" && Free(netloc, d)
    ensures Free(NormalAuthority(f, scheme, netloc).value, d)
  {
    NormalShape(f, scheme, netloc);
    HostOfNetloc(netloc);
    UserInfoEnds(netloc);
    assert d in DELIMITERS;
    AsciiHostStaysFree(f, netloc, d);
    ShownStaysFree(AsciiHost(f, netloc).value, '[' in netloc, KeptPort(scheme, netloc), d);
  }

  lemma ShownStaysFree(h: string, bracketed: bool, port: PortRead, d: char)
    requires Free(h, d) && d in "/?#" && !port.BadPort?
    ensures Free(Shown(h, bracketed) + ShownPort(port), d)
  {
    ShownPortIsPlain(port);
  }

  lemma NormalPartsAreWellFormed(f: Foreign, p: Parsed)
    requires Sound(f) && NormalParts(f, p).Some?
    requires WellFormed(p.(path := if p.path == "" then "/" else p.path))
    ensures WellFormed(NormalParts(f, p).value)
  {
    var n := NormalParts(f, p).value;
    assert forall i :: 0 <= i < |p.netloc| ==> p.netloc[i] !in "/?#";
    assert Free(p.netloc, '/') && Free(p.netloc, '?') && Free(p.netloc, '#') by {
      assert '/' in "/?#" && '?' in "/?#" && '#' in "/?#";
    }
    NormalNetlocStaysFree(f, p.scheme, p.netloc, '/');
    NormalNetlocStaysFree(f, p.scheme, p.netloc, '?');
    NormalNetlocStaysFree(f, p.scheme, p.netloc, '#');
    assert forall i :: 0 <= i < |n.netloc| ==> n.netloc[i] !in "/?#";
  }

  /**
   Normalising a second time changes nothing exactly when the ASCII form of the host
   does not end in a single dot and, with brackets among the credentials, holds no
   closing one.
   */
  lemma NormalizeTwice(f: Foreign, url: string)
    requires Sound(f) && Normalize(f, url).Some?
    ensures var netloc, t := Parse(url).value.netloc, Normalize(f, url).value;
            && Normalize(f, t).Some?
            && (Normalize(f, t).value == t <==>
                  WithoutRoot(AsciiHost(f, netloc).value) == AsciiHost(f, netloc).value && !Torn(f, netloc))
  {
    var p := Parse(url).value;
    var n := NormalParts(f, p).value;
    ParsedIsWellFormed(url);
    NormalPartsAreWellFormed(f, p);
    UnparseReadsBack(n);
    AuthorityTwice(f, p.scheme, p.netloc);
    var again := NormalParts(f, n).value;
    assert again == n.(netloc := NormalAuthority(f, p.scheme, n.netloc).value);
    NormalPartsAreWellFormed(f, n);
    UnparseReadsBack(again);
  }

  /** Two URLs normalise alike exactly when their components do. */
  lemma NormalFormsAgree(f: Foreign, url: string, other: string)
    requires Sound(f) && Normalize(f, url).Some? && Normalize(f, other).Some?
    requires Free(Parse(url).value.netloc, '@') && Free(Parse(other).value.netloc, '@')
    requires Parse(url).value.scheme in {"http", "https"} && Parse(other).value.scheme in {"http", "https"}
    ensures var p, q := Parse(url).value, Parse(other).value;
            Normalize(f, url) == Normalize(f, other)
            <==> (&& p.scheme == q.scheme && AsciiHost(f, p.netloc) == AsciiHost(f, q.netloc)
                  && ('[' in p.netloc <==> '[' in q.netloc)
                  && EffectivePort(p.scheme, p.netloc) == EffectivePort(q.scheme, q.netloc)
                  && (if p.path == "" then "/" else p.path) == (if q.path == "" then "/" else q.path)
                  && p.params == q.params && p.query == q.query)
  {
    var p, q := Parse(url).value, Parse(other).value;
    ParsedIsWellFormed(url);
    ParsedIsWellFormed(other);
    NormalPartsAreWellFormed(f, p);
    NormalPartsAreWellFormed(f, q);
    UnparseReadsBack(NormalParts(f, p).value);
    UnparseReadsBack(NormalParts(f, q).value);
    SameAuthority(f, p.scheme, p.netloc, q.scheme, q.netloc);
  }

  /* -------------------- what leaves no mark -------------------- */

  /** Spaces in front are not part of a URL. */
  lemma LeadingSpacesAreDropped(url: string)
    ensures Parse(" " + url) == Parse(url)
  {
    assert (" " + url)[1..] == url;
    assert Stripped(" " + url) == Stripped(url);
  }

  /** A scheme is read in lower case. */
  lemma SchemeCaseIsDropped(scheme: string, rest: string)
    requires IsScheme(scheme)
    ensures Parse(scheme + ":" + rest) == Parse(AsciiLower(scheme) + ":" + rest)
    ensures Parse(scheme + ":" + rest).Some? ==> Parse(scheme + ":" + rest).value.scheme == AsciiLower(scheme)
  {
    SchemeInLowerCase(scheme);
    SchemeReadsBack(scheme, rest);
    SchemeReadsBack(AsciiLower(scheme), rest);
  }

  lemma {:induction false} NetlocBeforeFragment(s: string, fragment: string)
    requires Free(s, '#')
    ensures NetlocOf(s + "#" + fragment) == NetlocOf(s)
    ensures RestAfterNetloc(s + "#" + fragment) == RestAfterNetloc(s) + "#" + fragment
  {
    var all := s + "#" + fragment;
    if s == "" || s[0] in "/?#" {
      assert s != "" ==> all[0] == s[0];
      assert all[0..] == all && s[0..] == s;
    } else {
      assert all[0] == s[0] && all[1..] == s[1..] + "#" + fragment;
      NetlocBeforeFragment(s[1..], fragment);
      NetlocIsAPrefix(s);
      assert all[|NetlocOf(s)|..] == s[|NetlocOf(s)|..] + "#" + fragment;
    }
  }

  /** A fragment is no part of what is compared. */
  lemma FragmentsAreDropped(scheme: string, rest: string, fragment: string)
    requires IsScheme(scheme) && Free(rest, '#')
    ensures Parse(scheme + ":" + ("//" + (rest + "#" + fragment))) == Parse(scheme + ":" + ("//" + rest))
  {
    var marked := rest + "#" + fragment;
    SchemeReadsBack(scheme, "//" + marked);
    SchemeReadsBack(scheme, "//" + rest);
    SlashesReadBack(marked);
    SlashesReadBack(rest);
    NetlocBeforeFragment(rest, fragment);
    var after := RestAfterNetloc(rest);
    assert Free(after, '#') by {
      NetlocIsAPrefix(rest);
    }
    CutAt(after, fragment, '#');
    CutNowhere(after, '#');
  }
}
