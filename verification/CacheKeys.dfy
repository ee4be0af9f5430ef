/** Deduplication scopes, and the strings cache entries are filed under. */
module CacheKeys {
  import opened Wrappers
  import opened Seqs

  datatype Scope = Scope(ownerId: Option<string>, guestIdentifier: Option<string>) {
    function Token(): string {
      if ownerId.Some? then "u:" + ownerId.value
      else if guestIdentifier.Some? then "g:" + guestIdentifier.value
      else "anon"
    }
  }

  /**
   Whose links a URL is compared with before a new one is made. Ownership wins: a
   built scope with an owner carries no address.
   */
  type DedupScope = s: Scope | s.ownerId.Some? ==> s.guestIdentifier.None? witness Scope(None, None)

  function BuildScope(ownerId: Option<string>, guestIdentifier: Option<string>): DedupScope {
    Scope(ownerId, if ownerId.Some? then None else guestIdentifier)
  }

  const HASH_LENGTH := 64

  predicate IsLowerHex(c: char) {
    '0' <= c <= '9' || 'a' <= c <= 'f'
  }

  /** A SHA-256 digest in lower-case hexadecimal. */
  type UrlHash = s: string | |s| == HASH_LENGTH && forall i :: 0 <= i < |s| ==> IsLowerHex(s[i])
    witness seq(HASH_LENGTH, _ => '0')

  /** What an entry is about. */
  datatype Key =
    | Code(code: string)
    | Hash(hash: UrlHash, scope: DedupScope)
    | Redirect(code: string)
    | Stats

  function Parts(key: Key): seq<string> {
    match key
    case Redirect(code) => ["redirect", code]
    case Code(code) => ["code", code]
    case Hash(hash, scope) => ["hash", scope.Token(), hash]
    case Stats => ["stats", "global"]
  }

  /** The key string: the prefix and the parts, joined by colons. */
  function Render(prefix: string, key: Key): string {
    Join([prefix] + Parts(key), ':')
  }

  /* -------------------- no two things share a key -------------------- */

  lemma SameTail(a: string, b: string, x: string, y: string)
    requires |a| == |b| && a + x == b + y
    ensures a == b && x == y
  {
    assert a == (a + x)[..|a|] && b == (b + y)[..|b|];
    assert x == (a + x)[|a|..] && y == (b + y)[|b|..];
  }

  lemma SameHead(a: string, b: string, x: string, y: string)
    requires |x| == |y| && a + x == b + y
    ensures a == b && x == y
  {
    assert |a| == |b|;
    SameTail(a, b, x, y);
  }

  /** Two scopes share a token exactly when they are the same scope. */
  lemma TokensAreInjective(s: DedupScope, r: DedupScope)
    ensures s.Token() == r.Token() <==> s == r
  {
    if s.Token() == r.Token() {
      assert s.Token()[0] == r.Token()[0];
      if s.ownerId.Some? {
        SameTail("u:", "u:", s.ownerId.value, r.ownerId.value);
      } else if s.guestIdentifier.Some? {
        SameTail("g:", "g:", s.guestIdentifier.value, r.guestIdentifier.value);
      }
    }
  }

  /** Two callers share a token exactly when they are one account, or neither is and one guest. */
  lemma CallersShareATokenExactly(owner: Option<string>, guest: Option<string>, owner2: Option<string>, guest2: Option<string>)
    ensures BuildScope(owner, guest).Token() == BuildScope(owner2, guest2).Token()
       <==> owner == owner2 && (owner.None? ==> guest == guest2)
  {
    TokensAreInjective(BuildScope(owner, guest), BuildScope(owner2, guest2));
  }

  /** What follows the prefix and its colon. */
  function Suffix(key: Key): string {
    match key
    case Redirect(code) => "redirect:" + code
    case Code(code) => "code:" + code
    case Hash(hash, scope) => "hash:" + (scope.Token() + (":" + hash))
    case Stats => "stats:global"
  }

  lemma RenderIsPrefixed(prefix: string, key: Key)
    ensures Render(prefix, key) == prefix + ":" + Suffix(key)
  {
    JoinOfCons(prefix, Parts(key), ':');
    assert Join(Parts(key), ':') == Suffix(key) by {
      match key
      case Redirect(code) => JoinTwo("redirect", code);
      case Code(code) => JoinTwo("code", code);
      case Hash(hash, scope) => JoinThree("hash", scope.Token(), hash);
      case Stats => JoinTwo("stats", "global");
    }
  }

  lemma JoinTwo(a: string, b: string)
    ensures Join([a, b], ':') == a + ":" + b
  {
    JoinOfCons(a, [b], ':');
  }

  lemma JoinThree(a: string, b: string, c: string)
    ensures Join([a, b, c], ':') == a + ":" + (b + (":" + c))
  {
    assert [a, b, c] == [a] + [b, c];
    JoinOfCons(a, [b, c], ':');
    JoinTwo(b, c);
    assert b + ":" + c == b + (":" + c);
  }

  /**
   Under one prefix no two entries share a key, across all four kinds, whatever
   colons a guest identifier or an account id contains.
   */
  lemma KeysAreInjective(prefix: string, k: Key, m: Key)
    ensures Render(prefix, k) == Render(prefix, m) <==> k == m
  {
    if Render(prefix, k) == Render(prefix, m) {
      RenderIsPrefixed(prefix, k);
      RenderIsPrefixed(prefix, m);
      SameTail(prefix + ":", prefix + ":", Suffix(k), Suffix(m));
      SuffixesAreInjective(k, m);
    }
  }

  lemma SuffixesAreInjective(k: Key, m: Key)
    requires Suffix(k) == Suffix(m)
    ensures k == m
  {
    assert Suffix(k)[0] == Suffix(m)[0];
    match k
    case Redirect(code) => SameTail("redirect:", "redirect:", code, m.code);
    case Code(code) => SameTail("code:", "code:", code, m.code);
    case Hash(hash, scope) =>
      SameTail("hash:", "hash:", scope.Token() + (":" + hash), m.scope.Token() + (":" + m.hash));
      SameHead(scope.Token(), m.scope.Token(), ":" + hash, ":" + m.hash);
      SameTail(":", ":", hash, m.hash);
      TokensAreInjective(scope, m.scope);
    case Stats =>
  }

  /** The letter after the prefix that tells the kinds apart. */
  function Kind(prefix: string, s: string): char {
    if |s| > |prefix| + 1 then s[|prefix| + 1] else ' '
  }

  lemma KindOfRender(prefix: string, key: Key)
    ensures Kind(prefix, Render(prefix, key)) == match key
      case Redirect(_) => 'r'
      case Code(_) => 'c'
      case Hash(_, _) => 'h'
      case Stats => 's'
  {
    RenderIsPrefixed(prefix, key);
    assert Render(prefix, key)[|prefix| + 1] == Suffix(key)[0];
  }
}
