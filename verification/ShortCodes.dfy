/** Short codes: the front of a digest in the URL-safe Base64 alphabet. */
module ShortCodes {
  import opened Wrappers

  type Octet = n: nat | n < 256

  /** The letter of a value below 64: A-Z, a-z, 0-9, hyphen, underscore. */
  function Letter(v: nat): char
    requires v < 64
  {
    if v < 26 then 'A' + v as char
    else if v < 52 then 'a' + (v - 26) as char
    else if v < 62 then '0' + (v - 52) as char
    else if v == 62 then '-' else '_'
  }

  /** A value of six bits. */
  type Six = v: nat | v < 64

  /** Three octets cut into four times six bits. */
  function First(a: Octet): Six { a / 4 }

  function Second(a: Octet, b: Octet): Six { a % 4 * 16 + b / 16 }

  function Third(b: Octet, c: Octet): Six { b % 16 * 4 + c / 64 }

  function Fourth(c: Octet): Six { c % 64 }

  /** URL-safe Base64, padded: three octets make four letters. */
  function Encode(d: seq<Octet>): string {
    if d == [] then ""
    else if |d| == 1 then [Letter(First(d[0])), Letter(Second(d[0], 0)), '=', '=']
    else if |d| == 2 then [Letter(First(d[0])), Letter(Second(d[0], d[1])), Letter(Third(d[1], 0)), '=']
    else FirstGroup(d) + Encode(d[3..])
  }

  function FirstGroup(d: seq<Octet>): string
    requires |d| >= 3
  {
    [Letter(First(d[0])), Letter(Second(d[0], d[1])), Letter(Third(d[1], d[2])), Letter(Fourth(d[2]))]
  }

  function StripPadding(s: string): string {
    if s != "" && s[|s| - 1] == '=' then StripPadding(s[..|s| - 1]) else s
  }

  function Cut(s: string, n: nat): string {
    if n <= |s| then s[..n] else s
  }

  /* -------------------- the generator -------------------- */

  const MIN_LENGTH := 6
  const MAX_LENGTH := 10

  predicate IsCodeChar(c: char) {
    'a' <= c <= 'z' || 'A' <= c <= 'Z' || '0' <= c <= '9' || c == '_' || c == '-'
  }

  /** The form every short code has. */
  predicate IsShortCode(s: string) {
    MIN_LENGTH <= |s| <= MAX_LENGTH && forall i :: 0 <= i < |s| ==> IsCodeChar(s[i])
  }

  datatype Settings = Settings(codeLength: nat, minLength: nat, maxLength: nat)

  /** How many octets the code needs. */
  function NeedBytes(length: nat): nat {
    (length * 6 + 7) / 8
  }

  /** `None` where the settings are refused, or what comes out is no short code. */
  function Generate(settings: Settings, digest: seq<Octet>): Option<string> {
    if !(settings.minLength <= settings.codeLength <= settings.maxLength) then None
    else
      var target := if settings.codeLength >= settings.minLength then settings.codeLength else settings.minLength;
      var need := NeedBytes(target);
      var front := if need <= |digest| then digest[..need] else digest;
      var code := Cut(StripPadding(Encode(front)), settings.codeLength);
      if IsShortCode(code) then Some(code) else None
  }

  /* -------------------- which bits a letter shows -------------------- */

  /** The octet at `i`, and zero past the end. */
  function At(d: seq<Octet>, i: nat): Octet {
    if i < |d| then d[i] else 0
  }

  /** How far the six bits of letter `k` stand from the end of their two octets. */
  function Shift(k: nat): nat {
    match k % 4 case 0 => 1024 case 1 => 16 case 2 => 64 case _ => 256
  }

  /** Bits `6k` to `6k + 5` of the digest, read from the two octets they lie in. */
  function Sextet(d: seq<Octet>, k: nat): Six {
    (256 * At(d, 6 * k / 8) + At(d, 6 * k / 8 + 1)) / Shift(k) % 64
  }

  /** How many letters `n` octets make, without padding. */
  function Letters(n: nat): nat {
    (8 * n + 5) / 6
  }

  /** The digest letter by letter. */
  function Spelled(d: seq<Octet>, length: nat): string {
    seq(length, k requires 0 <= k => Letter(Sextet(d, k)))
  }

  lemma SextetsOfTheRest(d: seq<Octet>, k: nat)
    requires |d| >= 3
    ensures Sextet(d, k + 4) == Sextet(d[3..], k)
  {
    FourLettersOn(k);
    var i := 6 * k / 8;
    assert At(d, i + 3) == At(d[3..], i) && At(d, i + 4) == At(d[3..], i + 1);
  }

  lemma FourLettersOn(k: nat)
    ensures 6 * (k + 4) / 8 == 6 * k / 8 + 3 && (k + 4) % 4 == k % 4 && Shift(k + 4) == Shift(k)
  {
  }

  lemma FirstSextets(d: seq<Octet>)
    ensures Sextet(d, 0) == First(At(d, 0))
    ensures Sextet(d, 1) == Second(At(d, 0), At(d, 1))
    ensures Sextet(d, 2) == Third(At(d, 1), At(d, 2))
    ensures Sextet(d, 3) == Fourth(At(d, 2))
  {
    TopSix(At(d, 0), At(d, 1));
    SplitTwoFour(At(d, 0), At(d, 1));
    SplitFourTwo(At(d, 1), At(d, 2));
    LowSix(At(d, 2), At(d, 3));
  }

  lemma TopSix(a: nat, b: nat)
    requires a < 256 && b < 256
    ensures (256 * a + b) / 1024 % 64 == a / 4
  {
    assert a == 4 * (a / 4) + a % 4;
    assert (256 * a + b) / 1024 == a / 4;
  }

  lemma SplitTwoFour(a: nat, b: nat)
    requires a < 256 && b < 256
    ensures (256 * a + b) / 16 % 64 == a % 4 * 16 + b / 16
  {
    assert (256 * a + b) / 16 == 16 * a + b / 16;
    assert 16 * a == 64 * (a / 4) + 16 * (a % 4);
  }

  lemma SplitFourTwo(b: nat, c: nat)
    requires b < 256 && c < 256
    ensures (256 * b + c) / 64 % 64 == b % 16 * 4 + c / 64
  {
    assert (256 * b + c) / 64 == 4 * b + c / 64;
    assert 4 * b == 64 * (b / 16) + 4 * (b % 16);
  }

  lemma LowSix(c: nat, e: nat)
    requires c < 256 && e < 256
    ensures (256 * c + e) / 256 % 64 == c % 64
  {
    assert (256 * c + e) / 256 == c;
  }

  /* -------------------- the encoding, letter by letter -------------------- */

  lemma AlphabetIsPlain(sextet: nat)
    requires sextet < 64
    ensures IsCodeChar(Letter(sextet)) && Letter(sextet) != '='
  {
  }

  /** Different letters for different bits. */
  lemma AlphabetIsInjective(u: nat, v: nat)
    requires u < 64 && v < 64
    ensures Letter(u) == Letter(v) <==> u == v
  {
  }

  /** The value a character of the alphabet of section 5 of RFC 4648 stands for. */
  function ValueOf(c: char): Option<nat> {
    if 'A' <= c <= 'Z' then Some(c as int - 'A' as int)
    else if 'a' <= c <= 'z' then Some(26 + c as int - 'a' as int)
    else if '0' <= c <= '9' then Some(52 + c as int - '0' as int)
    else if c == '-' then Some(62)
    else if c == '_' then Some(63)
    else None
  }

  /** Letters and values are one to one, and the letters are those of short codes. */
  lemma LettersAreInverse(v: nat, c: char)
    ensures v < 64 ==> ValueOf(Letter(v)) == Some(v)
    ensures ValueOf(c).Some? <==> IsCodeChar(c)
    ensures ValueOf(c).Some? ==> ValueOf(c).value < 64 && Letter(ValueOf(c).value) == c
  {
  }

  function Padding(n: nat): string {
    match n % 3 case 0 => "" case 1 => "==" case _ => "="
  }

  /** The encoding is the digest spelled in six-bit letters, then padding. */
  lemma {:induction false} EncodeSpells(d: seq<Octet>)
    ensures Encode(d) == Spelled(d, Letters(|d|)) + Padding(|d|)
  {
    if |d| < 3 {
      ShortEncodes(d);
    } else {
      EncodeSpells(d[3..]);
      SpelledInGroups(d);
      var rest := Spelled(d[3..], Letters(|d| - 3));
      assert Encode(d) == FirstGroup(d) + (rest + Padding(|d| - 3)) == (FirstGroup(d) + rest) + Padding(|d|);
    }
  }

  lemma ShortEncodes(d: seq<Octet>)
    requires |d| < 3
    ensures Encode(d) == Spelled(d, Letters(|d|)) + Padding(|d|)
  {
    SmallCounts();
    if |d| == 1 {
      OneOctet(d);
    } else if |d| == 2 {
      TwoOctets(d);
    }
  }

  lemma SmallCounts()
    ensures Letters(0) == 0 && Letters(1) == 2 && Letters(2) == 3
    ensures Padding(0) == "" && Padding(1) == "==" && Padding(2) == "="
  {
  }

  lemma OneOctet(d: seq<Octet>)
    requires |d| == 1
    ensures Encode(d) == Spelled(d, 2) + "=="
  {
    FirstSextets(d);
    assert Spelled(d, 2) == [Letter(First(d[0])), Letter(Second(d[0], 0))];
  }

  lemma TwoOctets(d: seq<Octet>)
    requires |d| == 2
    ensures Encode(d) == Spelled(d, 3) + "="
  {
    FirstSextets(d);
    assert Spelled(d, 3) == [Letter(First(d[0])), Letter(Second(d[0], d[1])), Letter(Third(d[1], 0))];
  }

  lemma SpelledInGroups(d: seq<Octet>)
    requires |d| >= 3
    ensures Letters(|d|) == Letters(|d| - 3) + 4
    ensures Spelled(d, Letters(|d|)) == FirstGroup(d) + Spelled(d[3..], Letters(|d| - 3))
  {
    var n := Letters(|d| - 3);
    assert Letters(|d|) == n + 4;
    FirstSextets(d);
    forall k: nat | k < n ensures Sextet(d, k + 4) == Sextet(d[3..], k) {
      SextetsOfTheRest(d, k);
    }
    var all, parts := Spelled(d, n + 4), FirstGroup(d) + Spelled(d[3..], n);
    forall k | 0 <= k < n + 4 ensures all[k] == parts[k] {
      if k >= 4 {
        assert Sextet(d, (k - 4) + 4) == Sextet(d[3..], k - 4);
      }
    }
  }

  lemma StripSpelled(d: seq<Octet>, length: nat, n: nat)
    ensures StripPadding(Spelled(d, length) + Padding(n)) == Spelled(d, length)
  {
    var s := Spelled(d, length);
    if length > 0 {
      AlphabetIsPlain(Sextet(d, length - 1));
    }
    assert StripPadding(s) == s;
    assert s + "" == s;
    assert (s + "=")[..|s|] == s;
    assert StripPadding(s + "=") == s;
    assert (s + "==")[..|s| + 1] == s + "=";
  }

  /** Letters of a front that reaches far enough are letters of the whole. */
  lemma FrontSpellsTheSame(d: seq<Octet>, n: nat, k: nat)
    requires n <= |d| && 6 * k + 6 <= 8 * n
    ensures Sextet(d[..n], k) == Sextet(d, k)
  {
    var i := 6 * k / 8;
    assert i < n && At(d[..n], i) == At(d, i);
    if i + 1 >= n {
      LastOctetIsEnough(k);
      TailIsIgnored(At(d, i), At(d, i + 1), k);
      TailIsIgnored(At(d, i), 0, k);
    } else {
      assert At(d[..n], i + 1) == At(d, i + 1);
    }
  }

  /** Six bits that end with their octet lie in it alone. */
  lemma LastOctetIsEnough(k: nat)
    requires 6 * k + 6 <= 8 * (6 * k / 8 + 1)
    ensures k % 4 == 0 || k % 4 == 3
  {
    var q, r := k / 4, k % 4;
    assert k == 4 * q + r;
    assert 6 * k / 8 == 3 * q + 6 * r / 8;
  }

  lemma TailIsIgnored(a: nat, b: nat, k: nat)
    requires a < 256 && b < 256 && (k % 4 == 0 || k % 4 == 3)
    ensures (256 * a + b) / Shift(k) % 64 == if k % 4 == 0 then a / 4 else a % 64
  {
    if k % 4 == 0 {
      TopSix(a, b);
    } else {
      LowSix(a, b);
    }
  }

  /** Enough octets for a code hold all the bits its letters show, and make that many letters. */
  lemma NeedIsEnough(length: nat)
    ensures 6 * length <= 8 * NeedBytes(length) && length <= Letters(NeedBytes(length))
  {
  }

  /**
   Truncating the digest first costs nothing: the code is the first letters of the
   whole digest's encoding, letter by letter its leading bits, and always a short code.
   */
  lemma CodeIsTheFrontOfTheDigest(settings: Settings, digest: seq<Octet>)
    requires settings.minLength <= settings.codeLength <= settings.maxLength
    requires NeedBytes(settings.codeLength) <= |digest|
    ensures var length := settings.codeLength;
            && Cut(StripPadding(Encode(digest)), length) == Spelled(digest, length)
            && Generate(settings, digest) ==
                 if 6 <= length <= 10 then Some(Spelled(digest, length)) else None
  {
    var length, need := settings.codeLength, NeedBytes(settings.codeLength);
    var front := digest[..need];
    NeedIsEnough(length);
    StrippedEncoding(front, length);
    StrippedEncoding(digest, length);
    forall k: nat | k < length ensures Sextet(front, k) == Sextet(digest, k) {
      FrontSpellsTheSame(digest, need, k);
    }
    assert Spelled(front, length) == Spelled(digest, length);
    forall k: nat | k < length ensures IsCodeChar(Spelled(digest, length)[k]) {
      AlphabetIsPlain(Sextet(digest, k));
    }
  }

  lemma StrippedEncoding(d: seq<Octet>, length: nat)
    requires length <= Letters(|d|)
    ensures Cut(StripPadding(Encode(d)), length) == Spelled(d, length)
  {
    EncodeSpells(d);
    StripSpelled(d, Letters(|d|), |d|);
  }

  /** Two digests share a code exactly when their leading bits agree. */
  lemma CodesCollideExactly(settings: Settings, d: seq<Octet>, e: seq<Octet>)
    requires 6 <= settings.codeLength <= 10
    requires settings.minLength <= settings.codeLength <= settings.maxLength
    requires NeedBytes(settings.codeLength) <= |d| && NeedBytes(settings.codeLength) <= |e|
    ensures Generate(settings, d) == Generate(settings, e)
       <==> forall k: nat :: k < settings.codeLength ==> Sextet(d, k) == Sextet(e, k)
  {
    var length := settings.codeLength;
    CodeIsTheFrontOfTheDigest(settings, d);
    CodeIsTheFrontOfTheDigest(settings, e);
    if Spelled(d, length) == Spelled(e, length) {
      forall k: nat | k < length ensures Sextet(d, k) == Sextet(e, k) {
        assert Spelled(d, length)[k] == Spelled(e, length)[k];
        AlphabetIsInjective(Sextet(d, k), Sextet(e, k));
      }
    }
    if forall k: nat :: k < length ==> Sextet(d, k) == Sextet(e, k) {
      assert Spelled(d, length) == Spelled(e, length);
    }
  }
}
