/**
 Hosts written as IPv4 addresses, the way `inet_aton` and the WHATWG host parser
 read them: one to four parts, each decimal, octal or hexadecimal.
 */
module Ipv4Host {
  /* -------------------- one part -------------------- */

  /** `Broken` is the one input on which converting the digits raises. */
  datatype Part = Number(n: nat) | NotANumber | Broken

  predicate IsDigit(c: char, radix: nat) {
    match radix
    case 8 => '0' <= c <= '7'
    case 10 => '0' <= c <= '9'
    case _ => '0' <= c <= '9' || 'a' <= c <= 'f' || 'A' <= c <= 'F'
  }

  function DigitValue(c: char): nat {
    if '0' <= c <= '9' then c as int - '0' as int
    else if 'a' <= c <= 'f' then c as int - 'a' as int + 10
    else if 'A' <= c <= 'F' then c as int - 'A' as int + 10
    else 0
  }

  predicate AllDigits(s: string, radix: nat) {
    forall i :: 0 <= i < |s| ==> IsDigit(s[i], radix)
  }

  function Value(digits: string, radix: nat): nat {
    if digits == "" then 0
    else Value(digits[..|digits| - 1], radix) * radix + DigitValue(digits[|digits| - 1])
  }

  /** `$` also matches just before one newline at the end. */
  function WithoutNewline(s: string): string {
    if s != "" && s[|s| - 1] == '\n' then s[..|s| - 1] else s
  }

  /** The digits as matched and converted, in one radix; `atLeast` is 0 for `*` and 1 for `+`. */
  function ReadDigits(digits: string, radix: nat, atLeast: nat): Part {
    var matched := WithoutNewline(digits);
    if !AllDigits(matched, radix) || |matched| < atLeast then NotANumber
    else if digits == "" then Number(0)
    else if matched == "" then Broken
    else Number(Value(matched, radix))
  }

  function ParseIpv4Part(part: string): Part {
    if part == "" then NotANumber
    else if |part| >= 2 && part[0] == '0' && (part[1] == 'x' || part[1] == 'X') then
      if |part| == 2 then Number(0) else ReadDigits(part[2..], 16, 1)
    else if part[0] == '0' && |part| > 1 then ReadDigits(part[1..], 8, 0)
    else ReadDigits(part, 10, 1)
  }

  /* -------------------- spellings of a number -------------------- */

  datatype Form = Decimal | Octal | Hex(upper: bool) {
    function Radix(): nat {
      match this case Decimal => 10 case Octal => 8 case Hex(_) => 16
    }

    function Prefix(): string {
      match this case Decimal => "" case Octal => "0" case Hex(upper) => if upper then "0X" else "0x"
    }
  }

  /** One way to write a number: leading zeros as the radix allows, hex digits in any case. */
  datatype Spelling = Spelling(form: Form, digits: string) {
    predicate Valid() {
      && AllDigits(digits, form.Radix())
      && (digits == "" ==> form.Hex?)
      && (form.Decimal? && |digits| > 1 ==> digits[0] != '0')
    }

    function Denotes(): nat {
      Value(digits, form.Radix())
    }

    function Written(): string {
      form.Prefix() + digits
    }
  }

  /** Every spelling of a number is read as that number. */
  lemma SpellingIsRead(sp: Spelling)
    requires sp.Valid()
    ensures ParseIpv4Part(sp.Written()) == Number(sp.Denotes())
  {
    var part := sp.Written();
    assert sp.digits != "" ==> IsDigit(sp.digits[|sp.digits| - 1], sp.form.Radix());
    assert WithoutNewline(sp.digits) == sp.digits;
    match sp.form
    case Decimal =>
      assert part == sp.digits && IsDigit(part[0], 10);
    case Octal =>
      assert part[1..] == sp.digits && part[1] == sp.digits[0] && IsDigit(sp.digits[0], 8);
    case Hex(upper) =>
      assert part[2..] == sp.digits;
  }

  /** How a part is written, by its first characters. */
  function SpellingOf(part: string): Spelling {
    if |part| >= 2 && part[0] == '0' && (part[1] == 'x' || part[1] == 'X') then
      Spelling(Hex(part[1] == 'X'), part[2..])
    else if |part| > 1 && part[0] == '0' then Spelling(Octal, part[1..])
    else Spelling(Decimal, part)
  }

  lemma SpellingOfIsWritten(part: string)
    ensures SpellingOf(part).Written() == part
  {
  }

  /** Nothing but spellings is read, newlines at the end aside. */
  lemma OnlySpellingsAreRead(part: string)
    requires ParseIpv4Part(part).Number? && WithoutNewline(part) == part
    ensures SpellingOf(part).Valid() && SpellingOf(part).Written() == part
    ensures ParseIpv4Part(part) == Number(SpellingOf(part).Denotes())
  {
    SpellingOfIsWritten(part);
    var sp := SpellingOf(part);
    NewlineIsLast(part, |part| - |sp.digits|);
    if sp.Valid() {
      SpellingIsRead(sp);
    }
  }

  lemma NewlineIsLast(s: string, k: nat)
    requires WithoutNewline(s) == s && k <= |s|
    ensures WithoutNewline(s[k..]) == s[k..]
  {
    assert k < |s| ==> s[k..][|s| - k - 1] == s[|s| - 1];
  }

  /** The one part on which converting raises. */
  lemma BrokenExactly(part: string)
    ensures ParseIpv4Part(part) == Broken <==> part == "0\n"
  {
    if part != "" {
      var matched := WithoutNewline(part[1..]);
      if part[0] == '0' && |part| > 1 && matched == "" && part[1..] != "" {
        assert part[1..] == "\n";
        assert part == [part[0]] + part[1..];
      }
    }
  }

  /** One newline after a spelling with a digit to it is let go. */
  lemma NewlineIsLetGo(sp: Spelling)
    requires sp.Valid() && sp.digits != "" && sp.Written() != "0"
    ensures ParseIpv4Part(sp.Written() + "\n") == Number(sp.Denotes())
  {
    var part, digits := sp.Written() + "\n", sp.digits + "\n";
    assert WithoutNewline(digits) == sp.digits;
    if sp.form.Decimal? {
      DecimalStartsHigh(sp.digits);
      assert part == digits && part[0] == sp.digits[0];
    } else if sp.form.Octal? {
      assert part[1..] == digits && part[1] == sp.digits[0] && IsDigit(sp.digits[0], 8);
    } else {
      assert part[2..] == digits;
    }
  }

  lemma DecimalStartsHigh(digits: string)
    requires digits != "" && digits != "0" && (|digits| > 1 ==> digits[0] != '0')
    ensures digits[0] != '0'
  {
    if |digits| == 1 {
      assert digits == [digits[0]];
    }
  }

  function DigitChar(d: nat, upper: bool): char
    requires d < 16
  {
    if d < 10 then '0' + d as char else if upper then 'A' + (d - 10) as char else 'a' + (d - 10) as char
  }

  function Digits(n: nat, form: Form): string
    decreases n
  {
    var radix, upper := form.Radix(), form.Hex? && form.upper;
    if n < radix then [DigitChar(n, upper)] else Digits(n / radix, form) + [DigitChar(n % radix, upper)]
  }

  lemma {:induction false} DigitsDenote(n: nat, form: Form)
    ensures AllDigits(Digits(n, form), form.Radix()) && Value(Digits(n, form), form.Radix()) == n
    ensures Digits(n, form) != "" && (n > 0 ==> Digits(n, form)[0] != '0')
  {
    if n >= form.Radix() {
      DigitsDenote(n / form.Radix(), form);
      assert Digits(n, form)[..|Digits(n, form)| - 1] == Digits(n / form.Radix(), form);
    } else {
      assert Digits(n, form)[..0] == "";
    }
  }

  function Zeros(k: nat): string {
    seq(k, _ => '0')
  }

  lemma {:induction false} LeadingZeros(k: nat, digits: string, radix: nat)
    ensures Value(Zeros(k) + digits, radix) == Value(digits, radix)
  {
    var s := Zeros(k) + digits;
    if digits != "" {
      LeadingZeros(k, digits[..|digits| - 1], radix);
      assert s[..|s| - 1] == Zeros(k) + digits[..|digits| - 1];
    } else if k > 0 {
      LeadingZeros(k - 1, "", radix);
      assert s[..|s| - 1] == Zeros(k - 1) + "";
      assert s[|s| - 1] == '0';
    }
  }

  /** Every number has a spelling in every radix, with any number of leading zeros it allows. */
  lemma EveryNumberIsSpelled(n: nat, form: Form, zeros: nat)
    requires form.Decimal? ==> zeros == 0
    ensures var sp := Spelling(form, Zeros(zeros) + Digits(n, form)); sp.Valid() && sp.Denotes() == n
  {
    DigitsDenote(n, form);
    LeadingZeros(zeros, Digits(n, form), form.Radix());
    if form.Decimal? {
      assert Zeros(0) + Digits(n, form) == Digits(n, form);
    }
  }
}
