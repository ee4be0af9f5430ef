/** Reading a whole host as an address, and every way to write one. */
module HostAddress {
  import opened Wrappers
  import opened Seqs
  import opened Ipv4Host

  /** `Raises` is an error other than a refusal; see `Broken`. */
  datatype Host = V4(address: nat) | V6(value: nat) | AName | Refused | Raises

  const ADDRESSES := 0x1_0000_0000

  /** 256 to the power `k`. */
  function Weight(k: nat): nat
    requires k <= 4
  {
    match k
    case 0 => 1
    case 1 => 0x100
    case 2 => 0x1_0000
    case 3 => 0x100_0000
    case _ => ADDRESSES
  }

  /** The labels, without the empty one a trailing dot leaves. */
  function Labels(host: string): seq<string> {
    var parts := Split(host, '.');
    if parts[|parts| - 1] == "" then parts[..|parts| - 1] else parts
  }

  /** What the last part gives and the octets before it add, from part `i` on. */
  function PackFrom(numbers: seq<nat>, i: nat): nat
    requires i < |numbers| <= 4
    decreases |numbers| - i
  {
    if i == |numbers| - 1 then numbers[i] else numbers[i] * Weight(3 - i) + PackFrom(numbers, i + 1)
  }

  /** Every part but the last is an octet, the last one fills the octets left out. */
  predicate Fits(numbers: seq<nat>)
    requires 1 <= |numbers| <= 4
  {
    && (forall i :: 0 <= i < |numbers| - 1 ==> numbers[i] <= 255)
    && numbers[|numbers| - 1] < Weight(5 - |numbers|)
  }

  function NumbersOf(parts: seq<string>): seq<nat>
    requires forall i :: 0 <= i < |parts| ==> ParseIpv4Part(parts[i]).Number?
  {
    seq(|parts|, i requires 0 <= i < |parts| => ParseIpv4Part(parts[i]).n)
  }

  /** The reading of a host; IPv6 literals are read by `ipv6`. */
  function Reading(host: string, ipv6: string -> Option<nat>): Host {
    if ':' in host then
      match ipv6(host) case Some(n) => V6(n) case None => Refused
    else
      var parts := Labels(host);
      if parts == [] || ParseIpv4Part(parts[|parts| - 1]).NotANumber? then AName
      else if ParseIpv4Part(parts[|parts| - 1]).Broken? then Raises
      else if |parts| > 4 then Refused
      else if exists i :: 0 <= i < |parts| && ParseIpv4Part(parts[i]).Broken? then Raises
      else if exists i :: 0 <= i < |parts| && ParseIpv4Part(parts[i]).NotANumber? then Refused
      else
        var numbers := NumbersOf(parts);
        if Fits(numbers) then V4(PackFrom(numbers, 0)) else Refused
  }

  /* -------------------- the same, step by step -------------------- */

  method PackNumbers(numbers: seq<nat>) returns (packed: nat)
    requires 1 <= |numbers| <= 4
    ensures packed == PackFrom(numbers, 0)
  {
    packed := numbers[|numbers| - 1];
    ghost var all := PackFrom(numbers, 0);
    var index := 0;
    while index < |numbers| - 1
      invariant 0 <= index <= |numbers| - 1
      invariant packed - numbers[|numbers| - 1] + PackFrom(numbers, index) == all
    {
      packed := packed + numbers[index] * Weight(3 - index);
      index := index + 1;
    }
  }

  /** Parses the parts in order, stopping at the first that raises. */
  method ParseAll(parts: seq<string>) returns (parsed: seq<Part>, raised: bool)
    ensures raised <==> exists i :: 0 <= i < |parts| && ParseIpv4Part(parts[i]).Broken?
    ensures !raised ==> |parsed| == |parts| && forall i :: 0 <= i < |parts| ==> parsed[i] == ParseIpv4Part(parts[i])
  {
    parsed, raised := [], false;
    for k := 0 to |parts|
      invariant |parsed| == k && !raised
      invariant forall i :: 0 <= i < k ==> parsed[i] == ParseIpv4Part(parts[i]) && !parsed[i].Broken?
    {
      var part := ParseIpv4Part(parts[k]);
      if part.Broken? {
        raised := true;
        return;
      }
      parsed := parsed + [part];
    }
  }

  method AsIpAddress(host: string, ipv6: string -> Option<nat>) returns (r: Host)
    ensures r == Reading(host, ipv6)
  {
    if ':' in host {
      return match ipv6(host) case Some(n) => V6(n) case None => Refused;
    }
    var parts := Split(host, '.');
    if parts[|parts| - 1] == "" {
      parts := parts[..|parts| - 1];
    }
    if parts == [] {
      return AName;
    }
    var last := ParseIpv4Part(parts[|parts| - 1]);
    if !last.Number? {
      return if last.Broken? then Raises else AName;
    }
    if |parts| > 4 {
      return Refused;
    }
    var parsed, raised := ParseAll(parts);
    if raised {
      return Raises;
    }
    if exists i :: 0 <= i < |parsed| && parsed[i].NotANumber? {
      return Refused;
    }
    var numbers := seq(|parsed|, i requires 0 <= i < |parsed| => parsed[i].n);
    assert numbers == NumbersOf(parts);
    r := ReadNumbers(numbers);
  }

  method ReadNumbers(numbers: seq<nat>) returns (r: Host)
    requires 1 <= |numbers| <= 4
    ensures r == if Fits(numbers) then V4(PackFrom(numbers, 0)) else Refused
  {
    if exists i :: 0 <= i < |numbers| - 1 && numbers[i] > 255 {
      return Refused;
    }
    if numbers[|numbers| - 1] >= Weight(5 - |numbers|) {
      return Refused;
    }
    var packed := PackNumbers(numbers);
    return V4(packed);
  }

  /* -------------------- addresses and their parts -------------------- */

  /** An address cut into `k` parts: octets, then all the rest. */
  function Unpack(a: nat, k: nat): seq<nat>
    requires 1 <= k <= 4
  {
    match k
    case 1 => [a]
    case 2 => [a / 0x100_0000, a % 0x100_0000]
    case 3 => [a / 0x1_0000 / 256, a / 0x1_0000 % 256, a % 0x1_0000]
    case _ => [a / 256 / 256 / 256, a / 256 / 256 % 256, a / 256 % 256, a % 256]
  }

  /** Packing and cutting are inverse, between 32-bit addresses and parts that fit. */
  lemma PackUnpack(a: nat, k: nat)
    requires 1 <= k <= 4 && a < ADDRESSES
    ensures |Unpack(a, k)| == k && Fits(Unpack(a, k)) && PackFrom(Unpack(a, k), 0) == a
  {
    match k
    case 1 => PackOne(a);
    case 2 => PackTwo(a / 0x100_0000, a % 0x100_0000);
    case 3 => PackThree(a / 0x1_0000 / 256, a / 0x1_0000 % 256, a % 0x1_0000);
    case _ => PackFour(a / 256 / 256 / 256, a / 256 / 256 % 256, a / 256 % 256, a % 256);
  }

  lemma UnpackPack(ns: seq<nat>)
    requires 1 <= |ns| <= 4 && Fits(ns)
    ensures PackFrom(ns, 0) < ADDRESSES && Unpack(PackFrom(ns, 0), |ns|) == ns
  {
    if |ns| == 1 {
      assert ns == [ns[0]];
    } else if |ns| == 2 {
      assert ns == [ns[0], ns[1]];
      PackTwo(ns[0], ns[1]);
    } else if |ns| == 3 {
      UnpackThree(ns);
    } else {
      UnpackFour(ns);
    }
  }

  lemma UnpackThree(ns: seq<nat>)
    requires |ns| == 3 && Fits(ns)
    ensures PackFrom(ns, 0) < ADDRESSES && Unpack(PackFrom(ns, 0), 3) == ns
  {
    var p, q, r := ns[0], ns[1], ns[2];
    assert ns == [p, q, r];
    PackThree(p, q, r);
    CutOctet(p, q);
    CutPair(p * 256 + q, r);
  }

  lemma UnpackFour(ns: seq<nat>)
    requires |ns| == 4 && Fits(ns)
    ensures PackFrom(ns, 0) < ADDRESSES && Unpack(PackFrom(ns, 0), 4) == ns
  {
    var p, q, r, s := ns[0], ns[1], ns[2], ns[3];
    assert ns == [p, q, r, s];
    PackFour(p, q, r, s);
    CutFour(p, q, r, s);
  }

  lemma CutPair(x: nat, y: nat)
    requires y < 0x1_0000
    ensures (x * 0x1_0000 + y) / 0x1_0000 == x && (x * 0x1_0000 + y) % 0x1_0000 == y
  {
  }

  lemma PackOne(p: nat)
    ensures PackFrom([p], 0) == p
  {
  }

  lemma PackTwo(p: nat, q: nat)
    ensures PackFrom([p, q], 0) == p * 0x100_0000 + q
  {
    assert PackFrom([p, q], 1) == q;
  }

  lemma PackThree(p: nat, q: nat, r: nat)
    ensures PackFrom([p, q, r], 0) == (p * 256 + q) * 0x1_0000 + r
  {
    assert PackFrom([p, q, r], 2) == r;
    assert PackFrom([p, q, r], 1) == q * 0x1_0000 + r;
  }

  lemma PackFour(p: nat, q: nat, r: nat, s: nat)
    ensures PackFrom([p, q, r, s], 0) == ((p * 256 + q) * 256 + r) * 256 + s
  {
    assert PackFrom([p, q, r, s], 3) == s;
    assert PackFrom([p, q, r, s], 2) == r * 256 + s;
    assert PackFrom([p, q, r, s], 1) == q * 0x1_0000 + (r * 256 + s);
  }

  lemma CutOctet(x: nat, y: nat)
    requires y < 256
    ensures (x * 256 + y) / 256 == x && (x * 256 + y) % 256 == y
  {
  }

  lemma CutFour(p: nat, q: nat, r: nat, s: nat)
    requires q < 256 && r < 256 && s < 256
    ensures var a := ((p * 256 + q) * 256 + r) * 256 + s;
            a / 256 / 256 / 256 == p && a / 256 / 256 % 256 == q && a / 256 % 256 == r && a % 256 == s
  {
    CutOctet((p * 256 + q) * 256 + r, s);
    CutOctet(p * 256 + q, r);
    CutOctet(p, q);
  }

  /** The host is written as the address `a`: its parts are those of `a`. */
  predicate Writes(host: string, a: nat) {
    var parts := Labels(host);
    && ':' !in host && 1 <= |parts| <= 4 && a < ADDRESSES
    && forall i :: 0 <= i < |parts| ==> ParseIpv4Part(parts[i]) == Number(Unpack(a, |parts|)[i])
  }

  /** A host is read as an address exactly when it is written as that address. */
  lemma ReadingIsExact(host: string, ipv6: string -> Option<nat>, a: nat)
    ensures Reading(host, ipv6) == V4(a) <==> Writes(host, a)
  {
    var parts := Labels(host);
    if Reading(host, ipv6) == V4(a) {
      var numbers := NumbersOf(parts);
      UnpackPack(numbers);
    }
    if Writes(host, a) {
      PackUnpack(a, |parts|);
      assert NumbersOf(parts) == Unpack(a, |parts|);
    }
  }

  predicate AllNumbers(parts: seq<string>) {
    forall i :: 0 <= i < |parts| ==> ParseIpv4Part(parts[i]).Number?
  }

  /**
   Every other verdict, exactly. A host is a name if it has no label or its last one is
   no number; ending in a number it is refused if it has five labels or more, or one
   among them is no number, or one is too large for its place. An error that is no
   refusal takes a label that is a zero and a newline, the last one or one of four.
   */
  lemma VerdictsAreExact(host: string, ipv6: string -> Option<nat>)
    requires ':' !in host
    ensures var parts := Labels(host);
            var last := if parts == [] then NotANumber else ParseIpv4Part(parts[|parts| - 1]);
            var broken := "0\n" in parts;
            && (Reading(host, ipv6) == AName <==> last == NotANumber)
            && (Reading(host, ipv6) == Raises <==> last == Broken || (last.Number? && |parts| <= 4 && broken))
            && (Reading(host, ipv6) == Refused <==>
                  && last.Number?
                  && (|parts| > 4 || (!broken && (!AllNumbers(parts) || !Fits(NumbersOf(parts))))))
            && !Reading(host, ipv6).V6?
  {
    var parts := Labels(host);
    forall i | 0 <= i < |parts| ensures ParseIpv4Part(parts[i]).Broken? <==> parts[i] == "0\n" {
      BrokenExactly(parts[i]);
    }
    if "0\n" in parts {
      var i :| 0 <= i < |parts| && parts[i] == "0\n";
      assert ParseIpv4Part(parts[i]).Broken?;
    }
  }

  /** Five labels or more that end in a number are refused, whatever the others are. */
  lemma FiveLabelsAreRefused(parts: seq<string>, ipv6: string -> Option<nat>)
    requires |parts| > 4 && DotFree(parts) && (forall i :: 0 <= i < |parts| ==> ':' !in parts[i])
    requires ParseIpv4Part(parts[|parts| - 1]).Number?
    ensures Reading(Join(parts, '.'), ipv6) == Refused
  {
    LabelsOfJoin(parts);
    JoinHasNoColon(parts);
  }

  /** A colon leaves it to the reader of IPv6 literals. */
  lemma ColonsAreSix(host: string, ipv6: string -> Option<nat>)
    requires ':' in host
    ensures Reading(host, ipv6) == if ipv6(host).Some? then V6(ipv6(host).value) else Refused
  {
  }

  /* -------------------- every spelling of an address -------------------- */

  function WrittenParts(spelled: seq<Spelling>): seq<string> {
    seq(|spelled|, i requires 0 <= i < |spelled| => spelled[i].Written())
  }

  /** The parts joined by dots, with or without the root's own dot. */
  function WrittenHost(spelled: seq<Spelling>, root: bool): string
    requires spelled != []
  {
    Join(WrittenParts(spelled), '.') + if root then "." else ""
  }

  predicate IsPartChar(c: char) {
    IsDigit(c, 16) || c == 'x' || c == 'X'
  }

  lemma WrittenIsPlain(sp: Spelling)
    requires sp.Valid()
    ensures sp.Written() != "" && forall i :: 0 <= i < |sp.Written()| ==> IsPartChar(sp.Written()[i])
  {
    var p, s := |sp.form.Prefix()|, sp.Written();
    forall i | 0 <= i < |s| ensures IsPartChar(s[i]) {
      if i >= p {
        assert s[i] == sp.digits[i - p] && IsDigit(sp.digits[i - p], sp.form.Radix());
      }
    }
  }

  lemma {:induction false} JoinHasNoColon(parts: seq<string>)
    requires parts != [] && forall i :: 0 <= i < |parts| ==> ':' !in parts[i]
    ensures ':' !in Join(parts, '.')
  {
    if |parts| > 1 {
      JoinHasNoColon(parts[1..]);
    }
  }

  predicate DotFree(parts: seq<string>) {
    forall i :: 0 <= i < |parts| ==> Free(parts[i], '.')
  }

  lemma LabelsOfWritten(parts: seq<string>, root: bool)
    requires parts != [] && parts[|parts| - 1] != "" && DotFree(parts)
    ensures Labels(Join(parts, '.') + if root then "." else "") == parts
  {
    if root {
      var rooted := parts + [""];
      assert DotFree(rooted) by {
        forall i | 0 <= i < |rooted| ensures Free(rooted[i], '.') {
          assert i < |parts| ==> rooted[i] == parts[i];
        }
      }
      JoinWithTrailing(parts, '.');
      LabelsOfJoin(rooted);
      assert rooted[..|parts|] == parts;
    } else {
      LabelsOfJoin(parts);
      assert Join(parts, '.') + "" == Join(parts, '.');
    }
  }

  lemma LabelsOfJoin(parts: seq<string>)
    requires parts != [] && DotFree(parts)
    ensures Labels(Join(parts, '.')) == if parts[|parts| - 1] == "" then parts[..|parts| - 1] else parts
  {
    SplitOfJoin(parts, '.');
  }

  /**
   Any 32-bit address, cut into one to four parts, each part spelled in any radix
   with any leading zeros and letter case, with or without a final dot, is read
   back as that address.
   */
  lemma EverySpellingIsRead(a: nat, spelled: seq<Spelling>, root: bool, ipv6: string -> Option<nat>)
    requires a < ADDRESSES && 1 <= |spelled| <= 4
    requires forall i :: 0 <= i < |spelled| ==> spelled[i].Valid() && spelled[i].Denotes() == Unpack(a, |spelled|)[i]
    ensures Reading(WrittenHost(spelled, root), ipv6) == V4(a)
  {
    var parts := WrittenParts(spelled);
    WrittenPartsArePlain(spelled);
    LabelsOfWritten(parts, root);
    JoinHasNoColon(parts);
    ReadingIsExact(WrittenHost(spelled, root), ipv6, a);
  }

  lemma WrittenPartsArePlain(spelled: seq<Spelling>)
    requires forall i :: 0 <= i < |spelled| ==> spelled[i].Valid()
    ensures var parts := WrittenParts(spelled);
            forall i :: 0 <= i < |parts| ==>
              && parts[i] != "" && Free(parts[i], '.') && ':' !in parts[i]
              && ParseIpv4Part(parts[i]) == Number(spelled[i].Denotes())
  {
    var parts := WrittenParts(spelled);
    forall i | 0 <= i < |parts|
      ensures parts[i] != "" && Free(parts[i], '.') && ':' !in parts[i]
      ensures ParseIpv4Part(parts[i]) == Number(spelled[i].Denotes())
    {
      WrittenIsPlain(spelled[i]);
      SpellingIsRead(spelled[i]);
    }
  }

  /** Two spellings are read alike exactly when they write the same address. */
  lemma ReadingForgetsTheSpelling(host: string, other: string, a: nat, b: nat, ipv6: string -> Option<nat>)
    requires Writes(host, a) && Writes(other, b)
    ensures Reading(host, ipv6) == Reading(other, ipv6) <==> a == b
  {
    ReadingIsExact(host, ipv6, a);
    ReadingIsExact(other, ipv6, b);
  }

  /** A last label such as `08`, where the octal digits run out, makes the host a name. */
  lemma StrayOctalIsAName(labels: seq<string>, digits: string, ipv6: string -> Option<nat>)
    requires AllDigits(digits, 10) && !AllDigits(digits, 8)
    requires forall i :: 0 <= i < |labels| ==> Free(labels[i], '.') && ':' !in labels[i]
    ensures Reading(Join(labels + ["0" + digits], '.'), ipv6) == AName
  {
    var part := "0" + digits;
    var parts := labels + [part];
    StrayOctalPart(digits);
    assert DotFree(parts) by {
      forall i | 0 <= i < |parts| ensures Free(parts[i], '.') {
        assert i < |labels| ==> parts[i] == labels[i];
      }
    }
    LabelsOfJoin(parts);
    JoinHasNoColon(parts);
  }

  lemma StrayOctalPart(digits: string)
    requires AllDigits(digits, 10) && !AllDigits(digits, 8)
    ensures Free("0" + digits, '.') && ':' !in "0" + digits
    ensures ParseIpv4Part("0" + digits) == NotANumber
  {
    var part := "0" + digits;
    assert part[1..] == digits && part[1] == digits[0];
    assert IsDigit(digits[0], 10) && IsDigit(digits[|digits| - 1], 10);
    assert WithoutNewline(digits) == digits;
  }
}
