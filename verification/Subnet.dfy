/** The CIDR arithmetic of cli/src/domain/subnet.rs, and its allocator of a free /16. */
module Subnet {
  import opened Allocator
  import opened Prelude
  import opened Strings
  import opened Text

  // Ranges are written in the notation of section 3.1 of RFC 4632, and the pool is
  // the 172.16/12 block of section 3 of RFC 1918. Addresses are 32-bit words, as
  // in the source.

  datatype Cidr = Cidr(base: bv32, prefix: bv8)

  function Mask(prefix: bv8): bv32
    requires prefix <= 32
  {
    if prefix == 0 then 0 else 0xFFFF_FFFF << (32 - prefix)
  }

  function Network(address: bv32, prefix: bv8): bv32
    requires prefix <= 32
  {
    address & Mask(prefix)
  }

  /** A network as `Parse` builds it: no host bit set. */
  predicate Canonical(c: Cidr) {
    c.prefix <= 32 && Network(c.base, c.prefix) == c.base
  }

  predicate InRange(c: Cidr, address: bv32)
    requires c.prefix <= 32
  {
    Network(address, c.prefix) == c.base
  }

  predicate Overlaps(a: Cidr, b: Cidr)
    requires a.prefix <= 32 && b.prefix <= 32
  {
    var shared := if a.prefix <= b.prefix then a.prefix else b.prefix;
    Network(a.base, shared) == Network(b.base, shared)
  }

  /// Overlap

  lemma NetworkOfNetwork(address: bv32, p: bv8, q: bv8)
    requires p <= q <= 32
    ensures Network(Network(address, q), p) == Network(address, p)
  {}

  lemma OverlapIsSymmetric(a: Cidr, b: Cidr)
    requires a.prefix <= 32 && b.prefix <= 32
    ensures Overlaps(a, b) ==> Overlaps(b, a)
  {}

  lemma InsideWider(wide: Cidr, narrow: Cidr, address: bv32)
    requires Canonical(wide) && Canonical(narrow) && wide.prefix <= narrow.prefix
    requires Overlaps(wide, narrow) && InRange(narrow, address)
    ensures InRange(wide, address)
  {
    NetworkOfNetwork(address, wide.prefix, narrow.prefix);
  }

  lemma SharedOverlaps(wide: Cidr, narrow: Cidr, address: bv32)
    requires Canonical(wide) && Canonical(narrow) && wide.prefix <= narrow.prefix
    requires InRange(wide, address) && InRange(narrow, address)
    ensures Overlaps(wide, narrow)
  {
    NetworkOfNetwork(address, wide.prefix, narrow.prefix);
  }

  ghost predicate Within(inner: Cidr, outer: Cidr)
    requires inner.prefix <= 32 && outer.prefix <= 32
  {
    forall x: bv32 | InRange(inner, x) :: InRange(outer, x)
  }

  ghost predicate ShareAddress(a: Cidr, b: Cidr)
    requires a.prefix <= 32 && b.prefix <= 32
  {
    exists x: bv32 :: InRange(a, x) && InRange(b, x)
  }

  lemma OverlapNests(wide: Cidr, narrow: Cidr)
    requires Canonical(wide) && Canonical(narrow) && wide.prefix <= narrow.prefix
    requires Overlaps(wide, narrow)
    ensures Within(narrow, wide)
  {
    forall x: bv32 | InRange(narrow, x) ensures InRange(wide, x) {
      InsideWider(wide, narrow, x);
    }
  }

  lemma NestedShare(inner: Cidr, outer: Cidr)
    requires Canonical(inner) && Canonical(outer) && Within(inner, outer)
    ensures ShareAddress(inner, outer) && ShareAddress(outer, inner)
  {
    assert InRange(inner, inner.base);
  }

  lemma SharersOverlap(a: Cidr, b: Cidr)
    requires Canonical(a) && Canonical(b) && ShareAddress(a, b)
    ensures Overlaps(a, b)
  {
    var x: bv32 :| InRange(a, x) && InRange(b, x);
    if a.prefix <= b.prefix {
      SharedOverlaps(a, b, x);
    } else {
      SharedOverlaps(b, a, x);
      OverlapIsSymmetric(b, a);
    }
  }

  /** Two networks overlap exactly when they share an address, and exactly when one lies inside the other. */
  lemma OverlapIsSharedAddress(a: Cidr, b: Cidr)
    requires Canonical(a) && Canonical(b)
    ensures Overlaps(a, b) <==> ShareAddress(a, b)
    ensures Overlaps(a, b) <==> Within(a, b) || Within(b, a)
  {
    if Overlaps(a, b) {
      if a.prefix <= b.prefix {
        OverlapNests(a, b);
      } else {
        OverlapIsSymmetric(a, b);
        OverlapNests(b, a);
      }
    }
    if Within(a, b) {
      NestedShare(a, b);
    }
    if Within(b, a) {
      NestedShare(b, a);
    }
    if ShareAddress(a, b) {
      SharersOverlap(a, b);
    }
  }

  /// Text

  predicate IsDigit(c: char) { '0' <= c <= '9' }

  function DigitValue(c: char): nat
    requires IsDigit(c)
  {
    c as nat - '0' as nat
  }

  /** The decimal value of a run of digits; nothing when there is none, or another character. */
  function Decimal(s: string): Option<nat> {
    if s == [] || !IsDigit(s[|s| - 1]) then None
    else if |s| == 1 then Some(DigitValue(s[0]))
    else
      match Decimal(s[..|s| - 1])
      case Some(front) => Some(10 * front + DigitValue(s[|s| - 1]))
      case None => None
  }

  /** One part of a dotted address: up to three digits, no leading zero, at most 255. */
  function Octet(s: string): Option<bv8> {
    if |s| > 3 || (|s| > 1 && s[0] == '0') then None else AtMost255(Decimal(s))
  }

  /** An unsigned byte in decimal: a plus sign and leading zeros are allowed. */
  function Byte(s: string): Option<bv8> {
    AtMost255(Decimal(if s != [] && s[0] == '+' then s[1..] else s))
  }

  function AtMost255(n: Option<nat>): Option<bv8> {
    if n.Some? && n.value <= 255 then Some(n.value as bv8) else None
  }

  function Word(a: bv8, b: bv8, c: bv8, d: bv8): bv32 {
    (a as bv32 << 24) | (b as bv32 << 16) | (c as bv32 << 8) | d as bv32
  }

  /** `count` dotted parts. */
  function Octets(s: string, count: nat): (r: Option<seq<bv8>>)
    requires count > 0
    ensures r.Some? ==> |r.value| == count
    decreases count
  {
    if count == 1 then
      (match Octet(s) case Some(n) => Some([n]) case None => None)
    else
      match SplitOnce(s, ".")
      case None => None
      case Some((head, rest)) =>
        match (Octet(head), Octets(rest, count - 1))
        case (Some(n), Some(more)) => Some([n] + more)
        case _ => None
  }

  function Address(s: string): Option<bv32> {
    match Octets(s, 4)
    case Some(o) => Some(Word(o[0], o[1], o[2], o[3]))
    case None => None
  }

  function NetworkOf(address: Option<bv32>, prefix: Option<bv8>): (c: Option<Cidr>)
    ensures c.Some? ==> Canonical(c.value)
  {
    if address.Some? && prefix.Some? && prefix.value <= 32 then
      NetworkOfNetwork(address.value, prefix.value, prefix.value);
      Some(Cidr(Network(address.value, prefix.value), prefix.value))
    else None
  }

  /** Host bits in the text do not matter: what is parsed is the network. */
  function Parse(text: string): (c: Option<Cidr>)
    ensures c.Some? ==> Canonical(c.value)
  {
    match SplitOnce(Trim(text), "/")
    case None => None
    case Some((address, prefix)) => NetworkOf(Address(address), Byte(prefix))
  }

  function Digit(n: nat): (c: char)
    requires n < 10
    ensures IsDigit(c) && DigitValue(c) == n
  {
    ('0' as int + n) as char
  }

  /** A number below 1000 in decimal, without leading zeros. */
  function Show(n: nat): string
    requires n < 1000
  {
    if n < 10 then [Digit(n)]
    else if n < 100 then [Digit(n / 10), Digit(n % 10)]
    else [Digit(n / 100), Digit(n / 10 % 10), Digit(n % 10)]
  }

  function ByteAt(word: bv32, shift: bv8): bv8
    requires shift <= 24
  {
    ((word >> shift) & 0xFF) as bv8
  }

  function ShowByte(b: bv8): string {
    Show(b as nat)
  }

  function DottedBytes(a: bv8, b: bv8, c: bv8, d: bv8): string {
    ShowByte(a) + "." + (ShowByte(b) + "." + (ShowByte(c) + "." + ShowByte(d)))
  }

  function Dotted(word: bv32): string {
    DottedBytes(ByteAt(word, 24), ByteAt(word, 16), ByteAt(word, 8), ByteAt(word, 0))
  }

  function Display(c: Cidr): string {
    Dotted(c.base) + "/" + ShowByte(c.prefix)
  }

  lemma DigitReads(d: nat)
    requires d < 10
    ensures Decimal([Digit(d)]) == Some(d) && IsDigit(Digit(d)) && DigitValue(Digit(d)) == d
  {}

  lemma NextDigitReads(s: string, n: nat, d: nat)
    requires s != [] && Decimal(s) == Some(n) && d < 10
    ensures Decimal(s + [Digit(d)]) == Some(10 * n + d)
  {
    DigitReads(d);
    assert (s + [Digit(d)])[..|s|] == s;
  }

  lemma DecimalOfShow(n: nat)
    requires n < 1000
    ensures Decimal(Show(n)) == Some(n)
  {
    if n < 10 {
      DigitReads(n);
    } else if n < 100 {
      TwoDigitsRead(n / 10, n % 10);
      assert Show(n) == [Digit(n / 10)] + [Digit(n % 10)];
    } else {
      TwoDigitsRead(n / 100, n / 10 % 10);
      NextDigitReads([Digit(n / 100)] + [Digit(n / 10 % 10)], n / 10, n % 10);
      assert Show(n) == [Digit(n / 100)] + [Digit(n / 10 % 10)] + [Digit(n % 10)];
    }
  }

  lemma TwoDigitsRead(a: nat, b: nat)
    requires a < 10 && b < 10
    ensures Decimal([Digit(a)] + [Digit(b)]) == Some(10 * a + b)
  {
    DigitReads(a);
    NextDigitReads([Digit(a)], a, b);
  }

  lemma ByteRoundTrip(b: bv8)
    ensures (b as nat) as bv8 == b
  {}

  lemma ShowIsDigits(n: nat)
    requires n < 1000
    ensures 1 <= |Show(n)| <= 3 && (|Show(n)| > 1 ==> Show(n)[0] != '0')
    ensures forall i | 0 <= i < |Show(n)| :: IsDigit(Show(n)[i])
  {}

  lemma ShowReadsBack(b: bv8)
    ensures Octet(ShowByte(b)) == Some(b) && Byte(ShowByte(b)) == Some(b)
    ensures ShowByte(b) != [] && forall i | 0 <= i < |ShowByte(b)| :: IsDigit(ShowByte(b)[i])
  {
    ByteIsSmall(b);
    ShowIsDigits(b as nat);
    DecimalOfShow(b as nat);
    ByteRoundTrip(b);
    ReadsDigits(ShowByte(b), b as nat);
  }

  lemma ByteIsSmall(b: bv8)
    ensures b as nat <= 255
  {}

  lemma ReadsDigits(s: string, n: nat)
    requires 1 <= |s| <= 3 && (|s| > 1 ==> s[0] != '0') && IsDigit(s[0])
    requires Decimal(s) == Some(n) && n <= 255
    ensures Octet(s) == Some(n as bv8) && Byte(s) == Some(n as bv8)
  {}

  lemma SplitAt(before: string, c: char, after: string)
    requires c !in before
    ensures SplitOnce(before + [c] + after, [c]) == Some((before, after))
  {
    EndsAtCharacter(before, c);
    Regroup(before, [c], after);
    SplitOnceAt(before, [c], after);
  }

  lemma WordOfBytes(word: bv32)
    ensures Word(ByteAt(word, 24), ByteAt(word, 16), ByteAt(word, 8), ByteAt(word, 0)) == word
  {}

  /** A part that reads as the byte, and holds no dot. */
  predicate Reads(part: string, b: bv8) {
    Octet(part) == Some(b) && '.' !in part
  }

  lemma OctetsStep(part: string, b: bv8, rest: string, more: seq<bv8>, count: nat)
    requires Reads(part, b) && count > 0 && Octets(rest, count) == Some(more)
    ensures Octets(part + "." + rest, count + 1) == Some([b] + more)
  {
    SplitAt(part, '.', rest);
  }

  lemma TwoParts(p2: string, p3: string, c: bv8, d: bv8)
    requires Reads(p2, c) && Reads(p3, d)
    ensures Octets(p2 + "." + p3, 2) == Some([c, d])
  {
    OctetsStep(p2, c, p3, [d], 1);
    assert [c] + [d] == [c, d];
  }

  lemma ThreeParts(p1: string, rest: string, b: bv8, c: bv8, d: bv8)
    requires Reads(p1, b) && Octets(rest, 2) == Some([c, d])
    ensures Octets(p1 + "." + rest, 3) == Some([b, c, d])
  {
    OctetsStep(p1, b, rest, [c, d], 2);
    assert [b] + [c, d] == [b, c, d];
  }

  lemma FourParts(p0: string, rest: string, a: bv8, b: bv8, c: bv8, d: bv8)
    requires Reads(p0, a) && Octets(rest, 3) == Some([b, c, d])
    ensures Octets(p0 + "." + rest, 4) == Some([a, b, c, d])
  {
    OctetsStep(p0, a, rest, [b, c, d], 3);
    assert [a] + [b, c, d] == [a, b, c, d];
  }

  lemma ShowReads(b: bv8)
    ensures Reads(ShowByte(b), b)
  {
    ShowReadsBack(b);
  }

  lemma AddressOfBytes(a: bv8, b: bv8, c: bv8, d: bv8)
    ensures Octets(DottedBytes(a, b, c, d), 4) == Some([a, b, c, d])
  {
    ShowReads(a);
    ShowReads(b);
    ShowReads(c);
    ShowReads(d);
    var two := ShowByte(c) + "." + ShowByte(d);
    TwoParts(ShowByte(c), ShowByte(d), c, d);
    ThreeParts(ShowByte(b), two, b, c, d);
    FourParts(ShowByte(a), ShowByte(b) + "." + two, a, b, c, d);
  }

  lemma AddressOfDotted(word: bv32)
    ensures Address(Dotted(word)) == Some(word)
  {
    AddressOfBytes(ByteAt(word, 24), ByteAt(word, 16), ByteAt(word, 8), ByteAt(word, 0));
    WordOfBytes(word);
  }

  lemma DottedBytesChars(a: bv8, b: bv8, c: bv8, d: bv8)
    ensures DottedBytes(a, b, c, d) != [] && IsDigit(DottedBytes(a, b, c, d)[0])
    ensures '/' !in DottedBytes(a, b, c, d)
  {
    ShowReadsBack(a);
    ShowReadsBack(b);
    ShowReadsBack(c);
    ShowReadsBack(d);
  }

  /** A canonical network survives being written and read. */
  lemma ParseOfDisplay(c: Cidr)
    requires Canonical(c)
    ensures Parse(Display(c)) == Some(c)
  {
    var text := Display(c);
    DottedBytesChars(ByteAt(c.base, 24), ByteAt(c.base, 16), ByteAt(c.base, 8), ByteAt(c.base, 0));
    ShowReadsBack(c.prefix);
    TightIsTrimmed(text);
    assert text == Dotted(c.base) + ['/'] + ShowByte(c.prefix);
    SplitAt(Dotted(c.base), '/', ShowByte(c.prefix));
    AddressOfDotted(c.base);
  }

  /// What parses

  /** A part of an address is a byte in decimal, exactly as it is shown. */
  lemma OctetExactly(s: string, b: bv8)
    ensures Octet(s) == Some(b) <==> s == ShowByte(b)
  {
    ShowReadsBack(b);
    if Octet(s) == Some(b) {
      var n := Decimal(s).value;
      ByteOfNat(n, b);
      ShownDigits(s, n);
    }
  }

  lemma ByteOfNat(n: nat, b: bv8)
    requires n <= 255 && n as bv8 == b
    ensures b as nat == n
  {
    SecondRoundTrip(n);
  }

  lemma ShownDigits(s: string, n: nat)
    requires 1 <= |s| <= 3 && Decimal(s) == Some(n) && n < 1000 && (|s| > 1 ==> s[0] != '0')
    ensures s == Show(n)
  {
    if |s| == 1 {
      LastDigit(s);
      assert s == [s[0]];
    } else if |s| == 2 {
      TwoAreShown(s, n);
    } else {
      ThreeAreShown(s, n);
    }
  }

  lemma TwoAreShown(s: string, n: nat)
    requires |s| == 2 && Decimal(s) == Some(n) && n < 1000 && s[0] != '0'
    ensures s == Show(n)
  {
    LastDigit(s);
    LastDigit(s[..1]);
    TwoDigits(s[0], s[1]);
    assert s == [s[0], s[1]];
  }

  lemma ThreeAreShown(s: string, n: nat)
    requires |s| == 3 && Decimal(s) == Some(n) && n < 1000 && s[0] != '0'
    ensures s == Show(n)
  {
    LastDigit(s);
    LastDigit(s[..2]);
    LastDigit(s[..2][..1]);
    ThreeDigits(s[0], s[1], s[2]);
    assert s == [s[0], s[1], s[2]];
  }

  lemma TwoDigits(a: char, b: char)
    requires IsDigit(a) && IsDigit(b) && a != '0'
    ensures 10 * DigitValue(a) + DigitValue(b) < 1000
    ensures Show(10 * DigitValue(a) + DigitValue(b)) == [a, b]
  {
    var n := 10 * DigitValue(a) + DigitValue(b);
    assert 10 <= n < 100 && n / 10 == DigitValue(a) && n % 10 == DigitValue(b);
  }

  lemma ThreeDigits(a: char, b: char, c: char)
    requires IsDigit(a) && IsDigit(b) && IsDigit(c) && a != '0'
    ensures 10 * (10 * DigitValue(a) + DigitValue(b)) + DigitValue(c) < 1000
    ensures Show(10 * (10 * DigitValue(a) + DigitValue(b)) + DigitValue(c)) == [a, b, c]
  {
    var front := 10 * DigitValue(a) + DigitValue(b);
    var n := 10 * front + DigitValue(c);
    assert 100 <= n < 1000 && n / 10 == front && n % 10 == DigitValue(c);
    assert n / 100 == front / 10 == DigitValue(a) && front % 10 == DigitValue(b);
  }

  lemma LastDigit(s: string)
    requires s != "" && Decimal(s).Some?
    ensures var last := s[|s| - 1];
            && IsDigit(last) && Digit(DigitValue(last)) == last
            && (|s| == 1 ==> Decimal(s).value == DigitValue(last))
            && (|s| > 1 ==> Decimal(s[..|s| - 1]).Some?
                            && Decimal(s).value == 10 * Decimal(s[..|s| - 1]).value + DigitValue(last))
  {}

  lemma DotParts(s: string)
    ensures var split := SplitOnce(s, ".");
            split.Some? ==> s == split.value.0 + "." + split.value.1
  {
    SplitOnceParts(s, ".");
    if SplitOnce(s, ".").Some? {
      Regroup(SplitOnce(s, ".").value.0, ".", SplitOnce(s, ".").value.1);
    }
  }

  lemma FirstOctet(s: string, count: nat)
    requires count > 1 && Octets(s, count).Some?
    ensures var split := SplitOnce(s, "."); split.Some? && s == split.value.0 + "." + split.value.1
    ensures var o, split := Octets(s, count).value, SplitOnce(s, ".").value;
            split.0 == ShowByte(o[0]) && Octets(split.1, count - 1) == Some(o[1..])
  {
    DotParts(s);
    var o, split := Octets(s, count).value, SplitOnce(s, ".").value;
    OctetExactly(split.0, o[0]);
  }

  lemma LastOctet(s: string)
    requires Octets(s, 1).Some?
    ensures s == ShowByte(Octets(s, 1).value[0])
  {
    OctetExactly(s, Octets(s, 1).value[0]);
  }

  /** Four dotted parts read as four bytes exactly when they are those bytes as shown. */
  lemma OctetsExactly(s: string, o: seq<bv8>)
    requires |o| == 4
    ensures Octets(s, 4) == Some(o) <==> s == DottedBytes(o[0], o[1], o[2], o[3])
  {
    AddressOfBytes(o[0], o[1], o[2], o[3]);
    assert o == [o[0], o[1], o[2], o[3]];
    if Octets(s, 4) == Some(o) {
      FirstOctet(s, 4);
      var s1 := SplitOnce(s, ".").value.1;
      FirstOctet(s1, 3);
      var s2 := SplitOnce(s1, ".").value.1;
      FirstOctet(s2, 2);
      var s3 := SplitOnce(s2, ".").value.1;
      LastOctet(s3);
    }
  }

  /** An address reads exactly when it is one as shown: no part above 255, none with a leading zero. */
  lemma AddressExactly(s: string, word: bv32)
    ensures Address(s) == Some(word) <==> s == Dotted(word)
  {
    AddressOfDotted(word);
    if Address(s) == Some(word) {
      var o := Octets(s, 4).value;
      OctetsExactly(s, o);
      BytesOfWord(o[0], o[1], o[2], o[3]);
    }
  }

  lemma BytesOfWord(a: bv8, b: bv8, c: bv8, d: bv8)
    ensures var word := Word(a, b, c, d);
            ByteAt(word, 24) == a && ByteAt(word, 16) == b && ByteAt(word, 8) == c && ByteAt(word, 0) == d
  {}

  /** The text, trimmed, is the address, a slash and a number of at most 32 for the prefix. */
  predicate Spells(text: string, address: bv32, prefix: string) {
    && Trim(text) == Dotted(address) + "/" + prefix
    && Byte(prefix).Some? && Byte(prefix).value <= 32
  }

  /** A number may have a plus sign and leading zeros in front. */
  lemma NumbersMayBePadded(s: string)
    requires s != "" && IsDigit(s[0])
    ensures Byte("+" + s) == Byte(s) && Byte("0" + s) == Byte(s)
  {
    assert ("+" + s)[1..] == s;
    ZeroInFront(s);
  }

  lemma {:induction false} ZeroInFront(s: string)
    requires s != ""
    ensures Decimal("0" + s) == Decimal(s)
  {
    var t := "0" + s;
    assert t[|t| - 1] == s[|s| - 1];
    if |s| > 1 {
      ZeroInFront(s[..|s| - 1]);
      assert t[..|t| - 1] == "0" + s[..|s| - 1];
    } else {
      assert t[..1] == "0" && Decimal("0") == Some(0);
    }
  }

  /** A range parses exactly when it is spelled so, and as the network its address is in. */
  lemma ParsesExactly(text: string, c: Cidr)
    ensures Parse(text) == Some(c) <==>
            exists address, prefix :: Spells(text, address, prefix)
                                      && c == Cidr(Network(address, Byte(prefix).value), Byte(prefix).value)
  {
    if Parse(text).Some? {
      SplitOnceParts(Trim(text), "/");
      var (before, prefix) := SplitOnce(Trim(text), "/").value;
      AddressExactly(before, Address(before).value);
      Regroup(before, "/", prefix);
      assert Spells(text, Address(before).value, prefix);
    }
    forall address, prefix | Spells(text, address, prefix)
      ensures Parse(text) == Some(Cidr(Network(address, Byte(prefix).value), Byte(prefix).value))
    {
      SpelledParses(text, address, prefix);
    }
  }

  lemma SpelledParses(text: string, address: bv32, prefix: string)
    requires Spells(text, address, prefix)
    ensures Parse(text) == Some(Cidr(Network(address, Byte(prefix).value), Byte(prefix).value))
  {
    DottedBytesChars(ByteAt(address, 24), ByteAt(address, 16), ByteAt(address, 8), ByteAt(address, 0));
    SplitAt(Dotted(address), '/', prefix);
    AddressOfDotted(address);
  }

  /** No prefix masks nothing, and every step masks the next bit. */
  lemma MaskTakesLeadingBits(prefix: bv8)
    requires prefix < 32
    ensures Mask(0) == 0
    ensures Mask(prefix + 1) == Mask(prefix) | (0x8000_0000 >> prefix)
  {}

  /// Collisions

  predicate Collides(ours: Cidr, text: string)
    requires ours.prefix <= 32
  {
    var other := Parse(text);
    other.Some? && Overlaps(ours, other.value)
  }

  function CollidingWith(ours: Cidr, taken: seq<string>): seq<string>
    requires ours.prefix <= 32
  {
    if taken == [] then []
    else (if Collides(ours, taken[0]) then [taken[0]] else []) + CollidingWith(ours, taken[1..])
  }

  /** The taken networks that collide with `subnet`; none when it does not parse. */
  function Colliding(subnet: string, taken: seq<string>): seq<string> {
    match Parse(subnet)
    case Some(ours) => CollidingWith(ours, taken)
    case None => []
  }

  lemma {:induction false} CollidingWithIs(ours: Cidr, taken: seq<string>, t: string)
    requires Canonical(ours)
    ensures t in CollidingWith(ours, taken) <==> t in taken && Parse(t).Some? && ShareAddress(ours, Parse(t).value)
  {
    if taken != [] {
      CollidingWithIs(ours, taken[1..], t);
      assert t in taken <==> t == taken[0] || t in taken[1..];
      if Parse(t).Some? {
        OverlapIsSharedAddress(ours, Parse(t).value);
      }
    }
  }

  /** Reported are exactly the taken networks that share an address with ours. */
  lemma CollidingIsSharing(subnet: string, taken: seq<string>, t: string)
    ensures t in Colliding(subnet, taken) <==>
            && t in taken && Parse(subnet).Some? && Parse(t).Some?
            && ShareAddress(Parse(subnet).value, Parse(t).value)
  {
    if Parse(subnet).Some? {
      CollidingWithIs(Parse(subnet).value, taken, t);
    }
  }

  /** They are reported in the order they are taken, each as often: list by list. */
  lemma CollidingDistributes(subnet: string, a: seq<string>, b: seq<string>)
    ensures Colliding(subnet, a + b) == Colliding(subnet, a) + Colliding(subnet, b)
  {
    if Parse(subnet).Some? {
      CollidingWithAppend(Parse(subnet).value, a, b);
    }
  }

  function Hit(ours: Cidr, t: string): seq<string>
    requires ours.prefix <= 32
  {
    if Collides(ours, t) then [t] else []
  }

  lemma CollidingWithFirst(ours: Cidr, taken: seq<string>)
    requires ours.prefix <= 32 && taken != []
    ensures CollidingWith(ours, taken) == Hit(ours, taken[0]) + CollidingWith(ours, taken[1..])
  {}

  lemma RegroupLists(a: seq<string>, b: seq<string>, c: seq<string>)
    ensures a + (b + c) == (a + b) + c
  {}

  lemma {:induction false} CollidingWithAppend(ours: Cidr, a: seq<string>, b: seq<string>)
    requires ours.prefix <= 32
    ensures CollidingWith(ours, a + b) == CollidingWith(ours, a) + CollidingWith(ours, b)
  {
    if a == [] {
      assert a + b == b;
    } else {
      assert (a + b)[1..] == a[1..] + b && (a + b)[0] == a[0];
      CollidingWithAppend(ours, a[1..], b);
      CollidingWithFirst(ours, a);
      CollidingWithFirst(ours, a + b);
      RegroupLists(Hit(ours, a[0]), CollidingWith(ours, a[1..]), CollidingWith(ours, b));
    }
  }

  /// The allocator

  /** The pool network with this second byte. */
  function Pool(second: bv8): Cidr {
    Cidr(Word(172, second, 0, 0), 16)
  }

  function Candidate(second: nat): string {
    "172." + Show(if second < 1000 then second else 0) + ".0.0/16"
  }

  /** The candidate parses and overlaps nothing that was parsed from the taken list. */
  predicate Free(second: nat, taken: seq<string>) {
    match Parse(Candidate(second))
    case Some(c) => forall t | t in taken :: !Collides(c, t)
    case None => false
  }

  function FirstFree16(taken: seq<string>): Option<string> {
    match FindFrom(16, 32, (second: nat) => Free(second, taken))
    case Some(second) => Some(Candidate(second))
    case None => None
  }

  lemma PoolBytes(second: bv8)
    ensures var word := Word(172, second, 0, 0);
            && ByteAt(word, 24) == 172 && ByteAt(word, 16) == second && ByteAt(word, 8) == 0 && ByteAt(word, 0) == 0
  {}

  lemma PoolIsCanonical(second: bv8)
    ensures Canonical(Pool(second))
  {}

  lemma PoolsAreDisjoint(a: bv8, b: bv8)
    requires a != b
    ensures !Overlaps(Pool(a), Pool(b))
  {}

  lemma OverlapsItself(c: Cidr)
    requires c.prefix <= 32
    ensures Overlaps(c, c)
  {}

  lemma {:induction false} ByteOf(n: nat) returns (b: bv8)
    requires n <= 255
    ensures b as nat == n
  {
    if n == 0 {
      b := 0;
    } else {
      var before := ByteOf(n - 1);
      b := before + 1;
    }
  }

  lemma SecondRoundTrip(second: nat)
    requires second <= 255
    ensures (second as bv8) as nat == second
  {
    var b := ByteOf(second);
    ByteRoundTrip(b);
  }

  lemma CandidateParses(second: nat)
    requires second <= 255
    ensures Parse(Candidate(second)) == Some(Pool(second as bv8))
  {
    var byte := second as bv8;
    PoolIsCanonical(byte);
    ParseOfDisplay(Pool(byte));
    CandidateIsDisplay(second);
  }

  lemma CandidateIsDisplay(second: nat)
    requires second <= 255
    ensures Candidate(second) == Display(Pool(second as bv8))
  {
    var byte := second as bv8;
    SecondRoundTrip(second);
    PoolBytes(byte);
    FixedBytes();
    assert Dotted(Pool(byte).base) == DottedBytes(172, byte, 0, 0);
    CandidateText(Show(second));
  }

  lemma FixedBytes()
    ensures ShowByte(172) == "172" && ShowByte(0) == "0" && ShowByte(16) == "16"
  {}

  lemma CandidateText(second: string)
    ensures "172" + "." + (second + "." + ("0" + "." + "0")) + "/" + "16" == "172." + second + ".0.0/16"
  {
    assert "172" + "." == "172." && "." + ("0" + "." + "0") + "/" + "16" == ".0.0/16";
    assert "172" + "." + (second + "." + ("0" + "." + "0")) + "/" + "16"
        == ("172" + ".") + (second + ("." + ("0" + "." + "0") + "/" + "16"));
    assert "172." + second + ".0.0/16" == "172." + (second + ".0.0/16");
  }

  /** A taken network that covers part of a pool network. */
  predicate UsesPool(t: string, second: nat) {
    second > 255 || Collides(Pool(second as bv8), t)
  }

  const USES: Uses := (t: string, second: nat) => UsesPool(t, second)
  const NAME: nat -> string := (second: nat) => Candidate(second)

  lemma CandidateUsesItself(second: nat)
    ensures UsesPool(Candidate(second), second)
  {
    if second <= 255 {
      CandidateParses(second);
      OverlapsItself(Pool(second as bv8));
    }
  }

  lemma FreeIsUnused(second: nat, taken: seq<string>)
    requires second <= 255
    ensures Free(second, taken) <==> Unused(USES, second, taken)
  {
    CandidateParses(second);
  }

  lemma FirstFreeIsFirstUnused(taken: seq<string>)
    ensures FirstFree16(taken) == Named(NAME, FirstUnused(USES, 16, 32, taken))
  {
    forall second: nat | 16 <= second < 32 ensures Free(second, taken) <==> Unused(USES, second, taken) {
      FreeIsUnused(second, taken);
    }
    FindFromSame(16, 32, (second: nat) => Free(second, taken), (second: nat) => Unused(USES, second, taken));
  }

  /** No address of the pool network belongs to a taken network. */
  ghost predicate Untouched(second: nat, taken: seq<string>)
    requires second <= 255
  {
    forall t | t in taken && Parse(t).Some? :: !ShareAddress(Pool(second as bv8), Parse(t).value)
  }

  lemma UntouchedIsFree(second: nat, taken: seq<string>)
    requires second <= 255
    ensures Untouched(second, taken) <==> Free(second, taken)
  {
    CandidateParses(second);
    var pool := Pool(second as bv8);
    PoolIsCanonical(second as bv8);
    forall t | t in taken && Parse(t).Some? ensures Collides(pool, t) <==> ShareAddress(pool, Parse(t).value) {
      OverlapIsSharedAddress(pool, Parse(t).value);
    }
  }

  /** The allocator hands out the lowest pool network nobody touches, and nothing only when all sixteen are touched. */
  lemma FirstFreeIsLowestUntouched(taken: seq<string>) returns (s: nat)
    ensures FirstFree16(taken).None? <==> forall k: nat | 16 <= k < 32 :: !Untouched(k, taken)
    ensures FirstFree16(taken).Some? ==>
              && 16 <= s < 32 && FirstFree16(taken).value == Candidate(s) && Untouched(s, taken)
              && forall k: nat | 16 <= k < s :: !Untouched(k, taken)
  {
    var free := (second: nat) => Free(second, taken);
    var found := FindFrom(16, 32, free);
    FindFromIsLowest(16, 32, free);
    assert forall k: nat :: free(k) == Free(k, taken);
    s := if found.Some? then found.value else 0;
    LowestUntouched(taken, found);
  }

  lemma LowestUntouched(taken: seq<string>, found: Option<nat>)
    requires found.None? ==> forall k: nat | 16 <= k < 32 :: !Free(k, taken)
    requires found.Some? ==> 16 <= found.value < 32 && Free(found.value, taken) && forall k: nat | 16 <= k < found.value :: !Free(k, taken)
    ensures found.None? ==> forall k: nat | 16 <= k < 32 :: !Untouched(k, taken)
    ensures found.Some? ==> Untouched(found.value, taken) && forall k: nat | 16 <= k < found.value :: !Untouched(k, taken)
  {
    forall k: nat | 16 <= k < 32 ensures Free(k, taken) <==> Untouched(k, taken) {
      UntouchedIsFree(k, taken);
    }
  }

  /// Allocating again and again

  const FIRST: seq<string> -> Option<string> := (taken: seq<string>) => FirstFree16(taken)

  /** What repeated allocation hands out, each result appended to the taken list before the next call. */
  function Allocations(taken: seq<string>, calls: nat): seq<string> {
    Repeat(FIRST, taken, calls)
  }

  /** However often it is called, the allocator hands out at most sixteen networks: distinct parts of the pool, all untouched. */
  lemma AllocationsStayInPool(taken: seq<string>, calls: nat) returns (seconds: seq<nat>)
    ensures |Allocations(taken, calls)| == |seconds| <= 16
    ensures forall i | 0 <= i < |seconds| ::
              && 16 <= seconds[i] < 32 && Unused(USES, seconds[i], taken)
              && Allocations(taken, calls)[i] == Candidate(seconds[i])
    ensures forall i, j | 0 <= i < j < |seconds| :: seconds[i] < seconds[j]
  {
    seconds := HandOut(USES, NAME, 16, 32, taken, calls);
    forall ts: seq<string> ensures FIRST(ts) == Named(NAME, FirstUnused(USES, 16, 32, ts)) {
      FirstFreeIsFirstUnused(ts);
    }
    RepeatHandsOut(FIRST, USES, NAME, 16, 32, taken, calls);
    forall k: nat ensures USES(NAME(k), k) {
      CandidateUsesItself(k);
    }
    HandOutAscends(USES, NAME, 16, 32, taken, calls, 16);
    AscendingFits(seconds, 16, 32);
  }

  /** Two texts name networks that have no address in common. */
  ghost predicate Apart(t: string, u: string) {
    Parse(t).Some? && Parse(u).Some? ==> !ShareAddress(Parse(t).value, Parse(u).value)
  }

  lemma CandidatesApart(a: nat, b: nat)
    requires a <= 255 && b <= 255 && a != b
    ensures Apart(Candidate(a), Candidate(b))
  {
    CandidateParses(a);
    CandidateParses(b);
    SecondRoundTrip(a);
    SecondRoundTrip(b);
    PoolIsCanonical(a as bv8);
    PoolIsCanonical(b as bv8);
    PoolsAreDisjoint(a as bv8, b as bv8);
    OverlapIsSharedAddress(Pool(a as bv8), Pool(b as bv8));
  }

  lemma UnusedApart(second: nat, taken: seq<string>, t: string)
    requires second <= 255 && Unused(USES, second, taken) && t in taken
    ensures Apart(Candidate(second), t)
  {
    FreeIsUnused(second, taken);
    UntouchedIsFree(second, taken);
    CandidateParses(second);
  }

  /** Repeated allocation ends within sixteen calls, and what it hands out is disjoint from itself and from what was taken. */
  lemma AllocationsAreDisjoint(taken: seq<string>, calls: nat)
    ensures var out := Allocations(taken, calls);
            && |out| <= 16
            && (forall i, j | 0 <= i < j < |out| :: Apart(out[i], out[j]))
            && (forall i, t | 0 <= i < |out| && t in taken :: Apart(out[i], t))
  {
    var out := Allocations(taken, calls);
    var seconds := AllocationsStayInPool(taken, calls);
    forall i, j | 0 <= i < j < |out| ensures Apart(out[i], out[j]) {
      CandidatesApart(seconds[i], seconds[j]);
    }
    forall i, t | 0 <= i < |out| && t in taken ensures Apart(out[i], t) {
      UnusedApart(seconds[i], taken, t);
    }
  }
}
