/** Netmasks and prefix lengths in `network/src/lib.rs` (RFC 4632, section 3.1). */
module Netmask {
  import opened Wrappers
  import opened Bytes

  // ---- bits ----

  function Pow2(n: nat): (r: nat)
    ensures r > 0
  {
    if n == 0 then 1 else 2 * Pow2(n - 1)
  }

  /** The n low bits of v, the highest first. */
  function BitsOf(v: nat, n: nat): (bits: seq<bool>)
    ensures |bits| == n
  {
    if n == 0 then [] else BitsOf(v / 2, n - 1) + [v % 2 == 1]
  }

  function ValueOf(bits: seq<bool>): nat {
    if bits == [] then 0 else 2 * ValueOf(bits[..|bits| - 1]) + if bits[|bits| - 1] then 1 else 0
  }

  /** Bitwise and. */
  function And(a: nat, b: nat): nat {
    if a == 0 then 0 else 2 * And(a / 2, b / 2) + if a % 2 == 1 && b % 2 == 1 then 1 else 0
  }

  /** c ones, then only zeros. */
  predicate IsPrefixMask(bits: seq<bool>, c: nat) {
    c <= |bits| && forall j :: 0 <= j < |bits| ==> (bits[j] <==> j < c)
  }

  function LeadingOnes(bits: seq<bool>): (c: nat)
    ensures c <= |bits|
    ensures forall j :: 0 <= j < c ==> bits[j]
    ensures c < |bits| ==> !bits[c]
  {
    if bits == [] || !bits[0] then 0 else 1 + LeadingOnes(bits[1..])
  }

  lemma {:induction false} AndSelf(a: nat)
    ensures And(a, a) == a
  {
    if a == 0 {
    } else {
      AndSelf(a / 2);
    }
  }

  lemma {:induction false} ValueInRange(bits: seq<bool>)
    ensures ValueOf(bits) < Pow2(|bits|)
  {
    if bits == [] {
    } else {
      ValueInRange(bits[..|bits| - 1]);
    }
  }

  lemma {:induction false} BitsOfValue(bits: seq<bool>)
    ensures BitsOf(ValueOf(bits), |bits|) == bits
  {
    if bits == [] {
    } else {
      BitsOfValue(bits[..|bits| - 1]);
    }
  }

  lemma {:induction false} ValueOfBits(v: nat, n: nat)
    requires v < Pow2(n)
    ensures ValueOf(BitsOf(v, n)) == v
  {
    if n == 0 {
    } else {
      ValueOfBits(v / 2, n - 1);
      assert BitsOf(v, n)[..n - 1] == BitsOf(v / 2, n - 1);
    }
  }

  /** The complement of the value, and the value of the complement. */
  function Complement(bits: seq<bool>): nat { Pow2(|bits|) - 1 - (ValueInRange(bits); ValueOf(bits)) }

  lemma {:induction false} ComplementIsZero(bits: seq<bool>)
    ensures Complement(bits) == 0 <==> forall j :: 0 <= j < |bits| ==> bits[j]
  {
    if bits == [] {
    } else {
      var front := bits[..|bits| - 1];
      ComplementIsZero(front);
      assert Complement(bits) == 2 * Complement(front) + if bits[|bits| - 1] then 0 else 1;
      assert forall j :: 0 <= j < |front| ==> front[j] == bits[j];
    }
  }

  /** A mask has only one length, the number of its leading ones. */
  lemma {:induction false} PrefixLength(bits: seq<bool>, c: nat)
    requires IsPrefixMask(bits, c)
    ensures c == LeadingOnes(bits)
  {
    var n := LeadingOnes(bits);
    assert n < |bits| ==> !bits[n];
    assert c < |bits| ==> !bits[c];
  }

  predicate IsMask(bits: seq<bool>) { IsPrefixMask(bits, LeadingOnes(bits)) }

  lemma {:induction false} MaskGrows(front: seq<bool>, last: bool)
    ensures IsMask(front + [last]) <==> if last then forall j :: 0 <= j < |front| ==> front[j] else IsMask(front)
  {
    var bits := front + [last];
    var n := LeadingOnes(bits);
    assert bits[|front|] == last && forall j :: 0 <= j < |front| ==> bits[j] == front[j];
    if !last {
      assert n <= |front|;
      if IsMask(bits) {
        assert IsPrefixMask(front, n);
        PrefixLength(front, n);
      }
      if IsMask(front) {
        assert IsPrefixMask(bits, LeadingOnes(front));
        PrefixLength(bits, LeadingOnes(front));
      }
    } else if n == |bits| {
      assert IsPrefixMask(bits, n);
      forall j | 0 <= j < |front| ensures front[j] { assert bits[j]; }
    } else {
      assert !bits[n];
    }
  }

  /** x & (x + 1) == 0 for the complement x says: ones, then zeros. */
  lemma {:induction false} AndTestsForPrefix(bits: seq<bool>)
    ensures And(Complement(bits), Complement(bits) + 1) == 0 <==> IsMask(bits)
  {
    if bits == [] {
    } else {
      var front, last := bits[..|bits| - 1], bits[|bits| - 1];
      var x := Complement(front);
      assert Complement(bits) == 2 * x + if last then 0 else 1;
      assert bits == front + [last];
      MaskGrows(front, last);
      AndNext(x);
      hide IsMask, Complement, And;
      if last {
        AndSelf(x);
        ComplementIsZero(front);
      } else {
        AndTestsForPrefix(front);
      }
    }
  }

  lemma {:induction false} AndNext(x: nat)
    ensures And(2 * x, 2 * x + 1) == 2 * And(x, x)
    ensures And(2 * x + 1, 2 * x + 2) == 2 * And(x, x + 1)
  {
    assert (2 * x + 1) / 2 == x && (2 * x + 2) / 2 == x + 1;
  }

  // ---- dotted quads ----

  function Split(s: string, sep: char): (parts: seq<string>)
    ensures parts != []
    decreases |s|
  {
    if s == [] then [[]]
    else
      var rest := Split(s[1..], sep);
      if s[0] == sep then [[]] + rest else [[s[0]] + rest[0]] + rest[1..]
  }

  predicate IsDigit(c: char) { '0' <= c <= '9' }

  predicate AllDigits(s: string) { forall i :: 0 <= i < |s| ==> IsDigit(s[i]) }

  function DecimalValue(s: string): nat
    requires AllDigits(s)
  {
    if s == [] then 0 else 10 * DecimalValue(s[..|s| - 1]) + DigitValue(s[|s| - 1])
  }

  function DigitValue(c: char): (r: nat)
    requires IsDigit(c)
    ensures r < 10
  {
    c as int - '0' as int
  }

  function WithoutPlus(s: string): string { if s != [] && s[0] == '+' then s[1..] else s }

  /** `str::parse::<u8>`: digits after an optional plus sign, at most 255. */
  function ParseU8(s: string): Option<byte> {
    var digits := WithoutPlus(s);
    if digits != [] && AllDigits(digits) && DecimalValue(digits) <= 255
    then Some(DecimalValue(digits)) else None
  }

  function ParseAll(parts: seq<string>): (r: Option<seq<byte>>)
    ensures r.Some? ==> |r.value| == |parts|
  {
    if parts == [] then Some([])
    else
      match ParseU8(parts[0])
      case None => None
      case Some(octet) =>
        match ParseAll(parts[1..])
        case None => None
        case Some(rest) => Some([octet] + rest)
  }

  /** The four octets of a dotted quad. */
  function Octets(s: string): (r: Option<seq<byte>>)
    ensures r.Some? ==> |r.value| == 4
  {
    var parts := Split(s, '.');
    if |parts| == 4 then ParseAll(parts) else None
  }

  /** The u32 of four octets. */
  function Address(octets: seq<byte>): (r: nat)
    requires |octets| == 4
    ensures r <= 0xFFFF_FFFF
  {
    var a: int, b: int, c: int, d: int := octets[0], octets[1], octets[2], octets[3];
    a * 0x100_0000 + b * 0x1_0000 + c * 0x100 + d
  }

  function MaskBits(octets: seq<byte>): (bits: seq<bool>)
    requires |octets| == 4
    ensures |bits| == 32
  {
    BitsOf(octets[0], 8) + BitsOf(octets[1], 8) + BitsOf(octets[2], 8) + BitsOf(octets[3], 8)
  }

  predicate IsValidNetmask(netmask: string) {
    match Octets(netmask)
    case None => false
    case Some(octets) =>
      var bits := Address(octets);
      var inverted := 0xFFFF_FFFF - bits;
      And(inverted, (inverted + 1) % 0x1_0000_0000) == 0
  }

  function Dec(n: nat): string
    requires n < 1000
  {
    if n < 10 then [Digit(n)] else if n < 100 then [Digit(n / 10), Digit(n % 10)] else [Digit(n / 100), Digit(n / 10 % 10), Digit(n % 10)]
  }

  function Digit(n: nat): char
    requires n < 10
  {
    ('0' as int + n) as char
  }

  function Quad(mask: nat): string {
    Dec(mask / 0x100_0000 % 256) + "." + Dec(mask / 0x1_0000 % 256) + "." + Dec(mask / 0x100 % 256) + "." + Dec(mask % 256)
  }

  /** `x << k` on a u32. */
  function ShiftLeft(x: nat, k: nat): nat {
    if k == 0 then x else ShiftLeft(x, k - 1) * 2 % 0x1_0000_0000
  }

  function CidrToNetmask(cidr: byte): string {
    if cidr > 32 then "255.255.255.0" else Quad(if cidr == 0 then 0 else ShiftLeft(0xFFFF_FFFF, 32 - cidr))
  }

  // ---- octets and bits ----

  lemma {:induction false} ValueOfJoin(a: seq<bool>, b: seq<bool>)
    ensures ValueOf(a + b) == ValueOf(a) * Pow2(|b|) + ValueOf(b)
  {
    if b == [] {
      assert a + b == a;
    } else {
      var front := b[..|b| - 1];
      assert (a + b)[..|a + b| - 1] == a + front;
      ValueOfJoin(a, front);
      assert ValueOf(a) * Pow2(|b|) == 2 * (ValueOf(a) * Pow2(|front|));
    }
  }

  lemma {:induction false} Pow2Values()
    ensures Pow2(8) == 0x100 && Pow2(16) == 0x1_0000 && Pow2(24) == 0x100_0000 && Pow2(31) == 0x8000_0000 && Pow2(32) == 0x1_0000_0000
  {
    assert Pow2(4) == 16;
    assert Pow2(8) == 0x100;
    assert Pow2(12) == 0x1000;
    assert Pow2(16) == 0x1_0000;
    assert Pow2(20) == 0x10_0000;
    assert Pow2(24) == 0x100_0000;
    assert Pow2(28) == 0x1000_0000;
  }

  lemma {:induction false} AddressIsValue(octets: seq<byte>)
    requires |octets| == 4
    ensures ValueOf(MaskBits(octets)) == Address(octets)
  {
    Pow2Values();
    var a, b, c, d := BitsOf(octets[0], 8), BitsOf(octets[1], 8), BitsOf(octets[2], 8), BitsOf(octets[3], 8);
    hide BitsOf, ValueOf, Pow2;
    ValueOfBits(octets[0], 8);
    ValueOfBits(octets[1], 8);
    ValueOfBits(octets[2], 8);
    ValueOfBits(octets[3], 8);
    ValueOfJoin(a + b + c, d);
    ValueOfJoin(a + b, c);
    ValueOfJoin(a, b);
  }

  predicate TestOf(address: nat)
    requires address <= 0xFFFF_FFFF
  {
    And(0xFFFF_FFFF - address, (0xFFFF_FFFF - address + 1) % 0x1_0000_0000) == 0
  }

  lemma {:induction false} TestsForMask(bits: seq<bool>, address: nat)
    requires |bits| == 32 && ValueOf(bits) == address <= 0xFFFF_FFFF
    ensures TestOf(address) <==> IsMask(bits)
  {
    Pow2Values();
    hide Pow2, And, IsMask;
    assert Complement(bits) == 0xFFFF_FFFF - address;
    AndTestsForPrefix(bits);
    if address == 0 {
      AndZero(0xFFFF_FFFF);
      ZeroIsMask(bits);
    }
  }

  /** A netmask is accepted exactly when its bits are ones, then zeros. */
  lemma {:induction false} ValidExactly(netmask: string)
    ensures IsValidNetmask(netmask) <==> Octets(netmask).Some? && IsMask(MaskBits(Octets(netmask).value))
  {
    hide Octets, And, IsMask, MaskBits;
    if Octets(netmask).Some? {
      var octets := Octets(netmask).value;
      AddressIsValue(octets);
      TestsForMask(MaskBits(octets), Address(octets));
      assert IsValidNetmask(netmask) <==> TestOf(Address(octets));
    }
  }

  lemma {:induction false} AndZero(a: nat)
    ensures And(a, 0) == 0
  {
    if a == 0 {
    } else {
      AndZero(a / 2);
    }
  }

  lemma {:induction false} ZeroIsMask(bits: seq<bool>)
    requires ValueOf(bits) == 0
    ensures IsMask(bits)
  {
    if bits == [] {
    } else {
      ZeroIsMask(bits[..|bits| - 1]);
      assert bits == bits[..|bits| - 1] + [false];
      MaskGrows(bits[..|bits| - 1], false);
    }
  }

  // ---- the prefix length ----

  /** `octet >> i` */
  function ShiftRight(octet: nat, i: nat): nat {
    if i == 0 then octet else ShiftRight(octet, i - 1) / 2
  }

  lemma {:induction false} ShiftHalf(octet: nat, i: nat)
    ensures ShiftRight(octet / 2, i) == ShiftRight(octet, i + 1)
  {
    if i == 0 {
    } else {
      ShiftHalf(octet, i - 1);
    }
  }

  lemma {:induction false} BitIsShift(octet: nat, n: nat, i: nat)
    requires i < n
    ensures BitsOf(octet, n)[n - 1 - i] <==> ShiftRight(octet, i) % 2 == 1
  {
    if i == 0 {
    } else {
      BitIsShift(octet / 2, n - 1, i - 1);
      ShiftHalf(octet, i - 1);
    }
  }

  datatype NetworkError = InvalidFormat | InvalidOctets

  /** The ones that lead the mask, whatever follows them. */
  function CidrOf(netmask: string): Result<nat, NetworkError> {
    if |Split(netmask, '.')| != 4 then Err(InvalidFormat)
    else
      match Octets(netmask)
      case None => Err(InvalidOctets)
      case Some(octets) => Ok(LeadingOnes(MaskBits(octets)))
  }

  lemma {:induction false} OctetBit(octets: seq<byte>, k: nat, i: nat)
    requires |octets| == 4 && k < 4 && i < 8
    ensures MaskBits(octets)[8 * k + 7 - i] <==> ShiftRight(octets[k], i) % 2 == 1
  {
    BitIsShift(octets[k], 8, i);
    hide BitsOf;
  }

  predicate Leads(bits: seq<bool>, c: nat) { c <= |bits| && forall j :: 0 <= j < c ==> bits[j] }

  lemma {:induction false} LeadsOn(bits: seq<bool>, c: nat)
    requires Leads(bits, c)
    ensures if c < |bits| && bits[c] then Leads(bits, c + 1) else LeadingOnes(bits) == c
  {
    assert c < |bits| && !bits[c] ==> LeadingOnes(bits) <= c;
  }

  method NetmaskToCidr(netmask: string) returns (r: Result<nat, NetworkError>)
    ensures r == CidrOf(netmask)
  {
    var parts := Split(netmask, '.');
    if |parts| != 4 {
      return Err(InvalidFormat);
    }
    var octets: seq<byte>;
    match ParseAll(parts) {
      case None => return Err(InvalidOctets);
      case Some(parsed) => octets := parsed;
    }
    ghost var bits := MaskBits(octets);
    assert CidrOf(netmask) == Ok(LeadingOnes(bits));
    hide CidrOf, Octets, MaskBits, ShiftRight, Leads, LeadingOnes;
    var cidr := 0;
    assert Leads(bits, 0) by { LeadsNowhere(bits); }
    for k := 0 to 4
      invariant cidr == 8 * k && Leads(bits, cidr)
    {
      for i := 8 downto 0
        invariant cidr == 8 * k + 8 - i && Leads(bits, cidr)
      {
        OctetBit(octets, k, i);
        LeadsOn(bits, cidr);
        if ShiftRight(octets[k], i) % 2 == 1 {
          cidr := cidr + 1;
        } else {
          return Ok(cidr);
        }
      }
    }
    LeadsOn(bits, cidr);
    return Ok(cidr);
  }

  lemma {:induction false} LeadsNowhere(bits: seq<bool>)
    ensures Leads(bits, 0)
  {}

  // ---- there and back ----

  lemma {:induction false} SplitOff(part: string, rest: string, sep: char)
    requires sep !in part
    ensures Split(part + [sep] + rest, sep) == [part] + Split(rest, sep)
  {
    var s := part + [sep] + rest;
    if part == [] {
      assert s[1..] == rest;
      assert [[]] + Split(rest, sep) == [part] + Split(rest, sep);
    } else {
      assert s[1..] == part[1..] + [sep] + rest;
      SplitOff(part[1..], rest, sep);
      assert [part[0]] + part[1..] == part;
    }
  }

  lemma {:induction false} SplitWhole(part: string, sep: char)
    requires sep !in part
    ensures Split(part, sep) == [part]
  {
    if part == [] {
    } else {
      SplitWhole(part[1..], sep);
      assert [part[0]] + part[1..] == part;
    }
  }

  lemma {:induction false} DecIsDigits(n: nat)
    requires n < 1000
    ensures Dec(n) != [] && AllDigits(Dec(n))
  {}

  lemma {:induction false} DecValue(n: nat)
    requires n < 1000
    ensures AllDigits(Dec(n)) && DecimalValue(Dec(n)) == n
  {
    DecIsDigits(n);
    var s := Dec(n);
    if n >= 100 {
      assert s[..2] == [Digit(n / 100), Digit(n / 10 % 10)] && s[..2][..1] == [Digit(n / 100)] && s[..2][..1][..0] == [];
      assert DecimalValue(s[..2][..1]) == n / 100;
      assert DecimalValue(s[..2]) == n / 10;
    } else if n >= 10 {
      assert s[..1] == [Digit(n / 10)] && s[..1][..0] == [];
      assert DecimalValue(s[..1]) == n / 10;
    } else {
      assert s[..0] == [];
    }
  }

  lemma {:induction false} ParseDec(n: byte)
    ensures ParseU8(Dec(n)) == Some(n)
  {
    DecIsDigits(n);
    DecValue(n);
    assert Dec(n)[0] != '+';
    hide Dec, DecimalValue;
  }

  // ---- which strings are octets ----

  function Zeros(k: nat): (s: string)
    ensures |s| == k && AllDigits(s)
  {
    seq(k, _ => '0')
  }

  /** A decimal number, after an optional plus sign and any zeros. */
  ghost predicate Spells(s: string, n: nat)
    requires n < 1000
  {
    exists k: nat :: s == Zeros(k) + Dec(n) || s == "+" + (Zeros(k) + Dec(n))
  }

  lemma {:induction false} DecGrows(n: nat, x: nat)
    requires 0 < n < 100 && x < 10
    ensures Dec(10 * n + x) == Dec(n) + [Digit(x)]
  {}

  lemma {:induction false} OneDigit(c: char)
    requires IsDigit(c)
    ensures Dec(DigitValue(c)) == [c] && (c == '0' <==> DigitValue(c) == 0)
  {}

  lemma {:induction false} DigitsSpell(d: string) returns (k: nat)
    requires d != [] && AllDigits(d) && DecimalValue(d) < 1000
    ensures d == Zeros(k) + Dec(DecimalValue(d))
  {
    var front, c := d[..|d| - 1], d[|d| - 1];
    OneDigit(c);
    var x := DigitValue(c);
    assert d == front + [c] && DecimalValue(d) == 10 * DecimalValue(front) + x;
    if front == [] {
      k := 0;
      assert DecimalValue(front) == 0;
    } else {
      k := DigitsSpell(front);
      var v := DecimalValue(front);
      if v == 0 {
        assert Dec(0) == "0";
        assert Zeros(k) + "0" == Zeros(k + 1);
        k := k + 1;
      } else {
        DecGrows(v, x);
      }
    }
  }

  lemma {:induction false} ZerosCountNothing(k: nat, t: string)
    requires AllDigits(t)
    ensures AllDigits(Zeros(k) + t) && DecimalValue(Zeros(k) + t) == DecimalValue(t)
    decreases |t|, k
  {
    var s := Zeros(k) + t;
    if t != [] {
      ZerosCountNothing(k, t[..|t| - 1]);
      assert s[..|s| - 1] == Zeros(k) + t[..|t| - 1] && s[|s| - 1] == t[|t| - 1];
    } else if k > 0 {
      ZerosCountNothing(k - 1, t);
      assert s[..|s| - 1] == Zeros(k - 1) + t && s[|s| - 1] == '0';
    }
  }

  /** A string is taken for an octet exactly when it spells it. */
  lemma {:induction false} OctetExactly(s: string, n: byte)
    ensures ParseU8(s) == Some(n) <==> Spells(s, n)
  {
    hide ParseU8, Spells;
    if ParseU8(s) == Some(n) {
      OctetSpells(s, n);
    }
    if Spells(s, n) {
      SpelledIsOctet(s, n);
    }
  }

  lemma {:induction false} OctetSpells(s: string, n: byte)
    requires ParseU8(s) == Some(n)
    ensures Spells(s, n)
  {
    var d := WithoutPlus(s);
    assert d != [] && AllDigits(d) && DecimalValue(d) == n;
    assert s == d || s == "+" + d;
    hide ParseU8, DecimalValue, Dec, Zeros, WithoutPlus, AllDigits;
    var k := DigitsSpell(d);
  }

  lemma {:induction false} SpelledIsOctet(s: string, n: byte)
    requires Spells(s, n)
    ensures ParseU8(s) == Some(n)
  {
    var k: nat :| s == Zeros(k) + Dec(n) || s == "+" + (Zeros(k) + Dec(n));
    var d := Zeros(k) + Dec(n);
    DecIsDigits(n);
    DecValue(n);
    ZerosCountNothing(k, Dec(n));
    hide Dec, Zeros, DecimalValue;
    assert d != [] && IsDigit(d[0]) && d[0] != '+';
    PlusGoes(d);
    hide WithoutPlus, AllDigits;
  }

  lemma {:induction false} PlusGoes(d: string)
    requires d != [] && d[0] != '+'
    ensures WithoutPlus(d) == d && WithoutPlus("+" + d) == d
  {}

  function OctetsOf(mask: nat): (octets: seq<byte>)
    ensures |octets| == 4
  {
    [mask / 0x100_0000 % 256, mask / 0x1_0000 % 256, mask / 0x100 % 256, mask % 256]
  }

  lemma {:induction false} ParseOneMore(part: string, parts: seq<string>, octets: seq<byte>)
    requires ParseU8(part).Some? && ParseAll(parts) == Some(octets)
    ensures ParseAll([part] + parts) == Some([ParseU8(part).value] + octets)
  {
    hide ParseU8;
    assert ([part] + parts)[1..] == parts;
  }

  lemma {:induction false} ParseFour(a: string, b: string, c: string, d: string)
    requires ParseU8(a).Some? && ParseU8(b).Some? && ParseU8(c).Some? && ParseU8(d).Some?
    ensures ParseAll([a, b, c, d]) == Some([ParseU8(a).value, ParseU8(b).value, ParseU8(c).value, ParseU8(d).value])
  {
    assert ParseAll([]) == Some([]);
    hide ParseU8, ParseAll;
    var x, y, z, w := ParseU8(a).value, ParseU8(b).value, ParseU8(c).value, ParseU8(d).value;
    ParseOneMore(d, [], []);
    assert [d] + [] == [d] && [w] + [] == [w];
    ParseOneMore(c, [d], [w]);
    assert [c] + [d] == [c, d] && [z] + [w] == [z, w];
    ParseOneMore(b, [c, d], [z, w]);
    assert [b] + [c, d] == [b, c, d] && [y] + [z, w] == [y, z, w];
    ParseOneMore(a, [b, c, d], [y, z, w]);
    assert [a] + [b, c, d] == [a, b, c, d] && [x] + [y, z, w] == [x, y, z, w];
  }

  lemma {:induction false} SplitFour(a: string, b: string, c: string, d: string)
    requires '.' !in a && '.' !in b && '.' !in c && '.' !in d
    ensures Split(a + "." + b + "." + c + "." + d, '.') == [a, b, c, d]
  {
    var cd, bcd := c + ['.'] + d, b + ['.'] + (c + ['.'] + d);
    assert a + "." + b + "." + c + "." + d == a + ['.'] + bcd;
    hide Split;
    SplitOff(a, bcd, '.');
    SplitOff(b, cd, '.');
    SplitOff(c, d, '.');
    SplitWhole(d, '.');
  }

  lemma {:induction false} DecHasNoDot(n: nat)
    requires n < 1000
    ensures '.' !in Dec(n)
  {
    DecIsDigits(n);
  }

  /** What is printed is read back. */
  lemma {:induction false} ReadQuad(mask: nat)
    ensures Octets(Quad(mask)) == Some(OctetsOf(mask)) && |Split(Quad(mask), '.')| == 4
  {
    var o := OctetsOf(mask);
    hide Dec, Split, ParseU8, ParseAll;
    DecHasNoDot(o[0]);
    DecHasNoDot(o[1]);
    DecHasNoDot(o[2]);
    DecHasNoDot(o[3]);
    SplitFour(Dec(o[0]), Dec(o[1]), Dec(o[2]), Dec(o[3]));
    ParseDec(o[0]);
    ParseDec(o[1]);
    ParseDec(o[2]);
    ParseDec(o[3]);
    ParseFour(Dec(o[0]), Dec(o[1]), Dec(o[2]), Dec(o[3]));
  }

  lemma {:induction false} Quotient(q: int, r: int, n: int)
    requires 0 <= r < n && 0 <= q && (n == 0x100 || n == 0x1_0000 || n == 0x100_0000)
    ensures (q * n + r) / n == q
  {
    if n == 0x100 {
      assert (q * 0x100 + r) / 0x100 == q;
    } else if n == 0x1_0000 {
      assert (q * 0x1_0000 + r) / 0x1_0000 == q;
    } else {
      assert (q * 0x100_0000 + r) / 0x100_0000 == q;
    }
  }

  lemma {:induction false} Remainder(q: int, r: int)
    requires 0 <= r < 256
    ensures (q * 256 + r) % 256 == r
  {}

  lemma {:induction false} OctetsOfAddress(octets: seq<byte>)
    requires |octets| == 4
    ensures OctetsOf(Address(octets)) == octets
  {
    var a: int, b: int, c: int, d: int := octets[0], octets[1], octets[2], octets[3];
    var v := Address(octets);
    Quotient(a, b * 0x1_0000 + c * 0x100 + d, 0x100_0000);
    Quotient(a * 0x100 + b, c * 0x100 + d, 0x1_0000);
    Quotient(a * 0x1_0000 + b * 0x100 + c, d, 0x100);
    Remainder(0, a);
    Remainder(a, b);
    Remainder(a * 0x100 + b, c);
    Remainder(a * 0x1_0000 + b * 0x100 + c, d);
    assert v == (a * 0x1_0000 + b * 0x100 + c) * 256 + d;
    assert a * 0x1_0000 + b * 0x100 + c == (a * 0x100 + b) * 256 + c;
    hide Address;
  }

  lemma {:induction false} AddressOfOctets(mask: nat)
    requires mask <= 0xFFFF_FFFF
    ensures Address(OctetsOf(mask)) == mask
  {
    var a := mask / 256;
    var b := a / 256;
    var c := b / 256;
    assert mask / 0x1_0000 == b && mask / 0x100_0000 == c;
    assert c < 256;
    assert mask == 256 * a + mask % 256 && a == 256 * b + a % 256 && b == 256 * c + b % 256;
  }

  lemma {:induction false} PrefixValue(bits: seq<bool>, c: nat)
    requires IsPrefixMask(bits, c)
    ensures ValueOf(bits) + Pow2(|bits| - c) == Pow2(|bits|)
  {
    if bits == [] {
    } else {
      var front := bits[..|bits| - 1];
      assert bits[|bits| - 1] <==> |bits| - 1 < c;
      PrefixValue(front, if c == |bits| then c - 1 else c);
    }
  }

  lemma {:induction false} ShiftedOnes(k: nat)
    requires k < 32
    ensures ShiftLeft(0xFFFF_FFFF, k) + Pow2(k) == 0x1_0000_0000
  {
    if k == 0 {
    } else {
      ShiftedOnes(k - 1);
      Pow2Grows(k, 31);
      Pow2Values();
      DoubledOnes(Pow2(k - 1));
    }
  }

  lemma {:induction false} DoubledOnes(p: nat)
    requires 0 < p <= 0x4000_0000
    ensures (0x1_0000_0000 - p) * 2 % 0x1_0000_0000 == 0x1_0000_0000 - 2 * p
  {}

  lemma {:induction false} Pow2Grows(i: nat, j: nat)
    requires i <= j
    ensures Pow2(i) <= Pow2(j)
  {
    if i < j { Pow2Grows(i, j - 1); }
  }

  /** The u32 `cidr_to_netmask` prints. */
  function MaskOf(cidr: nat): nat
    requires cidr <= 32
  {
    if cidr == 0 then 0 else ShiftLeft(0xFFFF_FFFF, 32 - cidr)
  }

  lemma {:induction false} MaskOfIsPrefix(cidr: nat)
    requires cidr <= 32
    ensures MaskOf(cidr) <= 0xFFFF_FFFF && IsPrefixMask(MaskBits(OctetsOf(MaskOf(cidr))), cidr)
    ensures MaskOf(cidr) + Pow2(32 - cidr) == 0x1_0000_0000
  {
    MaskOfValue(cidr);
    hide *;
    OnesValue(cidr);
    AddressOfOctets(MaskOf(cidr));
    AddressIsValue(OctetsOf(MaskOf(cidr)));
    SameValue(Ones(cidr), MaskBits(OctetsOf(MaskOf(cidr))));
  }

  function Ones(c: nat): (bits: seq<bool>)
    requires c <= 32
    ensures |bits| == 32
  {
    seq(32, j requires 0 <= j < 32 => j < c)
  }

  lemma {:induction false} OnesValue(c: nat)
    requires c <= 32
    ensures IsPrefixMask(Ones(c), c) && ValueOf(Ones(c)) + Pow2(32 - c) == 0x1_0000_0000
  {
    hide Pow2;
    PrefixValue(Ones(c), c);
    Pow2Values();
  }

  lemma {:induction false} SameValue(a: seq<bool>, b: seq<bool>)
    requires |a| == |b| && ValueOf(a) == ValueOf(b)
    ensures a == b
  {
    BitsOfValue(a);
    BitsOfValue(b);
  }

  lemma {:induction false} MaskOfValue(cidr: nat)
    requires cidr <= 32
    ensures MaskOf(cidr) + Pow2(32 - cidr) == 0x1_0000_0000 && MaskOf(cidr) <= 0xFFFF_FFFF
  {
    Pow2Values();
    if cidr > 0 { ShiftedOnes(32 - cidr); }
    hide Pow2, ShiftLeft;
  }

  /** A prefix length survives printing as a netmask and counting back. */
  lemma {:induction false} LengthRoundTrip(cidr: byte)
    requires cidr <= 32
    ensures IsValidNetmask(CidrToNetmask(cidr)) && CidrOf(CidrToNetmask(cidr)) == Ok(cidr)
  {
    var mask := MaskOf(cidr);
    assert CidrToNetmask(cidr) == Quad(mask);
    MaskOfIsPrefix(cidr);
    ReadQuad(mask);
    PrefixLength(MaskBits(OctetsOf(mask)), cidr);
    ValidExactly(Quad(mask));
    hide MaskOf, MaskBits, OctetsOf, Quad, IsPrefixMask, IsValidNetmask, Octets, CidrToNetmask;
  }

  /** A longer one comes back as 24. */
  lemma {:induction false} OverlongIsTwentyFour(cidr: byte)
    requires cidr > 32
    ensures CidrToNetmask(cidr) == CidrToNetmask(24)
  {
    assert CidrToNetmask(24) == Quad(MaskOf(24));
    hide MaskOf, Pow2, ShiftLeft, Quad;
    Pow2Values();
    MaskOfValue(24);
    ClassC();
  }

  lemma {:induction false} ClassC()
    ensures Quad(0xFFFF_FF00) == "255.255.255.0"
  {
    assert Dec(255) == "255" && Dec(0) == "0";
    hide Dec;
    assert 0xFFFF_FF00 / 0x100_0000 % 256 == 255 && 0xFFFF_FF00 / 0x1_0000 % 256 == 255;
    assert 0xFFFF_FF00 / 0x100 % 256 == 255 && 0xFFFF_FF00 % 256 == 0;
    ClassCText();
  }

  lemma {:induction false} ClassCText()
    ensures "255" + "." + "255" + "." + "255" + "." + "0" == "255.255.255.0"
  {}

  /** A netmask survives counting and printing back exactly when it is valid. */
  lemma {:induction false} NetmaskRoundTrip(netmask: string)
    requires Octets(netmask).Some?
    ensures CidrOf(netmask).Ok? && CidrOf(netmask).value <= 32
    ensures Octets(CidrToNetmask(CidrOf(netmask).value)) == Octets(netmask) <==> IsValidNetmask(netmask)
  {
    var octets := Octets(netmask).value;
    var bits := MaskBits(octets);
    var cidr := LeadingOnes(bits);
    var mask := MaskOf(cidr);
    assert CidrOf(netmask) == Ok(cidr);
    assert CidrToNetmask(cidr) == Quad(mask);
    MaskOfIsPrefix(cidr);
    ReadQuad(mask);
    ValidExactly(netmask);
    AddressIsValue(octets);
    OctetsOfAddress(octets);
    Pow2Values();
    PrefixLength(MaskBits(OctetsOf(mask)), cidr);
    hide MaskOf, MaskBits, OctetsOf, Quad, IsPrefixMask, IsValidNetmask, Octets, CidrToNetmask, Pow2, Address, CidrOf;
    if IsMask(bits) {
      PrefixValue(bits, cidr);
      assert Address(octets) == mask;
    }
  }
}
