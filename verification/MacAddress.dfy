/** `parse_mac` of `network/src/lib.rs`. */
module MacAddress {
  import opened Ascii
  import opened Wrappers

  const SEPARATORS: set<char> := {'-', ':', '.'}

  predicate IsHex(c: char) { '0' <= c <= '9' || 'A' <= c <= 'F' }

  predicate AllHex(s: string) { forall i :: 0 <= i < |s| ==> IsHex(s[i]) }

  function Cleaned(mac: string): string { Removing(UpperAll(mac), SEPARATORS) }

  /** n pairs of the digits, joined by colons. */
  function Paired(digits: string, n: nat): string
    requires 2 * n <= |digits|
  {
    if n == 0 then ""
    else Paired(digits, n - 1) + (if n > 1 then ":" else "") + digits[2 * n - 2..2 * n]
  }

  /** What `parse_mac` accepts, and its answer. */
  function Parsed(mac: string): Option<string> {
    var digits := Cleaned(mac);
    if |digits| == 12 && AllHex(digits) then Some(Paired(digits, 6)) else None
  }

  method ParseMac(mac: string) returns (r: Option<string>)
    ensures r == Parsed(mac)
  {
    var clean := Removing(UpperAll(mac), {'-', ':', '.'});
    if !(|clean| == 12 && forall i :: 0 <= i < |clean| ==> IsHex(clean[i])) {
      return None;
    }
    var result := "";
    for k := 0 to 6
      invariant result == Paired(clean, k)
    {
      var i := 2 * k;
      if i > 0 {
        result := result + ":";
      }
      result := result + clean[i..i + 2];
    }
    return Some(result);
  }

  // ---- the formatted address is a normal form ----

  lemma {:induction false} UpperJoin(a: string, b: string)
    ensures UpperAll(a + b) == UpperAll(a) + UpperAll(b)
  {}

  lemma {:induction false} UpperOfHex(s: string)
    requires AllHex(s)
    ensures UpperAll(s) == s
  {}

  lemma {:induction false} CleanedJoin(a: string, b: string)
    ensures Cleaned(a + b) == Cleaned(a) + Cleaned(b)
  {
    UpperJoin(a, b);
    RemovingJoin(UpperAll(a), UpperAll(b), SEPARATORS);
  }

  /** Dashes, colons and dots are dropped, every other character stays, in capitals. */
  lemma {:induction false} CleanedExactly(a: string, c: char)
    ensures Cleaned(a + [c]) == Cleaned(a) + if c in {'-', ':', '.'} then [] else [Upper(c)]
    ensures Cleaned("") == ""
  {
    CleanedJoin(a, [c]);
    assert UpperAll([c]) == [Upper(c)] && [Upper(c)][..0] == [];
    assert Upper(c) in {'-', ':', '.'} <==> c in {'-', ':', '.'};
    hide Upper;
    if c in {'-', ':', '.'} {
      assert Upper(c) in SEPARATORS;
      RemovingDrops(Upper(c), SEPARATORS);
    } else {
      RemovingKeeps([Upper(c)], SEPARATORS);
    }
  }

  lemma {:induction false} CleanedHex(s: string)
    requires AllHex(s)
    ensures Cleaned(s) == s
  {
    UpperOfHex(s);
    assert forall i :: 0 <= i < |s| ==> s[i] !in SEPARATORS;
    RemovingKeeps(s, SEPARATORS);
  }

  lemma {:induction false} CleanedColon()
    ensures Cleaned(":") == "" && Cleaned("") == ""
  {
    assert UpperAll(":") == ":";
    RemovingDrops(':', SEPARATORS);
  }

  lemma {:induction false} CleanedPairs(digits: string, n: nat)
    requires AllHex(digits) && 2 * n <= |digits|
    ensures Cleaned(Paired(digits, n)) == digits[..2 * n]
  {
    hide Cleaned;
    CleanedColon();
    if n == 0 {
    } else {
      var front, colon, pair := Paired(digits, n - 1), if n > 1 then ":" else "", digits[2 * n - 2..2 * n];
      assert Paired(digits, n) == front + colon + pair && AllHex(pair);
      assert digits[..2 * n] == digits[..2 * n - 2] + pair;
      hide *;
      CleanedPairs(digits, n - 1);
      CleanedHex(pair);
      CleanedJoin(front + colon, pair);
      CleanedJoin(front, colon);
      assert Cleaned(front) + "" == Cleaned(front);
    }
  }

  /** Parsing what was formatted gives it back, and the twelve digits survive:
      two inputs get the same address exactly when they differ only in case
      and separators. */
  lemma {:induction false} ParsedIsNormalForm(mac: string, other: string)
    requires Parsed(mac).Some?
    ensures Parsed(Parsed(mac).value) == Parsed(mac) && Cleaned(Parsed(mac).value) == Cleaned(mac)
    ensures Parsed(other) == Parsed(mac) <==> Cleaned(other) == Cleaned(mac)
  {
    var digits := Cleaned(mac);
    CleanedPairs(digits, 6);
    assert digits[..12] == digits;
    if Parsed(other) == Parsed(mac) {
      CleanedPairs(Cleaned(other), 6);
      assert Cleaned(other)[..12] == Cleaned(other);
    }
    hide Cleaned, Paired;
  }

  /** Where the digits and the colons of n pairs stand. */
  lemma {:induction false} PairedAt(digits: string, n: nat, i: nat)
    requires 2 * n <= |digits| && i < n
    ensures |Paired(digits, n)| == 3 * n - 1
    ensures Paired(digits, n)[3 * i] == digits[2 * i] && Paired(digits, n)[3 * i + 1] == digits[2 * i + 1]
    ensures i > 0 ==> Paired(digits, n)[3 * i - 1] == ':'
  {
    var front, colon, pair := Paired(digits, n - 1), if n > 1 then ":" else "", digits[2 * n - 2..2 * n];
    assert Paired(digits, n) == front + colon + pair;
    if n == 1 {
      assert front == "";
    } else {
      PairedAt(digits, n - 1, if i < n - 1 then i else 0);
    }
    hide Paired;
  }

  /** What is accepted, and the form of the answer: twelve hexadecimal digits, however
      separated, come out as six pairs joined by colons. */
  lemma {:induction false} AcceptedExactly(mac: string)
    ensures Parsed(mac).Some? <==> |Cleaned(mac)| == 12 && forall i :: 0 <= i < 12 ==> Cleaned(mac)[i] in "0123456789ABCDEF"
    ensures Parsed(mac).Some? ==>
              var address, digits := Parsed(mac).value, Cleaned(mac);
              && |address| == 17
              && (forall i :: 0 <= i < 6 ==> address[3 * i] == digits[2 * i] && address[3 * i + 1] == digits[2 * i + 1])
              && (forall i :: 0 < i < 6 ==> address[3 * i - 1] == ':')
  {
    var digits := Cleaned(mac);
    hide Cleaned, Paired;
    assert forall c :: IsHex(c) <==> c in "0123456789ABCDEF" by { forall c ensures IsHex(c) <==> c in "0123456789ABCDEF" { HexDigits(c); } }
    if Parsed(mac).Some? {
      forall i: nat | i < 6
        ensures |Paired(digits, 6)| == 17
        ensures Paired(digits, 6)[3 * i] == digits[2 * i] && Paired(digits, 6)[3 * i + 1] == digits[2 * i + 1]
        ensures i > 0 ==> Paired(digits, 6)[3 * i - 1] == ':'
      {
        PairedAt(digits, 6, i);
      }
      PairedAt(digits, 6, 0);
    }
  }

  lemma {:induction false} HexDigits(c: char)
    ensures IsHex(c) <==> c in "0123456789ABCDEF"
  {}

  predicate HexOrColon(s: string) { forall i :: 0 <= i < |s| ==> IsHex(s[i]) || s[i] == ':' }

  lemma {:induction false} PairedChars(digits: string, n: nat)
    requires AllHex(digits) && 2 * n <= |digits|
    ensures HexOrColon(Paired(digits, n)) && (n > 0 ==> Paired(digits, n) != [])
  {
    if n == 0 {
    } else {
      PairedChars(digits, n - 1);
      var front, colon, pair := Paired(digits, n - 1), if n > 1 then ":" else "", digits[2 * n - 2..2 * n];
      assert Paired(digits, n) == front + colon + pair;
      assert HexOrColon(colon) && HexOrColon(pair);
      hide Paired;
      HexOrColonJoin(front, colon);
      HexOrColonJoin(front + colon, pair);
    }
  }

  lemma {:induction false} HexOrColonJoin(a: string, b: string)
    requires HexOrColon(a) && HexOrColon(b)
    ensures HexOrColon(a + b)
  {
    hide IsHex;
  }
}
