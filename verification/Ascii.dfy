/** ASCII strings: letter case, white space, and dropped separators. */
module Ascii {
  predicate IsSpace(c: char) { c == ' ' || '\t' <= c <= '\r' }

  function Upper(c: char): char { if 'a' <= c <= 'z' then ((c as int) - 32) as char else c }

  function UpperAll(s: string): (u: string)
    ensures |u| == |s|
  {
    seq(|s|, i requires 0 <= i < |s| => Upper(s[i]))
  }

  function TrimStart(s: string): string {
    if s != [] && IsSpace(s[0]) then TrimStart(s[1..]) else s
  }

  function TrimEnd(s: string): string {
    if s != [] && IsSpace(s[|s| - 1]) then TrimEnd(s[..|s| - 1]) else s
  }

  /** s without the characters in drop. */
  function Removing(s: string, drop: set<char>): string {
    if s == [] then [] else Removing(s[..|s| - 1], drop) + if s[|s| - 1] in drop then [] else [s[|s| - 1]]
  }

  /** Each of the 26 small letters becomes its capital, and nothing else changes. */
  lemma {:induction false} UpperExactly(c: char)
    ensures 97 <= c as int <= 122 ==> Upper(c) as int == c as int - 32
    ensures !(97 <= c as int <= 122) ==> Upper(c) == c
  {}

  /** White space is the space, and the five control characters from tab to
      carriage return. */
  lemma {:induction false} SpacesExactly(c: char)
    ensures IsSpace(c) <==> c as int in {9, 10, 11, 12, 13, 32}
  {}

  lemma {:induction false} RemovingJoin(a: string, b: string, drop: set<char>)
    ensures Removing(a + b, drop) == Removing(a, drop) + Removing(b, drop)
  {
    if b == [] {
      assert a + b == a;
    } else {
      assert (a + b)[..|a + b| - 1] == a + b[..|b| - 1];
      RemovingJoin(a, b[..|b| - 1], drop);
    }
  }

  lemma {:induction false} RemovingKeeps(s: string, drop: set<char>)
    requires forall i :: 0 <= i < |s| ==> s[i] !in drop
    ensures Removing(s, drop) == s
  {
    if s == [] {
    } else {
      assert s == s[..|s| - 1] + [s[|s| - 1]];
      RemovingKeeps(s[..|s| - 1], drop);
    }
  }

  lemma {:induction false} RemovingDrops(c: char, drop: set<char>)
    requires c in drop
    ensures Removing([c], drop) == []
  {
    assert [c][..0] == [];
  }
}
