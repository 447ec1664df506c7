/**
 The Internet checksum (section 1 of RFC 1071), and the 32-bit arithmetic with which web/static/app.js folds it.
 */
module Checksum {
  import opened Bytes

  const TWO31 := 0x8000_0000

  // ----- JavaScript's bit operators, which work on numbers reduced to signed 32 bits -----

  function ToInt32(x: int): (r: int)
    ensures -TWO31 <= r < TWO31
    ensures -TWO31 <= x < TWO31 ==> r == x
  {
    (x + TWO31) % 0x1_0000_0000 - TWO31
  }

  /** x & 0xffff */
  function Low16(x: int): (r: nat)
    ensures r < 0x1_0000
  {
    ToInt32(x) % 0x1_0000
  }

  /** x >> 16 */
  function High16(x: int): int {
    ToInt32(x) / 0x1_0000
  }

  /** (~x) & 0xffff */
  function NotLow16(x: int): (r: nat)
    ensures r < 0x1_0000
    ensures 0 <= x < 0x1_0000 ==> r == 0xffff - x
  {
    (-ToInt32(x) - 1) % 0x1_0000
  }

  // ----- the reference -----

  /** Big-endian 16-bit words added up, an odd last byte padded with zero. */
  function WordSum(s: seq<byte>): nat {
    if s == [] then 0
    else if |s| == 1 then 256 * s[0] as int
    else U16(s, 0) + WordSum(s[2..])
  }

  /** End-around carry: the one's complement sum as a 16-bit number. */
  function Carry(x: nat): (r: nat)
    ensures r <= 0xffff
  {
    if x <= 0xffff then x else Carry(x % 0x1_0000 + x / 0x1_0000)
  }

  /** A receiver accepts bytes whose one's complement sum, checksum included, is all ones. */
  predicate SumsToOnes(s: seq<byte>) {
    Carry(WordSum(s)) == 0xffff
  }

  /** Carrying keeps the residue modulo 65535, and only zero becomes zero. */
  lemma {:induction false} CarryResidue(x: nat)
    ensures Carry(x) % 0xffff == x % 0xffff && (Carry(x) == 0 <==> x == 0)
  {
    if x > 0xffff {
      var hi, lo := x / 0x1_0000, x % 0x1_0000;
      CarryResidue(lo + hi);
      assert x == (lo + hi) + 0xffff * hi;
      AddMultiple(lo + hi, hi);
    }
  }

  lemma AddMultiple(a: nat, k: nat)
    ensures (a + 0xffff * k) % 0xffff == a % 0xffff
  {
  }

  lemma CarryOnes(x: nat)
    ensures Carry(x) == 0xffff <==> x > 0 && x % 0xffff == 0
  {
    CarryResidue(x);
  }

  lemma {:induction false} WordSumAppend(a: seq<byte>, b: seq<byte>)
    requires |a| % 2 == 0
    ensures WordSum(a + b) == WordSum(a) + WordSum(b)
  {
    if a == [] {
      assert a + b == b;
    } else {
      assert (a + b)[2..] == a[2..] + b;
      WordSumAppend(a[2..], b);
    }
  }

  lemma {:induction false} WordSumBound(s: seq<byte>)
    ensures WordSum(s) <= 0xffff * (|s| / 2) + (if |s| % 2 == 1 then 0xff00 else 0)
  {
    if |s| >= 2 {
      WordSumBound(s[2..]);
    }
  }

  lemma WordSumSnoc(s: seq<byte>, i: nat)
    requires i % 2 == 0 && i + 2 <= |s|
    ensures WordSum(s[..i + 2]) == WordSum(s[..i]) + U16(s, i)
  {
    var w := s[i..i + 2];
    assert s[..i + 2] == s[..i] + w;
    WordSumAppend(s[..i], w);
    assert w[2..] == [] && U16(w, 0) == U16(s, i);
  }

  // ----- the fold as written -----

  /** The 32-bit fold loop on any number. */
  function FoldJs(x: int): int
    decreases x
  {
    if x <= 0xffff then x else FoldJs(Low16(x) + High16(x))
  }

  method Fold(x: int) returns (c: int)
    ensures c == FoldJs(x)
  {
    c := x;
    while c > 0xffff
      invariant FoldJs(c) == FoldJs(x)
      decreases c
    {
      c := Low16(c) + High16(c);
    }
  }

  /** Below 2^31 the 32-bit operators are exact and the loop computes the reference carry. */
  lemma {:induction false} FoldJsIsCarry(x: nat)
    requires x < TWO31
    ensures FoldJs(x) == Carry(x)
  {
    if x > 0xffff {
      assert Low16(x) == x % 0x1_0000 && High16(x) == x / 0x1_0000;
      FoldJsIsCarry(x % 0x1_0000 + x / 0x1_0000);
    }
  }

  /** A field that holds the complement of the carried sum of everything else makes the whole sum to ones. */
  lemma ComplementCompletes(rest: nat, field: nat)
    requires rest > 0
    requires field == 0xffff - Carry(rest) || (Carry(rest) == 0xffff && field == 0xffff)
    ensures Carry(rest + field) == 0xffff
  {
    CarryResidue(rest);
    CarryOnes(rest + field);
    SameResidue(rest, Carry(rest), field);
    assert Carry(rest) + field == 0xffff || Carry(rest) + field == 2 * 0xffff;
  }

  lemma SameResidue(a: nat, b: nat, f: nat)
    requires a % 0xffff == b % 0xffff
    ensures (a + f) % 0xffff == (b + f) % 0xffff
  {
    var qa, qb := a / 0xffff, b / 0xffff;
    assert a + f == (b + f) + 0xffff * (qa - qb);
  }
}
