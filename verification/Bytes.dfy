/** Bytes, and the big- and little-endian integer fields the wire formats are made of. */
module Bytes {
  type byte = b: int | 0 <= b < 256

  /** Big-endian 16-bit field at offset `i`. */
  function U16(s: seq<byte>, i: nat): (n: nat)
    requires i + 2 <= |s|
    ensures n < 0x1_0000
  {
    256 * s[i] as int + s[i + 1] as int
  }

  /** Big-endian 32-bit field at offset `i`. */
  function U32(s: seq<byte>, i: nat): (n: nat)
    requires i + 4 <= |s|
    ensures n < 0x1_0000_0000
  {
    U16(s, i) * 0x1_0000 + U16(s, i + 2)
  }

  /** Little-endian 32-bit field at offset `i`. */
  function Le32At(s: seq<byte>, i: nat): (n: nat)
    requires i + 4 <= |s|
    ensures n < 0x1_0000_0000
  {
    s[i] as int + 0x100 * s[i + 1] as int + 0x1_0000 * s[i + 2] as int + 0x100_0000 * s[i + 3] as int
  }

  function Be16(n: nat): (s: seq<byte>)
    requires n < 0x1_0000
    ensures |s| == 2 && U16(s, 0) == n
  {
    [n / 256, n % 256]
  }

  function Be32(n: nat): (s: seq<byte>)
    requires n < 0x1_0000_0000
    ensures |s| == 4 && U32(s, 0) == n
  {
    Be16(n / 0x1_0000) + Be16(n % 0x1_0000)
  }

  function Le16(n: nat): (s: seq<byte>)
    requires n < 0x1_0000
    ensures |s| == 2 && s[0] as int + 256 * s[1] as int == n
  {
    [n % 256, n / 256]
  }

  function Le32(n: nat): (s: seq<byte>)
    requires n < 0x1_0000_0000
    ensures |s| == 4 && Le32At(s, 0) == n
  {
    Le16(n % 0x1_0000) + Le16(n / 0x1_0000)
  }

  lemma U16Slice(s: seq<byte>, a: nat, b: nat, c: nat)
    requires a <= b <= |s| && c + 2 <= b - a
    ensures U16(s[a..b], c) == U16(s, a + c)
  {
  }

  lemma {:induction false} SliceOfSlice<T>(s: seq<T>, a: nat, b: nat, c: nat, d: nat)
    requires a <= b <= |s| && c <= d <= b - a
    ensures s[a..b][c..d] == s[a + c..a + d]
  {
    var x, y := s[a..b][c..d], s[a + c..a + d];
    forall i | 0 <= i < d - c ensures x[i] == y[i] {
      assert x[i] == s[a..b][c + i];
    }
  }
}
