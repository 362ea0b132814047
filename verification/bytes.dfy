/** Fixed-width unsigned integers, big- and little-endian field packing and the
    plain byte sum the R30X checksum is built from. */
module Bytes {

  type uint8 = x: int | 0 <= x < 0x100
  type uint16 = x: int | 0 <= x < 0x1_0000
  type uint32 = x: int | 0 <= x < 0x1_0000_0000

  const TWO_TO_THE_16: int := 0x1_0000
  const TWO_TO_THE_32: int := 0x1_0000_0000

  datatype Option<+T> = None | Some(value: T)

  function Min(a: nat, b: nat): nat { if a <= b then a else b }

  /** `hi << 8 | lo`: a 16-bit field sent high byte first. */
  function Be16(hi: uint8, lo: uint8): uint16 { hi * 0x100 + lo }

  /** `lo | hi << 8`: a 16-bit field sent low byte first. */
  function Le16(lo: uint8, hi: uint8): uint16 { hi * 0x100 + lo }

  /** A 32-bit field sent most significant byte first. */
  function Be32(b0: uint8, b1: uint8, b2: uint8, b3: uint8): uint32
  {
    Be16(b0, b1) * 0x1_0000 + Be16(b2, b3)
  }

  /** A 32-bit field sent least significant byte first. */
  function Le32(b0: uint8, b1: uint8, b2: uint8, b3: uint8): uint32
  {
    Le16(b2, b3) * 0x1_0000 + Le16(b0, b1)
  }

  /** The two bytes of `x`, high byte first. */
  function Be16Bytes(x: uint16): (r: seq<uint8>)
    ensures |r| == 2 && Be16(r[0], r[1]) == x
  {
    [x / 0x100, x % 0x100]
  }

  /** The four bytes of `x`, most significant first (`(x >> 24) & 0xFF`, ...). */
  function Be32Bytes(x: uint32): (r: seq<uint8>)
    ensures |r| == 4 && Be32(r[0], r[1], r[2], r[3]) == x
  {
    var hi := x / 0x1_0000;
    var lo := x % 0x1_0000;
    Be16Bytes(hi) + Be16Bytes(lo)
  }

  /** The two bytes of `x`, low byte first. */
  function Le16Bytes(x: uint16): (r: seq<uint8>)
    ensures |r| == 2 && Le16(r[0], r[1]) == x
  {
    [x % 0x100, x / 0x100]
  }

  /** The four bytes of `x`, least significant first. */
  function Le32Bytes(x: uint32): (r: seq<uint8>)
    ensures |r| == 4 && Le32(r[0], r[1], r[2], r[3]) == x
  {
    Le16Bytes(x % 0x1_0000) + Le16Bytes(x / 0x1_0000)
  }

  lemma Be16Injective(a: uint8, b: uint8, c: uint8, d: uint8)
    requires Be16(a, b) == Be16(c, d)
    ensures a == c && b == d
  {
  }

  lemma Be32Injective(a: seq<uint8>, b: seq<uint8>)
    requires |a| == 4 && |b| == 4
    requires Be32(a[0], a[1], a[2], a[3]) == Be32(b[0], b[1], b[2], b[3])
    ensures a == b
  {
    Be16Injective(a[0], a[1], b[0], b[1]);
    Be16Injective(a[2], a[3], b[2], b[3]);
  }

  lemma Le16Injective(a: uint8, b: uint8, c: uint8, d: uint8)
    requires Le16(a, b) == Le16(c, d)
    ensures a == c && b == d
  {
  }

  lemma Le32Injective(a: seq<uint8>, b: seq<uint8>)
    requires |a| == 4 && |b| == 4
    requires Le32(a[0], a[1], a[2], a[3]) == Le32(b[0], b[1], b[2], b[3])
    ensures a == b
  {
    Le16Injective(a[2], a[3], b[2], b[3]);
    Le16Injective(a[0], a[1], b[0], b[1]);
  }

  /** Plain (unbounded) sum of the bytes of `s`, peeled from the end so that it
      follows a loop that adds one byte per step. */
  function Sum(s: seq<uint8>): nat
  {
    if s == [] then 0 else Sum(s[..|s| - 1]) + s[|s| - 1]
  }

  lemma {:induction false} SumAppend(a: seq<uint8>, b: seq<uint8>)
    ensures Sum(a + b) == Sum(a) + Sum(b)
    decreases |b|
  {
    if b == [] {
      assert a + b == a;
    } else {
      var b' := b[..|b| - 1];
      assert (a + b)[..|a + b| - 1] == a + b';
      SumAppend(a, b');
    }
  }

  /** One more byte of a prefix adds that byte. */
  lemma SumPrefix(s: seq<uint8>, k: nat)
    requires k < |s|
    ensures Sum(s[..k + 1]) == Sum(s[..k]) + s[k]
  {
    assert s[..k + 1][..k] == s[..k];
  }

  lemma Sum4(a: uint8, b: uint8, c: uint8, d: uint8)
    ensures Sum([a, b, c, d]) == a + b + c + d
  {
    var s: seq<uint8> := [a, b, c, d];
    SumPrefix(s, 0);
    SumPrefix(s, 1);
    SumPrefix(s, 2);
    SumPrefix(s, 3);
    assert s[..0] == [];
    assert s[..4] == s;
  }

  /** The first byte of a window, then the rest. */
  lemma SumHead(s: seq<uint8>, i: nat, k: nat)
    requires i < k <= |s|
    ensures Sum(s[i..k]) == s[i] + Sum(s[i + 1..k])
  {
    SumSplit(s, i, i + 1, k);
    assert s[i..i + 1][..0] == [];
  }

  /** A window of a sequence splits at any point in between. */
  lemma SumSplit(s: seq<uint8>, i: nat, j: nat, k: nat)
    requires i <= j <= k <= |s|
    ensures Sum(s[i..k]) == Sum(s[i..j]) + Sum(s[j..k])
  {
    assert s[i..k] == s[i..j] + s[j..k];
    SumAppend(s[i..j], s[j..k]);
  }

  /** Changing one byte changes the sum by exactly the difference. */
  lemma {:induction false} SumUpdate(s: seq<uint8>, i: nat, v: uint8)
    requires i < |s|
    ensures Sum(s[i := v]) == Sum(s) - s[i] + v
    decreases |s|
  {
    var t := s[i := v];
    if i == |s| - 1 {
      assert t[..|t| - 1] == s[..|s| - 1];
    } else {
      assert t[..|t| - 1] == s[..|s| - 1][i := v];
      SumUpdate(s[..|s| - 1], i, v);
    }
  }

  /** Reducing modulo 2^16 after every addition, as a `uint16` accumulator
      does, gives the same result as reducing once at the end. */
  lemma ModAdd(a: int, b: int)
    ensures (a % TWO_TO_THE_16 + b) % TWO_TO_THE_16 == (a + b) % TWO_TO_THE_16
  {
  }
}
