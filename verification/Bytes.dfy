/** Bytes, little-endian words and single bits, as the multi-byte accessors
    and the bit masks of the file system see them. */
module Bytes {
  import opened Arith

  const SECTOR_SIZE := 512

  type byte = x: int | 0 <= x < 0x100
  type word = x: int | 0 <= x < 0x1_0000
  type dword = x: int | 0 <= x < 0x1_0000_0000

  // One sector of the drive.
  type Sector = s: seq<byte> | |s| == 512 witness seq(512, _ => 0)

  function LdWord(s: seq<byte>, i: nat): word
    requires i + 2 <= |s|
  {
    s[i] as int + 0x100 * s[i + 1] as int
  }

  function LdDword(s: seq<byte>, i: nat): dword
    requires i + 4 <= |s|
  {
    s[i] as int + 0x100 * s[i + 1] as int + 0x1_0000 * s[i + 2] as int + 0x100_0000 * s[i + 3] as int
  }

  function Lo(v: int): byte {
    v % 0x100
  }

  function StWord(s: seq<byte>, i: nat, v: int): (r: seq<byte>)
    requires i + 2 <= |s|
    ensures |r| == |s|
  {
    s[i := Lo(v)][i + 1 := Lo(v / 0x100)]
  }

  function StDword(s: seq<byte>, i: nat, v: int): (r: seq<byte>)
    requires i + 4 <= |s|
    ensures |r| == |s|
  {
    s[i := Lo(v)][i + 1 := Lo(v / 0x100)][i + 2 := Lo(v / 0x1_0000)][i + 3 := Lo(v / 0x100_0000)]
  }

  // Words are read from their own bytes only.
  lemma SameWord(a: seq<byte>, i: nat, b: seq<byte>, j: nat)
    requires i + 2 <= |a| && j + 2 <= |b| && a[i..i + 2] == b[j..j + 2]
    ensures LdWord(a, i) == LdWord(b, j)
  {
    assert a[i..i + 2][0] == a[i] && a[i..i + 2][1] == a[i + 1];
    assert b[j..j + 2][0] == b[j] && b[j..j + 2][1] == b[j + 1];
  }

  lemma SameDword(a: seq<byte>, i: nat, b: seq<byte>, j: nat)
    requires i + 4 <= |a| && j + 4 <= |b| && a[i..i + 4] == b[j..j + 4]
    ensures LdDword(a, i) == LdDword(b, j)
  {
    var s, t := a[i..i + 4], b[j..j + 4];
    assert s[0] == a[i] && s[1] == a[i + 1] && s[2] == a[i + 2] && s[3] == a[i + 3];
    assert t[0] == b[j] && t[1] == b[j + 1] && t[2] == b[j + 2] && t[3] == b[j + 3];
  }

  lemma StLdWord(s: seq<byte>, i: nat, v: dword)
    requires i + 2 <= |s|
    ensures LdWord(StWord(s, i, v), i) == v % 0x1_0000
  {
    ModDigits(v, 0x100, 0x100);
  }

  lemma StLdDword(s: seq<byte>, i: nat, v: dword)
    requires i + 4 <= |s|
    ensures LdDword(StDword(s, i, v), i) == v
  {
    DwordDigits(v);
  }

  lemma DwordDigits(v: dword)
    ensures v == Lo(v) as int + 0x100 * Lo(v / 0x100) as int + 0x1_0000 * Lo(v / 0x1_0000) as int
                 + 0x100_0000 * Lo(v / 0x100_0000) as int
  {
    ModDigits(v, 0x100, 0x100_0000);
    ModDigits(v / 0x100, 0x100, 0x1_0000);
    ModDigits(v / 0x1_0000, 0x100, 0x100);
    DivDiv(v, 0x100, 0x100);
    DivDiv(v, 0x1_0000, 0x100);
  }

  /** s with the elements from i on replaced by x. */
  function Splice<T>(s: seq<T>, i: nat, x: seq<T>): (r: seq<T>)
    requires i + |x| <= |s|
    ensures |r| == |s|
    ensures forall k :: 0 <= k < |s| ==> r[k] == if i <= k < i + |x| then x[k - i] else s[k]
  {
    s[..i] + x + s[i + |x|..]
  }

  lemma StWordSplices(s: seq<byte>, i: nat, v: dword)
    requires i + 2 <= |s|
    ensures StWord(s, i, v) == Splice(s, i, [Lo(v), Lo(v / 0x100)])
  {
  }

  lemma StDwordSplices(s: seq<byte>, i: nat, v: dword)
    requires i + 4 <= |s|
    ensures StDword(s, i, v) == Splice(s, i, [Lo(v), Lo(v / 0x100), Lo(v / 0x1_0000), Lo(v / 0x100_0000)])
  {
  }

  /** Bit k of x: (x & 1 << k) != 0. */
  predicate BitOf(x: nat, k: nat) {
    if k == 0 then x % 2 == 1 else BitOf(x / 2, k - 1)
  }

  function Pow2(k: nat): (p: nat)
    ensures p > 0
  {
    if k == 0 then 1 else 2 * Pow2(k - 1)
  }

  /** x ^ (1 << k); stays within any width that holds both x and bit k. */
  function FlipBit(x: nat, k: nat): (y: nat) {
    if k == 0 then (if x % 2 == 1 then x - 1 else x + 1) else x % 2 + 2 * FlipBit(x / 2, k - 1)
  }

  lemma {:induction false} FlipBitWidth(x: nat, k: nat, n: nat)
    requires x < Pow2(n) && k < n
    ensures FlipBit(x, k) < Pow2(n)
  {
    if k == 0 {
      assert Pow2(n) == 2 * Pow2(n - 1);
    } else {
      FlipBitWidth(x / 2, k - 1, n - 1);
    }
  }

  function FlipByte(x: byte, k: nat): byte
    requires k < 8
  {
    assert Pow2(8) == 0x100 by { assert Pow2(4) == 16; }
    FlipBitWidth(x, k, 8);
    FlipBit(x, k)
  }

  lemma {:induction false} FlipBitFlips(x: nat, k: nat, j: nat)
    ensures BitOf(FlipBit(x, k), j) <==> if j == k then !BitOf(x, k) else BitOf(x, j)
  {
    if k > 0 && j > 0 {
      assert FlipBit(x, k) / 2 == FlipBit(x / 2, k - 1);
      FlipBitFlips(x / 2, k - 1, j - 1);
    }
  }

  lemma SpliceTwice<T>(s: seq<T>, i: nat, x: seq<T>, y: seq<T>)
    requires i + |x| + |y| <= |s|
    ensures Splice(Splice(s, i, x), i + |x|, y) == Splice(s, i, x + y)
  {
  }

  // memcpy
  method CopyTo(mem: array<byte>, i: nat, x: seq<byte>)
    requires i + |x| <= mem.Length
    modifies mem
    ensures mem[..] == Splice(old(mem[..]), i, x)
  {
    forall k | 0 <= k < |x| { mem[i + k] := x[k]; }
  }
}
