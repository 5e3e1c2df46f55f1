/** Bytes, fixed-width big-endian words (encoding/binary, common.go's appendU32/appendU64) and
    unsigned big-endian magnitudes (math/big's Bytes, SetBytes and BitLen). */
module ByteStrings {

  type byte = b: int | 0 <= b < 256

  type Bytes = seq<byte>

  const TWO32 := 0x1_0000_0000

  function Pow256(k: nat): (r: nat)
    ensures r > 0
  {
    if k == 0 then 1 else 256 * Pow256(k - 1)
  }

  /** The unsigned number a big-endian byte string denotes. */
  function BytesToNat(b: Bytes): nat {
    if b == [] then 0 else 256 * BytesToNat(b[..|b| - 1]) + b[|b| - 1]
  }

  /** The k low-order bytes of n, most significant first. */
  function FixedBytes(n: nat, k: nat): (r: Bytes)
    ensures |r| == k
  {
    if k == 0 then [] else FixedBytes(n / 256, k - 1) + [n % 256]
  }

  /** The shortest big-endian form of n; empty for zero. */
  function NatToBytes(n: nat): Bytes {
    if n == 0 then [] else NatToBytes(n / 256) + [n % 256]
  }

  function BitLen(n: nat): nat {
    if n == 0 then 0 else 1 + BitLen(n / 2)
  }

  function U32(n: nat): (r: Bytes)
    ensures |r| == 4
  {
    FixedBytes(n, 4)
  }

  function Ascii(s: string): (r: Bytes)
    ensures |r| == |s|
  {
    seq(|s|, i requires 0 <= i < |s| => s[i] as int % 256)
  }

  lemma Pow256Values()
    ensures Pow256(1) == 256 && Pow256(4) == TWO32 && Pow256(8) == TWO32 * TWO32
  {
    assert Pow256(2) == 65536 && Pow256(3) == 0x100_0000;
    assert Pow256(4) == TWO32;
    assert Pow256(5) == 256 * TWO32 && Pow256(6) == 65536 * TWO32;
    assert Pow256(7) == 0x100_0000 * TWO32;
  }

  lemma {:induction false} BytesToNatBound(b: Bytes)
    ensures BytesToNat(b) < Pow256(|b|)
  {
    if b != [] {
      BytesToNatBound(b[..|b| - 1]);
    }
  }

  lemma {:induction false} FixedOfBytes(b: Bytes)
    ensures FixedBytes(BytesToNat(b), |b|) == b
  {
    if b != [] {
      FixedOfBytes(b[..|b| - 1]);
      assert b == b[..|b| - 1] + [b[|b| - 1]];
    }
  }

  lemma {:induction false} BytesOfFixed(n: nat, k: nat)
    requires n < Pow256(k)
    ensures BytesToNat(FixedBytes(n, k)) == n
  {
    if k > 0 {
      BytesOfFixed(n / 256, k - 1);
      var f := FixedBytes(n, k);
      assert f[..|f| - 1] == FixedBytes(n / 256, k - 1);
    }
  }

  lemma WordRoundTrip(n: nat)
    requires n < TWO32
    ensures BytesToNat(U32(n)) == n
  {
    Pow256Values();
    BytesOfFixed(n, 4);
  }

  /** Prepending the digit d to b adds d * 256^|b|. */
  lemma {:induction false} BytesToNatCons(d: byte, b: Bytes)
    ensures BytesToNat([d] + b) == d * Pow256(|b|) + BytesToNat(b)
  {
    var s := [d] + b;
    if b == [] {
      assert s[..0] == [];
      assert BytesToNat(s) == 256 * BytesToNat(s[..0]) + d;
    } else {
      assert s[..|s| - 1] == [d] + b[..|b| - 1];
      BytesToNatCons(d, b[..|b| - 1]);
      var p := Pow256(|b| - 1);
      assert 256 * (d * p) == d * (256 * p);
    }
  }

  lemma {:induction false} NatBytesRoundTrip(n: nat)
    ensures BytesToNat(NatToBytes(n)) == n
    ensures n > 0 ==> |NatToBytes(n)| > 0 && NatToBytes(n)[0] > 0
  {
    if n > 0 {
      NatBytesRoundTrip(n / 256);
      var f := NatToBytes(n);
      assert f[..|f| - 1] == NatToBytes(n / 256);
    }
  }

  /** A byte string without a leading zero is the shortest form of its own value. */
  lemma {:induction false} NatToBytesUnique(b: Bytes)
    requires b == [] || b[0] > 0
    ensures NatToBytes(BytesToNat(b)) == b
  {
    if b != [] {
      var i, d := b[..|b| - 1], b[|b| - 1];
      NatToBytesUnique(i);
      BytesToNatPositive(b);
      var n := BytesToNat(b);
      assert n == 256 * BytesToNat(i) + d;
      assert n / 256 == BytesToNat(i) && n % 256 == d;
      assert b == i + [d];
    }
  }

  lemma {:induction false} BytesToNatPositive(b: Bytes)
    requires b != [] && b[0] > 0
    ensures BytesToNat(b) > 0
  {
    if |b| > 1 {
      BytesToNatPositive(b[..|b| - 1]);
    }
  }

  lemma BitLenByByte(n: nat)
    requires n >= 256
    ensures BitLen(n) == 8 + BitLen(n / 256)
  {
    var a := n / 2;
    var b := a / 2;
    var c := b / 2;
    var d := c / 2;
    var e := d / 2;
    var f := e / 2;
    var g := f / 2;
    assert BitLen(n) == 1 + BitLen(a);
    assert BitLen(a) == 1 + BitLen(b);
    assert BitLen(b) == 1 + BitLen(c);
    assert BitLen(c) == 1 + BitLen(d);
    assert BitLen(d) == 1 + BitLen(e);
    assert BitLen(e) == 1 + BitLen(f);
    assert BitLen(f) == 1 + BitLen(g);
    assert BitLen(g) == 1 + BitLen(g / 2);
    assert g / 2 == n / 256;
  }

  lemma BitLenOfByte(n: nat)
    requires n < 256
    ensures n > 0 ==> 1 <= BitLen(n) <= 8
    ensures BitLen(n) == 8 <==> n >= 128
  {
    BitLenLog(n, 8);
    BitLenLog(n, 7);
    assert Pow2(3) == 8 && Pow2(5) == 32 && Pow2(7) == 128 && Pow2(8) == 256;
  }

  function Pow2(k: nat): (r: nat)
    ensures r > 0
  {
    if k == 0 then 1 else 2 * Pow2(k - 1)
  }

  /** BitLen is the position of the highest set bit. */
  lemma {:induction false} BitLenLog(n: nat, k: nat)
    ensures BitLen(n) <= k <==> n < Pow2(k)
  {
    if n > 0 && k > 0 {
      BitLenLog(n / 2, k - 1);
    }
  }

  lemma EightMore(a: nat, b: nat)
    requires a == 8 + b
    ensures (a + 7) / 8 == 1 + (b + 7) / 8 && a % 8 == b % 8
  {
  }

  /** The number of bytes, and the top bit of the first one, read off the bit length. */
  lemma {:induction false} NatToBytesLength(n: nat)
    ensures |NatToBytes(n)| == (BitLen(n) + 7) / 8
    ensures n > 0 ==> |NatToBytes(n)| > 0 && (NatToBytes(n)[0] >= 128 <==> BitLen(n) % 8 == 0)
  {
    if 0 < n < 256 {
      assert NatToBytes(n / 256) == [];
      assert NatToBytes(n) == [n];
      BitLenOfByte(n);
      assert (BitLen(n) + 7) / 8 == 1;
    } else if n >= 256 {
      NatToBytesLength(n / 256);
      BitLenByByte(n);
      EightMore(BitLen(n), BitLen(n / 256));
    }
  }
}
