/** Multiple-precision integers in two's complement (messages.go: intLength, marshalInt, parseInt;
    section 5 of RFC 4251). */
module Mpint {
  import opened ByteStrings

  function Not(b: Bytes): (r: Bytes)
    ensures |r| == |b|
  {
    seq(|b|, i requires 0 <= i < |b| => 255 - b[i])
  }

  /** The bytes marshalInt puts after the length word. */
  function Content(n: int): Bytes {
    if n < 0 then
      var b := Not(NatToBytes(-n - 1));
      if b == [] || b[0] < 128 then [255] + b else b
    else
      var b := NatToBytes(n);
      if b != [] && b[0] >= 128 then [0] + b else b
  }

  /** The integer parseInt reads from the bytes after the length word. */
  function Value(c: Bytes): int {
    if c != [] && c[0] >= 128 then -(BytesToNat(Not(c)) + 1) else BytesToNat(c)
  }

  function IntLength(n: int): nat {
    if n < 0 then
      var bits := BitLen(-n - 1);
      4 + (if bits % 8 == 0 then 1 else 0) + (bits + 7) / 8
    else if n == 0 then 4
    else
      var bits := BitLen(n);
      4 + (if bits % 8 == 0 then 1 else 0) + (bits + 7) / 8
  }

  /** No leading byte that only repeats the sign of the next one. */
  predicate Canonical(c: Bytes) {
    && !(c != [] && c[0] == 0 && (|c| == 1 || c[1] < 128))
    && !(|c| > 1 && c[0] == 255 && c[1] >= 128)
  }

  lemma NotNot(b: Bytes)
    ensures Not(Not(b)) == b
  {
  }

  lemma LeadingZero(b: Bytes)
    ensures BytesToNat([0] + b) == BytesToNat(b)
  {
    BytesToNatCons(0, b);
  }

  /** intLength is the number of bytes marshalInt writes. */
  lemma LengthIsExact(n: int)
    ensures IntLength(n) == 4 + |Content(n)|
  {
    if n < 0 {
      NatToBytesLength(-n - 1);
      if n == -1 {
        assert Content(n) == [255] + Not([]);
      }
    } else {
      NatToBytesLength(n);
    }
  }

  lemma ContentRoundTrip(n: int)
    ensures Value(Content(n)) == n
  {
    hide BytesToNat, NatToBytes, Not;
    if n < 0 {
      NatBytesRoundTrip(-n - 1);
      Negative(NatToBytes(-n - 1));
    } else {
      var b := NatToBytes(n);
      NatBytesRoundTrip(n);
      LeadingZero(b);
    }
  }

  /** The bytes of -BytesToNat(m) - 1, with or without a byte for the sign, are read as that. */
  lemma Negative(m: Bytes)
    ensures Not(Not(m)) == m && Not([255] + Not(m)) == [0] + m
    ensures BytesToNat(Not([255] + Not(m))) == BytesToNat(m)
  {
    hide BytesToNat;
    NotNot(m);
    assert Not([255] + Not(m)) == [0] + m;
    LeadingZero(m);
  }

  lemma ContentCanonical(n: int)
    ensures Canonical(Content(n))
  {
    if n < 0 {
      NatBytesRoundTrip(-n - 1);
    } else {
      NatBytesRoundTrip(n);
    }
  }

  /** Exactly one canonical byte string denotes each integer, and it is the one marshalInt writes. */
  lemma CanonicalIsContent(c: Bytes)
    ensures Canonical(c) <==> Content(Value(c)) == c
  {
    hide BytesToNat, NatToBytes, Not;
    ContentCanonical(Value(c));
    if Canonical(c) {
      if c != [] && c[0] >= 128 {
        NegativeUnique(c);
      } else if c != [] && c[0] == 0 {
        var t := c[1..];
        assert c == [0] + t;
        LeadingZero(t);
        NatToBytesUnique(t);
      } else {
        NatToBytesUnique(c);
      }
    }
  }

  lemma NegativeUnique(c: Bytes)
    requires Canonical(c) && c != [] && c[0] >= 128
    ensures Content(-(BytesToNat(Not(c)) + 1)) == c
  {
    hide BytesToNat, NatToBytes;
    var m := Not(c);
    NotNot(c);
    if c[0] == 255 {
      var t := m[1..];
      assert m == [0] + t;
      LeadingZero(t);
      NatToBytesUnique(t);
      assert c == [255] + Not(t);
    } else {
      NatToBytesUnique(m);
    }
  }

  /** Dropping a redundant sign byte keeps the value. */
  lemma DropSignByte(c: Bytes)
    requires !Canonical(c)
    ensures c != [] && Value(c[1..]) == Value(c)
  {
    var t := c[1..];
    assert c == [c[0]] + t;
    if c[0] == 0 {
      LeadingZero(t);
    } else {
      assert Not(c) == [0] + Not(t);
      LeadingZero(Not(t));
    }
  }

  /** marshalInt's form is the shortest of all byte strings parseInt maps to that integer. */
  lemma {:induction false} ContentIsShortest(c: Bytes)
    ensures |Content(Value(c))| <= |c|
    ensures |Content(Value(c))| == |c| ==> Content(Value(c)) == c
    decreases |c|
  {
    CanonicalIsContent(c);
    if !Canonical(c) {
      DropSignByte(c);
      ContentIsShortest(c[1..]);
    }
  }

  /** marshalInt: writes the length word and the content into the caller's buffer, in place, from
      position off on, and returns the position after them. */
  method MarshalInt(to: array<byte>, off: nat, n: int) returns (end: nat)
    requires off + IntLength(n) <= to.Length
    modifies to
    ensures end == off + IntLength(n)
    ensures to[off..end] == U32(IntLength(n) - 4) + Content(n)
    ensures forall i | 0 <= i < to.Length && !(off <= i < end) :: to[i] == old(to[i])
  {
    LengthIsExact(n);
    var pad, bytes := SignAndMagnitude(n);
    end := CopyAfterWord(to, off, U32(|pad| + |bytes|), pad, bytes);
    assert |pad| + |bytes| == |Content(n)|;
  }

  /** The sign-dependent part of marshalInt: a padding byte where the sign would be lost, and the
      magnitude, inverted for a negative number. */
  method SignAndMagnitude(n: int) returns (pad: Bytes, bytes: Bytes)
    ensures pad + bytes == Content(n)
  {
    pad, bytes := [], [];
    if n < 0 {
      bytes := Not(NatToBytes(-n - 1));
      if |bytes| == 0 || bytes[0] < 128 {
        pad := [255];
      }
    } else if n > 0 {
      bytes := NatToBytes(n);
      if |bytes| > 0 && bytes[0] >= 128 {
        pad := [0];
      }
    }
    assert [] + bytes == bytes;
  }

  /** The buffer writes of marshalInt: padding byte and magnitude first, the length word last. */
  method CopyAfterWord(to: array<byte>, off: nat, word: Bytes, pad: Bytes, bytes: Bytes) returns (end: nat)
    requires |word| == 4 && off + 4 + |pad| + |bytes| <= to.Length
    modifies to
    ensures end == off + 4 + |pad| + |bytes|
    ensures to[off..end] == word + (pad + bytes)
    ensures forall i | 0 <= i < to.Length && !(off <= i < end) :: to[i] == old(to[i])
  {
    var at := CopyBytes(to, off + 4, pad);
    end := CopyBytes(to, at, bytes);
    var _ := CopyBytes(to, off, word);
    assert to[off..end] == to[off..off + 4] + to[off + 4..at] + to[at..end];
  }

  /** Go's copy into a slice: overwrites to[at..] with b and returns the position after it. */
  method CopyBytes(to: array<byte>, at: nat, b: Bytes) returns (end: nat)
    requires at + |b| <= to.Length
    modifies to
    ensures end == at + |b|
    ensures forall i | at <= i < end :: to[i] == b[i - at]
    ensures forall i | 0 <= i < to.Length && !(at <= i < end) :: to[i] == old(to[i])
  {
    for i := 0 to |b|
      invariant forall j | 0 <= j < i :: to[at + j] == b[j]
      invariant forall j | 0 <= j < to.Length && !(at <= j < at + i) :: to[j] == old(to[j])
    {
      to[at + i] := b[i];
    }
    end := at + |b|;
  }

  // ----- what the bytes mean -----

  lemma {:induction false} NotValue(c: Bytes)
    ensures BytesToNat(Not(c)) == Pow256(|c|) - 1 - BytesToNat(c)
  {
    if c != [] {
      var n := |c| - 1;
      assert Not(c)[..n] == Not(c[..n]);
      NotValue(c[..n]);
    }
  }

  /** Two's complement: the first bit counts negatively. */
  lemma TwosComplement(c: Bytes)
    ensures Value(c) == BytesToNat(c) - if c != [] && c[0] >= 128 then Pow256(|c|) else 0
  {
    NotValue(c);
  }

  lemma Digit(b: Bytes, d: byte)
    ensures BytesToNat(b + [d]) == 256 * BytesToNat(b) + d
  {
    assert (b + [d])[..|b|] == b;
  }

  /** The examples of section 5 of RFC 4251. */
  lemma Examples()
    ensures Content(0) == []
    ensures Content(0x9a378f9b2e332a7) == [0x09, 0xa3, 0x78, 0xf9, 0xb2, 0xe3, 0x32, 0xa7]
    ensures Content(0x80) == [0x00, 0x80]
    ensures Content(-0x1234) == [0xed, 0xcc]
    ensures Content(-0xdeadbeef) == [0xff, 0x21, 0x52, 0x41, 0x11]
  {
    hide Content, Value, BytesToNat;
    var (a, b, c, d) := ([0x09, 0xa3, 0x78, 0xf9, 0xb2, 0xe3, 0x32, 0xa7], [0x00, 0x80], [0xed, 0xcc], [0xff, 0x21, 0x52, 0x41, 0x11]);
    assert BytesToNat([]) == 0 by { NoDigits(); }
    Digits(a);
    Digits(b);
    Digits(c);
    Digits(d);
    Pow256Values();
    assert Pow256(2) == 65536 && Pow256(5) == 0x100_0000_0000;
    TwosComplement([]);
    TwosComplement(a);
    TwosComplement(b);
    TwosComplement(c);
    TwosComplement(d);
    CanonicalIsContent([]);
    CanonicalIsContent(a);
    CanonicalIsContent(b);
    CanonicalIsContent(c);
    CanonicalIsContent(d);
  }

  lemma NoDigits()
    ensures BytesToNat([]) == 0
  {
  }

  /** One more digit in base 256. */
  function And(n: nat, d: nat): nat {
    256 * n + d
  }

  lemma Digits(b: Bytes)
    requires 2 <= |b| <= 8
    ensures |b| == 2 ==> BytesToNat(b) == And(b[0], b[1])
    ensures |b| == 5 ==> BytesToNat(b) == And(And(And(And(b[0], b[1]), b[2]), b[3]), b[4])
    ensures |b| == 8 ==> BytesToNat(b) == And(And(And(And(And(And(And(b[0], b[1]), b[2]), b[3]), b[4]), b[5]), b[6]), b[7])
  {
    hide BytesToNat;
    NoDigits();
    assert b[..1] == [] + [b[0]];
    Digit([], b[0]);
    forall i: nat | 0 < i < |b| ensures BytesToNat(b[..i + 1]) == 256 * BytesToNat(b[..i]) + b[i] {
      assert b[..i + 1] == b[..i] + [b[i]];
      Digit(b[..i], b[i]);
    }
    assert b[..|b|] == b;
    assert BytesToNat(b[..1 + 1]) == 256 * BytesToNat(b[..1]) + b[1];
    if |b| >= 5 {
      assert BytesToNat(b[..2 + 1]) == 256 * BytesToNat(b[..2]) + b[2];
      assert BytesToNat(b[..3 + 1]) == 256 * BytesToNat(b[..3]) + b[3];
      assert BytesToNat(b[..4 + 1]) == 256 * BytesToNat(b[..4]) + b[4];
    }
    if |b| == 8 {
      assert BytesToNat(b[..5 + 1]) == 256 * BytesToNat(b[..5]) + b[5];
      assert BytesToNat(b[..6 + 1]) == 256 * BytesToNat(b[..6]) + b[6];
      assert BytesToNat(b[..7 + 1]) == 256 * BytesToNat(b[..7]) + b[7];
    }
  }
}
