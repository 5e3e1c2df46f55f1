/** Packet framing for AES-GCM (cipher.go: gcmCipher). Seal and Open are parameters. */
module GcmCipher {
  import opened ByteStrings
  import opened Results

  const MULTIPLE := 16
  const MAX_PACKET := 256 * 1024
  const TAG_SIZE := 16
  const IV_SIZE := 12

  /** An AEAD: seal(iv, text, ad) and open(iv, sealed, ad). */
  datatype Aead = Aead(seal: (Bytes, Bytes, Bytes) -> Bytes, open: (Bytes, Bytes, Bytes) -> Option<Bytes>)

  /** IndexFault is Go's run-time fault for plain[0] with an empty plain. */
  datatype GcmError = NoRandomness | ShortRead | LengthTooLarge | OpenFailed | IndexFault | IllegalPadding | PaddingTooLarge

  ghost predicate Lawful(a: Aead) {
    && (forall iv, text, ad :: |a.seal(iv, text, ad)| == |text| + TAG_SIZE)
    && (forall iv, text, ad :: a.open(iv, a.seal(iv, text, ad), ad) == Some(text))
    && (forall iv, sealed, ad :: a.open(iv, sealed, ad).Some? ==> |sealed| == |a.open(iv, sealed, ad).value| + TAG_SIZE)
  }

  // ----- the IV -----

  /** Big-endian plus one, the carry out of the first byte being lost. */
  function Inc(b: Bytes): (r: Bytes)
    ensures |r| == |b|
  {
    if b == [] then []
    else
      var (init, last) := (b[..|b| - 1], b[|b| - 1]);
      if last == 255 then Inc(init) + [0] else init + [last + 1]
  }

  /** incIV adds 1 modulo 2^64 to bytes 4 to 11 and leaves the first four alone. */
  function IncIV(iv: Bytes): (r: Bytes)
    requires |iv| == IV_SIZE
    ensures |r| == IV_SIZE
  {
    iv[..4] + Inc(iv[4..])
  }

  lemma {:induction false} IncAddsOne(b: Bytes)
    ensures BytesToNat(Inc(b)) == (BytesToNat(b) + 1) % Pow256(|b|)
  {
    BytesToNatBound(b);
    if b == [] {
    } else {
      var (init, last) := (b[..|b| - 1], b[|b| - 1]);
      var (n, p) := (BytesToNat(init), Pow256(|b| - 1));
      BytesToNatBound(init);
      if last == 255 {
        IncAddsOne(init);
        assert Inc(b)[..|b| - 1] == Inc(init);
        Carry(n, p);
      } else {
        assert Inc(b)[..|b| - 1] == init;
        Small(256 * n + last + 1, 256 * p);
      }
    }
  }

  lemma Carry(n: nat, p: nat)
    requires n < p
    ensures (256 * n + 256) % (256 * p) == 256 * ((n + 1) % p)
  {
    if n + 1 == p {
      Whole(p);
      Whole(256 * p);
    } else {
      Small(n + 1, p);
      Small(256 * n + 256, 256 * p);
    }
  }

  lemma Small(a: nat, p: nat)
    requires a < p
    ensures a % p == a
  {
  }

  lemma Whole(p: nat)
    requires p > 0
    ensures p % p == 0
  {
  }

  lemma IncIVCounts(iv: Bytes)
    requires |iv| == IV_SIZE
    ensures IncIV(iv)[..4] == iv[..4]
    ensures BytesToNat(IncIV(iv)[4..]) == (BytesToNat(iv[4..]) + 1) % (TWO32 * TWO32)
  {
    IncAddsOne(iv[4..]);
    Pow256Values();
    assert IncIV(iv)[4..] == Inc(iv[4..]);
  }

  // ----- framing -----

  function PaddingLength(n: nat): nat {
    var p := MULTIPLE - (1 + n) % MULTIPLE;
    if p < 4 then p + MULTIPLE else p
  }

  function Length(n: nat): nat {
    n + PaddingLength(n) + 1
  }

  function Plain(packet: Bytes, random: Bytes): Bytes
    requires |random| >= PaddingLength(|packet|)
  {
    [PaddingLength(|packet|) % 256] + packet + random[..PaddingLength(|packet|)]
  }

  /** writePacket, which unlike its counterpart for stream ciphers has no limit of its own; the length word wraps. */
  function WriteSpec(a: Aead, iv: Bytes, packet: Bytes, random: Bytes): Result<Bytes, GcmError> {
    if |random| < PaddingLength(|packet|) then Err(NoRandomness)
    else
      var prefix := U32(Length(|packet|));
      Ok(prefix + a.seal(iv, Plain(packet, random), prefix))
  }

  /** readPacket; the IV moves on as soon as Open succeeds. What Open returns is as long as the length word says for any
      lawful AEAD. */
  function ReadSpec(a: Aead, iv: Bytes, input: Bytes): Result<(Bytes, Bytes), GcmError> {
    if |input| < 4 then Err(ShortRead)
    else
      var length := BytesToNat(input[..4]);
      if length > MAX_PACKET then Err(LengthTooLarge)
      else if |input| < 4 + length + TAG_SIZE then Err(ShortRead)
      else
        match a.open(iv, input[4..4 + length + TAG_SIZE], input[..4])
        case None => Err(OpenFailed)
        case Some(plain) =>
          if |plain| != length then Err(OpenFailed)
          else if length == 0 then Err(IndexFault)
          else
            var padding: nat := plain[0];
            if padding < 4 || padding >= 20 then Err(IllegalPadding)
            else if padding + 1 >= |plain| then Err(PaddingTooLarge)
            else Ok((plain[1..length - padding], input[4 + length + TAG_SIZE..]))
  }

  lemma PaddingFits(n: nat)
    ensures 4 <= PaddingLength(n) <= 19 && Length(n) % MULTIPLE == 0
  {
    var r := (1 + n) % MULTIPLE;
    var q := (1 + n) / MULTIPLE;
    assert 1 + n == MULTIPLE * q + r;
    if MULTIPLE - r < 4 {
      assert Length(n) == MULTIPLE * (q + 2);
    } else {
      assert Length(n) == MULTIPLE * (q + 1);
    }
  }

  lemma LengthFitsIff(n: nat)
    ensures Length(n) <= MAX_PACKET <==> n <= 262139
  {
    PaddingFits(n);
    if n == 262140 {
      assert (1 + n) % MULTIPLE == 13;
    }
    if n <= 262139 {
      var m := Length(n) / MULTIPLE;
      assert Length(n) == MULTIPLE * m;
      if n == 262139 {
        assert (1 + n) % MULTIPLE == 12;
      }
      assert n < 262139 ==> m <= 16384;
    }
  }

  /** Reading what was written with the same IV: the packet comes back exactly if it has between 1 and 262139 bytes. */
  lemma RoundTripIff(a: Aead, iv: Bytes, packet: Bytes, random: Bytes, rest: Bytes)
    requires Lawful(a) && WriteSpec(a, iv, packet, random).Ok? && Length(|packet|) < TWO32
    ensures var r := ReadSpec(a, iv, WriteSpec(a, iv, packet, random).value + rest);
            && (1 <= |packet| <= 262139 ==> r == Ok((packet, rest)))
            && (|packet| == 0 ==> r == Err(PaddingTooLarge))
            && (|packet| > 262139 ==> r == Err(LengthTooLarge))
  {
    hide U32, BytesToNat;
    var n := |packet|;
    PaddingFits(n);
    LengthFitsIff(n);
    WordRoundTrip(Length(n));
    var (prefix, plain) := (U32(Length(n)), Plain(packet, random));
    var sealed := a.seal(iv, plain, prefix);
    var input := prefix + sealed + rest;
    assert |plain| == Length(n) && |sealed| == Length(n) + TAG_SIZE;
    assert input[..4] == prefix && input[4..4 + |sealed|] == sealed && input[4 + |sealed|..] == rest;
    assert plain[1..1 + n] == packet;
  }

  /** What writePacket sends: the length word, and the padding length, packet and padding sealed under the IV, with the length word
      as additional data. */
  lemma WrittenIs(a: Aead, iv: Bytes, packet: Bytes, random: Bytes)
    requires WriteSpec(a, iv, packet, random).Ok?
    ensures var padding := PaddingLength(|packet|);
            var word := U32(|packet| + 1 + padding);
            WriteSpec(a, iv, packet, random).value == word + a.seal(iv, [padding as byte] + packet + random[..padding], word)
  {
    hide U32;
    PaddingFits(|packet|);
  }

  /** readPacket accepts exactly this: a length word of at most maxPacket and as much sealed text, which opens under the IV, with the
      length word as additional data, to a padding length from 4 to 19, a nonempty packet and that much padding. */
  ghost predicate StandsFor(a: Aead, iv: Bytes, packet: Bytes, padding: Bytes, sent: Bytes) {
    && packet != [] && 4 <= |padding| < 20
    && var length := |packet| + 1 + |padding|;
    && length <= 262144 && |sent| == 4 + length + 16 && sent[..4] == U32(length)
    && a.open(iv, sent[4..], U32(length)) == Some([|padding|] + packet + padding)
  }

  ghost predicate Stands(a: Aead, iv: Bytes, packet: Bytes, sent: Bytes) {
    exists padding :: StandsFor(a, iv, packet, padding, sent)
  }

  lemma AcceptedIff(a: Aead, iv: Bytes, input: Bytes, packet: Bytes, rest: Bytes)
    ensures ReadSpec(a, iv, input) == Ok((packet, rest)) <==>
            |rest| <= |input| && input[|input| - |rest|..] == rest && Stands(a, iv, packet, input[..|input| - |rest|])
  {
    hide U32, BytesToNat, StandsFor, ReadSpec;
    if ReadSpec(a, iv, input) == Ok((packet, rest)) {
      var padding := AcceptedStands(a, iv, input, packet, rest);
    }
    if |rest| <= |input| && input[|input| - |rest|..] == rest && Stands(a, iv, packet, input[..|input| - |rest|]) {
      var sent := input[..|input| - |rest|];
      var padding :| StandsFor(a, iv, packet, padding, sent);
      StandingIsAccepted(a, iv, input, packet, padding, rest);
    }
  }

  lemma AcceptedStands(a: Aead, iv: Bytes, input: Bytes, packet: Bytes, rest: Bytes) returns (padding: Bytes)
    requires ReadSpec(a, iv, input) == Ok((packet, rest))
    ensures |rest| <= |input| && input[|input| - |rest|..] == rest
    ensures StandsFor(a, iv, packet, padding, input[..|input| - |rest|])
  {
    hide U32, BytesToNat;
    var length := BytesToNat(input[..4]);
    FixedOfBytes(input[..4]);
    assert U32(length) == input[..4] by { WordOf(input[..4]); }
    var sent := input[..4 + length + TAG_SIZE];
    assert sent[4..] == input[4..4 + length + TAG_SIZE] && sent[..4] == input[..4];
    var plain := a.open(iv, sent[4..], input[..4]).value;
    padding := plain[length - plain[0]..];
    assert plain == [plain[0]] + packet + padding;
  }

  lemma WordOf(word: Bytes)
    requires |word| == 4
    ensures U32(BytesToNat(word)) == word
  {
    FixedOfBytes(word);
    Pow256Values();
  }

  lemma StandingIsAccepted(a: Aead, iv: Bytes, input: Bytes, packet: Bytes, padding: Bytes, rest: Bytes)
    requires |rest| <= |input| && input[|input| - |rest|..] == rest && StandsFor(a, iv, packet, padding, input[..|input| - |rest|])
    ensures ReadSpec(a, iv, input) == Ok((packet, rest))
  {
    hide U32, BytesToNat;
    var length := |packet| + 1 + |padding|;
    var sent := input[..|input| - |rest|];
    WordRoundTrip(length);
    assert input[..4] == sent[..4] && input[4..4 + length + TAG_SIZE] == sent[4..];
    assert ([|padding|] + packet + padding)[1..length - |padding|] == packet;
  }

  // ----- many packets -----

  datatype Out = Out(packet: Bytes, random: Bytes)

  predicate Sendable(o: Out) {
    1 <= |o.packet| <= 262139 && |o.random| >= PaddingLength(|o.packet|)
  }

  function WriteAll(a: Aead, iv: Bytes, outs: seq<Out>): Bytes
    requires |iv| == IV_SIZE && forall i | 0 <= i < |outs| :: Sendable(outs[i])
    decreases |outs|
  {
    if outs == [] then []
    else
      CanWrite(a, iv, outs[0]);
      WriteSpec(a, iv, outs[0].packet, outs[0].random).value + WriteAll(a, IncIV(iv), outs[1..])
  }

  /** The packets read, what is left, and the IV afterwards. */
  function ReadAll(a: Aead, iv: Bytes, input: Bytes, count: nat): Result<(seq<Bytes>, Bytes, Bytes), GcmError>
    requires |iv| == IV_SIZE
    decreases count
  {
    if count == 0 then Ok(([], input, iv))
    else
      match ReadSpec(a, iv, input)
      case Err(e) => Err(e)
      case Ok((p, rest)) =>
        match ReadAll(a, IncIV(iv), rest, count - 1)
        case Err(e) => Err(e)
        case Ok((ps, left, iv')) => Ok(([p] + ps, left, iv'))
  }

  function Packets(outs: seq<Out>): seq<Bytes> {
    seq(|outs|, i requires 0 <= i < |outs| => outs[i].packet)
  }

  /** The IV after a number of packets, at either end. */
  function IvAfter(iv: Bytes, n: nat): (r: Bytes)
    requires |iv| == IV_SIZE
    ensures |r| == IV_SIZE
    decreases n
  {
    if n == 0 then iv else IvAfter(IncIV(iv), n - 1)
  }

  /** Both ends' IVs stay equal over any number of packets. */
  lemma {:induction false} ManyRoundTrip(a: Aead, iv: Bytes, outs: seq<Out>, rest: Bytes)
    requires Lawful(a) && |iv| == IV_SIZE && forall i | 0 <= i < |outs| :: Sendable(outs[i])
    ensures ReadAll(a, iv, WriteAll(a, iv, outs) + rest, |outs|) == Ok((Packets(outs), rest, IvAfter(iv, |outs|)))
    decreases |outs|
  {
    hide Lawful, ReadSpec, WriteSpec, IncIV, Length;
    if outs == [] {
      assert WriteAll(a, iv, outs) + rest == rest;
    } else {
      var o := outs[0];
      var tail := WriteAll(a, IncIV(iv), outs[1..]);
      CanWrite(a, iv, o);
      var head := WriteSpec(a, iv, o.packet, o.random).value;
      assert head + tail + rest == head + (tail + rest);
      RoundTripIff(a, iv, o.packet, o.random, tail + rest);
      ManyRoundTrip(a, IncIV(iv), outs[1..], rest);
      assert Packets(outs) == [o.packet] + Packets(outs[1..]);
    }
  }

  lemma CanWrite(a: Aead, iv: Bytes, o: Out)
    requires Sendable(o)
    ensures WriteSpec(a, iv, o.packet, o.random).Ok? && Length(|o.packet|) < TWO32
  {
    PaddingFits(|o.packet|);
  }

  /** The IV's counter comes back only after 2^64 packets. */
  lemma {:induction false} IvCounts(iv: Bytes, n: nat)
    requires |iv| == IV_SIZE
    ensures IvAfter(iv, n)[..4] == iv[..4]
    ensures BytesToNat(IvAfter(iv, n)[4..]) == (BytesToNat(iv[4..]) + n) % (TWO32 * TWO32)
    decreases n
  {
    hide BytesToNat, IncIV;
    if n == 0 {
      BytesToNatBound(iv[4..]);
      Pow256Values();
    } else {
      IncIVCounts(iv);
      IvCounts(IncIV(iv), n - 1);
      var m := BytesToNat(iv[4..]);
      assert ((m + 1) % (TWO32 * TWO32) + (n - 1)) % (TWO32 * TWO32) == (m + n) % (TWO32 * TWO32);
    }
  }

  /** The i-th packet of a stream is sealed under the IV as it is after i packets. */
  lemma {:induction false} PacketInStream(a: Aead, iv: Bytes, outs: seq<Out>, i: nat)
    requires |iv| == IV_SIZE && i < |outs| && forall j | 0 <= j < |outs| :: Sendable(outs[j])
    ensures var one := WriteSpec(a, IvAfter(iv, i), outs[i].packet, outs[i].random);
            one.Ok? && WriteAll(a, iv, outs[..i]) + one.value <= WriteAll(a, iv, outs)
    decreases i
  {
    hide WriteSpec, Sendable, IncIV;
    CanWrite(a, iv, outs[0]);
    var head := WriteSpec(a, iv, outs[0].packet, outs[0].random).value;
    if i == 0 {
      assert outs[..0] == [] && [] + head == head;
    } else {
      PacketInStream(a, IncIV(iv), outs[1..], i - 1);
      assert outs[..i][1..] == outs[1..][..i - 1] && outs[..i][0] == outs[0];
      var before := WriteAll(a, IncIV(iv), outs[1..][..i - 1]);
      var one := WriteSpec(a, IvAfter(iv, i), outs[i].packet, outs[i].random).value;
      assert head + before + one == head + (before + one);
    }
  }

  // ----- in place -----

  class Cipher {
    const aead: Aead
    const iv: array<byte>

    ghost predicate Valid()
      reads this
    {
      iv.Length == IV_SIZE
    }

    constructor (aead: Aead, iv: array<byte>)
      requires iv.Length == IV_SIZE
      ensures Valid() && this.aead == aead && this.iv == iv
    {
      this.aead, this.iv := aead, iv;
    }

    /** incIV: carries from the last byte towards byte 4. */
    method IncIv()
      requires Valid()
      modifies iv
      ensures iv[..] == IncIV(old(iv[..]))
    {
      ghost var was := iv[..];
      var i := 11;
      assert was[4..12] == was[4..];
      while i >= 4
        invariant 3 <= i <= 11
        invariant forall j | 0 <= j <= i :: iv[j] == was[j]
        invariant forall j | i < j < IV_SIZE :: iv[j] == 0
        invariant Inc(was[4..]) == Inc(was[4..i + 1]) + seq(11 - i, _ => 0)
      {
        ghost var head := was[4..i + 1];
        assert head[..|head| - 1] == was[4..i];
        var b: int := iv[i];
        iv[i] := (b + 1) % 256;
        if iv[i] != 0 {
          assert iv[..] == was[..4] + (was[4..i] + [was[i] + 1] + seq(11 - i, _ => 0));
          return;
        }
        assert Inc(was[4..i]) + [0] + seq(11 - i, _ => 0) == Inc(was[4..i]) + seq(12 - i, _ => 0);
        i := i - 1;
      }
      assert was[4..4] == [];
      assert iv[..] == was[..4] + seq(8, _ => 0);
    }

    /** wrote is what the buffered writer has been given: without enough random bytes the length word is there already, and
        goes out in front of the next packet. */
    method WritePacket(packet: Bytes, random: Bytes) returns (r: Result<Bytes, GcmError>, wrote: Bytes)
      requires Valid()
      modifies iv
      ensures r == WriteSpec(aead, old(iv[..]), packet, random)
      ensures wrote == if r.Ok? then r.value else U32(Length(|packet|))
      ensures iv[..] == if r.Ok? then IncIV(old(iv[..])) else old(iv[..])
    {
      var padding := MULTIPLE - (1 + |packet|) % MULTIPLE;
      if padding < 4 {
        padding := padding + MULTIPLE;
      }
      var prefix := U32(|packet| + padding + 1);
      if |random| < padding {
        return Err(NoRandomness), prefix;
      }
      var buf := aead.seal(iv[..], [padding % 256] + packet + random[..padding], prefix);
      IncIv();
      return Ok(prefix + buf), prefix + buf;
    }

    /** The IV moves on exactly if Open has succeeded, also where the padding is then refused. */
    method ReadPacket(input: Bytes) returns (r: Result<(Bytes, Bytes), GcmError>)
      requires Valid()
      modifies iv
      ensures r == ReadSpec(aead, old(iv[..]), input)
      ensures iv[..] == if r.Err? && r.error in {ShortRead, LengthTooLarge, OpenFailed} then old(iv[..]) else IncIV(old(iv[..]))
    {
      if |input| < 4 {
        return Err(ShortRead);
      }
      var prefix := input[..4];
      var length := BytesToNat(prefix);
      if length > MAX_PACKET {
        return Err(LengthTooLarge);
      }
      if |input| < 4 + length + TAG_SIZE {
        return Err(ShortRead);
      }
      var plain := aead.open(iv[..], input[4..4 + length + TAG_SIZE], prefix);
      if plain.None? {
        return Err(OpenFailed);
      }
      if |plain.value| != length {
        return Err(OpenFailed);
      }
      IncIv();
      if |plain.value| == 0 {
        return Err(IndexFault);
      }
      var padding: nat := plain.value[0];
      if padding < 4 || padding >= 20 {
        return Err(IllegalPadding);
      }
      if padding + 1 >= |plain.value| {
        return Err(PaddingTooLarge);
      }
      return Ok((plain.value[1..length - padding], input[4 + length + TAG_SIZE..]));
    }
  }
}
