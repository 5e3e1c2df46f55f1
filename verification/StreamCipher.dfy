/** Packet framing for stream ciphers (cipher.go: streamPacketCipher; section 6 of RFC 4253). The cipher itself and
    the MAC are parameters. */
module StreamCipher {
  import opened ByteStrings
  import opened Results

  const MULTIPLE := 16
  const MAX_PACKET := 256 * 1024
  const PREFIX_LEN := 5

  /** flip(i, b) is b combined with byte i of the key stream; for noneCipher it is b. mac is None before the first key
      exchange. */
  datatype Keys = Keys(flip: (nat, byte) -> byte, mac: Option<Bytes -> Bytes>, macSize: nat)

  datatype CipherError = TooLarge | NoRandomness | ShortRead | LengthTooSmall | LengthTooLarge | MacFailure

  /** Combining twice with the same key stream byte gives the byte back, and the MAC has its fixed size. */
  ghost predicate Lawful(k: Keys) {
    && (forall i: nat, b: byte :: k.flip(i, k.flip(i, b)) == b)
    && (if k.mac.Some? then forall x :: |k.mac.value(x)| == k.macSize else k.macSize == 0)
  }

  /** XORKeyStream from position pos on. */
  function Crypt(k: Keys, pos: nat, data: Bytes): (r: Bytes)
    ensures |r| == |data|
  {
    seq(|data|, i requires 0 <= i < |data| => k.flip(pos + i, data[i]))
  }

  function PaddingLength(n: nat): nat {
    var p := MULTIPLE - (PREFIX_LEN + n) % MULTIPLE;
    if p < 4 then p + MULTIPLE else p
  }

  /** The length word: padding length byte, packet and padding. */
  function Length(n: nat): nat {
    n + 1 + PaddingLength(n)
  }

  function Prefix(n: nat): (r: Bytes)
    ensures |r| == PREFIX_LEN
  {
    U32(Length(n)) + [PaddingLength(n) % 256]
  }

  function MacOf(k: Keys, seqNum: nat, plain: Bytes): Bytes {
    if k.mac.Some? then k.mac.value(U32(seqNum) + plain) else []
  }

  function Framed(packet: Bytes, random: Bytes): Bytes
    requires |random| >= PaddingLength(|packet|)
  {
    Prefix(|packet|) + packet + random[..PaddingLength(|packet|)]
  }

  /** What writePacket sends, with the key stream at pos. */
  function WriteSpec(k: Keys, pos: nat, seqNum: nat, packet: Bytes, random: Bytes): Result<Bytes, CipherError> {
    if |packet| > MAX_PACKET then Err(TooLarge)
    else if |random| < PaddingLength(|packet|) then Err(NoRandomness)
    else
      var plain := Framed(packet, random);
      Ok(Crypt(k, pos, plain) + MacOf(k, seqNum, plain))
  }

  /** What readPacket makes of the input: the packet and what is left. */
  function ReadSpec(k: Keys, pos: nat, seqNum: nat, input: Bytes): Result<(Bytes, Bytes), CipherError> {
    if |input| < PREFIX_LEN then Err(ShortRead)
    else
      var prefix := Crypt(k, pos, input[..PREFIX_LEN]);
      var (length, padding) := (BytesToNat(prefix[..4]), prefix[4]);
      if length <= padding + 1 then Err(LengthTooSmall)
      else if length > MAX_PACKET then Err(LengthTooLarge)
      else if |input| < 4 + length + k.macSize then Err(ShortRead)
      else
        var data := Crypt(k, pos + PREFIX_LEN, input[PREFIX_LEN..4 + length]);
        var mac := input[4 + length..4 + length + k.macSize];
        if MacOf(k, seqNum, prefix + data) != mac then Err(MacFailure)
        else Ok((data[..length - padding - 1], input[4 + length + k.macSize..]))
  }

  // ----- framing -----

  /** Between 4 and 19 bytes of padding make length word and all a multiple of 16. */
  lemma PaddingFits(n: nat)
    ensures 4 <= PaddingLength(n) <= 19 && (4 + Length(n)) % MULTIPLE == 0
  {
    var r := (PREFIX_LEN + n) % MULTIPLE;
    var q := (PREFIX_LEN + n) / MULTIPLE;
    assert PREFIX_LEN + n == MULTIPLE * q + r;
    if MULTIPLE - r < 4 {
      assert 4 + Length(n) == MULTIPLE * (q + 2);
    } else {
      assert 4 + Length(n) == MULTIPLE * (q + 1);
    }
  }

  /** The largest payload a reader takes. */
  lemma LengthFitsIff(n: nat)
    ensures Length(n) <= MAX_PACKET <==> n <= 262135
  {
    PaddingFits(n);
    if n == 262136 {
      assert (PREFIX_LEN + n) % MULTIPLE == 13;
    }
    if n == 262135 {
      assert (PREFIX_LEN + n) % MULTIPLE == 12;
    }
    if n < 262135 {
      LengthBound(n);
    }
  }

  lemma LengthBound(n: nat)
    requires n < 262135
    ensures Length(n) <= MAX_PACKET
  {
    PaddingFits(n);
    assert 4 + Length(n) <= 262134 + 24;
    assert 262158 == MULTIPLE * 16384 + 14;
    var m := (4 + Length(n)) / MULTIPLE;
    assert 4 + Length(n) == MULTIPLE * m;
    assert m <= 16384;
  }

  lemma CryptConcat(k: Keys, pos: nat, a: Bytes, b: Bytes)
    ensures Crypt(k, pos, a + b) == Crypt(k, pos, a) + Crypt(k, pos + |a|, b)
  {
    var c := Crypt(k, pos, a + b);
    forall i | 0 <= i < |a| + |b|
      ensures c[i] == (Crypt(k, pos, a) + Crypt(k, pos + |a|, b))[i]
    {
      if i >= |a| {
        assert (a + b)[i] == b[i - |a|] && pos + i == pos + |a| + (i - |a|);
      }
    }
  }

  lemma CryptTwice(k: Keys, pos: nat, data: Bytes)
    requires Lawful(k)
    ensures Crypt(k, pos, Crypt(k, pos, data)) == data
  {
  }

  /** The writer's prefix read back. */
  lemma PrefixValues(n: nat)
    requires n <= MAX_PACKET
    ensures BytesToNat(Prefix(n)[..4]) == Length(n) && Prefix(n)[4] == PaddingLength(n)
  {
    PaddingFits(n);
    Pow256Values();
    BytesOfFixed(Length(n), 4);
    assert Prefix(n)[..4] == U32(Length(n));
  }

  /** The input as the reader takes it apart. */
  lemma Parts(k: Keys, pos: nat, plain: Bytes, mac: Bytes, rest: Bytes)
    requires Lawful(k) && |plain| >= PREFIX_LEN
    ensures var input := Crypt(k, pos, plain) + mac + rest;
            && |input| == |plain| + |mac| + |rest|
            && Crypt(k, pos, input[..PREFIX_LEN]) == plain[..PREFIX_LEN]
            && Crypt(k, pos + PREFIX_LEN, input[PREFIX_LEN..|plain|]) == plain[PREFIX_LEN..]
            && input[|plain|..|plain| + |mac|] == mac && input[|plain| + |mac|..] == rest
  {
    hide Crypt;
    var (a, b) := (plain[..PREFIX_LEN], plain[PREFIX_LEN..]);
    assert plain == a + b;
    CryptConcat(k, pos, a, b);
    CryptTwice(k, pos, a);
    CryptTwice(k, pos + PREFIX_LEN, b);
    var input := Crypt(k, pos, plain) + mac + rest;
    assert input[..PREFIX_LEN] == Crypt(k, pos, a);
    assert input[PREFIX_LEN..|plain|] == Crypt(k, pos + PREFIX_LEN, b);
  }

  /** Reading what was written, with the same keys, key stream position and sequence number: the packet comes back, and
      nothing else is consumed, exactly if it has between 1 and 262135 bytes; the writer alone would go up to 262144. */
  lemma RoundTripIff(k: Keys, pos: nat, seqNum: nat, packet: Bytes, random: Bytes, rest: Bytes)
    requires Lawful(k) && WriteSpec(k, pos, seqNum, packet, random).Ok?
    ensures var r := ReadSpec(k, pos, seqNum, WriteSpec(k, pos, seqNum, packet, random).value + rest);
            && (1 <= |packet| <= 262135 ==> r == Ok((packet, rest)))
            && (|packet| == 0 ==> r == Err(LengthTooSmall))
            && (|packet| > 262135 ==> r == Err(LengthTooLarge))
  {
    hide Crypt, U32, Prefix, BytesToNat, MacOf;
    var n := |packet|;
    PrefixValues(n);
    PaddingFits(n);
    LengthFitsIff(n);
    var plain := Framed(packet, random);
    var mac := MacOf(k, seqNum, plain);
    assert |mac| == k.macSize by { MacSize(k, seqNum, plain); }
    Parts(k, pos, plain, mac, rest);
    assert |plain| == 4 + Length(n) && plain[..PREFIX_LEN] == Prefix(n);
    var data := plain[PREFIX_LEN..];
    assert plain[..PREFIX_LEN] + data == plain;
    assert data[..n] == packet;
  }

  /** The data under the key stream from pos on. */
  predicate Flipped(k: Keys, pos: nat, data: Bytes, out: Bytes) {
    |out| == |data| && forall i | 0 <= i < |data| :: out[i] == k.flip(pos + i, data[i])
  }

  /** What writePacket sends: length word, padding length, packet and padding, every byte under the key stream, and then the MAC of
      the sequence number and these bytes in the clear. */
  lemma WrittenIs(k: Keys, pos: nat, seqNum: nat, packet: Bytes, random: Bytes)
    requires WriteSpec(k, pos, seqNum, packet, random).Ok?
    ensures var padding := PaddingLength(|packet|);
            var frame := U32(|packet| + 1 + padding) + [padding as byte] + packet + random[..padding];
            var out := WriteSpec(k, pos, seqNum, packet, random).value;
            && |frame| <= |out| && Flipped(k, pos, frame, out[..|frame|])
            && out[|frame|..] == if k.mac.Some? then k.mac.value(U32(seqNum) + frame) else []
  {
    hide U32;
    PaddingFits(|packet|);
  }

  /** It refuses a packet exactly if it has more than 256 KiB or there are not enough random bytes for its padding. */
  lemma WriteFailsIff(k: Keys, pos: nat, seqNum: nat, packet: Bytes, random: Bytes)
    ensures WriteSpec(k, pos, seqNum, packet, random).Err? <==> |packet| > 262144 || |random| < PaddingLength(|packet|)
  {
  }

  lemma FlippedTwice(k: Keys, pos: nat, data: Bytes, out: Bytes)
    requires Lawful(k) && Flipped(k, pos, data, out)
    ensures Crypt(k, pos, out) == data && out == Crypt(k, pos, data)
  {
  }

  /** The frame for a packet with any padding of fewer than 256 bytes. */
  function Frame(packet: Bytes, padding: Bytes): Bytes
    requires |padding| < 256
  {
    U32(|packet| + 1 + |padding|) + [|padding|] + packet + padding
  }

  /** What stands for the packet on the wire. */
  ghost predicate StandsFor(k: Keys, pos: nat, seqNum: nat, packet: Bytes, padding: Bytes, sent: Bytes) {
    && |padding| < 256 && packet != [] && |packet| + 1 + |padding| <= 262144
    && var frame := Frame(packet, padding);
    && |sent| == |frame| + k.macSize && Flipped(k, pos, frame, sent[..|frame|])
    && sent[|frame|..] == if k.mac.Some? then k.mac.value(U32(seqNum) + frame) else []
  }

  ghost predicate Stands(k: Keys, pos: nat, seqNum: nat, packet: Bytes, sent: Bytes) {
    exists padding :: StandsFor(k, pos, seqNum, packet, padding, sent)
  }

  /** readPacket accepts exactly the frames of nonempty packets under the key stream, with any padding, followed by the right MAC;
      it returns that packet and leaves what follows. */
  lemma AcceptedIff(k: Keys, pos: nat, seqNum: nat, input: Bytes, packet: Bytes, rest: Bytes)
    requires Lawful(k)
    ensures ReadSpec(k, pos, seqNum, input) == Ok((packet, rest)) <==>
            |rest| <= |input| && input[|input| - |rest|..] == rest && Stands(k, pos, seqNum, packet, input[..|input| - |rest|])
  {
    hide U32, BytesToNat, Crypt, Flipped, StandsFor, Lawful, ReadSpec;
    if ReadSpec(k, pos, seqNum, input) == Ok((packet, rest)) {
      var padding := AcceptedStands(k, pos, seqNum, input, packet, rest);
    }
    if |rest| <= |input| && input[|input| - |rest|..] == rest && Stands(k, pos, seqNum, packet, input[..|input| - |rest|]) {
      var sent := input[..|input| - |rest|];
      var padding :| StandsFor(k, pos, seqNum, packet, padding, sent);
      StandingIsAccepted(k, pos, seqNum, input, packet, padding, rest);
    }
  }

  lemma CryptIsFlipped(k: Keys, pos: nat, data: Bytes)
    requires Lawful(k)
    ensures Flipped(k, pos, Crypt(k, pos, data), data)
  {
  }

  lemma AcceptedStands(k: Keys, pos: nat, seqNum: nat, input: Bytes, packet: Bytes, rest: Bytes) returns (padding: Bytes)
    requires Lawful(k) && ReadSpec(k, pos, seqNum, input) == Ok((packet, rest))
    ensures |rest| <= |input| && input[|input| - |rest|..] == rest
    ensures StandsFor(k, pos, seqNum, packet, padding, input[..|input| - |rest|])
  {
    hide U32, BytesToNat, Crypt, Flipped, Lawful, Frame, MacOf;
    var prefix := Crypt(k, pos, input[..PREFIX_LEN]);
    var (length, n) := (BytesToNat(prefix[..4]), prefix[4]);
    var end := 4 + length;
    var (data, mac) := (Crypt(k, pos + PREFIX_LEN, input[PREFIX_LEN..end]), input[end..end + k.macSize]);
    padding := data[length - n - 1..];
    assert data == packet + padding;
    Deframed(prefix, packet, padding);
    CryptConcat(k, pos, input[..PREFIX_LEN], input[PREFIX_LEN..end]);
    assert input[..end] == input[..PREFIX_LEN] + input[PREFIX_LEN..end];
    CryptIsFlipped(k, pos, input[..end]);
    var sent := input[..end + k.macSize];
    assert sent[..end] == input[..end] && sent[end..] == mac && rest == input[end + k.macSize..];
    assert MacOf(k, seqNum, prefix + data) == mac;
    MacMeans(k, seqNum, prefix + data);
  }

  lemma MacMeans(k: Keys, seqNum: nat, plain: Bytes)
    ensures MacOf(k, seqNum, plain) == if k.mac.Some? then k.mac.value(U32(seqNum) + plain) else []
  {
  }

  lemma Deframed(prefix: Bytes, packet: Bytes, padding: Bytes)
    requires |prefix| == PREFIX_LEN && prefix[4] == |padding| && BytesToNat(prefix[..4]) == |packet| + 1 + |padding|
    ensures prefix + (packet + padding) == Frame(packet, padding) && |Frame(packet, padding)| == 4 + BytesToNat(prefix[..4])
  {
    hide U32, BytesToNat;
    WordOf(prefix);
  }

  lemma WordOf(prefix: Bytes)
    requires |prefix| == PREFIX_LEN
    ensures prefix == U32(BytesToNat(prefix[..4])) + [prefix[4]]
  {
    FixedOfBytes(prefix[..4]);
    Pow256Values();
  }

  lemma StandingIsAccepted(k: Keys, pos: nat, seqNum: nat, input: Bytes, packet: Bytes, padding: Bytes, rest: Bytes)
    requires Lawful(k) && |rest| <= |input| && input[|input| - |rest|..] == rest
    requires StandsFor(k, pos, seqNum, packet, padding, input[..|input| - |rest|])
    ensures ReadSpec(k, pos, seqNum, input) == Ok((packet, rest))
  {
    hide U32, BytesToNat, Crypt, Flipped, Lawful;
    var frame := Frame(packet, padding);
    var sent := input[..|input| - |rest|];
    var mac := sent[|frame|..];
    FlippedTwice(k, pos, frame, sent[..|frame|]);
    assert input == Crypt(k, pos, frame) + mac + rest;
    Parts(k, pos, frame, mac, rest);
    var length := |packet| + 1 + |padding|;
    WordRoundTrip(length);
    assert frame[..PREFIX_LEN][..4] == U32(length) && frame[..PREFIX_LEN][4] == |padding|;
    var data := frame[PREFIX_LEN..];
    assert frame[..PREFIX_LEN] + data == frame;
    assert data[..|packet|] == packet;
  }

  /** What a reader at another place of the key stream sees of a frame. */
  function SeenFrom(k: Keys, pos: nat, other: nat, frame: Bytes): (r: Bytes)
    ensures |r| == |frame|
  {
    seq(|frame|, i requires 0 <= i < |frame| => k.flip(other + i, k.flip(pos + i, frame[i])))
  }

  /** A reader out of step in the key stream sees other bytes than were sent. It takes them for the same packet if and only if
      length word, padding length and packet nevertheless look as they should, and so does the MAC. */
  lemma PositionIsChecked(k: Keys, pos: nat, other: nat, seqNum: nat, packet: Bytes, random: Bytes, rest: Bytes)
    requires Lawful(k) && k.mac.Some? && 1 <= |packet| <= 262135 && WriteSpec(k, pos, seqNum, packet, random).Ok?
    ensures var frame := Framed(packet, random);
            var (seen, mac) := (SeenFrom(k, pos, other, frame), k.mac.value);
            ReadSpec(k, other, seqNum, WriteSpec(k, pos, seqNum, packet, random).value + rest) == Ok((packet, rest)) <==>
            seen[..PREFIX_LEN + |packet|] == frame[..PREFIX_LEN + |packet|] && mac(U32(seqNum) + seen) == mac(U32(seqNum) + frame)
  {
    hide U32, BytesToNat, Crypt, Flipped, Lawful, ReadSpec, StandsFor, Framed, SeenFrom;
    var frame := Framed(packet, random);
    var seen := SeenFrom(k, pos, other, frame);
    var out := WriteSpec(k, pos, seqNum, packet, random).value;
    assert (out + rest)[..|out|] == out && (out + rest)[|out|..] == rest;
    FrameParts(k, pos, seqNum, packet, random);
    AcceptedIff(k, other, seqNum, out + rest, packet, rest);
    if seen[..PREFIX_LEN + |packet|] == frame[..PREFIX_LEN + |packet|] && k.mac.value(U32(seqNum) + seen) == k.mac.value(U32(seqNum) + frame) {
      LooksRight(k, pos, other, seqNum, packet, random);
    }
    if Stands(k, other, seqNum, packet, out) {
      var padding :| StandsFor(k, other, seqNum, packet, padding, out);
      LookedRight(k, pos, other, seqNum, packet, random, padding);
    }
  }

  /** The frame as it is written, with its parts. */
  lemma FrameParts(k: Keys, pos: nat, seqNum: nat, packet: Bytes, random: Bytes)
    requires Lawful(k) && 1 <= |packet| <= 262135 && WriteSpec(k, pos, seqNum, packet, random).Ok?
    ensures var (frame, out) := (Framed(packet, random), WriteSpec(k, pos, seqNum, packet, random).value);
            && |frame| == 4 + Length(|packet|) && Length(|packet|) <= MAX_PACKET && 4 <= PaddingLength(|packet|) <= 19
            && frame[..PREFIX_LEN + |packet|] == Prefix(|packet|) + packet
            && |out| == |frame| + k.macSize && out[..|frame|] == Crypt(k, pos, frame) && out[|frame|..] == MacOf(k, seqNum, frame)
            && forall other :: |MacOf(k, seqNum, other)| == k.macSize
  {
    hide U32, Crypt, Lawful;
    PaddingFits(|packet|);
    LengthFitsIff(|packet|);
    MacSize(k, seqNum, Framed(packet, random));
    forall other ensures |MacOf(k, seqNum, other)| == k.macSize {
      MacSize(k, seqNum, other);
    }
  }

  lemma LooksRight(k: Keys, pos: nat, other: nat, seqNum: nat, packet: Bytes, random: Bytes)
    requires Lawful(k) && k.mac.Some? && 1 <= |packet| <= 262135 && WriteSpec(k, pos, seqNum, packet, random).Ok?
    requires var frame := Framed(packet, random);
             var seen := SeenFrom(k, pos, other, frame);
             && |frame| >= PREFIX_LEN + |packet| && seen[..PREFIX_LEN + |packet|] == frame[..PREFIX_LEN + |packet|]
             && k.mac.value(U32(seqNum) + seen) == k.mac.value(U32(seqNum) + frame)
    ensures Stands(k, other, seqNum, packet, WriteSpec(k, pos, seqNum, packet, random).value)
  {
    hide U32, Crypt, Lawful, Framed, SeenFrom, Flipped;
    var frame := Framed(packet, random);
    var seen := SeenFrom(k, pos, other, frame);
    FrameParts(k, pos, seqNum, packet, random);
    SeenFlipped(k, pos, other, frame);
    var padding := seen[PREFIX_LEN + |packet|..];
    assert seen == frame[..PREFIX_LEN + |packet|] + padding;
    assert seen == Frame(packet, padding);
    assert StandsFor(k, other, seqNum, packet, padding, WriteSpec(k, pos, seqNum, packet, random).value);
  }

  lemma LookedRight(k: Keys, pos: nat, other: nat, seqNum: nat, packet: Bytes, random: Bytes, padding: Bytes)
    requires Lawful(k) && k.mac.Some? && 1 <= |packet| <= 262135 && WriteSpec(k, pos, seqNum, packet, random).Ok?
    requires StandsFor(k, other, seqNum, packet, padding, WriteSpec(k, pos, seqNum, packet, random).value)
    ensures var frame := Framed(packet, random);
            var seen := SeenFrom(k, pos, other, frame);
            && |frame| >= PREFIX_LEN + |packet| && seen[..PREFIX_LEN + |packet|] == frame[..PREFIX_LEN + |packet|]
            && k.mac.value(U32(seqNum) + seen) == k.mac.value(U32(seqNum) + frame)
  {
    hide U32, Crypt, Lawful, Framed, SeenFrom, Flipped;
    var frame := Framed(packet, random);
    var out := WriteSpec(k, pos, seqNum, packet, random).value;
    FrameParts(k, pos, seqNum, packet, random);
    SeenFlipped(k, pos, other, frame);
    var f := Frame(packet, padding);
    assert |f| == |frame|;
    FlippedOnce(k, other, f, SeenFrom(k, pos, other, frame), out[..|frame|]);
    assert f[..PREFIX_LEN + |packet|] == U32(|packet| + 1 + |padding|) + [|padding|] + packet;
  }

  lemma SeenFlipped(k: Keys, pos: nat, other: nat, frame: Bytes)
    requires Lawful(k)
    ensures Flipped(k, other, SeenFrom(k, pos, other, frame), Crypt(k, pos, frame))
  {
  }

  lemma FlippedOnce(k: Keys, pos: nat, a: Bytes, b: Bytes, out: Bytes)
    requires Lawful(k) && Flipped(k, pos, a, out) && Flipped(k, pos, b, out)
    ensures a == b
  {
    forall i | 0 <= i < |a| ensures a[i] == b[i] {
      assert k.flip(pos + i, k.flip(pos + i, a[i])) == a[i] && k.flip(pos + i, k.flip(pos + i, b[i])) == b[i];
    }
  }

  /** A reader out of step in the sequence number rejects the packet unless the two MACs coincide. */
  lemma SequenceNumberIsChecked(k: Keys, pos: nat, seqNum: nat, other: nat, packet: Bytes, random: Bytes, rest: Bytes)
    requires Lawful(k) && k.mac.Some? && 1 <= |packet| <= 262135 && WriteSpec(k, pos, seqNum, packet, random).Ok?
    ensures var r := ReadSpec(k, pos, other, WriteSpec(k, pos, seqNum, packet, random).value + rest);
            var mac := k.mac.value;
            r == if mac(U32(other) + Framed(packet, random)) == mac(U32(seqNum) + Framed(packet, random)) then Ok((packet, rest)) else Err(MacFailure)
  {
    hide Crypt, U32, Prefix, BytesToNat;
    var n := |packet|;
    PrefixValues(n);
    PaddingFits(n);
    LengthFitsIff(n);
    var plain := Framed(packet, random);
    var mac := MacOf(k, seqNum, plain);
    MacSize(k, seqNum, plain);
    Parts(k, pos, plain, mac, rest);
    assert |plain| == 4 + Length(n) && plain[..PREFIX_LEN] == Prefix(n);
    var data := plain[PREFIX_LEN..];
    assert plain[..PREFIX_LEN] + data == plain;
    assert data[..n] == packet;
  }

  lemma MacSize(k: Keys, seqNum: nat, plain: Bytes)
    requires Lawful(k)
    ensures |MacOf(k, seqNum, plain)| == k.macSize
  {
  }

  // ----- many packets -----

  /** A packet as connectionState hands it over, with the random bytes for its padding. */
  datatype Out = Out(packet: Bytes, random: Bytes)

  predicate Sendable(o: Out) {
    1 <= |o.packet| <= 262135 && |o.random| >= PaddingLength(|o.packet|)
  }

  function FrameLength(o: Out): nat {
    4 + Length(|o.packet|)
  }

  /** All packets one after the other, the sequence number wrapping around. */
  function WriteAll(k: Keys, pos: nat, seqNum: nat, outs: seq<Out>): Bytes
    requires forall i | 0 <= i < |outs| :: Sendable(outs[i])
    decreases |outs|
  {
    if outs == [] then []
    else
      CanWrite(k, pos, seqNum, outs[0]);
      WriteSpec(k, pos, seqNum, outs[0].packet, outs[0].random).value
      + WriteAll(k, pos + FrameLength(outs[0]), (seqNum + 1) % TWO32, outs[1..])
  }

  function ReadAll(k: Keys, pos: nat, seqNum: nat, input: Bytes, count: nat): Result<(seq<Bytes>, Bytes), CipherError>
    decreases count
  {
    if count == 0 then Ok(([], input))
    else
      match ReadSpec(k, pos, seqNum, input)
      case Err(e) => Err(e)
      case Ok((p, rest)) =>
        match ReadAll(k, pos + 4 + Length(|p|), (seqNum + 1) % TWO32, rest, count - 1)
        case Err(e) => Err(e)
        case Ok((ps, left)) => Ok(([p] + ps, left))
  }

  function Packets(outs: seq<Out>): seq<Bytes> {
    seq(|outs|, i requires 0 <= i < |outs| => outs[i].packet)
  }

  /** A reader that starts in step with the writer stays in step over any number of packets. */
  lemma {:induction false} ManyRoundTrip(k: Keys, pos: nat, seqNum: nat, outs: seq<Out>, rest: Bytes)
    requires Lawful(k) && forall i | 0 <= i < |outs| :: Sendable(outs[i])
    ensures ReadAll(k, pos, seqNum, WriteAll(k, pos, seqNum, outs) + rest, |outs|) == Ok((Packets(outs), rest))
    decreases |outs|
  {
    hide Crypt, ReadSpec, WriteSpec, Length;
    if outs == [] {
      assert WriteAll(k, pos, seqNum, outs) + rest == rest;
    } else {
      var o := outs[0];
      var tail := WriteAll(k, pos + FrameLength(o), (seqNum + 1) % TWO32, outs[1..]);
      assert WriteSpec(k, pos, seqNum, o.packet, o.random).Ok? by { CanWrite(k, pos, seqNum, o); }
      var head := WriteSpec(k, pos, seqNum, o.packet, o.random).value;
      assert head + tail + rest == head + (tail + rest);
      RoundTripIff(k, pos, seqNum, o.packet, o.random, tail + rest);
      ManyRoundTrip(k, pos + FrameLength(o), (seqNum + 1) % TWO32, outs[1..], rest);
      assert Packets(outs) == [o.packet] + Packets(outs[1..]);
    }
  }

  lemma CanWrite(k: Keys, pos: nat, seqNum: nat, o: Out)
    requires Sendable(o)
    ensures WriteSpec(k, pos, seqNum, o.packet, o.random).Ok?
  {
  }

  /** The bytes of some packets without their MACs. */
  function Frames(outs: seq<Out>): nat {
    if outs == [] then 0 else FrameLength(outs[0]) + Frames(outs[1..])
  }

  lemma Wrapped(a: nat, i: nat)
    requires i > 0
    ensures ((a + 1) % TWO32 + (i - 1)) % TWO32 == (a + i) % TWO32
  {
  }

  /** The i-th packet of a stream is written with the sequence number i further on, modulo 2^32, and with the key stream where the
      frames before it have left it, the MACs not being encrypted. */
  lemma {:induction false} PacketInStream(k: Keys, pos: nat, seqNum: nat, outs: seq<Out>, i: nat)
    requires i < |outs| && seqNum < TWO32 && forall j | 0 <= j < |outs| :: Sendable(outs[j])
    ensures var one := WriteSpec(k, pos + Frames(outs[..i]), (seqNum + i) % TWO32, outs[i].packet, outs[i].random);
            one.Ok? && WriteAll(k, pos, seqNum, outs[..i]) + one.value <= WriteAll(k, pos, seqNum, outs)
    decreases i
  {
    hide WriteSpec, Sendable, FrameLength;
    CanWrite(k, pos, seqNum, outs[0]);
    var head := WriteSpec(k, pos, seqNum, outs[0].packet, outs[0].random).value;
    if i == 0 {
      assert outs[..0] == [];
      assert [] + head == head;
    } else {
      var (tail, p, n) := (outs[1..], pos + FrameLength(outs[0]), (seqNum + 1) % TWO32);
      PacketInStream(k, p, n, tail, i - 1);
      assert outs[..i][1..] == tail[..i - 1] && outs[..i][0] == outs[0];
      Wrapped(seqNum, i);
      var before := WriteAll(k, p, n, tail[..i - 1]);
      var one := WriteSpec(k, pos + Frames(outs[..i]), (seqNum + i) % TWO32, outs[i].packet, outs[i].random).value;
      assert head + before + one == head + (before + one);
    }
  }

  // ----- in place -----

  class StreamPacketCipher {
    const keys: Keys
    var pos: nat
    const prefix: array<byte>
    const padding: array<byte>

    ghost predicate Valid()
      reads this
    {
      prefix.Length == PREFIX_LEN && padding.Length == 2 * MULTIPLE && prefix != padding
    }

    constructor (keys: Keys)
      ensures Valid() && this.keys == keys && pos == 0 && fresh(prefix) && fresh(padding)
    {
      this.keys, pos := keys, 0;
      prefix, padding := new byte[PREFIX_LEN], new byte[2 * MULTIPLE];
    }

    /** XORKeyStream(a[lo..hi], a[lo..hi]). */
    method XorKeyStream(a: array<byte>, lo: nat, hi: nat)
      requires lo <= hi <= a.Length
      modifies this`pos, a
      ensures pos == old(pos) + (hi - lo)
      ensures a[lo..hi] == Crypt(keys, old(pos), old(a[lo..hi]))
      ensures forall i | 0 <= i < a.Length && !(lo <= i < hi) :: a[i] == old(a[i])
    {
      for i := lo to hi
        invariant pos == old(pos) + (i - lo)
        invariant forall j | lo <= j < i :: a[j] == keys.flip(old(pos) + (j - lo), old(a[j]))
        invariant forall j | 0 <= j < a.Length && !(lo <= j < i) :: a[j] == old(a[j])
      {
        a[i] := keys.flip(pos, a[i]);
        pos := pos + 1;
      }
    }

    /** Go's copy to the front of a buffer. */
    method Fill(a: array<byte>, b: Bytes)
      requires |b| <= a.Length
      modifies a
      ensures a[..|b|] == b
    {
      for i := 0 to |b|
        invariant forall j | 0 <= j < i :: a[j] == b[j]
      {
        a[i] := b[i];
      }
    }

    /** writePacket: encrypts prefix, packet and padding where they lie, so the caller's packet is overwritten. */
    method WritePacket(seqNum: nat, packet: array<byte>, random: Bytes) returns (r: Result<Bytes, CipherError>)
      requires Valid() && packet != prefix && packet != padding
      modifies this`pos, prefix, padding, packet
      ensures r == WriteSpec(keys, old(pos), seqNum, old(packet[..]), random)
      ensures pos == old(pos) + if r.Ok? then 4 + Length(packet.Length) else 0
      ensures r.Ok? ==> packet[..] == Crypt(keys, old(pos) + PREFIX_LEN, old(packet[..]))
    {
      hide Crypt, MacOf;
      if packet.Length > MAX_PACKET {
        return Err(TooLarge);
      }
      ghost var clear := packet[..];
      var paddingLength := PaddingLength(packet.Length);
      PaddingFits(packet.Length);
      Fill(prefix, Prefix(packet.Length));
      if |random| < paddingLength {
        return Err(NoRandomness);
      }
      Fill(padding, random[..paddingLength]);
      assert prefix[..] == Prefix(packet.Length);
      var plain := prefix[..] + packet[..] + padding[..paddingLength];
      assert plain == Framed(clear, random);
      var mac := MacOf(keys, seqNum, plain);
      ghost var start := pos;
      assert prefix[0..PREFIX_LEN] == Prefix(packet.Length);
      XorKeyStream(prefix, 0, PREFIX_LEN);
      assert packet[0..packet.Length] == clear;
      XorKeyStream(packet, 0, packet.Length);
      assert padding[0..paddingLength] == random[..paddingLength];
      XorKeyStream(padding, 0, paddingLength);
      assert prefix[0..PREFIX_LEN] == prefix[..] && packet[0..packet.Length] == packet[..] && padding[0..paddingLength] == padding[..paddingLength];
      Sealed(keys, start, Prefix(|clear|), clear, random[..paddingLength]);
      r := Ok(prefix[..] + packet[..] + padding[..paddingLength] + mac);
    }

    /** readPacket; the input stands for what the connection will deliver. */
    method ReadPacket(seqNum: nat, input: Bytes) returns (r: Result<(Bytes, Bytes), CipherError>)
      requires Valid()
      modifies this`pos, prefix
      ensures r == ReadSpec(keys, old(pos), seqNum, input)
      ensures r.Ok? ==> pos == old(pos) + (|input| - |r.value.1| - keys.macSize)
    {
      hide Crypt, MacOf;
      if |input| < PREFIX_LEN {
        return Err(ShortRead);
      }
      Fill(prefix, input[..PREFIX_LEN]);
      assert prefix[0..PREFIX_LEN] == input[..PREFIX_LEN];
      XorKeyStream(prefix, 0, PREFIX_LEN);
      var head := prefix[..];
      assert head == prefix[0..PREFIX_LEN];
      var length := BytesToNat(head[..4]);
      var paddingLength := head[4];
      if length <= paddingLength + 1 {
        return Err(LengthTooSmall);
      }
      if length > MAX_PACKET {
        return Err(LengthTooLarge);
      }
      if |input| < 4 + length + keys.macSize {
        return Err(ShortRead);
      }
      var packetData := new byte[length - 1];
      Fill(packetData, input[PREFIX_LEN..4 + length]);
      assert packetData[0..length - 1] == input[PREFIX_LEN..4 + length];
      XorKeyStream(packetData, 0, length - 1);
      var data := packetData[..];
      assert data == packetData[0..length - 1];
      if MacOf(keys, seqNum, head + data) != input[4 + length..4 + length + keys.macSize] {
        return Err(MacFailure);
      }
      return Ok((data[..length - paddingLength - 1], input[4 + length + keys.macSize..]));
    }
  }

  /** Three calls of XORKeyStream in a row are one. */
  lemma Sealed(k: Keys, pos: nat, a: Bytes, b: Bytes, c: Bytes)
    ensures Crypt(k, pos, a + b + c) == Crypt(k, pos, a) + Crypt(k, pos + |a|, b) + Crypt(k, pos + |a| + |b|, c)
  {
    hide Crypt;
    CryptConcat(k, pos, a + b, c);
    CryptConcat(k, pos, a, b);
  }
}
