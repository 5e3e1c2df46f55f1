/** Channel data packets as bytes: how WriteExtended fills the packet it reuses, and how onePacket and handleData take it
    apart (channel.go, mux.go; section 5.2 of RFC 4254). */
module ChannelPackets {
  import opened ByteStrings
  import opened Results
  import Mpint
  import Wire

  const CHANNEL_DATA: byte := 94
  const CHANNEL_EXTENDED_DATA: byte := 95

  /** A data packet as ChannelFlow sees it; code 0 is the ordinary stream. Nothing stands for a packet that says it has no
      data, whatever follows. */
  datatype Taken = Data(code: nat, payload: Bytes) | Nothing

  datatype DataError = Malformed(tag: byte) | TooLarge | WrongLength

  function HeaderLength(code: nat): nat {
    if code > 0 then 13 else 9
  }

  function Encode(remoteId: nat, code: nat, payload: Bytes): Bytes {
    if code > 0 then [CHANNEL_EXTENDED_DATA] + U32(remoteId) + U32(code) + U32(|payload|) + payload
    else [CHANNEL_DATA] + U32(remoteId) + U32(|payload|) + payload
  }

  /** The number onePacket looks the channel up with. */
  function ChannelId(packet: Bytes): Option<nat> {
    if |packet| < 5 then None else Some(BytesToNat(packet[1..5]))
  }

  /** handleData up to the window test. */
  function Decode(packet: Bytes, maxIncoming: nat): Result<Taken, DataError>
    requires packet != []
  {
    var extended := packet[0] == CHANNEL_EXTENDED_DATA;
    var header := if extended then 13 else 9;
    if |packet| < header then Err(Malformed(packet[0]))
    else
      var length := BytesToNat(packet[header - 4..header]);
      if length == 0 then Ok(Nothing)
      else if length > maxIncoming then Err(TooLarge)
      else if length != (|packet| - header) % TWO32 then Err(WrongLength)
      else Ok(Data(if extended then BytesToNat(packet[5..9]) else 0, packet[header..]))
  }

  lemma EncodeParts(remoteId: nat, code: nat, payload: Bytes)
    ensures var (p, h) := (Encode(remoteId, code, payload), HeaderLength(code));
            && |p| == h + |payload| && p[0] == (if code > 0 then CHANNEL_EXTENDED_DATA else CHANNEL_DATA)
            && p[1..5] == U32(remoteId) && p[h - 4..h] == U32(|payload|) && p[h..] == payload
            && (code > 0 ==> p[5..9] == U32(code))
  {
    hide U32;
  }

  /** A packet the writer makes reaches the channel it is for with its code and bytes, unless it is empty, which the receiver
      ignores, or longer than the receiver has allowed. */
  lemma RoundTripIff(remoteId: nat, code: nat, payload: Bytes, maxIncoming: nat)
    requires remoteId < TWO32 && code < TWO32 && |payload| < TWO32
    ensures var p := Encode(remoteId, code, payload);
            && p != [] && ChannelId(p) == Some(remoteId)
            && Decode(p, maxIncoming) ==
               if payload == [] then Ok(Nothing) else if |payload| > maxIncoming then Err(TooLarge) else Ok(Data(code, payload))
  {
    hide U32, BytesToNat, Encode;
    EncodeParts(remoteId, code, payload);
    WordRoundTrip(remoteId);
    WordRoundTrip(code);
    WordRoundTrip(|payload|);
  }

  /** The messages are those of section 5.2 of RFC 4254: the number, for extended data its type, and the data as a string. */
  lemma EncodeIsWire(remoteId: nat, code: nat, payload: Bytes)
    ensures Encode(remoteId, code, payload) ==
            if code == 0 then Wire.MarshalSpec(Wire.Schema(94, [Wire.KU32, Wire.KBytes]), [Wire.VU32(remoteId), Wire.VBytes(payload)])
            else Wire.MarshalSpec(Wire.Schema(95, [Wire.KU32, Wire.KU32, Wire.KBytes]), [Wire.VU32(remoteId), Wire.VU32(code), Wire.VBytes(payload)])
  {
    hide U32;
    if code == 0 {
      Wire.TwoFields([Wire.VU32(remoteId), Wire.VBytes(payload)]);
    } else {
      Wire.ThreeFields([Wire.VU32(remoteId), Wire.VU32(code), Wire.VBytes(payload)]);
    }
  }

  /** handleData accepts exactly the packets of that form whose data is as long as they say, not empty and within the limit. */
  lemma DecodedIff(packet: Bytes, maxIncoming: nat, code: nat, payload: Bytes)
    requires packet != [] && (packet[0] == CHANNEL_DATA || packet[0] == CHANNEL_EXTENDED_DATA) && |packet| < TWO32
    ensures Decode(packet, maxIncoming) == Ok(Data(code, payload)) <==>
            && payload != [] && |payload| <= maxIncoming && |packet| >= 9
            && var id := packet[1..5];
            if packet[0] == CHANNEL_DATA then code == 0 && packet == [94] + id + U32(|payload|) + payload
            else code < TWO32 && packet == [95] + id + U32(code) + U32(|payload|) + payload
  {
    hide U32, BytesToNat;
    var h := if packet[0] == CHANNEL_EXTENDED_DATA then 13 else 9;
    if |packet| >= h {
      var word := packet[h - 4..h];
      Words(word, packet[5..9]);
      if code < TWO32 {
        WordRoundTrip(code);
      }
      if |payload| < TWO32 {
        WordRoundTrip(|payload|);
      }
      assert packet == packet[..1] + packet[1..5] + packet[5..9] + packet[9..];
      if h == 13 {
        assert packet[9..] == word + packet[13..];
      }
      if Decode(packet, maxIncoming) == Ok(Data(code, payload)) {
        assert packet[..1] == [packet[0]];
      } else if payload != [] && |payload| <= maxIncoming {
        if packet == [94] + packet[1..5] + U32(|payload|) + payload {
          assert packet[5..9] == U32(|payload|) && packet[9..] == payload;
        }
        if packet == [95] + packet[1..5] + U32(code) + U32(|payload|) + payload {
          assert packet[5..9] == U32(code) && packet[9..13] == U32(|payload|) && packet[13..] == payload;
        }
      }
    }
  }

  lemma Words(a: Bytes, b: Bytes)
    requires |a| == |b| == 4
    ensures U32(BytesToNat(a)) == a && U32(BytesToNat(b)) == b && BytesToNat(a) < TWO32 && BytesToNat(b) < TWO32
  {
    FixedOfBytes(a);
    FixedOfBytes(b);
    BytesToNatBound(a);
    BytesToNatBound(b);
    Pow256Values();
  }

  /** The body of WriteExtended's loop: the packet buffer is reused if it is large enough, and filled in place. */
  method FillPacket(pool: array<byte>, remoteId: nat, code: nat, todo: Bytes) returns (packet: array<byte>, want: nat)
    requires remoteId < TWO32 && code < TWO32 && |todo| < TWO32
    modifies pool
    ensures want == HeaderLength(code) + |todo| <= packet.Length
    ensures packet == (if pool.Length < want then packet else pool) && (packet == pool || fresh(packet))
    ensures packet[..want] == Encode(remoteId, code, todo)
  {
    hide U32, Encode;
    var header := HeaderLength(code);
    want := header + |todo|;
    packet := pool;
    if pool.Length < want {
      packet := new byte[want];
    }
    packet[0] := if code > 0 then CHANNEL_EXTENDED_DATA else CHANNEL_DATA;
    var _ := Mpint.CopyBytes(packet, 1, U32(remoteId));
    if code > 0 {
      var _ := Mpint.CopyBytes(packet, 5, U32(code));
    }
    var _ := Mpint.CopyBytes(packet, header - 4, U32(|todo|));
    var _ := Mpint.CopyBytes(packet, header, todo);
    assert forall i | header - 4 <= i < header :: packet[i] == U32(|todo|)[i - (header - 4)];
    assert forall i | 1 <= i < 5 :: packet[i] == U32(remoteId)[i - 1];
    Pointwise(packet[..want], remoteId, code, todo);
  }

  lemma Pointwise(p: Bytes, remoteId: nat, code: nat, payload: Bytes)
    requires var h := HeaderLength(code);
             && |p| == h + |payload| && p[0] == (if code > 0 then CHANNEL_EXTENDED_DATA else CHANNEL_DATA)
             && (forall i | 1 <= i < 5 :: p[i] == U32(remoteId)[i - 1])
             && (code > 0 ==> forall i | 5 <= i < 9 :: p[i] == U32(code)[i - 5])
             && (forall i | h - 4 <= i < h :: p[i] == U32(|payload|)[i - (h - 4)])
             && (forall i | h <= i < |p| :: p[i] == payload[i - h])
    ensures p == Encode(remoteId, code, payload)
  {
    hide U32;
  }
}
