/** Keys, signatures and certificates byte by byte: section 6.6 of RFC 4253, section 3.1 of RFC 5656, and the certificate format
    that certs.go refers to. */
module KeyForms {
  import opened ByteStrings
  import opened PublicKeys
  import opened Results
  import opened Wire
  import Certs
  import Tuples

  function Str(s: Bytes): Bytes {
    EncodeString(s)
  }

  function Int(n: int): Bytes {
    EncodeField(VInt(n))
  }

  lemma Fields(vs: seq<Field>)
    ensures |vs| == 2 ==> EncodeFields(vs) == EncodeField(vs[0]) + EncodeField(vs[1])
    ensures |vs| == 4 ==> EncodeFields(vs) == EncodeField(vs[0]) + EncodeField(vs[1]) + EncodeField(vs[2]) + EncodeField(vs[3])
  {
    hide EncodeFields, EncodeField;
    if |vs| == 2 {
      TwoFields(vs);
    }
    if |vs| == 4 {
      Wire.FourFields(vs);
    }
  }

  lemma BitsIff(e: int)
    ensures BitLen(Abs(e)) > 24 <==> e >= 0x100_0000 || e <= -0x100_0000
  {
    hide BitLen;
    BitLenLog(Abs(e), 24);
    assert Pow2(24) == 0x100_0000 by { TwoTo24(); }
  }

  lemma TwoTo24()
    ensures Pow2(24) == 0x100_0000
  {
    assert Pow2(8) == 256;
    assert Pow2(16) == 65536;
  }

  /** An RSA key: its name, e and n. It is accepted exactly with an odd e from 3 to 2^24 - 1. */
  lemma RsaForm(onCurve: PointTest, e: int, n: int, rest: Bytes)
    requires |Int(e) + Int(n) + rest| < TWO32
    ensures MarshalPlain(RsaKey(e, n)) == Str(Ascii("ssh-rsa")) + Int(e) + Int(n)
    ensures ParsePlain(onCurve, RSA, Int(e) + Int(n) + rest) ==
            if e >= 0x100_0000 || e <= -0x100_0000 then Err(ExponentTooLarge)
            else if e < 3 || e % 2 == 0 then Err(IncorrectExponent)
            else Ok((RsaKey(e, n), rest))
  {
    hide EncodeFields, EncodeField, Ascii, UnmarshalSpec;
    var vs := [VInt(e), VInt(n)];
    Fields(vs);
    MarshalPlainIs(RsaKey(e, n));
    IntsRoundTrip([KInt, KInt], vs, rest);
    assert [KInt, KInt] + [KRest] == [KInt, KInt, KRest] && vs + [VRest(rest)] == [VInt(e), VInt(n), VRest(rest)];
    BitsIff(e);
  }

  /** A DSA key: its name, p, q, g and y. */
  lemma DsaForm(onCurve: PointTest, p: int, q: int, g: int, y: int, rest: Bytes)
    requires |Int(p) + Int(q) + Int(g) + Int(y) + rest| < TWO32
    ensures MarshalPlain(DsaKey(p, q, g, y)) == Str(Ascii("ssh-dss")) + Int(p) + Int(q) + Int(g) + Int(y)
    ensures ParsePlain(onCurve, DSA, Int(p) + Int(q) + Int(g) + Int(y) + rest) == Ok((DsaKey(p, q, g, y), rest))
  {
    hide EncodeFields, EncodeField, Ascii, UnmarshalSpec;
    var vs := [VInt(p), VInt(q), VInt(g), VInt(y)];
    Fields(vs);
    MarshalPlainIs(DsaKey(p, q, g, y));
    IntsRoundTrip([KInt, KInt, KInt, KInt], vs, rest);
    assert [KInt, KInt, KInt, KInt] + [KRest] == [KInt, KInt, KInt, KInt, KRest];
    assert vs + [VRest(rest)] == [VInt(p), VInt(q), VInt(g), VInt(y), VRest(rest)];
  }

  function Nistp(c: Curve): Bytes {
    match c
    case P256 => Ascii("nistp256")
    case P384 => Ascii("nistp384")
    case P521 => Ascii("nistp521")
  }

  /** An ECDSA key: the name with its curve, the curve's identifier and the point; whatever curve the name is for, the identifier
      decides, and the point must be on that curve. */
  lemma EcdsaForm(onCurve: PointTest, named: Curve, c: Curve, point: Bytes, rest: Bytes)
    requires |Str(Nistp(c)) + Str(point) + rest| < TWO32
    ensures MarshalPlain(EcdsaKey(c, point)) == Str(Ascii("ecdsa-sha2-") + Nistp(c)) + Str(Nistp(c)) + Str(point)
    ensures ParsePlain(onCurve, ECDSA(named), Str(Nistp(c)) + Str(point) + rest) ==
            if onCurve(c, point) then Ok((EcdsaKey(c, point), rest)) else Err(InvalidPoint)
  {
    hide EncodeFields, ParseString, Ascii, EncodeString;
    assert Nistp(c) == CurveId(c);
    Name(c);
    MarshalPlainIs(EcdsaKey(c, point));
    EcdsaBody(c, point);
    FindCurveOfId(c);
    assert Str(Nistp(c)) + Str(point) + rest == Str(Nistp(c)) + (Str(point) + rest);
    StringSizes(Nistp(c), point);
    StringRoundTrip(Nistp(c), Str(point) + rest);
    StringRoundTrip(point, rest);
  }

  lemma StringSizes(a: Bytes, b: Bytes)
    ensures |Str(a)| == 4 + |a| && |Str(b)| == 4 + |b|
  {
  }

  lemma Name(c: Curve)
    ensures AlgoName(ECDSA(c)) == Ascii("ecdsa-sha2-") + Nistp(c)
  {
  }

  /** A certificate: its name, the nonce, the key without its name, serial, type, key id, principals, the two ends of its validity,
      options, extensions, the reserved field, and the signature key and the signature as strings. */
  lemma CertForm(c: Certificate)
    requires |MarshalPlain(c.key)| < TWO32
    ensures MarshalCert(c) ==
            Str(CertName(KeyAlgo(c.key))) + Str(c.nonce) + Body(c.key)
            + FixedBytes(c.serial, 8) + U32(c.certType) + Str(c.keyId) + Str(Tuples.MarshalStringList(c.principals))
            + FixedBytes(c.validAfter, 8) + FixedBytes(c.validBefore, 8)
            + Str(Tuples.MarshalTuplesSpec(c.criticalOptions)) + Str(Tuples.MarshalTuplesSpec(c.extensions)) + Str(c.reserved)
            + Str(MarshalKey(c.signatureKey)) + Str(if c.signature.Some? then MarshalSignature(c.signature.value) else [])
  {
    hide EncodeFields, EncodeField, Ascii, EncodeString, CertName, Body, MarshalPlain, Tuples.MarshalTuplesSpec, Tuples.MarshalStringList,
      MarshalKey, MarshalSignature, FixedBytes, U32, KeyAlgo, StripName, CertPrefix, EncodeGeneric, GenericOfCert, Str;
    var g := GenericOfCert(c, MarshalKey(c.signatureKey));
    Certs.CertPrefixIs(c);
    IsStr();
    GenericForm(g);
    Parts(c);
    Regroup(Str(CertName(KeyAlgo(c.key))) + Str(c.nonce) + Body(c.key), FixedBytes(g.serial, 8), U32(g.certType), Str(g.keyId), Str(g.principals),
            FixedBytes(g.validAfter, 8), FixedBytes(g.validBefore, 8), Str(g.criticalOptions), Str(g.extensions), Str(g.reserved),
            Str(g.signatureKey), Str(g.signature));
  }

  lemma IsStr()
    ensures forall s :: EncodeString(s) == Str(s)
  {
  }

  lemma Parts(c: Certificate)
    ensures var g := GenericOfCert(c, MarshalKey(c.signatureKey));
            && g.serial == c.serial && g.certType == c.certType && g.keyId == c.keyId && g.principals == Tuples.MarshalStringList(c.principals)
            && g.validAfter == c.validAfter && g.validBefore == c.validBefore
            && g.criticalOptions == Tuples.MarshalTuplesSpec(c.criticalOptions) && g.extensions == Tuples.MarshalTuplesSpec(c.extensions)
            && g.reserved == c.reserved && g.signatureKey == MarshalKey(c.signatureKey)
            && g.signature == if c.signature.Some? then MarshalSignature(c.signature.value) else []
  {
    hide Tuples.MarshalTuplesSpec, Tuples.MarshalStringList, MarshalKey, MarshalSignature;
  }

  lemma Regroup(p: Bytes, a: Bytes, b: Bytes, c: Bytes, d: Bytes, e: Bytes, f: Bytes, g: Bytes, h: Bytes, i: Bytes, j: Bytes, k: Bytes)
    ensures p + (a + b + c + d + e + f + g + h + i + j + k) == p + a + b + c + d + e + f + g + h + i + j + k
  {
    assert p + (a + b + c + d) == p + a + b + c + d;
    assert p + (a + b + c + d + e + f + g + h) == p + (a + b + c + d) + e + f + g + h;
  }

  lemma GenericForm(g: Generic)
    ensures EncodeGeneric(g) ==
            FixedBytes(g.serial, 8) + U32(g.certType) + Str(g.keyId) + Str(g.principals) + FixedBytes(g.validAfter, 8) + FixedBytes(g.validBefore, 8)
            + Str(g.criticalOptions) + Str(g.extensions) + Str(g.reserved) + Str(g.signatureKey) + Str(g.signature)
  {
    hide EncodeFields, EncodeString, FixedBytes, U32;
    var vs := GenericFields(g);
    assert vs == vs[..8] + [VBytes(g.reserved)] + [VBytes(g.signatureKey)] + [VBytes(g.signature)];
    EightFields(vs[..8]);
    EncodeFieldsSnoc(vs[..8], VBytes(g.reserved));
    EncodeFieldsSnoc(vs[..8] + [VBytes(g.reserved)], VBytes(g.signatureKey));
    EncodeFieldsSnoc(vs[..8] + [VBytes(g.reserved)] + [VBytes(g.signatureKey)], VBytes(g.signature));
  }

  const ENDING: string := "-cert-v01@openssh.com"

  /** A certificate's name is that of its key with an ending. */
  lemma CertNameForm(a: Algo)
    ensures CertName(a) == AlgoName(a) + Ascii(ENDING)
  {
    hide Ascii, ENDING;
    match a {
      case RSA => RsaEnding();
      case DSA => DsaEnding();
      case ECDSA(P256) => Ending256();
      case ECDSA(P384) => Ending384();
      case ECDSA(P521) => Ending521();
    }
  }

  lemma RsaEnding()
    ensures Ascii("ssh-rsa-cert-v01@openssh.com") == Ascii("ssh-rsa") + Ascii(ENDING)
  {
    hide Ascii;
    AsciiConcat("ssh-rsa", ENDING);
    assert "ssh-rsa" + ENDING == "ssh-rsa-cert-v01@openssh.com";
  }

  lemma DsaEnding()
    ensures Ascii("ssh-dss-cert-v01@openssh.com") == Ascii("ssh-dss") + Ascii(ENDING)
  {
    hide Ascii;
    AsciiConcat("ssh-dss", ENDING);
    assert "ssh-dss" + ENDING == "ssh-dss-cert-v01@openssh.com";
  }

  lemma Ending256()
    ensures Ascii("ecdsa-sha2-nistp256-cert-v01@openssh.com") == Ascii("ecdsa-sha2-nistp256") + Ascii(ENDING)
  {
    hide Ascii;
    AsciiConcat("ecdsa-sha2-nistp256", ENDING);
    assert "ecdsa-sha2-nistp256" + ENDING == "ecdsa-sha2-nistp256-cert-v01@openssh.com";
  }

  lemma Ending384()
    ensures Ascii("ecdsa-sha2-nistp384-cert-v01@openssh.com") == Ascii("ecdsa-sha2-nistp384") + Ascii(ENDING)
  {
    hide Ascii;
    AsciiConcat("ecdsa-sha2-nistp384", ENDING);
    assert "ecdsa-sha2-nistp384" + ENDING == "ecdsa-sha2-nistp384-cert-v01@openssh.com";
  }

  lemma Ending521()
    ensures Ascii("ecdsa-sha2-nistp521-cert-v01@openssh.com") == Ascii("ecdsa-sha2-nistp521") + Ascii(ENDING)
  {
    hide Ascii;
    AsciiConcat("ecdsa-sha2-nistp521", ENDING);
    assert "ecdsa-sha2-nistp521" + ENDING == "ecdsa-sha2-nistp521-cert-v01@openssh.com";
  }

  lemma AsciiConcat(s: string, t: string)
    ensures Ascii(s + t) == Ascii(s) + Ascii(t)
  {
  }

  function Concat(parts: seq<Bytes>): Bytes {
    if parts == [] then [] else parts[0] + Concat(parts[1..])
  }

  /** The principals are strings one after the other. */
  lemma {:induction false} StringListForm(names: seq<Bytes>)
    ensures Tuples.MarshalStringList(names) == Concat(seq(|names|, i requires 0 <= i < |names| => Str(names[i])))
  {
    hide EncodeString;
    var parts := seq(|names|, i requires 0 <= i < |names| => Str(names[i]));
    if names != [] {
      StringListForm(names[1..]);
      assert parts[1..] == seq(|names| - 1, i requires 0 <= i < |names| - 1 => Str(names[1..][i]));
    }
  }

  /** Options are pairs of a name and its value as strings, in the order of the names. */
  lemma TuplesForm(m: Tuples.Options) returns (keys: seq<Bytes>)
    ensures Tuples.Ascending(keys) && |keys| == |m| && forall k :: k in keys <==> k in m
    ensures Tuples.MarshalTuplesSpec(m) == Concat(seq(|keys|, i requires 0 <= i < |keys| => Pair(keys[i], m)))
  {
    keys := Tuples.SortedKeys(m.Keys);
    Tuples.SortedKeysAscend(m.Keys);
    PairsForm(keys, m);
  }

  function Pair(k: Bytes, m: Tuples.Options): Bytes {
    if k in m then Str(k) + Str(m[k]) else []
  }

  lemma {:induction false} PairsForm(keys: seq<Bytes>, m: Tuples.Options)
    requires forall k | k in keys :: k in m
    ensures Tuples.EncodePairs(keys, m) == Concat(seq(|keys|, i requires 0 <= i < |keys| => Pair(keys[i], m)))
  {
    hide EncodeString;
    if keys != [] {
      PairsForm(keys[1..], m);
      var parts := seq(|keys|, i requires 0 <= i < |keys| => Pair(keys[i], m));
      assert parts[1..] == seq(|keys| - 1, i requires 0 <= i < |keys| - 1 => Pair(keys[1..][i], m));
    }
  }
}
