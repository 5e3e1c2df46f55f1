/** What writing and reading public keys and certificates have to do with each other, and the lengths
    key.go reports. */
module Certs {
  import opened ByteStrings
  import opened Results
  import opened Wire
  import opened PublicKeys
  import Tuples

  // ----- one wire form -----

  /** Every mpint is without redundant sign bytes and every curve identifier agrees with its algorithm
      name, in the certified key and, recursively, in the signature key. */
  predicate CanonicalCert(onCurve: PointTest, input: Bytes, a: Algo)
    decreases |input|, 0
  {
    && ParseString(input).Got?
    && var more := ParseString(input).rest;
    && CanonicalPlain(a, more)
    && ParsePlain(onCurve, a, more).Ok?
    && var rest := ParsePlain(onCurve, a, more).value.1;
    && ParseGeneric(rest).Ok?
    && (SignatureKeyIsShorter(onCurve, input, a);
        CanonicalKey(onCurve, ParseGeneric(rest).value.signatureKey))
  }

  predicate CanonicalKey(onCurve: PointTest, input: Bytes)
    decreases |input|, 1
  {
    && ParseString(input).Got?
    && (StringIsCanonical(input);
        var p := ParseString(input);
        match FindAlgo(p.out)
        case None => false
        case Some((a, false)) => CanonicalPlain(a, p.rest)
        case Some((a, true)) => CanonicalCert(onCurve, p.rest, a))
  }

  lemma EncodeStringInjective(x: Bytes, u: Bytes, y: Bytes, v: Bytes)
    requires |EncodeString(x) + u| < TWO32
    requires EncodeString(x) + u == EncodeString(y) + v
    ensures x == y && u == v
  {
    StringRoundTrip(x, u);
    StringRoundTrip(y, v);
  }

  lemma PlainKeyRemarshalIff(onCurve: PointTest, input: Bytes)
    requires |input| < TWO32
    requires ParsePublicKey(onCurve, input).Ok? && ParsePublicKey(onCurve, input).value.Plain?
    ensures MarshalPlain(ParsePublicKey(onCurve, input).value.plain) == input <==> CanonicalKey(onCurve, input)
  {
    hide AlgoName, CertName, FindAlgo, CurveId;
    StringIsCanonical(input);
    var p := ParseString(input);
    var a := FindAlgo(p.out).value.0;
    PlainRemarshalIff(onCurve, a, p.rest);
    var (k, rest) := ParsePlain(onCurve, a, p.rest).value;
    assert rest == [] && Body(k) + rest == Body(k);
    MarshalPlainIs(k);
    assert input == EncodeString(AlgoName(a)) + p.rest;
    if MarshalPlain(k) == input {
      EncodeStringInjective(AlgoName(a), p.rest, AlgoName(KeyAlgo(k)), Body(k));
      AlgoNamesDiffer(a, KeyAlgo(k));
    }
  }

  lemma CertPrefixIs(c: Certificate)
    requires |MarshalPlain(c.key)| < TWO32
    ensures CertPrefix(c) == EncodeString(CertName(KeyAlgo(c.key))) + EncodeString(c.nonce) + Body(c.key)
  {
    MarshalPlainIs(c.key);
    StringRoundTrip(AlgoName(KeyAlgo(c.key)), Body(c.key));
    var two := [VString(CertName(KeyAlgo(c.key))), VBytes(c.nonce)];
    EncodeWithRest(two, Body(c.key));
    assert two + [VRest(Body(c.key))] == [VString(CertName(KeyAlgo(c.key))), VBytes(c.nonce), VRest(Body(c.key))];
    EncodeTwo(two[0], two[1]);
  }

  /** The parts parseCert takes the input apart into. */
  ghost predicate CertParts(onCurve: PointTest, input: Bytes, a: Algo, c: Certificate, rest: Bytes, g: Generic) {
    && ParseString(input).Got? && ParseString(input).out == c.nonce
    && ParsePlain(onCurve, a, ParseString(input).rest) == Ok((c.key, rest))
    && ParseGeneric(rest) == Ok(g)
    && ParsePublicKey(onCurve, g.signatureKey) == Ok(c.signatureKey)
    && g == GenericOfCert(c, g.signatureKey)
    && c.signature.Some?
  }

  lemma CertPartsOf(onCurve: PointTest, input: Bytes, a: Algo) returns (rest: Bytes, g: Generic)
    requires ParseCert(onCurve, input, a).Ok?
    ensures CertParts(onCurve, input, a, ParseCert(onCurve, input, a).value, rest, g)
  {
    rest := ParsePlain(onCurve, a, ParseString(input).rest).value.1;
    g := ParseGeneric(rest).value;
    Tuples.ListOfParsed(g.principals);
    Tuples.MarshalOfParsed(g.criticalOptions, Tuples.NoKey);
    Tuples.MarshalOfParsed(g.extensions, Tuples.NoKey);
    SignatureRemarshal(g.signature);
  }

  /** A marshalled certificate after its name. */
  ghost function CertInput(c: Certificate): Bytes {
    EncodeString(c.nonce) + (Body(c.key) + EncodeGeneric(GenericOfCert(c, MarshalKey(c.signatureKey))))
  }

  /** A certificate as a chain of name, nonce, key and generic part. */
  lemma CertChain(c: Certificate)
    requires |MarshalPlain(c.key)| < TWO32
    ensures MarshalCert(c) == EncodeString(CertName(KeyAlgo(c.key))) + CertInput(c)
  {
    hide AlgoName, CertName, CurveId, MarshalPlain, EncodeString, EncodeGeneric, Body, MarshalKey;
    CertPrefixIs(c);
  }

  lemma CertRemarshalIff(onCurve: PointTest, input: Bytes, a: Algo)
    requires |EncodeString(CertName(a)) + input| < TWO32
    requires ParseCert(onCurve, input, a).Ok?
    ensures MarshalCert(ParseCert(onCurve, input, a).value) == EncodeString(CertName(a)) + input <==>
            CanonicalCert(onCurve, input, a)
    decreases |input|, 0
  {
    hide AlgoName, CertName, FindAlgo, CurveId;
    var c := ParseCert(onCurve, input, a).value;
    var rest, g := CertPartsOf(onCurve, input, a);
    SignatureKeyIsShorter(onCurve, input, a);
    PlainRemarshalIff(onCurve, a, ParseString(input).rest);
    StringIsCanonical(input);
    GenericRemarshal(rest);
    GenericPartsFit(g);
    KeyRemarshalIff(onCurve, g.signatureKey);
    CertCanonicalIff(onCurve, input, a, c, rest, g);
    if CanonicalCert(onCurve, input, a) {
      CertFromCanonical(onCurve, input, a, c, rest, g);
    } else if MarshalCert(c) == EncodeString(CertName(a)) + input {
      CertToCanonical(onCurve, input, a, c, rest, g);
      assert false;
    }
  }

  lemma CertCanonicalIff(onCurve: PointTest, input: Bytes, a: Algo, c: Certificate, rest: Bytes, g: Generic)
    requires CertParts(onCurve, input, a, c, rest, g)
    ensures CanonicalCert(onCurve, input, a) <==>
            CanonicalPlain(a, ParseString(input).rest) && CanonicalKey(onCurve, g.signatureKey)
  {
    hide AlgoName, CertName, FindAlgo, CurveId, CanonicalKey, CanonicalPlain, ParsePlain, ParseGeneric, ParsePublicKey;
  }

  lemma CertFromCanonical(onCurve: PointTest, input: Bytes, a: Algo, c: Certificate, rest: Bytes, g: Generic)
    requires |EncodeString(CertName(a)) + input| < TWO32
    requires CertParts(onCurve, input, a, c, rest, g)
    requires CanonicalPlain(a, ParseString(input).rest) && MarshalKey(c.signatureKey) == g.signatureKey
    ensures MarshalCert(c) == EncodeString(CertName(a)) + input
  {
    hide AlgoName, CertName, FindAlgo, CurveId, CanonicalPlain, ParsePublicKey, ParsePlain, ParseGeneric, EncodeGeneric;
    var more := ParseString(input).rest;
    StringIsCanonical(input);
    PlainRemarshalIff(onCurve, a, more);
    MarshalPlainIs(c.key);
    AlgoNamesDiffer(a, a);
    CertChain(c);
    GenericRemarshal(rest);
  }

  lemma CertToCanonical(onCurve: PointTest, input: Bytes, a: Algo, c: Certificate, rest: Bytes, g: Generic)
    requires |EncodeString(CertName(a)) + input| < TWO32
    requires CertParts(onCurve, input, a, c, rest, g)
    requires MarshalCert(c) == EncodeString(CertName(a)) + input
    ensures CanonicalPlain(a, ParseString(input).rest) && MarshalKey(c.signatureKey) == g.signatureKey
  {
    hide AlgoName, CertName, FindAlgo, CurveId, CanonicalPlain, ParsePublicKey, ParsePlain, ParseGeneric, EncodeGeneric;
    var more := ParseString(input).rest;
    StringIsCanonical(input);
    PlainRemarshalIff(onCurve, a, more);
    MarshalPlainIs(c.key);
    AlgoNamesDiffer(KeyAlgo(c.key), a);
    CertChain(c);
    var g' := GenericOfCert(c, MarshalKey(c.signatureKey));
    EncodeStringInjective(CertName(a), input, CertName(KeyAlgo(c.key)), CertInput(c));
    AlgoNamesDiffer(a, KeyAlgo(c.key));
    EncodeStringInjective(c.nonce, more, c.nonce, Body(c.key) + EncodeGeneric(g'));
    PlainRoundTrip(onCurve, c.key, EncodeGeneric(g'));
    SameGeneric(rest, g, g');
  }

  lemma SameGeneric(rest: Bytes, g: Generic, g': Generic)
    requires |rest| < TWO32 && ParseGeneric(rest) == Ok(g) && EncodeGeneric(g') == rest
    requires g' == g.(signatureKey := g'.signatureKey)
    ensures g' == g
  {
    GenericRemarshal(rest);
    GenericRoundTrip(g');
  }

  /** Writing back a public key that was read, certificates included, gives the bytes it was read from
      exactly when those are canonical. */
  lemma KeyRemarshalIff(onCurve: PointTest, input: Bytes)
    requires |input| < TWO32
    requires ParsePublicKey(onCurve, input).Ok?
    ensures MarshalKey(ParsePublicKey(onCurve, input).value) == input <==> CanonicalKey(onCurve, input)
    decreases |input|, 1
  {
    hide AlgoName, CertName, FindAlgo, CurveId;
    StringIsCanonical(input);
    var p := ParseString(input);
    match ParsePublicKey(onCurve, input).value {
      case Plain(k) => PlainKeyRemarshalIff(onCurve, input);
      case Cert(c) =>
        var a := FindAlgo(p.out).value.0;
        assert input == EncodeString(CertName(a)) + p.rest;
        CertRemarshalIff(onCurve, p.rest, a);
    }
  }

  // ----- the bytes a certificate's signature covers -----

  lemma SigningPlusSignature(c: Certificate)
    requires c.signature.Some?
    ensures MarshalCert(c) == BytesForSigning(c) + EncodeString(MarshalSignature(c.signature.value))
  {
    hide AlgoName, CertName, FindAlgo, CurveId, EncodeGeneric, MarshalKey, MarshalSignature, CertPrefix;
    var c2 := c.(signature := None);
    var key := MarshalKey(c.signatureKey);
    var g := GenericOfCert(c, key);
    SignatureIsLast(g);
    assert GenericOfCert(c2, key) == g.(signature := []);
    var front := CertPrefix(c) + UpToSignature(g);
    assert CertPrefix(c2) == CertPrefix(c) by {
      PrefixIgnoresSignature(c);
    }
    assert MarshalCert(c2) == front + EncodeString([]);
    assert EncodeString([]) == U32(0) + [];
    assert BytesForSigning(c) == front;
  }

  lemma PrefixIgnoresSignature(c: Certificate)
    ensures CertPrefix(c.(signature := None)) == CertPrefix(c)
  {
  }

  function UpToSignature(g: Generic): Bytes {
    EncodeFields(GenericFields(g)[..9]) + EncodeString(g.signatureKey)
  }

  lemma SignatureIsLast(g: Generic)
    ensures EncodeGeneric(g) == UpToSignature(g) + EncodeString(g.signature)
    ensures EncodeGeneric(g.(signature := [])) == UpToSignature(g) + EncodeString([])
  {
    var g2 := g.(signature := []);
    GenericSplit(g);
    GenericSplit(g2);
    assert GenericFields(g)[..9] == GenericFields(g2)[..9];
  }

  /** A certificate is verified against the received bytes, less the signature field, exactly when these
      are canonical. */
  lemma SignedBytesAreReceivedBytesIff(onCurve: PointTest, blob: Bytes)
    requires |blob| < TWO32
    requires ParsePublicKey(onCurve, blob).Ok? && ParsePublicKey(onCurve, blob).value.Cert?
    ensures var c := ParsePublicKey(onCurve, blob).value.cert;
            && c.signature.Some?
            && (BytesForSigning(c) + EncodeString(MarshalSignature(c.signature.value)) == blob <==> CanonicalKey(onCurve, blob))
  {
    hide AlgoName, CertName, FindAlgo, CurveId, ParsePublicKey, ParseCert, CanonicalKey, BytesForSigning, MarshalCert;
    KeyRemarshalIff(onCurve, blob);
    SigningPlusSignature(ParsePublicKey(onCurve, blob).value.cert);
  }

  // ----- reading what was written -----

  /** The keys the writers handle: what the parser checks, words in range, sizes below 2^32, a signature. */
  ghost predicate ValidKey(onCurve: PointTest, k: PublicKey) {
    match k
    case Plain(p) => ValidPlain(onCurve, p)
    case Cert(c) =>
      && ValidPlain(onCurve, c.key) && |MarshalPlain(c.key)| < TWO32
      && GenericInRange(GenericOfCert(c, [])) && c.signature.Some?
      && ValidKey(onCurve, c.signatureKey)
  }

  lemma {:induction false} KeyRoundTrip(onCurve: PointTest, k: PublicKey)
    requires ValidKey(onCurve, k) && |MarshalKey(k)| < TWO32
    ensures ParsePublicKey(onCurve, MarshalKey(k)) == Ok(k)
  {
    hide AlgoName, CertName, FindAlgo, CurveId;
    match k {
      case Plain(p) =>
        MarshalPlainIs(p);
        StringRoundTrip(AlgoName(KeyAlgo(p)), Body(p));
        FindAlgoOfName(KeyAlgo(p));
        PlainRoundTrip(onCurve, p, []);
        assert Body(p) + [] == Body(p);
      case Cert(c) =>
        var a := KeyAlgo(c.key);
        var input := CertInput(c);
        CertChain(c);
        StringRoundTrip(CertName(a), input);
        FindAlgoOfName(a);
        GenericPartsFit(GenericOfCert(c, MarshalKey(c.signatureKey)));
        KeyRoundTrip(onCurve, c.signatureKey);
        CertRoundTrip(onCurve, c);
    }
  }

  lemma CertRoundTrip(onCurve: PointTest, c: Certificate)
    requires ValidKey(onCurve, Cert(c)) && |CertInput(c)| < TWO32
    requires ParsePublicKey(onCurve, MarshalKey(c.signatureKey)) == Ok(c.signatureKey)
    ensures ParseCert(onCurve, CertInput(c), KeyAlgo(c.key)) == Ok(c)
  {
    hide AlgoName, CertName, FindAlgo, CurveId;
    var g := GenericOfCert(c, MarshalKey(c.signatureKey));
    StringRoundTrip(c.nonce, Body(c.key) + EncodeGeneric(g));
    PlainRoundTrip(onCurve, c.key, EncodeGeneric(g));
    GenericRoundTrip(g);
    GenericPartsFit(g);
    Tuples.ParseOfList(c.principals);
    Tuples.ParseOfMarshalled(c.criticalOptions);
    Tuples.ParseOfMarshalled(c.extensions);
    SignatureRoundTrip(c.signature.value);
    hide EncodeGeneric, ParseGeneric, Body, ParsePlain, ParsePublicKey, MarshalKey, MarshalSignature, ParseSignature;
  }

  lemma GenericPartsFit(g: Generic)
    ensures |g.principals| <= |EncodeGeneric(g)| && |g.criticalOptions| <= |EncodeGeneric(g)|
    ensures |g.extensions| <= |EncodeGeneric(g)| && |g.signatureKey| <= |EncodeGeneric(g)|
    ensures |g.signature| <= |EncodeGeneric(g)|
  {
    var vs := GenericFields(g);
    FieldFits(vs, 3);
    FieldFits(vs, 6);
    FieldFits(vs, 7);
    FieldFits(vs, 9);
    FieldFits(vs, 10);
  }

  lemma {:induction false} FieldFits(vs: seq<Field>, i: nat)
    requires i < |vs|
    ensures |EncodeField(vs[i])| <= |EncodeFields(vs)|
  {
    if i > 0 {
      FieldFits(vs[1..], i - 1);
    }
  }

  // ----- key.go -----

  /** rsaKeyLength: the key is written and read back with a schema of the application's own. */
  ghost function RsaKeyLength(k: PublicKey): Result<nat, Wire.Error> {
    match UnmarshalSpec(Schema(0, [KString, KInt, KInt, KRest]), MarshalKey(k))
    case Err(e) => Err(e)
    case Ok(vs) => if |vs| > 2 && vs[2].VInt? then Ok(BitLen(Abs(vs[2].mp))) else Err(ShortRead)
  }

  ghost function DsaKeyLength(k: PublicKey): Result<nat, Wire.Error> {
    match UnmarshalSpec(Schema(0, [KString, KInt, KInt, KInt, KInt, KRest]), MarshalKey(k))
    case Err(e) => Err(e)
    case Ok(vs) => if |vs| > 1 && vs[1].VInt? then Ok(BitLen(Abs(vs[1].mp))) else Err(ShortRead)
  }

  /** For every RSA key, whatever bytes it came from, the reported length is the bit length of the modulus. */
  lemma RsaKeyLengthIsModulusLength(e: int, n: int)
    requires |MarshalPlain(RsaKey(e, n))| < TWO32
    ensures RsaKeyLength(Plain(RsaKey(e, n))) == Ok(BitLen(Abs(n)))
  {
    hide ParseFields, EncodeFields, EncodeField, AlgoName, CertName, UnmarshalSpec;
    var vs := [VString(AlgoName(RSA)), VInt(e), VInt(n)];
    assert [VString(AlgoName(RSA))] + BodyFields(RsaKey(e, n)) == vs;
    assert MarshalKey(Plain(RsaKey(e, n))) == EncodeFields(vs);
    KeyWithEmptyRest([KString, KInt, KInt], vs);
    assert [KString, KInt, KInt] + [KRest] == [KString, KInt, KInt, KRest];
    assert vs + [VRest([])] == [VString(AlgoName(RSA)), VInt(e), VInt(n), VRest([])];
  }

  lemma DsaKeyLengthIsPrimeLength(p: int, q: int, g: int, y: int)
    requires |MarshalPlain(DsaKey(p, q, g, y))| < TWO32
    ensures DsaKeyLength(Plain(DsaKey(p, q, g, y))) == Ok(BitLen(Abs(p)))
  {
    hide ParseFields, EncodeFields, EncodeField, AlgoName, CertName, UnmarshalSpec;
    var vs := [VString(AlgoName(DSA)), VInt(p), VInt(q), VInt(g), VInt(y)];
    assert [VString(AlgoName(DSA))] + BodyFields(DsaKey(p, q, g, y)) == vs;
    assert MarshalKey(Plain(DsaKey(p, q, g, y))) == EncodeFields(vs);
    KeyWithEmptyRest([KString, KInt, KInt, KInt, KInt], vs);
    assert [KString, KInt, KInt, KInt, KInt] + [KRest] == [KString, KInt, KInt, KInt, KInt, KRest];
    assert vs + [VRest([])] == [VString(AlgoName(DSA)), VInt(p), VInt(q), VInt(g), VInt(y), VRest([])];
  }

  lemma StringFirst(vs: seq<Field>)
    requires vs != [] && vs[0].VString?
    ensures EncodeFields(vs) != []
  {
  }

  lemma KeyWithEmptyRest(kinds: seq<Kind>, vs: seq<Field>)
    requires AllTyped(kinds, vs) && vs != [] && vs[0].VString?
    requires forall i | 0 <= i < |kinds| :: kinds[i].KInt? || kinds[i].KString?
    requires |EncodeFields(vs)| < TWO32
    ensures UnmarshalSpec(Schema(0, kinds + [KRest]), EncodeFields(vs)) == Ok(vs + [VRest([])])
  {
    hide ParseFields, UnmarshalSpec, EncodeFields, EncodeField, EncodeString;
    EncodeWithRest(vs, []);
    assert EncodeFields(vs) + [] == EncodeFields(vs);
    StringFirst(vs);
    UntaggedRoundTrip(kinds + [KRest], vs + [VRest([])]);
  }

  /** The warning threshold of serve: fewer than k bits means below 2^(k-1), whatever the sign on the wire. */
  lemma WeakKeyIff(e: int, n: int, k: nat)
    requires |MarshalPlain(RsaKey(e, n))| < TWO32 && k > 0
    ensures RsaKeyLength(Plain(RsaKey(e, n))).Ok? && (RsaKeyLength(Plain(RsaKey(e, n))).value < k <==> Abs(n) < Pow2(k - 1))
  {
    RsaKeyLengthIsModulusLength(e, n);
    BitLenLog(Abs(n), k - 1);
  }
}
