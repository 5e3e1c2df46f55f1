/** Public keys and certificates (keys.go, certs.go) and the key lengths the application reports
    (key.go). Curve points stay opaque: onCurve stands for elliptic.Unmarshal's test. */
module PublicKeys {
  import opened ByteStrings
  import opened Results
  import opened Wire
  import Mpint
  import Tuples

  datatype Curve = P256 | P384 | P521

  datatype Algo = RSA | DSA | ECDSA(curve: Curve)

  datatype PlainKey =
    | RsaKey(e: int, n: int)
    | DsaKey(p: int, q: int, g: int, y: int)
    | EcdsaKey(curve: Curve, point: Bytes)

  datatype Signature = Signature(format: Bytes, blob: Bytes)

  datatype Certificate = Certificate(
    nonce: Bytes, key: PlainKey, serial: nat, certType: nat, keyId: Bytes, principals: seq<Bytes>,
    validAfter: nat, validBefore: nat, criticalOptions: Tuples.Options, extensions: Tuples.Options,
    reserved: Bytes, signatureKey: PublicKey, signature: Option<Signature>)

  datatype PublicKey = Plain(plain: PlainKey) | Cert(cert: Certificate)

  datatype KeyError =
    | Malformed(wire: Wire.Error)
    | UnknownAlgorithm
    | ExponentTooLarge
    | IncorrectExponent
    | UnsupportedCurve
    | InvalidPoint
    | TrailingJunk
    | BadOptions(options: Tuples.TupleError)
    | SignatureParse

  type PointTest = (Curve, Bytes) -> bool

  // ----- names -----

  function CurveId(c: Curve): Bytes {
    match c
    case P256 => Ascii("nistp256")
    case P384 => Ascii("nistp384")
    case P521 => Ascii("nistp521")
  }

  function AlgoName(a: Algo): Bytes {
    match a
    case RSA => Ascii("ssh-rsa")
    case DSA => Ascii("ssh-dss")
    case ECDSA(P256) => Ascii("ecdsa-sha2-nistp256")
    case ECDSA(P384) => Ascii("ecdsa-sha2-nistp384")
    case ECDSA(P521) => Ascii("ecdsa-sha2-nistp521")
  }

  /** certAlgoNames. */
  function CertName(a: Algo): Bytes {
    match a
    case RSA => Ascii("ssh-rsa-cert-v01@openssh.com")
    case DSA => Ascii("ssh-dss-cert-v01@openssh.com")
    case ECDSA(P256) => Ascii("ecdsa-sha2-nistp256-cert-v01@openssh.com")
    case ECDSA(P384) => Ascii("ecdsa-sha2-nistp384-cert-v01@openssh.com")
    case ECDSA(P521) => Ascii("ecdsa-sha2-nistp521-cert-v01@openssh.com")
  }

  lemma CurveIdsDiffer(c: Curve, d: Curve)
    ensures CurveId(c) == CurveId(d) ==> c == d
  {
    assert CurveId(c)[5] == match c case P256 => 50 case P384 => 51 case P521 => 53;
    assert CurveId(d)[5] == match d case P256 => 50 case P384 => 51 case P521 => 53;
  }

  lemma AlgoNamesDiffer(a: Algo, b: Algo)
    ensures AlgoName(a) == AlgoName(b) ==> a == b
    ensures AlgoName(a) != CertName(b)
    ensures CertName(a) == CertName(b) ==> a == b
    ensures |AlgoName(a)| < |CertName(b)| <= 40
  {
    AlgoMarks(a);
    AlgoMarks(b);
  }

  /** The lengths and characters in which the ten names differ. */
  lemma AlgoMarks(a: Algo)
    ensures |AlgoName(a)| == (if a.ECDSA? then 19 else 7) && |CertName(a)| == (if a.ECDSA? then 40 else 28)
    ensures AlgoName(a)[4] == CertName(a)[4] == match a case RSA => 114 case DSA => 100 case _ => 97
    ensures a.ECDSA? ==> AlgoName(a)[16] == CertName(a)[16] == match a.curve case P256 => 50 case P384 => 51 case P521 => 53
  {
  }

  function FindCurve(id: Bytes): Option<Curve> {
    if id == CurveId(P256) then Some(P256)
    else if id == CurveId(P384) then Some(P384)
    else if id == CurveId(P521) then Some(P521)
    else None
  }

  const ALGOS: seq<Algo> := [RSA, DSA, ECDSA(P256), ECDSA(P384), ECDSA(P521)]

  /** The switch of parsePubKey: a plain algorithm, or (true) the certificate form of one. */
  function FindAlgo(name: Bytes): (r: Option<(Algo, bool)>)
    ensures r.Some? ==> name == if r.value.1 then CertName(r.value.0) else AlgoName(r.value.0)
  {
    FindAlgoIn(name, ALGOS)
  }

  function FindAlgoIn(name: Bytes, algos: seq<Algo>): (r: Option<(Algo, bool)>)
    ensures r.Some? ==> name == if r.value.1 then CertName(r.value.0) else AlgoName(r.value.0)
    ensures r.None? ==> forall a | a in algos :: name != AlgoName(a) && name != CertName(a)
  {
    if algos == [] then None
    else if name == AlgoName(algos[0]) then Some((algos[0], false))
    else if name == CertName(algos[0]) then Some((algos[0], true))
    else FindAlgoIn(name, algos[1..])
  }

  lemma AlgoListed(a: Algo)
    ensures a in ALGOS
  {
    assert ALGOS[match a case RSA => 0 case DSA => 1 case ECDSA(P256) => 2 case ECDSA(P384) => 3 case ECDSA(P521) => 4] == a;
  }

  lemma FindAlgoOfName(a: Algo)
    ensures FindAlgo(AlgoName(a)) == Some((a, false)) && FindAlgo(CertName(a)) == Some((a, true))
  {
    hide AlgoName, CertName;
    AlgoListed(a);
    var plain, cert := FindAlgo(AlgoName(a)), FindAlgo(CertName(a));
    AlgoNamesDiffer(a, plain.value.0);
    AlgoNamesDiffer(plain.value.0, a);
    AlgoNamesDiffer(a, cert.value.0);
    AlgoNamesDiffer(cert.value.0, a);
  }

  // ----- plain keys -----

  function KeyAlgo(k: PlainKey): Algo {
    match k
    case RsaKey(_, _) => RSA
    case DsaKey(_, _, _, _) => DSA
    case EcdsaKey(c, _) => ECDSA(c)
  }

  function BodyFields(k: PlainKey): seq<Field> {
    match k
    case RsaKey(e, n) => [VInt(e), VInt(n)]
    case DsaKey(p, q, g, y) => [VInt(p), VInt(q), VInt(g), VInt(y)]
    case EcdsaKey(c, point) => [VString(CurveId(c)), VBytes(point)]
  }

  function BodyKinds(a: Algo): seq<Kind> {
    match a
    case RSA => [KInt, KInt]
    case DSA => [KInt, KInt, KInt, KInt]
    case ECDSA(_) => [KString, KBytes]
  }

  function Body(k: PlainKey): Bytes {
    EncodeFields(BodyFields(k))
  }

  /** The Marshal methods of the plain key types. */
  function MarshalPlain(k: PlainKey): Bytes {
    MarshalSpec(Schema(0, [KString] + BodyKinds(KeyAlgo(k))), [VString(AlgoName(KeyAlgo(k)))] + BodyFields(k))
  }

  function Abs(n: int): nat {
    if n < 0 then -n else n
  }

  /** parseRSA, parseDSA and parseECDSA: the key and the bytes after it. */
  function ParsePlain(onCurve: PointTest, a: Algo, input: Bytes): Result<(PlainKey, Bytes), KeyError> {
    match a
    case RSA =>
      (match UnmarshalSpec(Schema(0, [KInt, KInt, KRest]), input)
       case Err(e) => Err(Malformed(e))
       case Ok(vs) =>
         RsaFieldsTyped(input);
         var e := vs[0].mp;
         if BitLen(Abs(e)) > 24 then Err(ExponentTooLarge)
         else if e < 3 || e % 2 == 0 then Err(IncorrectExponent)
         else Ok((RsaKey(e, vs[1].mp), vs[2].rest)))
    case DSA =>
      (match UnmarshalSpec(Schema(0, [KInt, KInt, KInt, KInt, KRest]), input)
       case Err(e) => Err(Malformed(e))
       case Ok(vs) =>
         DsaFieldsTyped(input);
         Ok((DsaKey(vs[0].mp, vs[1].mp, vs[2].mp, vs[3].mp), vs[4].rest)))
    case ECDSA(_) =>
      match ParseString(input)
      case Short => Err(Malformed(ShortRead))
      case SliceFault => Err(Malformed(SliceOutOfRange))
      case Got(id, more) =>
        match FindCurve(id)
        case None => Err(UnsupportedCurve)
        case Some(c) =>
          match ParseString(more)
          case Short => Err(Malformed(ShortRead))
          case SliceFault => Err(Malformed(SliceOutOfRange))
          case Got(point, rest) =>
            if onCurve(c, point) then Ok((EcdsaKey(c, point), rest)) else Err(InvalidPoint)
  }

  lemma RsaFieldsTyped(input: Bytes)
    requires UnmarshalSpec(Schema(0, [KInt, KInt, KRest]), input).Ok?
    ensures var vs := UnmarshalSpec(Schema(0, [KInt, KInt, KRest]), input).value;
            |vs| == 3 && vs[0].VInt? && vs[1].VInt? && vs[2].VRest?
  {
    FieldsRemarshalIff([KInt, KInt, KRest], input, 0);
    var kinds := [KInt, KInt, KRest];
    assert kinds[0] == KInt && kinds[1] == KInt && kinds[2] == KRest;
  }

  lemma DsaFieldsTyped(input: Bytes)
    requires UnmarshalSpec(Schema(0, [KInt, KInt, KInt, KInt, KRest]), input).Ok?
    ensures var vs := UnmarshalSpec(Schema(0, [KInt, KInt, KInt, KInt, KRest]), input).value;
            |vs| == 5 && vs[0].VInt? && vs[1].VInt? && vs[2].VInt? && vs[3].VInt? && vs[4].VRest?
  {
    FieldsRemarshalIff([KInt, KInt, KInt, KInt, KRest], input, 0);
    var kinds := [KInt, KInt, KInt, KInt, KRest];
    assert kinds[0] == KInt && kinds[1] == KInt && kinds[2] == KInt && kinds[3] == KInt && kinds[4] == KRest;
  }

  /** What the parser checks about a key besides its form. */
  predicate ValidPlain(onCurve: PointTest, k: PlainKey) {
    match k
    case RsaKey(e, _) => BitLen(Abs(e)) <= 24 && 3 <= e && e % 2 == 1
    case DsaKey(_, _, _, _) => true
    case EcdsaKey(c, point) => onCurve(c, point)
  }

  /** The input has the one form the key is written in: mpints without redundant sign bytes, and a curve
      identifier that agrees with the algorithm name. */
  predicate CanonicalPlain(a: Algo, input: Bytes) {
    match a
    case RSA => CanonicalFields([KInt, KInt, KRest], input)
    case DSA => CanonicalFields([KInt, KInt, KInt, KInt, KRest], input)
    case ECDSA(c) => ParseString(input).Got? && ParseString(input).out == CurveId(c)
  }

  lemma EncodeWithRest(xs: seq<Field>, rest: Bytes)
    ensures EncodeFields(xs + [VRest(rest)]) == EncodeFields(xs) + rest
  {
    EncodeFieldsSnoc(xs, VRest(rest));
  }

  lemma EncodeTwo(a: Field, b: Field)
    ensures EncodeFields([a, b]) == EncodeField(a) + EncodeField(b)
  {
    var vs := [a, b];
    assert vs[1..] == [b] && [b][1..] == [];
    assert EncodeFields([b]) == EncodeField(b) + [];
  }

  lemma EcdsaBody(c: Curve, point: Bytes)
    ensures Body(EcdsaKey(c, point)) == EncodeString(CurveId(c)) + EncodeString(point)
  {
    EncodeTwo(VString(CurveId(c)), VBytes(point));
  }

  lemma ParseRestOnly(input: Bytes, index: nat)
    ensures ParseFields([KRest], input, index) == Ok(([VRest(input)], []))
  {
    assert [KRest][1..] == [];
    assert [VRest(input)] + [] == [VRest(input)];
  }

  lemma MarshalPlainIs(k: PlainKey)
    ensures MarshalPlain(k) == EncodeString(AlgoName(KeyAlgo(k))) + Body(k)
  {
    var vs := [VString(AlgoName(KeyAlgo(k)))] + BodyFields(k);
    assert vs[1..] == BodyFields(k);
  }

  /** A key written after its algorithm name is read back, whatever follows. */
  lemma PlainRoundTrip(onCurve: PointTest, k: PlainKey, rest: Bytes)
    requires ValidPlain(onCurve, k)
    requires |Body(k)| + |rest| < TWO32
    ensures ParsePlain(onCurve, KeyAlgo(k), Body(k) + rest) == Ok((k, rest))
  {
    var vs := BodyFields(k);
    match k {
      case RsaKey(e, n) =>
        assert [VInt(e), VInt(n), VRest(rest)] == vs + [VRest(rest)];
        IntsRoundTrip([KInt, KInt], vs, rest);
        assert [KInt, KInt] + [KRest] == [KInt, KInt, KRest];
      case DsaKey(p, q, g, y) =>
        assert [VInt(p), VInt(q), VInt(g), VInt(y), VRest(rest)] == vs + [VRest(rest)];
        IntsRoundTrip([KInt, KInt, KInt, KInt], vs, rest);
        assert [KInt, KInt, KInt, KInt] + [KRest] == [KInt, KInt, KInt, KInt, KRest];
      case EcdsaKey(c, point) => EcdsaRoundTrip(onCurve, c, point, rest);
    }
  }

  lemma EcdsaRoundTrip(onCurve: PointTest, c: Curve, point: Bytes, rest: Bytes)
    requires onCurve(c, point)
    requires |Body(EcdsaKey(c, point))| + |rest| < TWO32
    ensures ParsePlain(onCurve, ECDSA(c), Body(EcdsaKey(c, point)) + rest) == Ok((EcdsaKey(c, point), rest))
  {
    EcdsaBody(c, point);
    assert Body(EcdsaKey(c, point)) + rest == EncodeString(CurveId(c)) + (EncodeString(point) + rest);
    StringRoundTrip(CurveId(c), EncodeString(point) + rest);
    StringRoundTrip(point, rest);
    FindCurveOfId(c);
  }

  lemma FindCurveOfId(c: Curve)
    ensures FindCurve(CurveId(c)) == Some(c)
  {
    forall d: Curve ensures CurveId(c) == CurveId(d) ==> c == d {
      CurveIdsDiffer(c, d);
    }
  }

  lemma IntsRoundTrip(kinds: seq<Kind>, vs: seq<Field>, rest: Bytes)
    requires vs != [] && AllTyped(kinds, vs) && forall i | 0 <= i < |kinds| :: kinds[i].KInt?
    requires |EncodeFields(vs)| + |rest| < TWO32
    ensures UnmarshalSpec(Schema(0, kinds + [KRest]), EncodeFields(vs) + rest) == Ok(vs + [VRest(rest)])
  {
    hide UnmarshalSpec, EncodeFields;
    var s := Schema(0, kinds + [KRest]);
    EncodeWithRest(vs, rest);
    IntNotEmpty(vs);
    UnmarshalMarshal(s, vs + [VRest(rest)]);
    assert MarshalSpec(s, vs + [VRest(rest)]) == EncodeFields(vs) + rest;
  }

  lemma IntNotEmpty(vs: seq<Field>)
    requires vs != [] && vs[0].VInt?
    ensures EncodeFields(vs) != []
  {
    assert |EncodeField(vs[0])| >= 4;
  }

  predicate Remarshals(onCurve: PointTest, a: Algo, input: Bytes)
    requires ParsePlain(onCurve, a, input).Ok?
  {
    var (k, rest) := ParsePlain(onCurve, a, input).value;
    && ValidPlain(onCurve, k)
    && |Body(k)| + |rest| <= |input|
    && input[|input| - |rest|..] == rest
    && (Body(k) + rest == input && KeyAlgo(k) == a <==> CanonicalPlain(a, input))
  }

  /** Writing a key that was read reproduces the bytes it was read from exactly when they are canonical,
      and never takes more room. */
  lemma PlainRemarshalIff(onCurve: PointTest, a: Algo, input: Bytes)
    requires ParsePlain(onCurve, a, input).Ok?
    ensures Remarshals(onCurve, a, input)
  {
    match a {
      case RSA => RsaRemarshal(onCurve, input);
      case DSA => DsaRemarshal(onCurve, input);
      case ECDSA(c) => EcdsaRemarshal(onCurve, c, input);
    }
  }

  lemma RsaRemarshal(onCurve: PointTest, input: Bytes)
    requires ParsePlain(onCurve, RSA, input).Ok?
    ensures Remarshals(onCurve, RSA, input)
  {
    var (k, rest) := ParsePlain(onCurve, RSA, input).value;
    RsaFieldsTyped(input);
    assert UnmarshalSpec(Schema(0, [KInt, KInt, KRest]), input).value == BodyFields(k) + [VRest(rest)];
    assert [KInt, KInt] + [KRest] == [KInt, KInt, KRest];
    RestIsSuffix([KInt, KInt], BodyFields(k), rest, input);
  }

  lemma DsaRemarshal(onCurve: PointTest, input: Bytes)
    requires ParsePlain(onCurve, DSA, input).Ok?
    ensures Remarshals(onCurve, DSA, input)
  {
    var (k, rest) := ParsePlain(onCurve, DSA, input).value;
    DsaFieldsTyped(input);
    assert UnmarshalSpec(Schema(0, [KInt, KInt, KInt, KInt, KRest]), input).value == BodyFields(k) + [VRest(rest)];
    assert [KInt, KInt, KInt, KInt] + [KRest] == [KInt, KInt, KInt, KInt, KRest];
    RestIsSuffix([KInt, KInt, KInt, KInt], BodyFields(k), rest, input);
  }

  lemma EcdsaRemarshal(onCurve: PointTest, c: Curve, input: Bytes)
    requires ParsePlain(onCurve, ECDSA(c), input).Ok?
    ensures Remarshals(onCurve, ECDSA(c), input)
  {
    var (k, rest) := ParsePlain(onCurve, ECDSA(c), input).value;
    StringIsCanonical(input);
    var id, more := ParseString(input).out, ParseString(input).rest;
    StringIsCanonical(more);
    assert id == CurveId(k.curve);
    assert input == EncodeString(id) + EncodeString(k.point) + rest;
    EcdsaBody(k.curve, k.point);
    CurveIdsDiffer(c, k.curve);
  }

  /** Integers followed by a rest field: what is left after the integers is a suffix of the input, and
      writing the integers again never takes more room. */
  lemma RestIsSuffix(kinds: seq<Kind>, vs: seq<Field>, rest: Bytes, input: Bytes)
    requires forall i | 0 <= i < |kinds| :: kinds[i].KInt?
    requires ParseFields(kinds + [KRest], input, 0) == Ok((vs + [VRest(rest)], []))
    ensures |EncodeFields(vs)| + |rest| <= |input| && input[|input| - |rest|..] == rest
    ensures EncodeFields(vs) + rest == input <==> CanonicalFields(kinds + [KRest], input)
  {
    hide ParseFields, EncodeFields, CanonicalFields;
    EncodeWithRest(vs, rest);
    FieldsRemarshalIff(kinds + [KRest], input, 0);
    ParseThenRest(kinds, input, 0);
    var (ws, left) := ParseFields(kinds, input, 0).value;
    SnocEqual(vs, VRest(rest), ws, VRest(left));
    IntsShrink(kinds, input, 0);
  }

  lemma SnocEqual(xs: seq<Field>, x: Field, ys: seq<Field>, y: Field)
    requires xs + [x] == ys + [y]
    ensures xs == ys && x == y
  {
    var s := xs + [x];
    assert s[..|s| - 1] == xs && s[..|s| - 1] == ys;
    assert s[|s| - 1] == x && s[|s| - 1] == y;
  }

  lemma {:induction false} ParseThenRest(kinds: seq<Kind>, input: Bytes, index: nat)
    ensures var r := ParseFields(kinds, input, index);
            ParseFields(kinds + [KRest], input, index) ==
            if r.Ok? then Ok((r.value.0 + [VRest(r.value.1)], [])) else r
  {
    if kinds == [] {
      assert kinds + [KRest] == [KRest];
      ParseRestOnly(input, index);
      assert [] + [VRest(input)] == [VRest(input)];
    } else {
      assert (kinds + [KRest])[1..] == kinds[1..] + [KRest];
      var p := ParseField(kinds[0], input);
      if p.Got? {
        ParseThenRest(kinds[1..], p.rest, index + 1);
        var more := ParseFields(kinds[1..], p.rest, index + 1);
        if more.Ok? {
          assert [p.out] + (more.value.0 + [VRest(more.value.1)]) == [p.out] + more.value.0 + [VRest(more.value.1)];
        }
      }
    }
  }

  lemma {:induction false} IntsShrink(kinds: seq<Kind>, input: Bytes, index: nat)
    requires forall i | 0 <= i < |kinds| :: kinds[i].KInt?
    requires ParseFields(kinds, input, index).Ok?
    ensures var (vs, rest) := ParseFields(kinds, input, index).value;
            |EncodeFields(vs)| + |rest| <= |input| && input[|input| - |rest|..] == rest
  {
    if kinds != [] {
      IntShrinks(input);
      var p := ParseField(KInt, input);
      IntsShrink(kinds[1..], p.rest, index + 1);
      var more := ParseFields(kinds[1..], p.rest, index + 1).value;
      assert ([p.out] + more.0)[1..] == more.0;
      var rest := more.1;
      assert input[|input| - |rest|..] == input[|input| - |p.rest|..][|p.rest| - |rest|..];
    }
  }

  lemma IntShrinks(input: Bytes)
    requires ParseField(KInt, input).Got?
    ensures var p := ParseField(KInt, input);
            |EncodeField(p.out)| + |p.rest| <= |input| && input[|input| - |p.rest|..] == p.rest
  {
    StringIsCanonical(input);
    var c := ParseString(input).out;
    Mpint.ContentIsShortest(c);
  }

  // ----- certificates -----

  /** genericCertData: the key-independent part of a certificate. */
  datatype Generic = Generic(
    serial: nat, certType: nat, keyId: Bytes, principals: Bytes, validAfter: nat, validBefore: nat,
    criticalOptions: Bytes, extensions: Bytes, reserved: Bytes, signatureKey: Bytes, signature: Bytes)

  const GENERIC := Schema(0, [KU64, KU32, KString, KBytes, KU64, KU64, KBytes, KBytes, KBytes, KBytes, KBytes])

  predicate GenericShape(vs: seq<Field>) {
    && |vs| == 11 && vs[0].VU64? && vs[1].VU32? && vs[2].VString? && vs[3].VBytes? && vs[4].VU64? && vs[5].VU64?
    && vs[6].VBytes? && vs[7].VBytes? && vs[8].VBytes? && vs[9].VBytes? && vs[10].VBytes?
  }

  function GenericFields(g: Generic): seq<Field> {
    [VU64(g.serial), VU32(g.certType), VString(g.keyId), VBytes(g.principals), VU64(g.validAfter), VU64(g.validBefore),
     VBytes(g.criticalOptions), VBytes(g.extensions), VBytes(g.reserved), VBytes(g.signatureKey), VBytes(g.signature)]
  }

  function GenericOf(vs: seq<Field>): Generic
    requires GenericShape(vs)
  {
    Generic(vs[0].n64, vs[1].n32, vs[2].str, vs[3].bytes, vs[4].n64, vs[5].n64,
            vs[6].bytes, vs[7].bytes, vs[8].bytes, vs[9].bytes, vs[10].bytes)
  }

  function EncodeGeneric(g: Generic): Bytes {
    MarshalSpec(GENERIC, GenericFields(g))
  }

  function ParseGeneric(input: Bytes): Result<Generic, Wire.Error> {
    match UnmarshalSpec(GENERIC, input)
    case Err(e) => Err(e)
    case Ok(vs) =>
      GenericTyped(input);
      Ok(GenericOf(vs))
  }

  predicate GenericInRange(g: Generic) {
    g.serial < TWO32 * TWO32 && g.certType < TWO32 && g.validAfter < TWO32 * TWO32 && g.validBefore < TWO32 * TWO32
  }

  lemma GenericShapeIff(vs: seq<Field>)
    requires AllTyped(GENERIC.kinds, vs)
    ensures GenericShape(vs) && GenericInRange(GenericOf(vs))
  {
    var k := GENERIC.kinds;
    assert Typed(k[0], vs[0]) && Typed(k[1], vs[1]) && Typed(k[2], vs[2]) && Typed(k[3], vs[3]);
    assert Typed(k[4], vs[4]) && Typed(k[5], vs[5]) && Typed(k[6], vs[6]) && Typed(k[7], vs[7]);
    assert Typed(k[8], vs[8]) && Typed(k[9], vs[9]) && Typed(k[10], vs[10]);
  }

  lemma GenericTyped(input: Bytes)
    requires UnmarshalSpec(GENERIC, input).Ok?
    ensures var vs := UnmarshalSpec(GENERIC, input).value; GenericShape(vs) && GenericInRange(GenericOf(vs))
  {
    FieldsRemarshalIff(GENERIC.kinds, input, 0);
    GenericShapeIff(UnmarshalSpec(GENERIC, input).value);
  }

  lemma GenericFieldsOf(vs: seq<Field>)
    requires GenericShape(vs)
    ensures GenericFields(GenericOf(vs)) == vs
  {
  }

  lemma GenericRemarshal(input: Bytes)
    requires ParseGeneric(input).Ok?
    ensures EncodeGeneric(ParseGeneric(input).value) == input && GenericInRange(ParseGeneric(input).value)
  {
    GenericTyped(input);
    GenericFieldsOf(UnmarshalSpec(GENERIC, input).value);
    OneWireForm(GENERIC, input);
  }

  lemma GenericRoundTrip(g: Generic)
    requires GenericInRange(g) && |EncodeGeneric(g)| < TWO32
    ensures ParseGeneric(EncodeGeneric(g)) == Ok(g)
  {
    var vs := GenericFields(g);
    assert |EncodeField(vs[0])| == 8;
    UnmarshalMarshal(GENERIC, vs);
  }

  /** The signature is the last field, and the signature key the one before it. */
  lemma GenericSplit(g: Generic)
    ensures EncodeGeneric(g) == EncodeFields(GenericFields(g)[..9]) + EncodeString(g.signatureKey) + EncodeString(g.signature)
  {
    var vs := GenericFields(g);
    assert vs == vs[..10] + [VBytes(g.signature)] && vs[..10] == vs[..9] + [VBytes(g.signatureKey)];
    EncodeFieldsSnoc(vs[..10], VBytes(g.signature));
    EncodeFieldsSnoc(vs[..9], VBytes(g.signatureKey));
  }

  function MarshalSignature(s: Signature): Bytes {
    MarshalSpec(Schema(0, [KString, KBytes]), [VString(s.format), VBytes(s.blob)])
  }

  /** parseSignatureBody, with the callers' test for trailing bytes. */
  function ParseSignature(input: Bytes): Option<Signature> {
    match ParseString(input)
    case Got(format, more) =>
      (match ParseString(more)
       case Got(blob, rest) => if rest == [] then Some(Signature(format, blob)) else None
       case _ => None)
    case _ => None
  }

  lemma SignatureIs(s: Signature)
    ensures MarshalSignature(s) == EncodeString(s.format) + EncodeString(s.blob)
  {
    EncodeTwo(VString(s.format), VBytes(s.blob));
  }

  lemma SignatureRemarshal(input: Bytes)
    requires ParseSignature(input).Some?
    ensures MarshalSignature(ParseSignature(input).value) == input
  {
    StringIsCanonical(input);
    StringIsCanonical(ParseString(input).rest);
    SignatureIs(ParseSignature(input).value);
  }

  lemma SignatureRoundTrip(s: Signature)
    requires |MarshalSignature(s)| < TWO32
    ensures ParseSignature(MarshalSignature(s)) == Some(s)
  {
    SignatureIs(s);
    StringRoundTrip(s.format, EncodeString(s.blob));
    StringRoundTrip(s.blob, []);
    assert EncodeString(s.blob) + [] == EncodeString(s.blob);
  }

  /** Certificate.Marshal removes the name that the key's own Marshal starts with. */
  function StripName(b: Bytes): Bytes {
    match ParseString(b)
    case Got(_, rest) => rest
    case _ => []
  }

  ghost function GenericOfCert(c: Certificate, signatureKey: Bytes): Generic {
    Generic(c.serial, c.certType, c.keyId, Tuples.MarshalStringList(c.principals), c.validAfter, c.validBefore,
            Tuples.MarshalTuplesSpec(c.criticalOptions), Tuples.MarshalTuplesSpec(c.extensions), c.reserved, signatureKey,
            if c.signature.Some? then MarshalSignature(c.signature.value) else [])
  }

  function CertPrefix(c: Certificate): Bytes {
    MarshalSpec(Schema(0, [KString, KBytes, KRest]),
                [VString(CertName(KeyAlgo(c.key))), VBytes(c.nonce), VRest(StripName(MarshalPlain(c.key)))])
  }

  /** Certificate.Marshal. */
  ghost function MarshalCert(c: Certificate): Bytes
    decreases c, 1
  {
    CertPrefix(c) + EncodeGeneric(GenericOfCert(c, MarshalKey(c.signatureKey)))
  }

  /** PublicKey.Marshal. */
  ghost function MarshalKey(k: PublicKey): Bytes
    decreases k, 0
  {
    match k
    case Plain(p) => MarshalPlain(p)
    case Cert(c) => MarshalCert(c)
  }

  /** bytesForSigning: the certificate without its signature and the empty signature's length word. */
  ghost function BytesForSigning(c: Certificate): Bytes {
    var out := MarshalCert(c.(signature := None));
    if |out| >= 4 then out[..|out| - 4] else []
  }

  /** parseCert on the bytes after the algorithm name. */
  function ParseCert(onCurve: PointTest, input: Bytes, a: Algo): (r: Result<Certificate, KeyError>)
    ensures r.Ok? ==> r.value.signature.Some?
    decreases |input|, 0
  {
    match ParseString(input)
    case Short => Err(Malformed(ShortRead))
    case SliceFault => Err(Malformed(SliceOutOfRange))
    case Got(nonce, more) =>
      match ParsePlain(onCurve, a, more)
      case Err(e) => Err(e)
      case Ok((key, rest)) =>
        match ParseGeneric(rest)
        case Err(e) => Err(Malformed(e))
        case Ok(g) =>
          match Tuples.ParseStringList(g.principals)
          case Err(e) => Err(BadOptions(e))
          case Ok(principals) =>
            match Tuples.ParseTuplesSpec(g.criticalOptions, Tuples.NoKey)
            case Err(e) => Err(BadOptions(e))
            case Ok(options) =>
              match Tuples.ParseTuplesSpec(g.extensions, Tuples.NoKey)
              case Err(e) => Err(BadOptions(e))
              case Ok(extensions) =>
                SignatureKeyIsShorter(onCurve, input, a);
                match ParsePublicKey(onCurve, g.signatureKey)
                case Err(e) => Err(e)
                case Ok(signatureKey) =>
                  match ParseSignature(g.signature)
                  case None => Err(SignatureParse)
                  case Some(signature) =>
                    Ok(Certificate(nonce, key, g.serial, g.certType, g.keyId, principals, g.validAfter, g.validBefore,
                                   options, extensions, g.reserved, signatureKey, Some(signature)))
  }

  /** ParsePublicKey and the switch of parsePubKey. */
  function ParsePublicKey(onCurve: PointTest, input: Bytes): (r: Result<PublicKey, KeyError>)
    ensures r.Ok? && r.value.Cert? ==> r.value.cert.signature.Some?
    decreases |input|, 1
  {
    match ParseString(input)
    case Short => Err(Malformed(ShortRead))
    case SliceFault => Err(Malformed(SliceOutOfRange))
    case Got(name, more) =>
      StringIsCanonical(input);
      match FindAlgo(name)
      case None => Err(UnknownAlgorithm)
      case Some((a, false)) =>
        (match ParsePlain(onCurve, a, more)
         case Err(e) => Err(e)
         case Ok((k, rest)) => if |rest| > 0 then Err(TrailingJunk) else Ok(Plain(k)))
      case Some((a, true)) =>
        match ParseCert(onCurve, more, a)
        case Err(e) => Err(e)
        case Ok(c) => Ok(Cert(c))
  }

  lemma SignatureKeyIsShorter(onCurve: PointTest, input: Bytes, a: Algo)
    requires ParseString(input).Got? && ParsePlain(onCurve, a, ParseString(input).rest).Ok?
    requires ParseGeneric(ParsePlain(onCurve, a, ParseString(input).rest).value.1).Ok?
    ensures |ParseGeneric(ParsePlain(onCurve, a, ParseString(input).rest).value.1).value.signatureKey| < |input|
  {
    StringIsCanonical(input);
    var more := ParseString(input).rest;
    PlainRemarshalIff(onCurve, a, more);
    var rest := ParsePlain(onCurve, a, more).value.1;
    GenericRemarshal(rest);
    GenericSplit(ParseGeneric(rest).value);
  }
}
