/** Diffie-Hellman key exchange (kex.go: dhGroup, handshakeMagics; section 8 of RFC 4253). The hash function, the host
    key's signature and the two secrets are parameters. */
module Kex {
  import opened ByteStrings
  import opened Results
  import Mpint
  import Wire

  datatype Group = Group(g: nat, p: nat)

  datatype Magics = Magics(clientVersion: Bytes, serverVersion: Bytes, clientKexInit: Bytes, serverKexInit: Bytes)

  datatype KexResult = KexResult(h: Bytes, k: Bytes, hostKey: Bytes, signature: Bytes)

  datatype KexError = BadMessage(error: Wire.Error) | OutOfBounds | CannotSign

  const DH_INIT := Wire.Schema(30, [Wire.KInt])
  const DH_REPLY := Wire.Schema(31, [Wire.KBytes, Wire.KInt, Wire.KBytes])

  function Pow(b: nat, e: nat): nat {
    if e == 0 then 1 else b * Pow(b, e - 1)
  }

  /** big.Int.Exp. */
  function Exp(b: nat, e: nat, p: nat): nat
    requires p > 0
  {
    Pow(b, e) % p
  }

  function DiffieHellman(group: Group, theirs: int, mine: nat): Result<nat, KexError>
    requires group.p > 0
  {
    if theirs <= 0 || theirs >= group.p then Err(OutOfBounds) else Ok(Exp(theirs, mine, group.p))
  }

  /** What goes into the exchange hash, as one value. */
  function HashFields(m: Magics, hostKey: Bytes, x: int, y: int, k: int): seq<Wire.Field> {
    [Wire.VBytes(m.clientVersion), Wire.VBytes(m.serverVersion), Wire.VBytes(m.clientKexInit), Wire.VBytes(m.serverKexInit),
     Wire.VBytes(hostKey), Wire.VInt(x), Wire.VInt(y), Wire.VInt(k)]
  }

  function HashInput(m: Magics, hostKey: Bytes, x: int, y: int, k: int): Bytes {
    Wire.EncodeFields(HashFields(m, hostKey, x, y, k))
  }

  function EncodeInt(n: int): Bytes {
    Wire.EncodeField(Wire.VInt(n))
  }

  // ----- the two sides -----

  function InitPacket(group: Group, x: nat): Bytes
    requires group.p > 0
  {
    Wire.MarshalSpec(DH_INIT, [Wire.VInt(Exp(group.g, x, group.p))])
  }

  function ReplyFields(group: Group, y: nat, hostKey: Bytes, sig: Bytes): seq<Wire.Field>
    requires group.p > 0
  {
    [Wire.VBytes(hostKey), Wire.VInt(Exp(group.g, y, group.p)), Wire.VBytes(sig)]
  }

  /** What the client makes of the reply, given its secret x. */
  function ClientSpec(group: Group, x: nat, m: Magics, hash: Bytes -> Bytes, packet: Bytes): Result<KexResult, KexError>
    requires group.p > 0
  {
    match Wire.UnmarshalSpec(DH_REPLY, packet)
    case Err(e) => Err(BadMessage(e))
    case Ok(vs) =>
      if |vs| != 3 || !vs[0].VBytes? || !vs[1].VInt? || !vs[2].VBytes? then Err(BadMessage(Wire.ShortRead))
      else
        match DiffieHellman(group, vs[1].mp, x)
        case Err(e) => Err(e)
        case Ok(k) =>
          Ok(KexResult(hash(HashInput(m, vs[0].bytes, Exp(group.g, x, group.p), vs[1].mp, k)), EncodeInt(k), vs[0].bytes, vs[2].bytes))
  }

  /** What the server makes of the first message, given its secret y, and its reply. */
  function ServerSpec(group: Group, y: nat, m: Magics, hash: Bytes -> Bytes, hostKey: Bytes, sign: Bytes -> Option<Bytes>,
                      packet: Bytes): Result<(KexResult, Bytes), KexError>
    requires group.p > 0
  {
    match Wire.UnmarshalSpec(DH_INIT, packet)
    case Err(e) => Err(BadMessage(e))
    case Ok(vs) =>
      if |vs| != 1 || !vs[0].VInt? then Err(BadMessage(Wire.ShortRead))
      else
        match DiffieHellman(group, vs[0].mp, y)
        case Err(e) => Err(e)
        case Ok(k) =>
          var h := hash(HashInput(m, hostKey, vs[0].mp, Exp(group.g, y, group.p), k));
          match sign(h)
          case None => Err(CannotSign)
          case Some(sig) =>
            Ok((KexResult(h, EncodeInt(k), hostKey, sig), Wire.MarshalSpec(DH_REPLY, ReplyFields(group, y, hostKey, sig))))
  }

  /** The state of a hash: what has been written to it, and of which values it is the encoding. */
  class Hasher {
    var written: Bytes
    ghost var fields: seq<Wire.Field>

    ghost predicate Valid()
      reads this
    {
      written == Wire.EncodeFields(fields)
    }

    constructor ()
      ensures Valid() && fields == []
    {
      written, fields := [], [];
    }

    method WriteString(s: Bytes)
      requires Valid()
      modifies this
      ensures Valid() && fields == old(fields) + [Wire.VBytes(s)]
    {
      Wire.EncodeFieldsSnoc(fields, Wire.VBytes(s));
      written := written + (U32(|s|) + s);
      fields := fields + [Wire.VBytes(s)];
    }

    method WriteInt(n: int)
      requires Valid()
      modifies this
      ensures Valid() && fields == old(fields) + [Wire.VInt(n)]
    {
      Wire.EncodeFieldsSnoc(fields, Wire.VInt(n));
      var buf := MarshalledInt(n);
      written := written + buf;
      fields := fields + [Wire.VInt(n)];
    }

    method WriteMagics(m: Magics)
      requires Valid()
      modifies this
      ensures Valid() && fields == old(fields) + [Wire.VBytes(m.clientVersion), Wire.VBytes(m.serverVersion),
                                                  Wire.VBytes(m.clientKexInit), Wire.VBytes(m.serverKexInit)]
    {
      WriteString(m.clientVersion);
      WriteString(m.serverVersion);
      WriteString(m.clientKexInit);
      WriteString(m.serverKexInit);
    }
  }

  /** make([]byte, intLength(n)) filled by marshalInt. */
  method MarshalledInt(n: int) returns (b: Bytes)
    ensures b == EncodeInt(n)
  {
    var buf := new byte[Mpint.IntLength(n)];
    var end := Mpint.MarshalInt(buf, 0, n);
    b := buf[..];
    assert b == buf[0..end];
  }

  /** The exchange hash as both sides compute it. */
  method ExchangeHash(m: Magics, hash: Bytes -> Bytes, hostKey: Bytes, x: int, y: int, k: int) returns (h: Bytes, K: Bytes)
    ensures h == hash(HashInput(m, hostKey, x, y, k)) && K == EncodeInt(k)
  {
    var state := new Hasher();
    state.WriteMagics(m);
    state.WriteString(hostKey);
    state.WriteInt(x);
    state.WriteInt(y);
    state.WriteInt(k);
    K := MarshalledInt(k);
    assert state.fields == HashFields(m, hostKey, x, y, k);
    h := hash(state.written);
  }

  /** dhGroup.Client after its message is sent. */
  method Client(group: Group, x: nat, m: Magics, hash: Bytes -> Bytes, packet: Bytes) returns (r: Result<KexResult, KexError>)
    requires group.p > 0
    ensures r == ClientSpec(group, x, m, hash, packet)
  {
    hide Wire.UnmarshalSpec, HashInput, EncodeInt, Exp;
    var X := Exp(group.g, x, group.p);
    var reply := Wire.Unmarshal(DH_REPLY, packet);
    if reply.Err? {
      return Err(BadMessage(reply.error));
    }
    var vs := reply.value;
    if |vs| != 3 || !vs[0].VBytes? || !vs[1].VInt? || !vs[2].VBytes? {
      return Err(BadMessage(Wire.ShortRead));
    }
    var k := DiffieHellman(group, vs[1].mp, x);
    if k.Err? {
      return Err(k.error);
    }
    var h, K := ExchangeHash(m, hash, vs[0].bytes, X, vs[1].mp, k.value);
    r := Ok(KexResult(h, K, vs[0].bytes, vs[2].bytes));
  }

  /** dhGroup.Server. */
  method Server(group: Group, y: nat, m: Magics, hash: Bytes -> Bytes, hostKey: Bytes, sign: Bytes -> Option<Bytes>, packet: Bytes)
    returns (r: Result<(KexResult, Bytes), KexError>)
    requires group.p > 0
    ensures r == ServerSpec(group, y, m, hash, hostKey, sign, packet)
  {
    hide Wire.UnmarshalSpec, Wire.MarshalSpec, HashInput, EncodeInt, Exp;
    var init := Wire.Unmarshal(DH_INIT, packet);
    if init.Err? {
      return Err(BadMessage(init.error));
    }
    var vs := init.value;
    if |vs| != 1 || !vs[0].VInt? {
      return Err(BadMessage(Wire.ShortRead));
    }
    var Y := Exp(group.g, y, group.p);
    var k := DiffieHellman(group, vs[0].mp, y);
    if k.Err? {
      return Err(k.error);
    }
    var H, K := ExchangeHash(m, hash, hostKey, vs[0].mp, Y, k.value);
    var sig := sign(H);
    if sig.None? {
      return Err(CannotSign);
    }
    var reply := Wire.Marshal(DH_REPLY, ReplyFields(group, y, hostKey, sig.value));
    r := Ok((KexResult(H, K, hostKey, sig.value), reply));
  }

  // ----- modular powers -----

  lemma ModMul(a: nat, b: nat, p: nat)
    requires p > 0
    ensures (a * (b % p)) % p == (a * b) % p
  {
    var (q, r) := (b / p, b % p);
    assert b == q * p + r;
    Expand(a, q, p, r);
    AddMultiple(a * r, a * q, p);
  }

  lemma Expand(a: nat, q: nat, p: nat, r: nat)
    ensures a * (q * p + r) == a * r + (a * q) * p
  {
    Associative(a, q, p);
  }

  lemma {:induction false} AddMultiple(a: nat, n: nat, p: nat)
    requires p > 0
    ensures (a + n * p) % p == a % p
  {
    if n > 0 {
      AddMultiple(a, n - 1, p);
      assert a + n * p == (a + (n - 1) * p) + p;
      AddOne(a + (n - 1) * p, p);
    }
  }

  lemma AddOne(a: nat, p: nat)
    requires p > 0
    ensures (a + p) % p == a % p
  {
    var q := a / p;
    var r := a % p;
    assert a == q * p + r;
    assert a + p == (q + 1) * p + r;
    Quotient(a + p, q + 1, r, p);
  }

  lemma Quotient(a: nat, q: nat, r: nat, p: nat)
    requires p > 0 && r < p && a == q * p + r
    ensures a % p == r
  {
    var d := a / p - q;
    assert a == (a / p) * p + a % p;
    assert (a / p) * p == q * p + d * p;
    assert a % p == r - d * p;
    assert d > 0 ==> d * p >= p;
    assert d < 0 ==> d * p + p <= 0;
  }

  /** A base may be reduced before it is raised. */
  lemma {:induction false} PowOfMod(b: nat, e: nat, p: nat)
    requires p > 0
    ensures Pow(b % p, e) % p == Pow(b, e) % p
  {
    if e > 0 {
      var u, v := Pow(b % p, e - 1), Pow(b, e - 1);
      PowOfMod(b, e - 1, p);
      ModMul(b % p, u, p);
      ModMul(b % p, v, p);
      ModMul(v, b, p);
      assert (b % p) * v == v * (b % p) && v * b == b * v;
    }
  }

  lemma {:induction false} PowAdd(b: nat, m: nat, n: nat)
    ensures Pow(b, m + n) == Pow(b, m) * Pow(b, n)
  {
    if m > 0 {
      PowAdd(b, m - 1, n);
      Associative(b, Pow(b, m - 1), Pow(b, n));
    }
  }

  lemma Associative(a: nat, b: nat, c: nat)
    ensures a * (b * c) == (a * b) * c
  {
  }

  lemma {:induction false} PowPow(b: nat, m: nat, n: nat)
    ensures Pow(Pow(b, m), n) == Pow(b, m * n)
  {
    if n > 0 {
      PowPow(b, m, n - 1);
      PowAdd(b, m, m * (n - 1));
      assert m * n == m + m * (n - 1);
    } else {
      assert m * n == 0;
    }
  }

  /** (g^x)^y = (g^y)^x modulo p. */
  lemma SharedSecret(g: nat, x: nat, y: nat, p: nat)
    requires p > 0
    ensures Exp(Exp(g, x, p), y, p) == Exp(Exp(g, y, p), x, p) == Exp(g, x * y, p)
  {
    PowOfMod(Pow(g, x), y, p);
    PowOfMod(Pow(g, y), x, p);
    PowPow(g, x, y);
    PowPow(g, y, x);
    assert x * y == y * x;
  }

  /** No power of 2 is a multiple of an odd number above 1. */
  lemma {:induction false} PowerOfTwoNotMultiple(e: nat, p: nat)
    requires p > 1 && p % 2 == 1
    ensures Exp(2, e, p) > 0
  {
    if e == 0 {
      Quotient(1, 0, 1, p);
    } else {
      PowerOfTwoNotMultiple(e - 1, p);
      HalfOfMultiple(Pow(2, e - 1), p);
    }
  }

  lemma HalfOfMultiple(n: nat, p: nat)
    requires p > 1 && p % 2 == 1 && n % p > 0
    ensures (2 * n) % p > 0
  {
    if (2 * n) % p == 0 {
      var q := (2 * n) / p;
      assert 2 * n == q * p by { Whole(2 * n, p); }
      OddFactor(q, p);
      Quotient(n, q / 2, 0, p);
      assert false;
    }
  }

  lemma Whole(a: nat, p: nat)
    requires p > 0 && a % p == 0
    ensures a == (a / p) * p
  {
  }

  lemma OddFactor(q: nat, p: nat)
    requires p % 2 == 1 && (q * p) % 2 == 0
    ensures q % 2 == 0 && q * p == 2 * ((q / 2) * p)
  {
    var h := p / 2;
    assert p == 2 * h + 1;
    assert q * p == q * (2 * h + 1) == 2 * (q * h) + q;
    assert q == 2 * (q / 2);
    assert q * p == (2 * (q / 2)) * p == 2 * ((q / 2) * p);
  }

  // ----- results -----

  lemma InitRoundTrip(n: nat)
    requires |Wire.MarshalSpec(DH_INIT, [Wire.VInt(n)])| < TWO32
    ensures Wire.UnmarshalSpec(DH_INIT, Wire.MarshalSpec(DH_INIT, [Wire.VInt(n)])) == Ok([Wire.VInt(n)])
  {
    hide Wire.UnmarshalSpec, Wire.EncodeFields;
    Wire.UnmarshalMarshal(DH_INIT, [Wire.VInt(n)]);
  }

  lemma ReplyRoundTrip(group: Group, y: nat, hostKey: Bytes, sig: Bytes)
    requires group.p > 0
    requires |Wire.MarshalSpec(DH_REPLY, ReplyFields(group, y, hostKey, sig))| < TWO32
    ensures var vs := ReplyFields(group, y, hostKey, sig); Wire.UnmarshalSpec(DH_REPLY, Wire.MarshalSpec(DH_REPLY, vs)) == Ok(vs)
  {
    hide Wire.UnmarshalSpec, Wire.EncodeFields, Exp;
    Wire.UnmarshalMarshal(DH_REPLY, ReplyFields(group, y, hostKey, sig));
  }

  /** The server's result and reply in a run where nobody tampers with the packets. */
  function HonestServer(group: Group, x: nat, y: nat, m: Magics, hash: Bytes -> Bytes, hostKey: Bytes, sign: Bytes -> Option<Bytes>)
    : Result<(KexResult, Bytes), KexError>
    requires group.p > 0
  {
    ServerSpec(group, y, m, hash, hostKey, sign, InitPacket(group, x))
  }

  /** What such a run should come to at the server, in terms of the two secrets alone. */
  function Expected(group: Group, x: nat, y: nat, m: Magics, hash: Bytes -> Bytes, hostKey: Bytes, sign: Bytes -> Option<Bytes>)
    : Result<(KexResult, Bytes), KexError>
    requires group.p > 0
  {
    if Exp(group.g, x, group.p) == 0 then Err(OutOfBounds)
    else
      var k := Exp(group.g, x * y, group.p);
      var h := hash(HashInput(m, hostKey, Exp(group.g, x, group.p), Exp(group.g, y, group.p), k));
      match sign(h)
      case None => Err(CannotSign)
      case Some(sig) => Ok((KexResult(h, EncodeInt(k), hostKey, sig), Wire.MarshalSpec(DH_REPLY, ReplyFields(group, y, hostKey, sig))))
  }

  /** The range check fails exactly if the client's public number is zero, and otherwise K is g^(xy). */
  lemma HonestServerIsExpected(group: Group, x: nat, y: nat, m: Magics, hash: Bytes -> Bytes, hostKey: Bytes, sign: Bytes -> Option<Bytes>)
    requires group.p > 0 && |InitPacket(group, x)| < TWO32
    ensures HonestServer(group, x, y, m, hash, hostKey, sign) == Expected(group, x, y, m, hash, hostKey, sign)
  {
    hide Wire.UnmarshalSpec, Wire.EncodeFields, HashInput, EncodeInt, Pow, Wire.MarshalSpec, ReplyFields;
    InitRoundTrip(Exp(group.g, x, group.p));
    SharedSecret(group.g, x, y, group.p);
  }

  /** And the client, given the server's reply, gets the same hash, the same K, and the server's key and signature;
      unless the server's public number is zero. */
  lemma HonestRunAgreesIff(group: Group, x: nat, y: nat, m: Magics, hash: Bytes -> Bytes, hostKey: Bytes, sign: Bytes -> Option<Bytes>)
    requires group.p > 0 && |InitPacket(group, x)| < TWO32
    requires var r := HonestServer(group, x, y, m, hash, hostKey, sign); r.Ok? && |r.value.1| < TWO32
    ensures var r := HonestServer(group, x, y, m, hash, hostKey, sign).value;
            ClientSpec(group, x, m, hash, r.1) == if Exp(group.g, y, group.p) == 0 then Err(OutOfBounds) else Ok(r.0)
  {
    hide Wire.UnmarshalSpec, Wire.EncodeFields, HashInput, EncodeInt, Pow, Wire.MarshalSpec, HonestServer;
    HonestServerIsExpected(group, x, y, m, hash, hostKey, sign);
    var r := HonestServer(group, x, y, m, hash, hostKey, sign).value;
    ReplyRoundTrip(group, y, hostKey, r.0.signature);
    SharedSecret(group.g, x, y, group.p);
  }

  /** With g = 2 and an odd p, as in both groups of the source, the run cannot fail in a range check, and both sides
      have the same result. */
  lemma HonestRunAgrees(p: nat, x: nat, y: nat, m: Magics, hash: Bytes -> Bytes, hostKey: Bytes, sign: Bytes -> Option<Bytes>)
    requires p > 1 && p % 2 == 1 && |InitPacket(Group(2, p), x)| < TWO32
    ensures var r := HonestServer(Group(2, p), x, y, m, hash, hostKey, sign);
            && (r.Err? ==> r.error == CannotSign)
            && (r.Ok? && |r.value.1| < TWO32 ==> ClientSpec(Group(2, p), x, m, hash, r.value.1) == Ok(r.value.0))
  {
    hide HonestServer, ClientSpec, Exp, InitPacket, HashInput, Wire.MarshalSpec, EncodeInt;
    PowerOfTwoNotMultiple(x, p);
    PowerOfTwoNotMultiple(y, p);
    HonestServerIsExpected(Group(2, p), x, y, m, hash, hostKey, sign);
    var r := HonestServer(Group(2, p), x, y, m, hash, hostKey, sign);
    if r.Ok? && |r.value.1| < TWO32 {
      HonestRunAgreesIff(Group(2, p), x, y, m, hash, hostKey, sign);
    }
  }

  /** The hash of section 8 of RFC 4253: V_C, V_S, I_C, I_S and K_S as strings, then e, f and K as mpints. */
  lemma HashedBytes(m: Magics, hostKey: Bytes, e: int, f: int, k: int)
    ensures HashInput(m, hostKey, e, f, k) ==
            Wire.EncodeString(m.clientVersion) + Wire.EncodeString(m.serverVersion) + Wire.EncodeString(m.clientKexInit)
            + Wire.EncodeString(m.serverKexInit) + Wire.EncodeString(hostKey) + EncodeInt(e) + EncodeInt(f) + EncodeInt(k)
  {
    hide Wire.EncodeString;
    var vs := HashFields(m, hostKey, e, f, k);
    Wire.EightFields(vs);
    Wire.FieldForms();
  }

  /** diffieHellman takes exactly the public numbers from 1 to p - 1, and both sides know K to be theirs to the power of their own. */
  predicate InBounds(group: Group, theirs: int) {
    0 < theirs < group.p
  }

  /** For every public number f that a reply can carry, negative ones included: the client refuses it exactly if it is out of
      bounds, and otherwise hashes its own number before the server's. */
  lemma ClientMeans(group: Group, x: nat, m: Magics, hash: Bytes -> Bytes, hostKey: Bytes, f: int, sig: Bytes)
    requires group.p > 0 && |Wire.MarshalSpec(DH_REPLY, [Wire.VBytes(hostKey), Wire.VInt(f), Wire.VBytes(sig)])| < TWO32
    ensures ClientSpec(group, x, m, hash, Wire.MarshalSpec(DH_REPLY, [Wire.VBytes(hostKey), Wire.VInt(f), Wire.VBytes(sig)])) ==
            if !InBounds(group, f) then Err(OutOfBounds)
            else
              var (e, k) := (Pow(group.g, x) % group.p, Pow(f, x) % group.p);
              Ok(KexResult(hash(HashInput(m, hostKey, e, f, k)), EncodeInt(k), hostKey, sig))
  {
    hide Wire.UnmarshalSpec, Wire.EncodeFields, HashInput, EncodeInt, Pow;
    Wire.UnmarshalMarshal(DH_REPLY, [Wire.VBytes(hostKey), Wire.VInt(f), Wire.VBytes(sig)]);
  }

  /** And so does the server, with the client's number before its own; its reply carries its host key, its number and its signature
      of the hash, in this order. */
  lemma ServerMeans(group: Group, y: nat, m: Magics, hash: Bytes -> Bytes, hostKey: Bytes, sign: Bytes -> Option<Bytes>, e: int)
    requires group.p > 0 && |Wire.MarshalSpec(DH_INIT, [Wire.VInt(e)])| < TWO32
    ensures ServerSpec(group, y, m, hash, hostKey, sign, Wire.MarshalSpec(DH_INIT, [Wire.VInt(e)])) ==
            if !InBounds(group, e) then Err(OutOfBounds)
            else
              var (f, k) := (Pow(group.g, y) % group.p, Pow(e, y) % group.p);
              var h := hash(HashInput(m, hostKey, e, f, k));
              if sign(h).None? then Err(CannotSign)
              else
                var sig := sign(h).value;
                Ok((KexResult(h, EncodeInt(k), hostKey, sig), [31] + Wire.EncodeString(hostKey) + EncodeInt(f) + Wire.EncodeString(sig)))
  {
    hide Wire.UnmarshalSpec, Wire.EncodeFields, HashInput, EncodeInt, Pow, Wire.EncodeString;
    Wire.UnmarshalMarshal(DH_INIT, [Wire.VInt(e)]);
    var f := Pow(group.g, y) % group.p;
    var h := hash(HashInput(m, hostKey, e, f, Pow(if e > 0 then e else 0, y) % group.p));
    if InBounds(group, e) && sign(h).Some? {
      ReplyBytes(hostKey, f, sign(h).value);
    }
  }

  /** The client's message is its number. */
  lemma InitBytes(group: Group, x: nat)
    requires group.p > 0
    ensures InitPacket(group, x) == [30] + EncodeInt(Pow(group.g, x) % group.p)
  {
    hide Wire.EncodeField, Pow;
    var v := Wire.VInt(Pow(group.g, x) % group.p);
    assert [v][1..] == [];
    assert Wire.EncodeFields([v]) == Wire.EncodeField(v) + [];
  }

  lemma ReplyBytes(hostKey: Bytes, f: int, sig: Bytes)
    ensures Wire.MarshalSpec(DH_REPLY, [Wire.VBytes(hostKey), Wire.VInt(f), Wire.VBytes(sig)])
            == [31] + Wire.EncodeString(hostKey) + EncodeInt(f) + Wire.EncodeString(sig)
  {
    hide Wire.EncodeString, Wire.EncodeField;
    Wire.ThreeFields([Wire.VBytes(hostKey), Wire.VInt(f), Wire.VBytes(sig)]);
    Wire.FieldForms();
  }

  lemma NotEmpty(f: seq<Wire.Field>)
    requires f != [] && f[0].VBytes?
    ensures |Wire.EncodeFields(f)| > 0
  {
    assert |Wire.EncodeField(f[0])| >= 4;
  }

  /** The exchange hash pins down everything that was agreed: two runs with the same hash input have the same versions,
      KEXINITs, host key, public numbers and secret. */
  lemma HashInputIsInjective(m: Magics, hostKey: Bytes, x: int, y: int, k: int, m': Magics, hostKey': Bytes, x': int, y': int, k': int)
    requires HashInput(m, hostKey, x, y, k) == HashInput(m', hostKey', x', y', k') && |HashInput(m, hostKey, x, y, k)| < TWO32
    ensures m == m' && hostKey == hostKey' && x == x' && y == y' && k == k'
  {
    hide Wire.UnmarshalSpec, Wire.EncodeFields;
    var kinds := [Wire.KBytes, Wire.KBytes, Wire.KBytes, Wire.KBytes, Wire.KBytes, Wire.KInt, Wire.KInt, Wire.KInt];
    var (f, f') := (HashFields(m, hostKey, x, y, k), HashFields(m', hostKey', x', y', k'));
    NotEmpty(f);
    assert Wire.MarshalSpec(Wire.Schema(0, kinds), f) == Wire.EncodeFields(f);
    assert Wire.MarshalSpec(Wire.Schema(0, kinds), f') == Wire.EncodeFields(f');
    Wire.MarshalInjective(Wire.Schema(0, kinds), f, f');
    assert f[0] == f'[0] && f[1] == f'[1] && f[2] == f'[2] && f[3] == f'[3] && f[4] == f'[4] && f[5] == f'[5] && f[6] == f'[6] && f[7] == f'[7];
  }
}
