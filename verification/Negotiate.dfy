/** Algorithm negotiation (common.go: findCommonAlgorithm, findCommonCipher, findAgreedAlgorithms, and its use in
    handshake.go: enterKeyExchange; section 7.1 of RFC 4253). */
module Negotiate {
  import opened ByteStrings
  import opened Results
  import Wire

  /** The name lists of kexInitMsg that take part. */
  datatype KexInit = KexInit(
    kexAlgos: seq<Bytes>, hostKeyAlgos: seq<Bytes>, ciphersCS: seq<Bytes>, ciphersSC: seq<Bytes>,
    macsCS: seq<Bytes>, macsSC: seq<Bytes>, compressionCS: seq<Bytes>, compressionSC: seq<Bytes>)

  datatype DirectionAlgorithms = DirectionAlgorithms(cipher: Bytes, mac: Bytes, compression: Bytes)

  datatype Algorithms = Algorithms(kex: Bytes, hostKey: Bytes, w: DirectionAlgorithms, r: DirectionAlgorithms)

  function GcmCipherId(): Bytes {
    Ascii("aes128-gcm@openssh.com")
  }

  /** The keys of cipherModes. */
  function CipherModes(): set<Bytes> {
    {Ascii("aes128-ctr"), Ascii("aes192-ctr"), Ascii("aes256-ctr"), Ascii("arcfour128"), Ascii("arcfour256"), Ascii("arcfour"),
     GcmCipherId()}
  }

  // ----- the first common name -----

  /** The names both sides list and that are allowed. */
  function Common(client: seq<Bytes>, server: seq<Bytes>, allowed: Bytes -> bool): set<Bytes> {
    set a | a in client && a in server && allowed(a)
  }

  /** a is the client's first choice among the common names. */
  predicate IsFirst(a: Bytes, client: seq<Bytes>, common: set<Bytes>) {
    a in common && exists i | 0 <= i < |client| :: client[i] == a && forall j | 0 <= j < i :: client[j] !in common
  }

  function First(client: seq<Bytes>, server: seq<Bytes>, allowed: Bytes -> bool): Option<Bytes> {
    if client == [] then None
    else if client[0] in server && allowed(client[0]) then Some(client[0])
    else First(client[1..], server, allowed)
  }

  /** The client's first choice is unique. */
  lemma FirstIsUnique(a: Bytes, b: Bytes, client: seq<Bytes>, common: set<Bytes>)
    requires IsFirst(a, client, common) && IsFirst(b, client, common)
    ensures a == b
  {
    var i :| 0 <= i < |client| && client[i] == a && forall j | 0 <= j < i :: client[j] !in common;
    var k :| 0 <= k < |client| && client[k] == b && forall j | 0 <= j < k :: client[j] !in common;
    assert !(i < k) && !(k < i);
  }

  lemma {:induction false} FirstMeans(client: seq<Bytes>, server: seq<Bytes>, allowed: Bytes -> bool)
    ensures var c := Common(client, server, allowed);
            && (First(client, server, allowed).None? <==> c == {})
            && (First(client, server, allowed).Some? ==> IsFirst(First(client, server, allowed).value, client, c))
  {
    hide IsFirst, Common;
    CommonMeans(client, server, allowed);
    if client != [] && !(client[0] in server && allowed(client[0])) {
      var t := client[1..];
      FirstMeans(t, server, allowed);
      if First(t, server, allowed).Some? {
        FirstOfTail(First(t, server, allowed).value, client, Common(client, server, allowed));
      }
    }
  }

  lemma CommonMeans(client: seq<Bytes>, server: seq<Bytes>, allowed: Bytes -> bool)
    ensures var c := Common(client, server, allowed);
            if client == [] then c == {}
            else if client[0] in server && allowed(client[0]) then IsFirst(client[0], client, c) && c != {}
            else client[0] !in c && c == Common(client[1..], server, allowed)
  {
    if client != [] {
      assert client == [client[0]] + client[1..];
      if client[0] in server && allowed(client[0]) {
        assert client[0] in Common(client, server, allowed);
      }
    }
  }

  lemma FirstOfTail(a: Bytes, client: seq<Bytes>, common: set<Bytes>)
    requires client != [] && client[0] !in common && IsFirst(a, client[1..], common)
    ensures IsFirst(a, client, common)
  {
    var t := client[1..];
    var i :| 0 <= i < |t| && t[i] == a && forall j | 0 <= j < i :: t[j] !in common;
    assert client[i + 1] == a && forall j | 0 < j < i + 1 :: client[j] == t[j - 1];
  }

  /** findCommonAlgorithm finds exactly the client's first choice among the common names. */
  lemma FirstIff(client: seq<Bytes>, server: seq<Bytes>, allowed: Bytes -> bool, name: Bytes)
    ensures First(client, server, allowed) == Some(name) <==> IsFirst(name, client, Common(client, server, allowed))
  {
    hide First, Common;
    FirstMeans(client, server, allowed);
    var f := First(client, server, allowed);
    if IsFirst(name, client, Common(client, server, allowed)) && f.Some? {
      FirstIsUnique(f.value, name, client, Common(client, server, allowed));
    }
  }

  /** findCommonAlgorithm and findCommonCipher: the two nested loops, with the test the latter adds. */
  method FindCommon(client: seq<Bytes>, server: seq<Bytes>, allowed: Bytes -> bool) returns (r: Option<Bytes>)
    ensures r == First(client, server, allowed)
  {
    for i := 0 to |client|
      invariant First(client, server, allowed) == First(client[i..], server, allowed)
    {
      assert client[i..][1..] == client[i + 1..];
      for j := 0 to |server|
        invariant forall l | 0 <= l < j :: !(server[l] == client[i] && allowed(client[i]))
      {
        if client[i] == server[j] && allowed(client[i]) {
          return Some(client[i]);
        }
      }
    }
    return None;
  }

  function AnyName(): Bytes -> bool {
    _ => true
  }

  function KnownCipher(): Bytes -> bool {
    a => a in CipherModes()
  }

  /** The eight common names, in the order they are looked for. */
  function Choices(c: KexInit, s: KexInit): seq<Option<Bytes>> {
    [First(c.kexAlgos, s.kexAlgos, AnyName()), First(c.hostKeyAlgos, s.hostKeyAlgos, AnyName()),
     First(c.ciphersCS, s.ciphersCS, KnownCipher()), First(c.ciphersSC, s.ciphersSC, KnownCipher()),
     First(c.macsCS, s.macsCS, AnyName()), First(c.macsSC, s.macsSC, AnyName()),
     First(c.compressionCS, s.compressionCS, AnyName()), First(c.compressionSC, s.compressionSC, AnyName())]
  }

  function AgreedSpec(c: KexInit, s: KexInit): Option<Algorithms> {
    var f := Choices(c, s);
    if forall i | 0 <= i < 8 :: f[i].Some? then
      Some(Algorithms(f[0].value, f[1].value, DirectionAlgorithms(f[2].value, f[4].value, f[6].value),
                      DirectionAlgorithms(f[3].value, f[5].value, f[7].value)))
    else None
  }

  /** findAgreedAlgorithms. */
  method FindAgreedAlgorithms(c: KexInit, s: KexInit) returns (r: Option<Algorithms>)
    ensures r == AgreedSpec(c, s)
  {
    hide First;
    ghost var f := Choices(c, s);
    var kex := FindCommon(c.kexAlgos, s.kexAlgos, AnyName());
    if kex.None? { assert f[0].None?; return None; }
    var hostKey := FindCommon(c.hostKeyAlgos, s.hostKeyAlgos, AnyName());
    if hostKey.None? { assert f[1].None?; return None; }
    var wCipher := FindCommon(c.ciphersCS, s.ciphersCS, KnownCipher());
    if wCipher.None? { assert f[2].None?; return None; }
    var rCipher := FindCommon(c.ciphersSC, s.ciphersSC, KnownCipher());
    if rCipher.None? { assert f[3].None?; return None; }
    var wMac := FindCommon(c.macsCS, s.macsCS, AnyName());
    if wMac.None? { assert f[4].None?; return None; }
    var rMac := FindCommon(c.macsSC, s.macsSC, AnyName());
    if rMac.None? { assert f[5].None?; return None; }
    var wComp := FindCommon(c.compressionCS, s.compressionCS, AnyName());
    if wComp.None? { assert f[6].None?; return None; }
    var rComp := FindCommon(c.compressionSC, s.compressionSC, AnyName());
    if rComp.None? { assert f[7].None?; return None; }
    return Some(Algorithms(kex.value, hostKey.value, DirectionAlgorithms(wCipher.value, wMac.value, wComp.value),
                           DirectionAlgorithms(rCipher.value, rMac.value, rComp.value)));
  }

  /** Negotiation fails exactly if one of the eight intersections is empty, counting only ciphers the library knows;
      otherwise each algorithm is the client's first choice that the server lists too. */
  lemma AgreedMeans(c: KexInit, s: KexInit)
    ensures AgreedSpec(c, s).None? <==>
            || Common(c.kexAlgos, s.kexAlgos, AnyName()) == {} || Common(c.hostKeyAlgos, s.hostKeyAlgos, AnyName()) == {}
            || Common(c.ciphersCS, s.ciphersCS, KnownCipher()) == {} || Common(c.ciphersSC, s.ciphersSC, KnownCipher()) == {}
            || Common(c.macsCS, s.macsCS, AnyName()) == {} || Common(c.macsSC, s.macsSC, AnyName()) == {}
            || Common(c.compressionCS, s.compressionCS, AnyName()) == {} || Common(c.compressionSC, s.compressionSC, AnyName()) == {}
    ensures AgreedSpec(c, s).Some? ==>
              var a := AgreedSpec(c, s).value;
              && IsFirst(a.kex, c.kexAlgos, Common(c.kexAlgos, s.kexAlgos, AnyName()))
              && IsFirst(a.hostKey, c.hostKeyAlgos, Common(c.hostKeyAlgos, s.hostKeyAlgos, AnyName()))
              && IsFirst(a.w.cipher, c.ciphersCS, Common(c.ciphersCS, s.ciphersCS, KnownCipher()))
              && IsFirst(a.r.cipher, c.ciphersSC, Common(c.ciphersSC, s.ciphersSC, KnownCipher()))
              && IsFirst(a.w.mac, c.macsCS, Common(c.macsCS, s.macsCS, AnyName()))
              && IsFirst(a.r.mac, c.macsSC, Common(c.macsSC, s.macsSC, AnyName()))
              && IsFirst(a.w.compression, c.compressionCS, Common(c.compressionCS, s.compressionCS, AnyName()))
              && IsFirst(a.r.compression, c.compressionSC, Common(c.compressionSC, s.compressionSC, AnyName()))
  {
    hide First, Common, IsFirst, KnownCipher, AnyName;
    FirstMeans(c.kexAlgos, s.kexAlgos, AnyName());
    FirstMeans(c.hostKeyAlgos, s.hostKeyAlgos, AnyName());
    FirstMeans(c.ciphersCS, s.ciphersCS, KnownCipher());
    FirstMeans(c.ciphersSC, s.ciphersSC, KnownCipher());
    FirstMeans(c.macsCS, s.macsCS, AnyName());
    FirstMeans(c.macsSC, s.macsSC, AnyName());
    FirstMeans(c.compressionCS, s.compressionCS, AnyName());
    FirstMeans(c.compressionSC, s.compressionSC, AnyName());
    var f := Choices(c, s);
    assert f[0].None? || f[0].Some?;
    assert f[1].None? || f[1].Some?;
    assert f[2].None? || f[2].Some?;
    assert f[3].None? || f[3].Some?;
    assert f[4].None? || f[4].Some?;
    assert f[5].None? || f[5].Some?;
    assert f[6].None? || f[6].Some?;
    assert f[7].None? || f[7].Some?;
  }

  // ----- both ends -----

  /** kexInitMsg on the wire; the cookie, the language lists, FirstKexFollows and the reserved word take no part here. */
  const KEX_INIT := Wire.Schema(20, [Wire.KArray(16), Wire.KNames, Wire.KNames, Wire.KNames, Wire.KNames, Wire.KNames, Wire.KNames,
                                     Wire.KNames, Wire.KNames, Wire.KNames, Wire.KNames, Wire.KBool, Wire.KU32])

  function Fields(cookie: Bytes, k: KexInit): seq<Wire.Field> {
    [Wire.VArray(cookie), Wire.VNames(k.kexAlgos), Wire.VNames(k.hostKeyAlgos), Wire.VNames(k.ciphersCS), Wire.VNames(k.ciphersSC),
     Wire.VNames(k.macsCS), Wire.VNames(k.macsSC), Wire.VNames(k.compressionCS), Wire.VNames(k.compressionSC),
     Wire.VNames([]), Wire.VNames([]), Wire.VBool(false), Wire.VU32(0)]
  }

  /** What sendKexInitLocked sends. */
  function Packet(cookie: Bytes, k: KexInit): Bytes {
    Wire.MarshalSpec(KEX_INIT, Fields(cookie, k))
  }

  function NamesOf(v: Wire.Field): seq<Bytes> {
    if v.VNames? then v.names else []
  }

  function Parse(packet: Bytes): Option<KexInit> {
    match Wire.UnmarshalSpec(KEX_INIT, packet)
    case Err(_) => None
    case Ok(v) =>
      if |v| != 13 then None
      else Some(KexInit(NamesOf(v[1]), NamesOf(v[2]), NamesOf(v[3]), NamesOf(v[4]), NamesOf(v[5]), NamesOf(v[6]), NamesOf(v[7]), NamesOf(v[8])))
  }

  /** enterKeyExchange up to the negotiation: my own message as it was built, the other's as it was received. */
  function NegotiateAt(isClient: bool, mine: KexInit, otherPacket: Bytes): Option<Algorithms> {
    match Parse(otherPacket)
    case None => None
    case Some(other) => if isClient then AgreedSpec(mine, other) else AgreedSpec(other, mine)
  }

  predicate ListsSurvive(k: KexInit) {
    && Wire.NamesSurvive(k.kexAlgos) && Wire.NamesSurvive(k.hostKeyAlgos) && Wire.NamesSurvive(k.ciphersCS) && Wire.NamesSurvive(k.ciphersSC)
    && Wire.NamesSurvive(k.macsCS) && Wire.NamesSurvive(k.macsSC) && Wire.NamesSurvive(k.compressionCS) && Wire.NamesSurvive(k.compressionSC)
  }

  function List(names: seq<Bytes>): Bytes {
    Wire.EncodeField(Wire.VNames(names))
  }

  /** Section 7.1 of RFC 4253: message 20, the cookie, the lists in this order, two empty ones for languages, no guess, and the
      reserved word. */
  lemma PacketForm(cookie: Bytes, k: KexInit)
    ensures Packet(cookie, k) ==
            [20] + (cookie + List(k.kexAlgos) + List(k.hostKeyAlgos) + List(k.ciphersCS) + List(k.ciphersSC) + List(k.macsCS) + List(k.macsSC)
                    + List(k.compressionCS) + List(k.compressionSC) + List([]) + List([]) + [0] + U32(0))
  {
    hide Wire.EncodeFields, Wire.EncodeField, U32, List;
    var f := Fields(cookie, k);
    Wire.EightFields(f[..8]);
    Snocs(f);
    ListIs();
    Others(cookie);
  }

  lemma ListIs()
    ensures forall names :: Wire.EncodeField(Wire.VNames(names)) == List(names)
  {
  }

  lemma Others(cookie: Bytes)
    ensures Wire.EncodeField(Wire.VArray(cookie)) == cookie && Wire.EncodeField(Wire.VBool(false)) == [0] && Wire.EncodeField(Wire.VU32(0)) == U32(0)
  {
  }

  lemma Snocs(f: seq<Wire.Field>)
    requires |f| == 13
    ensures Wire.EncodeFields(f) == Wire.EncodeFields(f[..8]) + Wire.EncodeField(f[8]) + Wire.EncodeField(f[9]) + Wire.EncodeField(f[10])
                                    + Wire.EncodeField(f[11]) + Wire.EncodeField(f[12])
  {
    hide Wire.EncodeFields, Wire.EncodeField;
    assert f[..9] == f[..8] + [f[8]] && f[..10] == f[..9] + [f[9]] && f[..11] == f[..10] + [f[10]];
    assert f[..12] == f[..11] + [f[11]] && f == f[..12] + [f[12]];
    Wire.EncodeFieldsSnoc(f[..8], f[8]);
    Wire.EncodeFieldsSnoc(f[..9], f[9]);
    Wire.EncodeFieldsSnoc(f[..10], f[10]);
    Wire.EncodeFieldsSnoc(f[..11], f[11]);
    Wire.EncodeFieldsSnoc(f[..12], f[12]);
  }

  lemma PacketRoundTrip(cookie: Bytes, k: KexInit)
    requires |cookie| == 16 && ListsSurvive(k) && |Packet(cookie, k)| < TWO32
    ensures Parse(Packet(cookie, k)) == Some(k)
  {
    hide Wire.UnmarshalSpec, Wire.EncodeFields, Wire.NamesSurvive;
    NoNames();
    Wire.UnmarshalMarshal(KEX_INIT, Fields(cookie, k));
  }

  lemma NoNames()
    ensures Wire.NamesSurvive([])
  {
  }

  /** Both ends settle on the same algorithms, each from its own KEXINIT and the one it has received, if no list
      contains a name that a name list cannot carry. */
  lemma BothEndsAgree(cookieC: Bytes, c: KexInit, cookieS: Bytes, s: KexInit)
    requires |cookieC| == |cookieS| == 16 && ListsSurvive(c) && ListsSurvive(s)
    requires |Packet(cookieC, c)| < TWO32 && |Packet(cookieS, s)| < TWO32
    ensures NegotiateAt(true, c, Packet(cookieS, s)) == NegotiateAt(false, s, Packet(cookieC, c)) == AgreedSpec(c, s)
  {
    hide Packet, Parse, AgreedSpec;
    PacketRoundTrip(cookieC, c);
    PacketRoundTrip(cookieS, s);
  }

  /** w is always the client-to-server set. Peers that list the same ciphers and MACs for both directions, as this library
      does, get the same cipher and MAC in w and r. */
  lemma SameBothWays(c: KexInit, s: KexInit)
    requires c.ciphersCS == c.ciphersSC && c.macsCS == c.macsSC && s.ciphersCS == s.ciphersSC && s.macsCS == s.macsSC
    requires AgreedSpec(c, s).Some?
    ensures var a := AgreedSpec(c, s).value; a.w.cipher == a.r.cipher && a.w.mac == a.r.mac
  {
    hide First, KnownCipher, AnyName;
  }
}
