/** The rules of Transport as the library has them: negotiation from the two KEXINITs (common.go) and Diffie-Hellman with
    the library's exchange hash (kex.go), each end computing its own result from its own secret. */
module KeyExchange {
  import opened ByteStrings
  import opened Results
  import EarnedKeys
  import Kex
  import KeyMaterial
  import Negotiate
  import Transport
  import Wire

  /** What the two ends bring along. Their secrets may be others in each exchange, which its KEXINITs tell apart. accepts
      is the client's check of the server's key and signature. */
  datatype Setting = Setting(
    clientVersion: Bytes, serverVersion: Bytes, group: Kex.Group, hash: Bytes -> Bytes, hostKey: Bytes, sign: Bytes -> Option<Bytes>,
    accepts: Kex.KexResult -> bool, clientSecret: (Bytes, Bytes) -> nat, serverSecret: (Bytes, Bytes) -> nat)

  function Negotiated(clientInit: Bytes, serverInit: Bytes): Option<Negotiate.Algorithms> {
    match (Negotiate.Parse(clientInit), Negotiate.Parse(serverInit))
    case (Some(c), Some(s)) => Negotiate.AgreedSpec(c, s)
    case _ => None
  }

  /** Stands for the algorithms where there are none. */
  const NO_ALGORITHMS := Negotiate.DirectionAlgorithms([], [], [])

  function MagicsOf(e: Setting, t: Transport.Transcript): Kex.Magics {
    Kex.Magics(e.clientVersion, e.serverVersion, t.clientInit, t.serverInit)
  }

  function AtServer(e: Setting, t: Transport.Transcript): Result<(Kex.KexResult, Bytes), Kex.KexError>
    requires e.group.p > 0
  {
    Kex.ServerSpec(e.group, e.serverSecret(t.clientInit, t.serverInit), MagicsOf(e, t), e.hash, e.hostKey, e.sign, t.clientKex)
  }

  function AtClient(e: Setting, t: Transport.Transcript): Result<Kex.KexResult, Kex.KexError>
    requires e.group.p > 0
  {
    Kex.ClientSpec(e.group, e.clientSecret(t.clientInit, t.serverInit), MagicsOf(e, t), e.hash, t.serverKex)
  }

  function KeysOf(r: Kex.KexResult): Transport.KexResult {
    Transport.KexResult(r.k, r.h)
  }

  /** The algorithms for client-to-server packets, which are what every writer takes, and for server-to-client packets. */
  function Chosen(t: Transport.Transcript): (Transport.Alg, Transport.Alg) {
    match Negotiated(t.clientInit, t.serverInit)
    case Some(a) => (a.w, a.r)
    case None => (NO_ALGORITHMS, NO_ALGORITHMS)
  }

  predicate Succeeds(e: Setting, client: bool, t: Transport.Transcript)
    requires e.group.p > 0
  {
    if client then AtClient(e, t).Ok? && e.accepts(AtClient(e, t).value) else AtServer(e, t).Ok?
  }

  function ResultOf(e: Setting, client: bool, t: Transport.Transcript): Transport.KexResult
    requires e.group.p > 0
  {
    if client then
      match AtClient(e, t)
      case Ok(r) => KeysOf(r)
      case Err(_) => Transport.KexResult([], [])
    else
      match AtServer(e, t)
      case Ok(r) => KeysOf(r.0)
      case Err(_) => Transport.KexResult([], [])
  }

  function RulesOf(e: Setting): Transport.Rules
    requires e.group.p > 0
  {
    Transport.Rules(
      (c: Bytes, s: Bytes) => Negotiated(c, s).Some?,
      (t: Transport.Transcript) => Chosen(t).0,
      (t: Transport.Transcript) => Chosen(t).1,
      (client: bool, t: Transport.Transcript) => Succeeds(e, client, t),
      (client: bool, t: Transport.Transcript) => ResultOf(e, client, t))
  }

  // ----- both ends have the same rules -----

  /** Each end, from the KEXINIT it has built and the one it has received, finds what the rules say. */
  lemma EndsNegotiateAlike(cookieC: Bytes, c: Negotiate.KexInit, cookieS: Bytes, s: Negotiate.KexInit)
    requires |cookieC| == |cookieS| == 16 && Negotiate.ListsSurvive(c) && Negotiate.ListsSurvive(s)
    requires |Negotiate.Packet(cookieC, c)| < TWO32 && |Negotiate.Packet(cookieS, s)| < TWO32
    ensures var (pc, ps) := (Negotiate.Packet(cookieC, c), Negotiate.Packet(cookieS, s));
            Negotiate.NegotiateAt(true, c, ps) == Negotiate.NegotiateAt(false, s, pc) == Negotiated(pc, ps)
  {
    hide Negotiate.Packet, Negotiate.Parse, Negotiate.AgreedSpec, Negotiate.ListsSurvive;
    Negotiate.BothEndsAgree(cookieC, c, cookieS, s);
    Negotiate.PacketRoundTrip(cookieC, c);
    Negotiate.PacketRoundTrip(cookieS, s);
  }

  /** The groups of the library: 2 and an odd modulus. */
  predicate LibraryGroup(g: Kex.Group) {
    g.g == 2 && g.p > 1 && g.p % 2 == 1
  }

  /** What the client sends in an exchange. */
  function ClientKex(e: Setting, clientInit: Bytes, serverInit: Bytes): Bytes
    requires e.group.p > 0
  {
    Kex.InitPacket(e.group, e.clientSecret(clientInit, serverInit))
  }

  /** The client sends its public number, and the server what it answers to that. */
  predicate HonestExchange(e: Setting, t: Transport.Transcript)
    requires e.group.p > 0
  {
    && t.clientKex == ClientKex(e, t.clientInit, t.serverInit) && |t.clientKex| < TWO32
    && AtServer(e, t).Ok? && t.serverKex == AtServer(e, t).value.1 && |t.serverKex| < TWO32
  }

  /** Then the client, from the server's reply and a secret that only it knows, gets the server's result. */
  lemma ClientGetsResult(e: Setting, t: Transport.Transcript)
    requires LibraryGroup(e.group) && HonestExchange(e, t)
    ensures AtClient(e, t) == Ok(AtServer(e, t).value.0) && Transport.SameResult(RulesOf(e), t)
  {
    hide Kex.ServerSpec, Kex.ClientSpec, Kex.InitPacket;
    var x := e.clientSecret(t.clientInit, t.serverInit);
    Kex.HonestRunAgrees(e.group.p, x, e.serverSecret(t.clientInit, t.serverInit), MagicsOf(e, t), e.hash, e.hostKey, e.sign);
    HonestIsServer(e, x, t);
    assert e.group == Kex.Group(2, e.group.p);
  }

  lemma HonestIsServer(e: Setting, x: nat, t: Transport.Transcript)
    requires e.group.p > 0 && t.clientKex == Kex.InitPacket(e.group, x)
    ensures Kex.HonestServer(e.group, x, e.serverSecret(t.clientInit, t.serverInit), MagicsOf(e, t), e.hash, e.hostKey, e.sign) == AtServer(e, t)
  {
    hide Kex.ServerSpec, Kex.InitPacket;
  }

  // ----- runs of honest ends -----

  /** The side sends what the library computes from what it has seen. */
  predicate HonestAct(e: Setting, x: Transport.Side, act: Transport.Action)
    requires e.group.p > 0
  {
    match act
    case SendKex(p) =>
      && |p| < TWO32
      && if x.client then p == ClientKex(e, x.seen.clientInit, x.seen.serverInit)
         else AtServer(e, x.seen).Ok? && p == AtServer(e, x.seen).value.1
    case _ => true
  }

  predicate HonestStep(e: Setting, s: Transport.State, l: Transport.Label)
    requires e.group.p > 0
  {
    match l
    case AtClient(act) => HonestAct(e, s.client, act)
    case AtServer(act) => HonestAct(e, s.server, act)
  }

  predicate HonestRun(e: Setting, s: Transport.State, ls: seq<Transport.Label>)
    requires e.group.p > 0
    decreases |ls|
  {
    ls == [] || (HonestStep(e, s, ls[0]) &&
      match Transport.Step(RulesOf(e), s, ls[0])
      case Next(s') => HonestRun(e, s', ls[1..])
      case _ => true)
  }

  predicate ClientLog(e: Setting, cl: seq<Transport.Entry>, sl: seq<Transport.Entry>, n: nat)
    requires e.group.p > 0
  {
    var t := Transport.Exchange(cl, sl, n);
    n <= |Transport.Inits(cl)| && n <= |Transport.Inits(sl)| && t.clientKex == ClientKex(e, t.clientInit, t.serverInit) && |t.clientKex| < TWO32
  }

  predicate ServerLog(e: Setting, cl: seq<Transport.Entry>, sl: seq<Transport.Entry>, n: nat)
    requires e.group.p > 0
  {
    var t := Transport.Exchange(cl, sl, n);
    && n <= |Transport.Inits(cl)| && n <= |Transport.Inits(sl)| && n <= |Transport.Kexes(cl)|
    && AtServer(e, t).Ok? && t.serverKex == AtServer(e, t).value.1 && |t.serverKex| < TWO32
  }

  /** All exchange messages in the logs are such messages. */
  predicate HonestLogs(e: Setting, cl: seq<Transport.Entry>, sl: seq<Transport.Entry>)
    requires e.group.p > 0
  {
    && (forall n | 1 <= n <= |Transport.Kexes(cl)| :: ClientLog(e, cl, sl, n))
    && (forall n | 1 <= n <= |Transport.Kexes(sl)| :: ServerLog(e, cl, sl, n))
  }

  /** What a side has seen of the running exchange when it is about to send its message. */
  lemma SeenNow(x: Transport.Side, other: seq<Transport.Entry>)
    requires Transport.PlacesOk(x, other) && Transport.SeenOk(x.client, x.seen, x.sent, other[..x.got]) && Transport.SendsKex(x)
    ensures var n := |Transport.Kexes(x.sent)| + 1;
            && n <= |Transport.Inits(x.sent)| && n <= |Transport.Inits(other)|
            && var t := Transport.SeenExchange(x.client, x.sent, other, n);
            && x.seen.clientInit == t.clientInit && x.seen.serverInit == t.serverInit
            && (!x.client ==> n <= |Transport.Kexes(other)| && x.seen.clientKex == t.clientKex)
  {
    hide Transport.Epoch, Transport.Inits, Transport.Kexes, Transport.PlaceOf;
    var taken := other[..x.got];
    Transport.Counts(x.sent);
    Transport.Counts(taken);
    Transport.Prefixes(other, x.got);
  }

  lemma AtServerDepends(e: Setting, t: Transport.Transcript, t': Transport.Transcript)
    requires e.group.p > 0 && t' == t.(serverKex := t'.serverKex)
    ensures AtServer(e, t') == AtServer(e, t)
  {
    hide Kex.ServerSpec;
  }

  /** Logs that have only grown keep their exchanges. */
  lemma LogsKeep(e: Setting, cl: seq<Transport.Entry>, sl: seq<Transport.Entry>, cl': seq<Transport.Entry>, sl': seq<Transport.Entry>)
    requires e.group.p > 0 && HonestLogs(e, cl, sl) && Transport.Extends(cl, cl') && Transport.Extends(sl, sl')
    ensures forall n | 1 <= n <= |Transport.Kexes(cl)| :: ClientLog(e, cl', sl', n)
    ensures forall n | 1 <= n <= |Transport.Kexes(sl)| :: ServerLog(e, cl', sl', n)
  {
    hide Transport.Inits, Transport.Kexes, ClientKex, AtServer;
    forall n | 1 <= n <= |Transport.Kexes(cl)| ensures ClientLog(e, cl', sl', n) {
      assert ClientLog(e, cl, sl, n);
    }
    forall n | 1 <= n <= |Transport.Kexes(sl)| ensures ServerLog(e, cl', sl', n) {
      assert ServerLog(e, cl, sl, n);
    }
  }

  function SentBy(act: Transport.Action): Option<Transport.Msg> {
    match act
    case WriteData(n) => Some(Transport.Data(n))
    case RequestKeyChange(p) => Some(Transport.KexInit(p))
    case EnterExchange(p) => Some(Transport.KexInit(p))
    case SendKex(p) => Some(Transport.Kex(p))
    case SendNewKeys => Some(Transport.NewKeys)
    case _ => None
  }

  /** A step adds to the side's own log at most the packet of its action. */
  lemma Added(cfg: Transport.Rules, x: Transport.Side, peerSent: seq<Transport.Entry>, act: Transport.Action)
    requires Transport.SideStep(cfg, x, peerSent, act).Next?
    ensures var x' := Transport.SideStep(cfg, x, peerSent, act).state;
            && x'.client == x.client
            && (act.SendKex? ==> Transport.SendsKex(x))
            && (x'.sent != x.sent ==> SentBy(act).Some?)
            && Transport.Inits(x'.sent) == Transport.Inits(x.sent) + (if x'.sent != x.sent && SentBy(act).value.KexInit? then [SentBy(act).value.payload] else [])
            && Transport.Kexes(x'.sent) == Transport.Kexes(x.sent) + (if act.SendKex? then [act.kexPayload] else [])
  {
    hide Transport.Inits, Transport.Advance, Transport.PlaceOf, Transport.Epoch, Transport.Kexes, Transport.Sizes;
    var x' := Transport.SideStep(cfg, x, peerSent, act).state;
    if x'.sent != x.sent {
      var m := x'.sent[|x.sent|];
      assert x'.sent == x.sent + [m];
      Transport.Snoc(x.sent, m);
      assert m.msg == SentBy(act).value;
    } else {
      assert Transport.Inits(x.sent) + [] == Transport.Inits(x.sent) && Transport.Kexes(x.sent) + [] == Transport.Kexes(x.sent);
    }
  }

  lemma ClientStepHonest(e: Setting, s: Transport.State, act: Transport.Action)
    requires e.group.p > 0 && Transport.Inv(RulesOf(e), s) && HonestLogs(e, s.client.sent, s.server.sent) && HonestAct(e, s.client, act)
    requires Transport.SideStep(RulesOf(e), s.client, s.server.sent, act).Next?
    ensures HonestLogs(e, Transport.SideStep(RulesOf(e), s.client, s.server.sent, act).state.sent, s.server.sent)
  {
    hide Transport.Inits, Transport.Kexes, Transport.SideStep, RulesOf, ClientKex, AtServer, Transport.PlaceOf, Transport.Epoch, Transport.QueuesOk,
      Transport.ConnsOk, Transport.SessionOk, Transport.LogOk, Transport.HalfSeen, ServerLog;
    var (cl, sl) := (s.client.sent, s.server.sent);
    Added(RulesOf(e), s.client, sl, act);
    var cl' := Transport.SideStep(RulesOf(e), s.client, sl, act).state.sent;
    LogsKeep(e, cl, sl, cl', sl);
    if act.SendKex? {
      SeenNow(s.client, sl);
      assert ClientLog(e, cl', sl, |Transport.Kexes(cl)| + 1);
    }
  }

  lemma ServerStepHonest(e: Setting, s: Transport.State, act: Transport.Action)
    requires e.group.p > 0 && Transport.Inv(RulesOf(e), s) && HonestLogs(e, s.client.sent, s.server.sent) && HonestAct(e, s.server, act)
    requires Transport.SideStep(RulesOf(e), s.server, s.client.sent, act).Next?
    ensures HonestLogs(e, s.client.sent, Transport.SideStep(RulesOf(e), s.server, s.client.sent, act).state.sent)
  {
    hide Transport.Inits, Transport.Kexes, Transport.SideStep, RulesOf, ClientKex, AtServer, Transport.PlaceOf, Transport.Epoch, Transport.QueuesOk,
      Transport.ConnsOk, Transport.SessionOk, Transport.LogOk, Transport.HalfSeen, ClientLog;
    var (cl, sl) := (s.client.sent, s.server.sent);
    Added(RulesOf(e), s.server, cl, act);
    var sl' := Transport.SideStep(RulesOf(e), s.server, cl, act).state.sent;
    LogsKeep(e, cl, sl, cl, sl');
    if act.SendKex? {
      SeenNow(s.server, cl);
      var n := |Transport.Kexes(sl)| + 1;
      AtServerDepends(e, s.server.seen, Transport.Exchange(cl, sl', n));
      assert ServerLog(e, cl, sl', n);
    }
  }

  lemma {:induction false} RunHonest(e: Setting, s: Transport.State, ls: seq<Transport.Label>)
    requires e.group.p > 0 && Transport.Inv(RulesOf(e), s) && HonestLogs(e, s.client.sent, s.server.sent) && HonestRun(e, s, ls)
    requires Transport.Run(RulesOf(e), s, ls).Next?
    ensures var s' := Transport.Run(RulesOf(e), s, ls).state; HonestLogs(e, s'.client.sent, s'.server.sent)
    decreases |ls|
  {
    hide Transport.Inv, Transport.SideStep, RulesOf, HonestLogs, HonestAct;
    if ls != [] {
      match ls[0] {
        case AtClient(act) => ClientStepHonest(e, s, act);
        case AtServer(act) => ServerStepHonest(e, s, act);
      }
      Transport.StepKeeps(RulesOf(e), s, ls[0]);
      RunHonest(e, Transport.Step(RulesOf(e), s, ls[0]).state, ls[1..]);
    }
  }

  lemma StartHonest(e: Setting)
    requires e.group.p > 0
    ensures HonestLogs(e, Transport.Init().client.sent, Transport.Init().server.sent)
  {
    hide ClientLog, ServerLog;
  }

  lemma ReachedHonest(e: Setting, s: Transport.State, ls: seq<Transport.Label>)
    requires e.group.p > 0 && Transport.Reachable(RulesOf(e), s, ls) && HonestRun(e, Transport.Init(), ls)
    ensures Transport.Inv(RulesOf(e), s) && HonestLogs(e, s.client.sent, s.server.sent)
  {
    hide Transport.Inv, Transport.Run, RulesOf, HonestLogs, HonestRun, Transport.Init;
    Transport.InitHolds(RulesOf(e));
    StartHonest(e);
    RunHonest(e, Transport.Init(), ls);
    Transport.RunKeeps(RulesOf(e), Transport.Init(), ls);
  }

  /** A completed exchange has both messages of both sides in the logs. */
  lemma CompletedHas(cfg: Transport.Rules, s: Transport.State, n: nat)
    requires Transport.Inv(cfg, s) && 1 <= n && (n <= Transport.Epoch(s.client.sent) || n <= Transport.Epoch(s.server.sent))
    ensures n <= |Transport.Kexes(s.client.sent)| && n <= |Transport.Kexes(s.server.sent)|
  {
    hide Transport.PlaceOf, Transport.Epoch, Transport.Inits, Transport.Kexes, Transport.SeenOk, Transport.QueuesOk, Transport.ConnsOk,
      Transport.SessionOk, Transport.LogOk, Transport.PlacesOk;
    Transport.BothHave(s.client, s.server.sent);
    Transport.BothHave(s.server, s.client.sent);
  }

  lemma LogsAgree(e: Setting, s: Transport.State, n: nat)
    requires LibraryGroup(e.group) && Transport.Inv(RulesOf(e), s) && HonestLogs(e, s.client.sent, s.server.sent)
    requires 1 <= n && (n <= Transport.Epoch(s.client.sent) || n <= Transport.Epoch(s.server.sent))
    ensures HonestExchange(e, Transport.Exchange(s.client.sent, s.server.sent, n))
    ensures Transport.SameResult(RulesOf(e), Transport.Exchange(s.client.sent, s.server.sent, n))
  {
    hide Transport.Inv, RulesOf, ClientKex, AtServer, Transport.Epoch, Transport.Exchange;
    CompletedHas(RulesOf(e), s, n);
    assert ClientLog(e, s.client.sent, s.server.sent, n);
    assert ServerLog(e, s.client.sent, s.server.sent, n);
    ClientGetsResult(e, Transport.Exchange(s.client.sent, s.server.sent, n));
  }

  /** In every run in which both ends send what the library computes, both get the same K and H from every exchange, each
      with a secret of its own, and the same session id. */
  lemma BothEndsGetSameKeys(e: Setting, s: Transport.State, ls: seq<Transport.Label>)
    requires LibraryGroup(e.group) && Transport.Reachable(RulesOf(e), s, ls) && HonestRun(e, Transport.Init(), ls)
    ensures forall n | 1 <= n && (n <= Transport.Epoch(s.client.sent) || n <= Transport.Epoch(s.server.sent)) ::
              Transport.SameResult(RulesOf(e), Transport.Exchange(s.client.sent, s.server.sent, n))
    ensures Transport.Epoch(s.client.sent) > 0 && Transport.Epoch(s.server.sent) > 0 ==> s.client.sessionID == s.server.sessionID
  {
    hide Transport.Inv, RulesOf, HonestLogs, HonestRun, Transport.Epoch, Transport.Exchange, Transport.Reachable, HonestExchange, Transport.Init;
    ReachedHonest(e, s, ls);
    forall n | 1 <= n && (n <= Transport.Epoch(s.client.sent) || n <= Transport.Epoch(s.server.sent))
      ensures Transport.SameResult(RulesOf(e), Transport.Exchange(s.client.sent, s.server.sent, n))
    {
      LogsAgree(e, s, n);
    }
    Transport.SessionIdIsFirstHash(RulesOf(e), s, ls);
    if Transport.Epoch(s.client.sent) > 0 && Transport.Epoch(s.server.sent) > 0 {
      assert Transport.SameResult(RulesOf(e), Transport.Exchange(s.client.sent, s.server.sent, 1));
    }
  }

  // ----- both directions alike -----

  /** What SameAlg comes to: the cipher is the same for both directions, and the MAC too unless the cipher is AES-GCM. */
  lemma SameAlgIff(e: Setting, t: Transport.Transcript)
    requires e.group.p > 0 && Negotiated(t.clientInit, t.serverInit).Some?
    ensures var a := Negotiated(t.clientInit, t.serverInit).value;
            Transport.SameAlg(RulesOf(e), t) <==> a.w.cipher == a.r.cipher && (a.w.cipher == Negotiate.GcmCipherId() || a.w.mac == a.r.mac)
  {
    hide Negotiate.Parse, Negotiate.AgreedSpec, AtServer, AtClient, Ascii;
  }

  /** In such runs the next packet for either side is unreadable if and only if it comes after NEWKEYS and the exchange
      settled on different ciphers for the two directions, or on different MACs with a cipher other than AES-GCM. */
  lemma HonestUnreadableIff(e: Setting, s: Transport.State, ls: seq<Transport.Label>, client: bool)
    requires LibraryGroup(e.group) && Transport.Reachable(RulesOf(e), s, ls) && HonestRun(e, Transport.Init(), ls)
    requires if client then s.client.got < |s.server.sent| else s.server.got < |s.client.sent|
    ensures var (x, p) := if client then (s.client, s.server) else (s.server, s.client);
            Transport.Read(x, p.sent[x.got]) == Transport.Failed(Transport.CannotDecrypt) <==>
            Transport.Epoch(p.sent[..x.got]) > 0 && !Transport.SameAlg(RulesOf(e), Transport.ReadExchange(x, p))
  {
    hide Transport.Epoch, RulesOf, Transport.Read, Transport.SameAlg, Transport.Exchange, HonestRun, Transport.Init;
    Transport.NextPacketInStep(RulesOf(e), s, ls, client);
    BothEndsGetSameKeys(e, s, ls);
    Sides(RulesOf(e), s, ls);
    var (x, p) := if client then (s.client, s.server) else (s.server, s.client);
    Transport.Prefixes(p.sent, x.got);
    var n := Transport.Epoch(p.sent[..x.got]);
    if n > 0 {
      assert Transport.SameResult(RulesOf(e), Transport.Exchange(s.client.sent, s.server.sent, n));
      assert Transport.SameResult(RulesOf(e), Transport.Exchange(s.client.sent, s.server.sent, 1));
    }
  }

  lemma Sides(cfg: Transport.Rules, s: Transport.State, ls: seq<Transport.Label>)
    requires Transport.Reachable(cfg, s, ls)
    ensures s.client.client && !s.server.client
  {
    hide Transport.Reachable, Transport.Pair;
    Transport.ReachableInv(cfg, s, ls);
  }

  /** The packet is no KEXINIT, or one that lists the same ciphers and MACs for both directions. */
  predicate BothWays(packet: Bytes) {
    match Negotiate.Parse(packet)
    case None => true
    case Some(k) => k.ciphersCS == k.ciphersSC && k.macsCS == k.macsSC
  }

  /** sendKexInitLocked sends such a packet: it has one list of ciphers and one of MACs. */
  lemma OwnKexInitIsBothWays(cookie: Bytes, k: Negotiate.KexInit)
    requires |cookie| == 16 && Negotiate.ListsSurvive(k) && |Negotiate.Packet(cookie, k)| < TWO32
    ensures BothWays(Negotiate.Packet(cookie, k)) <==> k.ciphersCS == k.ciphersSC && k.macsCS == k.macsSC
  {
    hide Negotiate.Packet, Negotiate.Parse, Negotiate.ListsSurvive;
    Negotiate.PacketRoundTrip(cookie, k);
  }

  lemma SameAlgFrom(e: Setting, t: Transport.Transcript)
    requires e.group.p > 0 && BothWays(t.clientInit) && BothWays(t.serverInit)
    ensures Transport.SameAlg(RulesOf(e), t)
  {
    hide Negotiate.Parse, Negotiate.AgreedSpec, AtServer, AtClient;
    if Negotiated(t.clientInit, t.serverInit).Some? {
      Negotiate.SameBothWays(Negotiate.Parse(t.clientInit).value, Negotiate.Parse(t.serverInit).value);
      SameAlgIff(e, t);
    }
  }

  predicate OffersBothWays(act: Transport.Action) {
    SentBy(act).Some? && SentBy(act).value.KexInit? ==> BothWays(SentBy(act).value.payload)
  }

  predicate AllBothWays(payloads: seq<Bytes>) {
    forall p | p in payloads :: BothWays(p)
  }

  /** The KEXINITs in the logs are the ones the two ends chose to send. */
  lemma SideOffers(cfg: Transport.Rules, x: Transport.Side, peerSent: seq<Transport.Entry>, act: Transport.Action)
    requires OffersBothWays(act) && AllBothWays(Transport.Inits(x.sent)) && Transport.SideStep(cfg, x, peerSent, act).Next?
    ensures AllBothWays(Transport.Inits(Transport.SideStep(cfg, x, peerSent, act).state.sent))
  {
    hide BothWays, Transport.Inits, Transport.Kexes, Transport.SideStep;
    Added(cfg, x, peerSent, act);
  }

  lemma {:induction false} RunOffers(cfg: Transport.Rules, s: Transport.State, ls: seq<Transport.Label>)
    requires forall l | l in ls :: OffersBothWays(l.action)
    requires AllBothWays(Transport.Inits(s.client.sent)) && AllBothWays(Transport.Inits(s.server.sent))
    requires Transport.Run(cfg, s, ls).Next?
    ensures var s' := Transport.Run(cfg, s, ls).state; AllBothWays(Transport.Inits(s'.client.sent)) && AllBothWays(Transport.Inits(s'.server.sent))
    decreases |ls|
  {
    hide OffersBothWays, AllBothWays, Transport.Inits, Transport.SideStep;
    if ls != [] {
      match ls[0] {
        case AtClient(act) => SideOffers(cfg, s.client, s.server.sent, act);
        case AtServer(act) => SideOffers(cfg, s.server, s.client.sent, act);
      }
      RunOffers(cfg, Transport.Step(cfg, s, ls[0]).state, ls[1..]);
    }
  }

  lemma NothingParses()
    ensures BothWays([])
  {
  }

  lemma OffersAgree(e: Setting, s: Transport.State)
    requires LibraryGroup(e.group) && Transport.Inv(RulesOf(e), s) && HonestLogs(e, s.client.sent, s.server.sent)
    requires AllBothWays(Transport.Inits(s.client.sent)) && AllBothWays(Transport.Inits(s.server.sent))
    ensures Transport.ExchangesAgree(RulesOf(e), s)
  {
    hide BothWays, RulesOf, Transport.Inits, Transport.Kexes, Transport.Epoch, Transport.SameAlg, Transport.SameResult, Transport.Inv, HonestLogs,
      HonestExchange;
    NothingParses();
    forall n | 1 <= n && (n <= Transport.Epoch(s.client.sent) || n <= Transport.Epoch(s.server.sent))
      ensures Transport.Agrees(RulesOf(e), Transport.Exchange(s.client.sent, s.server.sent, n))
    {
      SameAlgFrom(e, Transport.Exchange(s.client.sent, s.server.sent, n));
      LogsAgree(e, s, n);
    }
  }

  lemma {:induction false} HonestPrefix(e: Setting, s: Transport.State, ls: seq<Transport.Label>, k: nat)
    requires e.group.p > 0 && HonestRun(e, s, ls) && k <= |ls| && Transport.Run(RulesOf(e), s, ls[..k]).Next?
    ensures HonestRun(e, s, ls[..k])
    decreases k
  {
    hide RulesOf, Transport.Step, HonestStep;
    if k > 0 {
      assert ls[..k][1..] == ls[1..][..k - 1];
      HonestPrefix(e, Transport.Step(RulesOf(e), s, ls[0]).state, ls[1..], k - 1);
    }
  }

  /** Two ends of this library, which always list the same names for both directions and send what they compute, never fail
      in any run: every packet can be read, through any number of key exchanges. */
  lemma LibraryRunsDoNotFail(e: Setting, ls: seq<Transport.Label>)
    requires LibraryGroup(e.group) && HonestRun(e, Transport.Init(), ls) && forall l | l in ls :: OffersBothWays(l.action)
    ensures !Transport.Run(RulesOf(e), Transport.Init(), ls).Failed?
  {
    hide RulesOf, OffersBothWays, AllBothWays, Transport.Run, Transport.ExchangesAgree, BothWays, HonestRun, HonestLogs, Transport.Inv;
    var cfg := RulesOf(e);
    if Transport.Run(cfg, Transport.Init(), ls).Failed? {
      Transport.NoRunFails(cfg, ls);
      var k, s :| 0 <= k < |ls| && Transport.Run(cfg, Transport.Init(), ls[..k]) == Transport.Next(s) && !Transport.ExchangesAgree(cfg, s);
      NoInits();
      RunOffers(cfg, Transport.Init(), ls[..k]);
      HonestPrefix(e, Transport.Init(), ls, k);
      ReachedHonest(e, s, ls[..k]);
      OffersAgree(e, s);
    }
  }

  lemma NoInits()
    ensures AllBothWays(Transport.Inits([])) && Transport.Init().client.sent == Transport.Init().server.sent == []
  {
  }

  // ----- lists that differ -----

  /** One name in each list, but another cipher or MAC for each direction. */
  function OneEach(cipherCS: Bytes, cipherSC: Bytes, macCS: Bytes, macSC: Bytes): Negotiate.KexInit {
    var n := [Ascii("none")];
    Negotiate.KexInit(n, n, [cipherCS], [cipherSC], [macCS], [macSC], n, n)
  }

  function TwoCiphers(): Negotiate.KexInit {
    OneEach(Ascii("aes128-ctr"), Ascii("aes256-ctr"), Ascii("hmac-sha1"), Ascii("hmac-sha1"))
  }

  function GcmTwoMacs(): Negotiate.KexInit {
    OneEach(Negotiate.GcmCipherId(), Negotiate.GcmCipherId(), Ascii("hmac-sha1"), Ascii("hmac-sha1-96"))
  }

  lemma OneEachSurvives()
    ensures Negotiate.ListsSurvive(TwoCiphers()) && Negotiate.ListsSurvive(GcmTwoMacs())
  {
  }

  lemma {:induction false} ShortFields(vs: seq<Wire.Field>)
    requires forall v | v in vs :: |Wire.EncodeField(v)| <= 32
    ensures |Wire.EncodeFields(vs)| <= 32 * |vs|
  {
    if vs != [] {
      assert forall v | v in vs[1..] :: v in vs;
      ShortFields(vs[1..]);
    }
  }

  lemma OneEachIsShort(cookie: Bytes)
    requires |cookie| == 16
    ensures |Negotiate.Packet(cookie, TwoCiphers())| < TWO32 && |Negotiate.Packet(cookie, GcmTwoMacs())| < TWO32
  {
    hide Wire.EncodeFields, Ascii;
    ShortFields(Negotiate.Fields(cookie, TwoCiphers()));
    ShortFields(Negotiate.Fields(cookie, GcmTwoMacs()));
  }

  lemma FirstOfOne(name: Bytes, allowed: Bytes -> bool)
    requires allowed(name)
    ensures Negotiate.First([name], [name], allowed) == Some(name)
  {
  }

  lemma OneEachAgrees(cipherCS: Bytes, cipherSC: Bytes, macCS: Bytes, macSC: Bytes)
    requires cipherCS in Negotiate.CipherModes() && cipherSC in Negotiate.CipherModes()
    ensures var k := OneEach(cipherCS, cipherSC, macCS, macSC);
            var n := Ascii("none");
            Negotiate.AgreedSpec(k, k) == Some(Negotiate.Algorithms(n, n, Negotiate.DirectionAlgorithms(cipherCS, macCS, n),
                                                                    Negotiate.DirectionAlgorithms(cipherSC, macSC, n)))
  {
    hide Ascii, Negotiate.First, Negotiate.CipherModes;
    FirstOfOne(Ascii("none"), Negotiate.AnyName());
    FirstOfOne(cipherCS, Negotiate.KnownCipher());
    FirstOfOne(cipherSC, Negotiate.KnownCipher());
    FirstOfOne(macCS, Negotiate.AnyName());
    FirstOfOne(macSC, Negotiate.AnyName());
  }

  /** When both ends send lists with two ciphers the two directions do differ: what the writers take is not what the readers
      take. */
  lemma DifferentLists(e: Setting, cookie: Bytes, t: Transport.Transcript)
    requires e.group.p > 0 && |cookie| == 16 && t.clientInit == t.serverInit == Negotiate.Packet(cookie, TwoCiphers())
    ensures Negotiated(t.clientInit, t.serverInit).Some? && !Transport.SameAlg(RulesOf(e), t)
  {
    hide Negotiate.Packet, Negotiate.Parse, Negotiate.AgreedSpec, Negotiate.ListsSurvive, AtServer, AtClient, OneEach, Ascii, Negotiate.CipherModes,
      RulesOf;
    NamesDiffer();
    Reads(cookie);
    OneEachAgrees(Ascii("aes128-ctr"), Ascii("aes256-ctr"), Ascii("hmac-sha1"), Ascii("hmac-sha1"));
    SameAlgIff(e, t);
  }

  /** With AES-GCM and two MACs they do not, although w and r do: no MAC is used. */
  lemma GcmIgnoresMacs(e: Setting, cookie: Bytes, t: Transport.Transcript)
    requires e.group.p > 0 && |cookie| == 16 && t.clientInit == t.serverInit == Negotiate.Packet(cookie, GcmTwoMacs())
    ensures Negotiated(t.clientInit, t.serverInit).Some?
    ensures RulesOf(e).w(t) != RulesOf(e).r(t) && Transport.SameAlg(RulesOf(e), t)
  {
    hide Negotiate.Packet, Negotiate.Parse, Negotiate.AgreedSpec, Negotiate.ListsSurvive, AtServer, AtClient, OneEach, Ascii, Negotiate.CipherModes;
    NamesDiffer();
    Reads(cookie);
    OneEachAgrees(Negotiate.GcmCipherId(), Negotiate.GcmCipherId(), Ascii("hmac-sha1"), Ascii("hmac-sha1-96"));
    SameAlgIff(e, t);
  }

  lemma NamesDiffer()
    ensures Ascii("aes128-ctr") != Ascii("aes256-ctr") && Ascii("hmac-sha1") != Ascii("hmac-sha1-96")
    ensures {Ascii("aes128-ctr"), Ascii("aes256-ctr"), Negotiate.GcmCipherId()} <= Negotiate.CipherModes()
  {
    assert Ascii("aes128-ctr")[5] != Ascii("aes256-ctr")[5];
    assert |Ascii("hmac-sha1")| != |Ascii("hmac-sha1-96")|;
  }

  lemma Reads(cookie: Bytes)
    requires |cookie| == 16
    ensures Negotiate.Parse(Negotiate.Packet(cookie, TwoCiphers())) == Some(TwoCiphers())
    ensures Negotiate.Parse(Negotiate.Packet(cookie, GcmTwoMacs())) == Some(GcmTwoMacs())
  {
    hide Negotiate.Packet, Negotiate.Parse, Negotiate.ListsSurvive, OneEach, Ascii;
    OneEachSurvives();
    OneEachIsShort(cookie);
    Negotiate.PacketRoundTrip(cookie, TwoCiphers());
    Negotiate.PacketRoundTrip(cookie, GcmTwoMacs());
  }

  // ----- what comes before new keys, and what they are -----

  /** A client never changes its keys, or prepares to, before it has accepted what the server has sent for that very exchange: its
      key and its signature of the hash over this end's own view of the exchange. */
  lemma ClientAcceptsBeforeKeys(e: Setting, s: Transport.State, ls: seq<Transport.Label>, n: nat)
    requires e.group.p > 0 && Transport.Reachable(RulesOf(e), s, ls)
    requires 1 <= n <= Transport.Epoch(s.client.sent) + if s.client.stage == Transport.Prepared then 1 else 0
    ensures var t := Transport.Exchange(s.client.sent, s.server.sent, n);
            Negotiated(t.clientInit, t.serverInit).Some? && AtClient(e, t).Ok? && e.accepts(AtClient(e, t).value)
  {
    hide Transport.Reachable, Transport.Exchange, Transport.Epoch, AtClient, AtServer, Negotiated;
    EarnedKeys.NoKeysWithoutSuccess(RulesOf(e), s, ls, true, n);
  }

  /** The bytes that a cipher is made from. */
  ghost function BytesFor(hash: Bytes -> Bytes, c: Transport.Cipher): KeyMaterial.KeySet
    requires c.Keyed? && KeyMaterial.Hashes(SourceOf(hash, c))
  {
    KeyMaterial.KeysOf(SourceOf(hash, c), c.dir == Transport.ClientKeys, c.alg.cipher)
  }

  function SourceOf(hash: Bytes -> Bytes, c: Transport.Cipher): KeyMaterial.Source
    requires c.Keyed?
  {
    KeyMaterial.Source(hash, c.k, c.h, c.sessionID)
  }

  /** K1 of the cipher's key is the hash of K, H, this letter and the session id. */
  ghost predicate MadeWith(hash: Bytes -> Bytes, c: Transport.Cipher, letter: byte)
    requires forall x :: |hash(x)| > 0
  {
    c.Keyed? ==> KeyMaterial.Begins(BytesFor(hash, c).key, hash(c.k + c.h + [letter] + c.sessionID))
  }

  /** In every reachable state what the client sends is encrypted with a key made with the letter C, and what the server sends with
      one made with D, at either end. */
  lemma EncryptionKeys(hash: Bytes -> Bytes, cfg: Transport.Rules, s: Transport.State, ls: seq<Transport.Label>)
    requires Transport.Reachable(cfg, s, ls) && forall x :: |hash(x)| > 0
    ensures MadeWith(hash, s.client.writer.cipher, 67) && MadeWith(hash, s.server.reader.cipher, 67)
    ensures MadeWith(hash, s.server.writer.cipher, 68) && MadeWith(hash, s.client.reader.cipher, 68)
  {
    hide Transport.Reachable, KeyMaterial.KeysOf, KeyMaterial.Begins;
    Transport.EachDirectionHasItsKeys(cfg, s, ls);
    LetterOf(hash, s.client.writer.cipher);
    LetterOf(hash, s.server.reader.cipher);
    LetterOf(hash, s.server.writer.cipher);
    LetterOf(hash, s.client.reader.cipher);
  }

  lemma LetterOf(hash: Bytes -> Bytes, c: Transport.Cipher)
    requires forall x :: |hash(x)| > 0
    ensures MadeWith(hash, c, if c.Keyed? && c.dir == Transport.ClientKeys then 67 else 68)
  {
    hide KeyMaterial.KeysOf, KeyMaterial.Begins;
    if c.Keyed? {
      KeyMaterial.SixKeys(SourceOf(hash, c), c.alg.cipher);
    }
  }
}
