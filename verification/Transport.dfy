/** Two endpoints' transports (transport.go) under their handshake loops (handshake.go): how ciphers, sequence
    numbers, session ids and the one-slot queues of new ciphers move on through any number of key exchanges. Packets
    travel in order. The steps are single calls of readPacket, writePacket and prepareKeyChange. */
module Transport {
  import opened ByteStrings
  import opened Results
  import Negotiate

  /** The contents of a packet. Kex is the one message each side sends in a Diffie-Hellman exchange. */
  datatype Msg = Data(size: nat) | KexInit(payload: Bytes) | Kex(payload: Bytes) | NewKeys

  /** What both sides of an exchange see: it determines the algorithms and the result of the exchange. */
  datatype Transcript = Transcript(clientInit: Bytes, serverInit: Bytes, clientKex: Bytes, serverKex: Bytes)

  datatype KexResult = KexResult(k: Bytes, h: Bytes)

  type Alg = Negotiate.DirectionAlgorithms

  /** What newPacketCipher looks at: the cipher, and the MAC unless the cipher is AES-GCM. */
  datatype CipherAlg = CipherAlg(cipher: Bytes, mac: Option<Bytes>)

  function Used(a: Alg): CipherAlg {
    CipherAlg(a.cipher, if a.cipher == Negotiate.GcmCipherId() then None else Some(a.mac))
  }

  /** Negotiation and the exchange as functions of the transcript: whether the two KEXINITs have all algorithms in common,
      directionAlgorithms w and r, and for the client (true) and the server (false) each, whether the exchange succeeds and
      its kexResult. */
  datatype Rules = Rules(
    finds: (Bytes, Bytes) -> bool, w: Transcript -> Alg, r: Transcript -> Alg,
    succeeds: (bool, Transcript) -> bool, result: (bool, Transcript) -> KexResult)

  datatype Direction = ClientKeys | ServerKeys

  /** A packetCipher by all that goes into newPacketCipher. */
  datatype Cipher = NoCipher | Keyed(dir: Direction, alg: CipherAlg, k: Bytes, h: Bytes, sessionID: Bytes)

  /** connectionState; done lists the sizes of the packets the cipher has processed, which fixes its key stream
      position or IV. */
  datatype ConnState = ConnState(cipher: Cipher, done: seq<nat>, seqNum: nat, pending: Option<Cipher>)

  /** A packet on the wire with the writer's cipher, position and sequence number. */
  datatype Entry = Entry(msg: Msg, cipher: Cipher, done: seq<nat>, seqNum: nat)

  /** Where the handshake loop stands: reading packets; holding the peer's KEXINIT; both KEXINITs out; one of the two
      exchange messages seen; both seen; prepareKeyChange done; NEWKEYS sent; NEWKEYS read; or stopped by an error of
      the negotiation or the exchange, after which the connection is closed. */
  datatype Stage = Normal | GotInit | Ready | Half | Agreed | Prepared | Switched | Leaving | Stopped

  datatype Side = Side(
    client: bool, stage: Stage, sentInit: bool, seen: Transcript, sessionID: Option<Bytes>,
    reader: ConnState, writer: ConnState, sent: seq<Entry>, got: nat)

  datatype State = State(client: Side, server: Side)

  datatype Action =
    | WriteData(size: nat)
    | RequestKeyChange(initPayload: Bytes)
    | EnterExchange(myPayload: Bytes)
    | SendKex(kexPayload: Bytes)
    | Prepare
    | SendNewKeys
    | ReadPacket
    | Leave

  datatype Label = AtClient(action: Action) | AtServer(action: Action)

  datatype Fault = CannotDecrypt | BogusNewKeys | NoKeyMaterial | QueueFull | UnexpectedMessage

  datatype Outcome<T> = Next(state: T) | Disabled | Failed(fault: Fault)

  // ----- transport.go -----

  function Size(m: Msg): nat {
    match m
    case Data(n) => n
    case KexInit(p) => |p|
    case Kex(p) => |p|
    case NewKeys => 1
  }

  /** What connectionState.writePacket and readPacket share: count the packet, and change ciphers on NEWKEYS. */
  function Advance(c: ConnState, m: Msg): Option<ConnState> {
    var c' := c.(done := c.done + [Size(m)], seqNum := (c.seqNum + 1) % TWO32);
    if !m.NewKeys? then Some(c')
    else if c.pending.None? then None
    else Some(c'.(cipher := c.pending.value, done := [], pending := None))
  }

  function Write(x: Side, m: Msg): Outcome<Side> {
    var e := Entry(m, x.writer.cipher, x.writer.done, x.writer.seqNum);
    match Advance(x.writer, m)
    case None => Failed(NoKeyMaterial)
    case Some(w) => Next(x.(writer := w, sent := x.sent + [e]))
  }

  /** A packet can be read exactly with the cipher, position and sequence number it was written with. */
  function Read(x: Side, e: Entry): Outcome<Side> {
    if x.reader.cipher != e.cipher || x.reader.done != e.done || x.reader.seqNum != e.seqNum then Failed(CannotDecrypt)
    else
      match Advance(x.reader, e.msg)
      case None => Failed(BogusNewKeys)
      case Some(r) => Next(x.(reader := r, got := x.got + 1))
  }

  function WriteDir(client: bool): Direction {
    if client then ClientKeys else ServerKeys
  }

  function DoPrepare(cfg: Rules, x: Side): Outcome<Side> {
    if x.reader.pending.Some? || x.writer.pending.Some? then Failed(QueueFull)
    else
      var res := cfg.result(x.client, x.seen);
      var sid := if x.sessionID.None? then res.h else x.sessionID.value;
      Next(x.(sessionID := Some(sid), stage := Prepared,
              reader := x.reader.(pending := Some(Keyed(WriteDir(!x.client), Used(cfg.r(x.seen)), res.k, res.h, sid))),
              writer := x.writer.(pending := Some(Keyed(WriteDir(x.client), Used(cfg.w(x.seen)), res.k, res.h, sid)))))
  }

  // ----- handshake.go -----

  function SeeInit(x: Side, mine: bool, p: Bytes): Side {
    if mine == x.client then x.(seen := x.seen.(clientInit := p)) else x.(seen := x.seen.(serverInit := p))
  }

  function SeeKex(x: Side, mine: bool, p: Bytes): Side {
    if mine == x.client then x.(seen := x.seen.(clientKex := p)) else x.(seen := x.seen.(serverKex := p))
  }

  /** findAgreedAlgorithms, as soon as both KEXINITs are known. */
  function Entered(cfg: Rules, x: Side): Stage {
    if cfg.finds(x.seen.clientInit, x.seen.serverInit) then Ready else Stopped
  }

  function SendInit(x: Side, p: Bytes, stage: Stage): Outcome<Side> {
    Write(SeeInit(x, true, p).(sentInit := true, stage := stage), KexInit(p))
  }

  /** One call of readPacket by the loop; it reads only where it wants a packet. */
  function DoRead(x: Side, e: Entry): Outcome<Side> {
    match Read(x, e)
    case Next(y) =>
      (match (x.stage, e.msg)
       case (Normal, Data(_)) => Next(y)
       case (Normal, KexInit(p)) => Next(SeeInit(y, false, p).(stage := GotInit))
       case (Ready, Kex(p)) => Next(SeeKex(y, false, p).(stage := Half))
       case (Half, Kex(p)) => Next(SeeKex(y, false, p).(stage := Agreed))
       case (Switched, NewKeys) => Next(y.(stage := Leaving))
       case _ => Failed(UnexpectedMessage))
    case o => o
  }

  predicate Reads(x: Side) {
    x.stage == Normal || (x.stage == Ready && !x.client) || (x.stage == Half && x.client) || x.stage == Switched
  }

  predicate SendsKex(x: Side) {
    (x.stage == Ready && x.client) || (x.stage == Half && !x.client)
  }

  function SideStep(cfg: Rules, x: Side, peerSent: seq<Entry>, act: Action): Outcome<Side> {
    match act
    case WriteData(n) => if !x.sentInit then Write(x, Data(n)) else Disabled
    case RequestKeyChange(p) => if !x.sentInit then SendInit(x, p, x.stage) else Disabled
    case EnterExchange(p) =>
      if x.stage != GotInit then Disabled
      else if x.sentInit then Next(x.(stage := Entered(cfg, x)))
      else SendInit(x, p, Entered(cfg, SeeInit(x, true, p)))
    case SendKex(p) =>
      if SendsKex(x) then Write(SeeKex(x, true, p).(stage := if x.client then Half else Agreed), Kex(p)) else Disabled
    case Prepare =>
      if x.stage != Agreed then Disabled else if !cfg.succeeds(x.client, x.seen) then Next(x.(stage := Stopped)) else DoPrepare(cfg, x)
    case SendNewKeys => if x.stage == Prepared then Write(x.(stage := Switched), NewKeys) else Disabled
    case ReadPacket => if Reads(x) && x.got < |peerSent| then DoRead(x, peerSent[x.got]) else Disabled
    case Leave => if x.stage == Leaving then Next(x.(stage := Normal, sentInit := false)) else Disabled
  }

  function Step(cfg: Rules, s: State, l: Label): Outcome<State> {
    match l
    case AtClient(act) =>
      (match SideStep(cfg, s.client, s.server.sent, act)
       case Next(x) => Next(s.(client := x)) case Failed(f) => Failed(f) case Disabled => Disabled)
    case AtServer(act) =>
      (match SideStep(cfg, s.server, s.client.sent, act)
       case Next(x) => Next(s.(server := x)) case Failed(f) => Failed(f) case Disabled => Disabled)
  }

  function NewSide(client: bool): Side {
    var c := ConnState(NoCipher, [], 0, None);
    Side(client, Normal, false, Transcript([], [], [], []), None, c, c, [], 0)
  }

  function Init(): State {
    State(NewSide(true), NewSide(false))
  }

  function Run(cfg: Rules, s: State, ls: seq<Label>): Outcome<State>
    decreases |ls|
  {
    if ls == [] then Next(s)
    else match Step(cfg, s, ls[0])
      case Next(s') => Run(cfg, s', ls[1..])
      case o => o
  }

  // ----- what a log says -----

  /** Where a log stands in (data* KEXINIT kex NEWKEYS)*. */
  datatype Place = Between | AfterInit | AfterKex | Wrong

  function NextPlace(at: Place, m: Msg): Place {
    match (at, m)
    case (Between, Data(_)) => Between
    case (Between, KexInit(_)) => AfterInit
    case (AfterInit, Kex(_)) => AfterKex
    case (AfterKex, NewKeys) => Between
    case _ => Wrong
  }

  function PlaceOf(log: seq<Entry>): Place {
    if log == [] then Between else NextPlace(PlaceOf(log[..|log| - 1]), log[|log| - 1].msg)
  }

  function Epoch(log: seq<Entry>): nat {
    if log == [] then 0 else Epoch(log[..|log| - 1]) + if log[|log| - 1].msg.NewKeys? then 1 else 0
  }

  function Inits(log: seq<Entry>): seq<Bytes> {
    if log == [] then []
    else Inits(log[..|log| - 1]) + if log[|log| - 1].msg.KexInit? then [log[|log| - 1].msg.payload] else []
  }

  function Kexes(log: seq<Entry>): seq<Bytes> {
    if log == [] then []
    else Kexes(log[..|log| - 1]) + if log[|log| - 1].msg.Kex? then [log[|log| - 1].msg.payload] else []
  }

  /** The sizes since the last NEWKEYS. */
  function Sizes(log: seq<Entry>): seq<nat> {
    if log == [] || log[|log| - 1].msg.NewKeys? then []
    else Sizes(log[..|log| - 1]) + [Size(log[|log| - 1].msg)]
  }

  function Nth(s: seq<Bytes>, n: nat): Bytes {
    if 1 <= n <= |s| then s[n - 1] else []
  }

  /** The transcript of exchange n, counted from 1. */
  function Exchange(cl: seq<Entry>, sl: seq<Entry>, n: nat): Transcript {
    Transcript(Nth(Inits(cl), n), Nth(Inits(sl), n), Nth(Kexes(cl), n), Nth(Kexes(sl), n))
  }

  /** The cipher of epoch n for the packets of one direction, as the client or the server has it. */
  function CipherOf(cfg: Rules, client: bool, alg: Transcript -> Alg, dir: Direction, cl: seq<Entry>, sl: seq<Entry>, n: nat): Cipher {
    if n == 0 then NoCipher
    else
      var t := Exchange(cl, sl, n);
      Keyed(dir, Used(alg(t)), cfg.result(client, t).k, cfg.result(client, t).h, cfg.result(client, Exchange(cl, sl, 1)).h)
  }

  lemma Snoc(log: seq<Entry>, e: Entry)
    ensures PlaceOf(log + [e]) == NextPlace(PlaceOf(log), e.msg)
    ensures Epoch(log + [e]) == Epoch(log) + if e.msg.NewKeys? then 1 else 0
    ensures Inits(log + [e]) == Inits(log) + if e.msg.KexInit? then [e.msg.payload] else []
    ensures Kexes(log + [e]) == Kexes(log) + if e.msg.Kex? then [e.msg.payload] else []
    ensures Sizes(log + [e]) == if e.msg.NewKeys? then [] else Sizes(log) + [Size(e.msg)]
  {
    assert (log + [e])[..|log|] == log;
  }

  /** In a log that follows the grammar the counts go together. */
  lemma {:induction false} Counts(log: seq<Entry>)
    requires PlaceOf(log) != Wrong
    ensures |Inits(log)| == Epoch(log) + if PlaceOf(log) == Between then 0 else 1
    ensures |Kexes(log)| == Epoch(log) + if PlaceOf(log) == AfterKex then 1 else 0
  {
    if log != [] {
      Counts(log[..|log| - 1]);
    }
  }

  lemma {:induction false} Prefixes(log: seq<Entry>, k: nat)
    requires k <= |log|
    ensures Inits(log[..k]) <= Inits(log) && Kexes(log[..k]) <= Kexes(log) && Epoch(log[..k]) <= Epoch(log)
    ensures PlaceOf(log) != Wrong ==> PlaceOf(log[..k]) != Wrong
  {
    if k < |log| {
      Prefixes(log[..|log| - 1], k);
      assert log[..|log| - 1][..k] == log[..k];
    } else {
      assert log[..k] == log;
    }
  }

  predicate Has(log: seq<Entry>, n: nat) {
    n <= |Inits(log)| && n <= |Kexes(log)|
  }

  /** An exchange both logs know stays what it is. */
  lemma ExchangeStays(cl: seq<Entry>, sl: seq<Entry>, cl': seq<Entry>, sl': seq<Entry>, n: nat)
    requires Has(cl, n) && Has(sl, n)
    requires Inits(cl) <= Inits(cl') && Kexes(cl) <= Kexes(cl') && Inits(sl) <= Inits(sl') && Kexes(sl) <= Kexes(sl')
    ensures Exchange(cl', sl', n) == Exchange(cl, sl, n)
  {
  }

  // ----- the invariant -----

  /** CipherOf from one side: its own log first. */
  function Ciph(cfg: Rules, client: bool, alg: Transcript -> Alg, dir: Direction, own: seq<Entry>, other: seq<Entry>, n: nat): Cipher {
    if client then CipherOf(cfg, true, alg, dir, own, other, n) else CipherOf(cfg, false, alg, dir, other, own, n)
  }

  function SeenExchange(client: bool, own: seq<Entry>, other: seq<Entry>, n: nat): Transcript {
    if client then Exchange(own, other, n) else Exchange(other, own, n)
  }

  predicate StageOk(stage: Stage, client: bool, sentInit: bool, out: Place, in_: Place) {
    match stage
    case Normal => out == (if sentInit then AfterInit else Between) && in_ == Between
    case GotInit => out == (if sentInit then AfterInit else Between) && in_ == AfterInit
    case Ready => sentInit && out == AfterInit && in_ == AfterInit
    case Half => sentInit && out == (if client then AfterKex else AfterInit) && in_ == (if client then AfterInit else AfterKex)
    case Agreed => sentInit && out == AfterKex && in_ == AfterKex
    case Prepared => sentInit && out == AfterKex && in_ == AfterKex
    case Switched => sentInit && out == Between && in_ == AfterKex
    case Leaving => sentInit && out == Between && in_ == Between
    case Stopped => sentInit && out == in_ && (out == AfterInit || out == AfterKex)
  }

  /** The messages kept for the running exchange are those of that exchange. */
  predicate HalfSeen(init: Bytes, kex: Bytes, log: seq<Entry>) {
    && (PlaceOf(log) == AfterInit || PlaceOf(log) == AfterKex ==> init == Nth(Inits(log), Epoch(log) + 1))
    && (PlaceOf(log) == AfterKex ==> kex == Nth(Kexes(log), Epoch(log) + 1))
  }

  predicate SeenOk(client: bool, seen: Transcript, own: seq<Entry>, taken: seq<Entry>) {
    if client then HalfSeen(seen.clientInit, seen.clientKex, own) && HalfSeen(seen.serverInit, seen.serverKex, taken)
    else HalfSeen(seen.serverInit, seen.serverKex, own) && HalfSeen(seen.clientInit, seen.clientKex, taken)
  }

  /** Exchanges whose outcome a side has: those it has prepared. */
  function Prepareds(stage: Stage, own: seq<Entry>): nat {
    Epoch(own) + if stage == Prepared then 1 else 0
  }

  predicate QueuesOk(cfg: Rules, x: Side, other: seq<Entry>, taken: seq<Entry>) {
    && x.writer.pending == (if x.stage == Prepared then Some(Ciph(cfg, x.client, cfg.w, WriteDir(x.client), x.sent, other, Epoch(x.sent) + 1)) else None)
    && x.reader.pending == (if x.stage == Prepared || x.stage == Switched then
                              Some(Ciph(cfg, x.client, cfg.r, WriteDir(!x.client), x.sent, other, Epoch(taken) + 1))
                            else None)
  }

  predicate ConnsOk(cfg: Rules, x: Side, other: seq<Entry>, taken: seq<Entry>) {
    && x.writer.cipher == Ciph(cfg, x.client, cfg.w, WriteDir(x.client), x.sent, other, Epoch(x.sent))
    && x.writer.done == Sizes(x.sent) && x.writer.seqNum == |x.sent| % TWO32
    && x.reader.cipher == Ciph(cfg, x.client, cfg.r, WriteDir(!x.client), x.sent, other, Epoch(taken))
    && x.reader.done == Sizes(taken) && x.reader.seqNum == x.got % TWO32
  }

  predicate SessionOk(cfg: Rules, x: Side, other: seq<Entry>) {
    x.sessionID == if Prepareds(x.stage, x.sent) == 0 then None else Some(cfg.result(x.client, SeenExchange(x.client, x.sent, other, 1)).h)
  }

  predicate EntryOk(cfg: Rules, client: bool, own: seq<Entry>, other: seq<Entry>, k: nat)
    requires k < |own|
  {
    && own[k].seqNum == k % TWO32 && own[k].done == Sizes(own[..k])
    && own[k].cipher == Ciph(cfg, client, cfg.w, WriteDir(client), own, other, Epoch(own[..k]))
  }

  predicate LogOk(cfg: Rules, client: bool, own: seq<Entry>, other: seq<Entry>) {
    forall k | 0 <= k < |own| :: EntryOk(cfg, client, own, other, k)
  }

  predicate PlacesOk(x: Side, other: seq<Entry>) {
    && x.got <= |other|
    && StageOk(x.stage, x.client, x.sentInit, PlaceOf(x.sent), PlaceOf(other[..x.got]))
    && Epoch(x.sent) == Epoch(other[..x.got]) + if x.stage == Switched then 1 else 0
  }

  predicate SideOk(cfg: Rules, x: Side, other: seq<Entry>) {
    && PlacesOk(x, other)
    && SeenOk(x.client, x.seen, x.sent, other[..x.got])
    && QueuesOk(cfg, x, other, other[..x.got])
    && ConnsOk(cfg, x, other, other[..x.got])
    && SessionOk(cfg, x, other)
    && LogOk(cfg, x.client, x.sent, other)
  }

  predicate Pair(cfg: Rules, x: Side, p: Side) {
    SideOk(cfg, x, p.sent) && SideOk(cfg, p, x.sent) && x.client != p.client
  }

  predicate Inv(cfg: Rules, s: State) {
    Pair(cfg, s.client, s.server) && s.client.client
  }

  // ----- growing logs -----

  lemma OutNotWrong(x: Side, other: seq<Entry>)
    requires PlacesOk(x, other)
    ensures PlaceOf(x.sent) != Wrong && PlaceOf(other[..x.got]) != Wrong
  {
  }

  /** Both logs contain every exchange a side has prepared. */
  lemma BothHave(x: Side, other: seq<Entry>)
    requires PlacesOk(x, other)
    ensures Has(x.sent, Prepareds(x.stage, x.sent)) && Has(other, Prepareds(x.stage, x.sent))
    ensures x.stage == Agreed ==> Has(x.sent, Epoch(x.sent) + 1) && Has(other, Epoch(x.sent) + 1)
  {
    hide PlaceOf, Epoch, Inits, Kexes;
    OutNotWrong(x, other);
    Counts(x.sent);
    Counts(other[..x.got]);
    Prefixes(other, x.got);
  }

  predicate Extends(log: seq<Entry>, log': seq<Entry>) {
    Inits(log) <= Inits(log') && Kexes(log) <= Kexes(log')
  }

  lemma CiphStays(cfg: Rules, client: bool, alg: Transcript -> Alg, dir: Direction, own: seq<Entry>, other: seq<Entry>,
                  own': seq<Entry>, other': seq<Entry>, n: nat)
    requires Has(own, n) && Has(other, n) && Extends(own, own') && Extends(other, other')
    ensures Ciph(cfg, client, alg, dir, own', other', n) == Ciph(cfg, client, alg, dir, own, other, n)
    ensures n >= 1 ==> SeenExchange(client, own', other', 1) == SeenExchange(client, own, other, 1)
  {
    hide Exchange, Inits, Kexes;
    if n > 0 {
      if client {
        ExchangeStays(own, other, own', other', n);
        ExchangeStays(own, other, own', other', 1);
      } else {
        ExchangeStays(other, own, other', own', n);
        ExchangeStays(other, own, other', own', 1);
      }
    }
  }

  lemma ExtendsSnoc(log: seq<Entry>, e: Entry)
    ensures Extends(log, log + [e])
  {
    hide Inits, Kexes;
    Snoc(log, e);
  }

  lemma HasLess(log: seq<Entry>, n: nat, m: nat)
    requires Has(log, n) && m <= n
    ensures Has(log, m)
  {
  }

  lemma LogStays(cfg: Rules, client: bool, own: seq<Entry>, other: seq<Entry>, other': seq<Entry>, n: nat)
    requires LogOk(cfg, client, own, other) && Extends(other, other') && Has(own, n) && Has(other, n) && Epoch(own) <= n
    ensures LogOk(cfg, client, own, other')
  {
    hide Ciph, Epoch, Inits, Kexes, Sizes;
    forall k | 0 <= k < |own|
      ensures EntryOk(cfg, client, own, other', k)
    {
      assert EntryOk(cfg, client, own, other, k);
      Prefixes(own, k);
      CiphStays(cfg, client, cfg.w, WriteDir(client), own, other, own, other', Epoch(own[..k]));
    }
  }

  /** A side is not disturbed by what the other one sends. */
  lemma PeerSends(cfg: Rules, x: Side, other: seq<Entry>, e: Entry)
    requires SideOk(cfg, x, other)
    ensures SideOk(cfg, x, other + [e])
  {
    hide Ciph, Epoch, Inits, Kexes, Sizes, LogOk, PlaceOf, HalfSeen, SeenExchange, EntryOk, Has, Extends;
    assert (other + [e])[..x.got] == other[..x.got];
    ExtendsSnoc(other, e);
    ExtendsSelf(x.sent);
    BothHave(x, other);
    var n := Prepareds(x.stage, x.sent);
    var ei := Epoch(other[..x.got]);
    HasLess(x.sent, n, Epoch(x.sent));
    HasLess(other, n, Epoch(x.sent));
    HasLess(x.sent, n, ei);
    HasLess(other, n, ei);
    CiphStays(cfg, x.client, cfg.w, WriteDir(x.client), x.sent, other, x.sent, other + [e], Epoch(x.sent));
    CiphStays(cfg, x.client, cfg.w, WriteDir(x.client), x.sent, other, x.sent, other + [e], n);
    CiphStays(cfg, x.client, cfg.r, WriteDir(!x.client), x.sent, other, x.sent, other + [e], ei);
    CiphStays(cfg, x.client, cfg.r, WriteDir(!x.client), x.sent, other, x.sent, other + [e], n);
    LogStays(cfg, x.client, x.sent, other, other + [e], n);
  }

  lemma ExtendsSelf(log: seq<Entry>)
    ensures Extends(log, log)
  {
  }

  // ----- a side's own steps -----

  predicate Quiet(stage: Stage) {
    stage != Prepared && stage != Switched
  }

  function Written(x: Side, m: Msg): Entry {
    Entry(m, x.writer.cipher, x.writer.done, x.writer.seqNum)
  }

  /** The log with one more packet. */
  lemma OwnLog(cfg: Rules, x: Side, other: seq<Entry>, m: Msg)
    requires SideOk(cfg, x, other)
    ensures LogOk(cfg, x.client, x.sent + [Written(x, m)], other)
  {
    hide Ciph, Epoch, Inits, Kexes, Sizes, PlaceOf, SeenOk, QueuesOk, SessionOk, PlacesOk, Has, Extends;
    var own := x.sent;
    var own' := own + [Written(x, m)];
    var n := Prepareds(x.stage, own);
    BothHave(x, other);
    ExtendsSnoc(own, Written(x, m));
    ExtendsSelf(other);
    forall k | 0 <= k < |own'|
      ensures EntryOk(cfg, x.client, own', other, k)
    {
      assert own'[..k] == own[..k];
      Prefixes(own, k);
      HasLess(own, n, Epoch(own[..k]));
      HasLess(other, n, Epoch(own[..k]));
      CiphStays(cfg, x.client, cfg.w, WriteDir(x.client), own, other, own', other, Epoch(own[..k]));
      if k < |own| {
        assert EntryOk(cfg, x.client, own, other, k);
      } else {
        assert own[..k] == own;
      }
    }
  }

  /** What the connections say while one more packet, not NEWKEYS, goes out. */
  lemma OwnConns(cfg: Rules, x: Side, other: seq<Entry>, m: Msg)
    requires SideOk(cfg, x, other) && !m.NewKeys?
    ensures var x' := x.(sent := x.sent + [Written(x, m)], writer := Advance(x.writer, m).value);
            ConnsOk(cfg, x', other, other[..x.got]) && SessionOk(cfg, x', other) && Epoch(x'.sent) == Epoch(x.sent)
  {
    hide Ciph, Epoch, Inits, Kexes, Sizes, PlaceOf, SeenOk, QueuesOk, LogOk, SeenExchange, StageOk, Has, Extends;
    var own := x.sent;
    var own' := own + [Written(x, m)];
    var n := Prepareds(x.stage, own);
    var ei := Epoch(other[..x.got]);
    BothHave(x, other);
    ExtendsSnoc(own, Written(x, m));
    ExtendsSelf(other);
    Snoc(own, Written(x, m));
    HasLess(own, n, Epoch(own));
    HasLess(other, n, Epoch(own));
    HasLess(own, n, ei);
    HasLess(other, n, ei);
    CiphStays(cfg, x.client, cfg.w, WriteDir(x.client), own, other, own', other, Epoch(own));
    CiphStays(cfg, x.client, cfg.r, WriteDir(!x.client), own, other, own', other, ei);
    CiphStays(cfg, x.client, cfg.w, WriteDir(x.client), own, other, own', other, n);
  }

  /** Writing anything but NEWKEYS, together with a change of stage. */
  lemma WriteKeeps(cfg: Rules, x: Side, other: seq<Entry>, stage: Stage, sentInit: bool, seen: Transcript, m: Msg)
    requires SideOk(cfg, x, other) && !m.NewKeys? && Quiet(x.stage) && Quiet(stage)
    requires StageOk(stage, x.client, sentInit, NextPlace(PlaceOf(x.sent), m), PlaceOf(other[..x.got]))
    requires SeenOk(x.client, seen, x.sent + [Written(x, m)], other[..x.got])
    ensures var r := Write(x.(stage := stage, sentInit := sentInit, seen := seen), m); r.Next? && SideOk(cfg, r.state, other)
  {
    hide Ciph, Epoch, Inits, Kexes, Sizes, PlaceOf, SeenOk, LogOk, SeenExchange, StageOk, Has, Extends, Size;
    OwnLog(cfg, x, other, m);
    OwnConns(cfg, x, other, m);
    Snoc(x.sent, Written(x, m));
  }

  lemma SeenData(client: bool, seen: Transcript, own: seq<Entry>, taken: seq<Entry>, e: Entry)
    requires SeenOk(client, seen, own, taken) && e.msg.Data? && PlaceOf(own) == Between
    ensures SeenOk(client, seen, own + [e], taken)
  {
    hide PlaceOf, Epoch, Inits, Kexes;
    Snoc(own, e);
  }

  lemma HalfInit(init: Bytes, kex: Bytes, log: seq<Entry>, e: Entry)
    requires e.msg == KexInit(init) && PlaceOf(log) == Between
    ensures HalfSeen(init, kex, log + [e])
  {
    hide PlaceOf, Epoch, Inits, Kexes;
    Snoc(log, e);
    Counts(log);
  }

  lemma HalfKex(init: Bytes, kex: Bytes, old_: Bytes, log: seq<Entry>, e: Entry)
    requires e.msg == Kex(kex) && PlaceOf(log) == AfterInit && HalfSeen(init, old_, log)
    ensures HalfSeen(init, kex, log + [e])
  {
    hide PlaceOf, Epoch, Inits, Kexes;
    Snoc(log, e);
    Counts(log);
  }

  lemma DataKeeps(cfg: Rules, x: Side, other: seq<Entry>, n: nat)
    requires SideOk(cfg, x, other) && !x.sentInit
    ensures Write(x, Data(n)).Next? && SideOk(cfg, Write(x, Data(n)).state, other)
  {
    hide Ciph, Epoch, Inits, Kexes, Sizes, PlaceOf, SeenOk, LogOk, SeenExchange, Has, Extends, Size, QueuesOk, ConnsOk, SessionOk, Write;
    SeenData(x.client, x.seen, x.sent, other[..x.got], Written(x, Data(n)));
    WriteKeeps(cfg, x, other, x.stage, x.sentInit, x.seen, Data(n));
    assert x.(stage := x.stage, sentInit := x.sentInit, seen := x.seen) == x;
  }

  lemma InitKeeps(cfg: Rules, x: Side, other: seq<Entry>, p: Bytes, stage: Stage)
    requires SideOk(cfg, x, other) && !x.sentInit && (stage == x.stage || (x.stage == GotInit && (stage == Ready || stage == Stopped)))
    ensures SendInit(x, p, stage).Next? && SideOk(cfg, SendInit(x, p, stage).state, other)
  {
    hide Ciph, Epoch, Inits, Kexes, Sizes, PlaceOf, HalfSeen, LogOk, SeenExchange, Has, Extends, Size, QueuesOk, ConnsOk, SessionOk, Write;
    var seen := SeeInit(x, true, p).seen;
    HalfInit(p, if x.client then seen.clientKex else seen.serverKex, x.sent, Written(x, KexInit(p)));
    WriteKeeps(cfg, x, other, stage, true, seen, KexInit(p));
    assert x.(stage := stage, sentInit := true, seen := seen) == SeeInit(x, true, p).(sentInit := true, stage := stage);
  }

  lemma KexKeeps(cfg: Rules, x: Side, other: seq<Entry>, p: Bytes)
    requires SideOk(cfg, x, other) && SendsKex(x)
    ensures var x1 := SeeKex(x, true, p).(stage := if x.client then Half else Agreed);
            Write(x1, Kex(p)).Next? && SideOk(cfg, Write(x1, Kex(p)).state, other)
  {
    hide Ciph, Epoch, Inits, Kexes, Sizes, PlaceOf, HalfSeen, LogOk, SeenExchange, Has, Extends, Size, QueuesOk, ConnsOk, SessionOk, Write;
    var seen := SeeKex(x, true, p).seen;
    HalfKex(if x.client then seen.clientInit else seen.serverInit, p, if x.client then x.seen.clientKex else x.seen.serverKex,
            x.sent, Written(x, Kex(p)));
    var stage := if x.client then Half else Agreed;
    WriteKeeps(cfg, x, other, stage, x.sentInit, seen, Kex(p));
    assert x.(stage := stage, sentInit := x.sentInit, seen := seen) == SeeKex(x, true, p).(stage := stage);
  }

  lemma NewKeysKeeps(cfg: Rules, x: Side, other: seq<Entry>)
    requires SideOk(cfg, x, other) && x.stage == Prepared
    ensures var r := Write(x.(stage := Switched), NewKeys); r.Next? && SideOk(cfg, r.state, other)
  {
    hide Ciph, Epoch, Inits, Kexes, Sizes, PlaceOf, LogOk, SeenExchange, Has, Extends, Size;
    var e := Written(x, NewKeys);
    var own := x.sent;
    var n := Epoch(own) + 1;
    var ei := Epoch(other[..x.got]);
    OwnLog(cfg, x, other, NewKeys);
    BothHave(x, other);
    Snoc(own, e);
    ExtendsSnoc(own, e);
    ExtendsSelf(other);
    HasLess(own, n, ei);
    HasLess(other, n, ei);
    CiphStays(cfg, x.client, cfg.w, WriteDir(x.client), own, other, own + [e], other, n);
    CiphStays(cfg, x.client, cfg.r, WriteDir(!x.client), own, other, own + [e], other, n);
    CiphStays(cfg, x.client, cfg.r, WriteDir(!x.client), own, other, own + [e], other, ei);
  }

  /** prepareKeyChange finds both queues empty, and what it uses is the transcript of this exchange. */
  lemma PrepareKeeps(cfg: Rules, x: Side, other: seq<Entry>)
    requires SideOk(cfg, x, other) && x.stage == Agreed
    ensures DoPrepare(cfg, x).Next? && SideOk(cfg, DoPrepare(cfg, x).state, other)
  {
    hide Epoch, Inits, Kexes, Sizes, PlaceOf, LogOk, Has, Extends, Size, Nth;
    var n := Epoch(x.sent) + 1;
    SeenIsExchange(x, other);
  }

  lemma SeenIsExchange(x: Side, other: seq<Entry>)
    requires PlacesOk(x, other) && SeenOk(x.client, x.seen, x.sent, other[..x.got]) && x.stage == Agreed
    ensures x.seen == SeenExchange(x.client, x.sent, other, Epoch(x.sent) + 1)
  {
    hide Epoch, Inits, Kexes, PlaceOf;
    var taken := other[..x.got];
    Counts(taken);
    Prefixes(other, x.got);
  }

  // ----- reading -----

  /** The two directions use the same algorithms. */
  predicate SameAlg(cfg: Rules, t: Transcript) {
    Used(cfg.w(t)) == Used(cfg.r(t))
  }

  /** Both ends get the same result. */
  predicate SameResult(cfg: Rules, t: Transcript) {
    cfg.result(true, t) == cfg.result(false, t)
  }

  /** The transcript behind the cipher for the next packet x reads. */
  function ReadExchange(x: Side, p: Side): Transcript
    requires x.got <= |p.sent|
  {
    SeenExchange(x.client, x.sent, p.sent, Epoch(p.sent[..x.got]))
  }

  function FirstExchange(x: Side, p: Side): Transcript {
    SeenExchange(x.client, x.sent, p.sent, 1)
  }

  /** What the reader has and the writer had agree: the algorithms, the results of the exchange, and the session id, which is
      the hash of the first exchange. */
  predicate KeysAgree(cfg: Rules, t: Transcript, first: Transcript) {
    SameAlg(cfg, t) && SameResult(cfg, t) && cfg.result(true, first).h == cfg.result(false, first).h
  }

  /** Reader and writer agree on the sequence number and the position; and writers have the algorithm for client-to-server
      packets, readers the one for server-to-client packets, each with the results of its own side. */
  predicate InStep(cfg: Rules, x: Side, p: Side)
    requires x.got < |p.sent|
  {
    var (c, e) := (x.reader, p.sent[x.got]);
    && c.seqNum == e.seqNum && c.done == e.done
    && (Epoch(p.sent[..x.got]) == 0 ==> c.cipher == e.cipher == NoCipher)
    && (Epoch(p.sent[..x.got]) > 0 ==>
          var (t, first) := (ReadExchange(x, p), FirstExchange(x, p));
          var (mine, theirs) := (cfg.result(x.client, t), cfg.result(p.client, t));
          && c.cipher == Keyed(WriteDir(p.client), Used(cfg.r(t)), mine.k, mine.h, cfg.result(x.client, first).h)
          && e.cipher == Keyed(WriteDir(p.client), Used(cfg.w(t)), theirs.k, theirs.h, cfg.result(p.client, first).h))
  }

  lemma ReadsInStep(cfg: Rules, x: Side, p: Side)
    requires Pair(cfg, x, p) && x.got < |p.sent|
    ensures InStep(cfg, x, p)
  {
    hide Epoch, Inits, Kexes, Sizes, PlaceOf, SeenOk, QueuesOk, SessionOk, PlacesOk, Exchange;
    assert EntryOk(cfg, p.client, p.sent, x.sent, x.got);
  }

  /** What comes next follows the grammar. */
  lemma NextMessage(x: Side, p: Side)
    requires PlacesOk(x, p.sent) && PlacesOk(p, x.sent) && x.got < |p.sent|
    ensures NextPlace(PlaceOf(p.sent[..x.got]), p.sent[x.got].msg) != Wrong
    ensures p.sent[..x.got + 1] == p.sent[..x.got] + [p.sent[x.got]]
  {
    OutNotWrong(p, x.sent);
    assert p.sent[..x.got + 1] == p.sent[..x.got] + [p.sent[x.got]];
    Snoc(p.sent[..x.got], p.sent[x.got]);
    Prefixes(p.sent, x.got + 1);
  }

  /** NEWKEYS is read only where the queue is full, and empties it. */
  lemma ReadQueue(cfg: Rules, x: Side, p: Side)
    requires Pair(cfg, x, p) && x.got < |p.sent| && Reads(x)
    ensures var e := p.sent[x.got];
            && Epoch(p.sent[..x.got + 1]) == Epoch(p.sent[..x.got]) + (if e.msg.NewKeys? then 1 else 0)
            && Sizes(p.sent[..x.got + 1]) == (if e.msg.NewKeys? then [] else Sizes(p.sent[..x.got]) + [Size(e.msg)])
            && (e.msg.NewKeys? <==> x.stage == Switched)
            && x.writer.pending.None? && (x.reader.pending.Some? <==> x.stage == Switched)
  {
    hide Epoch, Inits, Kexes, Sizes, PlaceOf, SeenOk, LogOk, Ciph, SeenExchange, Size, ConnsOk, SessionOk;
    NextMessage(x, p);
    Snoc(p.sent[..x.got], p.sent[x.got]);
  }

  /** The reader's state after a packet it could decrypt. */
  lemma ReadConn(cfg: Rules, x: Side, p: Side)
    requires Pair(cfg, x, p) && x.got < |p.sent| && Reads(x)
    ensures var e := p.sent[x.got];
            var r := Advance(x.reader, e.msg);
            && r.Some?
            && var x' := x.(reader := r.value, got := x.got + 1, stage := if e.msg.NewKeys? then Leaving else x.stage);
            ConnsOk(cfg, x', p.sent, p.sent[..x'.got]) && QueuesOk(cfg, x', p.sent, p.sent[..x'.got]) && SessionOk(cfg, x', p.sent)
  {
    hide Epoch, Inits, Kexes, Sizes, PlacesOk, SeenOk, LogOk, Ciph, SeenExchange, Size, Reads;
    ReadQueue(cfg, x, p);
    assert x.stage != Prepared by { NotPrepared(x); }
  }

  lemma NotPrepared(x: Side)
    requires Reads(x)
    ensures x.stage != Prepared
  {
  }

  lemma SeenSame(client: bool, seen: Transcript, own: seq<Entry>, taken: seq<Entry>, e: Entry)
    requires SeenOk(client, seen, own, taken) && (e.msg.Data? || e.msg.NewKeys?)
    requires (PlaceOf(taken) == Between && e.msg.Data?) || (PlaceOf(taken) == AfterKex && e.msg.NewKeys?)
    ensures SeenOk(client, seen, own, taken + [e])
  {
    hide PlaceOf, Epoch, Inits, Kexes;
    Snoc(taken, e);
  }

  /** Reading fails only where the keys do not agree, and otherwise keeps the side. */
  /** What taking a packet makes of the transcript and the stage. */
  function SeenAfter(x: Side, m: Msg): Transcript {
    match m
    case KexInit(b) => SeeInit(x, false, b).seen
    case Kex(b) => SeeKex(x, false, b).seen
    case _ => x.seen
  }

  function StageAfter(x: Side, m: Msg): Stage {
    match m
    case Data(_) => x.stage
    case KexInit(_) => GotInit
    case Kex(_) => if x.stage == Ready then Half else Agreed
    case NewKeys => Leaving
  }

  /** One call of readPacket fails only for want of common keys. */
  lemma ReadOutcome(cfg: Rules, x: Side, p: Side)
    requires Pair(cfg, x, p) && x.got < |p.sent| && Reads(x)
    ensures var e := p.sent[x.got];
            var r := DoRead(x, e);
            && Advance(x.reader, e.msg).Some?
            && if r.Failed? then r.fault == CannotDecrypt && Epoch(p.sent[..x.got]) > 0 && !KeysAgree(cfg, ReadExchange(x, p), FirstExchange(x, p))
               else r == Next(x.(reader := Advance(x.reader, e.msg).value, got := x.got + 1,
                                 stage := StageAfter(x, e.msg), seen := SeenAfter(x, e.msg)))
  {
    hide Epoch, Inits, Kexes, Sizes, PlaceOf, HalfSeen, QueuesOk, SessionOk, ConnsOk, LogOk, SeenExchange, Advance, SeenOk;
    ReadsInStep(cfg, x, p);
    NextMessage(x, p);
    ReadConn(cfg, x, p);
  }

  /** And the transcript stays that of the exchange. */
  lemma SeenKept(cfg: Rules, x: Side, p: Side)
    requires Pair(cfg, x, p) && x.got < |p.sent| && Reads(x)
    ensures var e := p.sent[x.got];
            && SeenOk(x.client, SeenAfter(x, e.msg), x.sent, p.sent[..x.got + 1])
            && PlacesOk(x.(got := x.got + 1, stage := StageAfter(x, e.msg)), p.sent)
  {
    hide Epoch, Inits, Kexes, Sizes, PlaceOf, HalfSeen, QueuesOk, SessionOk, ConnsOk, LogOk, SeenExchange, Advance;
    var e := p.sent[x.got];
    var taken := p.sent[..x.got];
    NextMessage(x, p);
    Snoc(taken, e);
    match e.msg {
      case Data(_) => SeenSame(x.client, x.seen, x.sent, taken, e);
      case NewKeys => SeenSame(x.client, x.seen, x.sent, taken, e);
      case KexInit(b) => HalfInit(b, if x.client then x.seen.serverKex else x.seen.clientKex, taken, e);
      case Kex(b) =>
        HalfKex(if x.client then x.seen.serverInit else x.seen.clientInit, b, if x.client then x.seen.serverKex else x.seen.clientKex, taken, e);
    }
  }

  lemma ReadKeeps(cfg: Rules, x: Side, p: Side)
    requires Pair(cfg, x, p) && x.got < |p.sent| && Reads(x)
    ensures var r := DoRead(x, p.sent[x.got]);
            && (r.Failed? ==> r.fault == CannotDecrypt && Epoch(p.sent[..x.got]) > 0 && !KeysAgree(cfg, ReadExchange(x, p), FirstExchange(x, p)))
            && (r.Next? ==> SideOk(cfg, r.state, p.sent) && r.state.sent == x.sent && r.state.client == x.client)
            && !r.Disabled?
  {
    hide Epoch, Inits, Kexes, Sizes, PlaceOf, HalfSeen, QueuesOk, SessionOk, ConnsOk, LogOk, SeenExchange, Advance, DoRead, SeenOk, PlacesOk,
      SeenAfter, KeysAgree, ReadExchange, FirstExchange;
    var e := p.sent[x.got];
    ReadQueue(cfg, x, p);
    ReadOutcome(cfg, x, p);
    ReadConn(cfg, x, p);
    SeenKept(cfg, x, p);
    var y := x.(reader := Advance(x.reader, e.msg).value, got := x.got + 1, stage := if e.msg.NewKeys? then Leaving else x.stage);
    var r := DoRead(x, e);
    if r.Next? {
      PlacesOnly(x, r.state, p.sent);
      Relabel(cfg, y, p.sent, r.state.stage, r.state.seen);
      assert r.state == y.(stage := r.state.stage, seen := r.state.seen);
    }
  }

  /** PlacesOk looks at neither reader nor transcript. */
  lemma PlacesOnly(x: Side, y: Side, other: seq<Entry>)
    requires y == x.(reader := y.reader, got := y.got, stage := y.stage, seen := y.seen)
    ensures PlacesOk(y, other) <==> PlacesOk(x.(got := y.got, stage := y.stage), other)
  {
    hide Epoch, PlaceOf;
  }

  /** ConnsOk, QueuesOk and SessionOk look at the stage only for the two in which a queue is full. */
  lemma Relabel(cfg: Rules, x: Side, other: seq<Entry>, stage: Stage, seen: Transcript)
    requires Quiet(x.stage) && Quiet(stage) && x.got <= |other|
    requires ConnsOk(cfg, x, other, other[..x.got]) && QueuesOk(cfg, x, other, other[..x.got]) && SessionOk(cfg, x, other)
    ensures var x' := x.(stage := stage, seen := seen);
            ConnsOk(cfg, x', other, other[..x.got]) && QueuesOk(cfg, x', other, other[..x.got]) && SessionOk(cfg, x', other)
  {
    hide Epoch, Sizes, Ciph, SeenExchange;
  }

  // ----- every step keeps it -----

  predicate SentMore(x: Side, x': Side) {
    x'.client == x.client && (x'.sent == x.sent || (|x'.sent| == |x.sent| + 1 && x'.sent[..|x.sent|] == x.sent))
  }

  lemma PeerKeeps(cfg: Rules, x: Side, x': Side, p: Side)
    requires Pair(cfg, x, p) && SideOk(cfg, x', p.sent) && SentMore(x, x')
    ensures Pair(cfg, x', p)
  {
    hide SideOk;
    if x'.sent != x.sent {
      assert x'.sent == x.sent + [x'.sent[|x.sent|]];
      PeerSends(cfg, p, x.sent, x'.sent[|x.sent|]);
    }
  }

  lemma Sends(cfg: Rules, x: Side, peerSent: seq<Entry>, act: Action)
    requires !act.ReadPacket? && SideStep(cfg, x, peerSent, act).Next?
    ensures SentMore(x, SideStep(cfg, x, peerSent, act).state)
  {
    hide Advance;
  }

  lemma MoveKeeps(cfg: Rules, x: Side, other: seq<Entry>, stage: Stage, sentInit: bool)
    requires SideOk(cfg, x, other)
    requires || (x.stage == GotInit && x.sentInit && (stage == Ready || stage == Stopped) && sentInit)
             || (x.stage == Agreed && stage == Stopped && sentInit == x.sentInit)
             || (x.stage == Leaving && stage == Normal && !sentInit)
    ensures SideOk(cfg, x.(stage := stage, sentInit := sentInit), other)
  {
    hide Epoch, Inits, Kexes, Sizes, PlaceOf, SeenOk, LogOk, Ciph, SeenExchange;
  }

  lemma ActKeeps(cfg: Rules, x: Side, p: Side, act: Action)
    requires Pair(cfg, x, p) && !act.ReadPacket?
    ensures var r := SideStep(cfg, x, p.sent, act); !r.Failed? && (r.Next? ==> Pair(cfg, r.state, p))
  {
    hide SideOk, Write, DoPrepare, SendInit;
    match act {
      case WriteData(n) => if !x.sentInit { DataKeeps(cfg, x, p.sent, n); }
      case RequestKeyChange(b) => if !x.sentInit { InitKeeps(cfg, x, p.sent, b, x.stage); }
      case EnterExchange(b) =>
        if x.stage == GotInit {
          if x.sentInit {
            MoveKeeps(cfg, x, p.sent, Entered(cfg, x), true);
            assert x.(stage := Entered(cfg, x), sentInit := true) == x.(stage := Entered(cfg, x));
          } else {
            InitKeeps(cfg, x, p.sent, b, Entered(cfg, SeeInit(x, true, b)));
          }
        }
      case SendKex(b) => if SendsKex(x) { KexKeeps(cfg, x, p.sent, b); }
      case Prepare =>
        if x.stage == Agreed {
          PrepareKeeps(cfg, x, p.sent);
          if !cfg.succeeds(x.client, x.seen) {
            MoveKeeps(cfg, x, p.sent, Stopped, x.sentInit);
            assert x.(stage := Stopped, sentInit := x.sentInit) == x.(stage := Stopped);
          }
        }
      case SendNewKeys => if x.stage == Prepared { NewKeysKeeps(cfg, x, p.sent); }
      case Leave => if x.stage == Leaving { MoveKeeps(cfg, x, p.sent, Normal, false); }
    }
    var r := SideStep(cfg, x, p.sent, act);
    if r.Next? {
      Sends(cfg, x, p.sent, act);
      PeerKeeps(cfg, x, r.state, p);
    }
  }

  /** Why a step can fail. */
  predicate NoCommonKeys(cfg: Rules, x: Side, p: Side) {
    x.got < |p.sent| && Epoch(p.sent[..x.got]) > 0 && !KeysAgree(cfg, ReadExchange(x, p), FirstExchange(x, p))
  }

  lemma SideStepKeeps(cfg: Rules, x: Side, p: Side, act: Action)
    requires Pair(cfg, x, p)
    ensures var r := SideStep(cfg, x, p.sent, act);
            && (r.Failed? ==> act.ReadPacket? && r.fault == CannotDecrypt && NoCommonKeys(cfg, x, p))
            && (r.Next? ==> Pair(cfg, r.state, p))
  {
    hide SideOk, DoRead, Epoch, ReadExchange, KeysAgree, FirstExchange;
    if act.ReadPacket? {
      if Reads(x) && x.got < |p.sent| {
        ReadKeeps(cfg, x, p);
        var r := DoRead(x, p.sent[x.got]);
        if r.Next? {
          PeerKeeps(cfg, x, r.state, p);
        }
      }
    } else {
      ActKeeps(cfg, x, p, act);
    }
  }

  lemma PairSwaps(cfg: Rules, x: Side, p: Side)
    requires Pair(cfg, x, p)
    ensures Pair(cfg, p, x)
  {
    hide SideOk;
  }

  lemma StepKeeps(cfg: Rules, s: State, l: Label)
    requires Inv(cfg, s)
    ensures Step(cfg, s, l).Failed? ==> Step(cfg, s, l).fault == CannotDecrypt
    ensures Step(cfg, s, l).Failed? ==> NoCommonKeys(cfg, s.client, s.server) || NoCommonKeys(cfg, s.server, s.client)
    ensures Step(cfg, s, l).Next? ==> Inv(cfg, Step(cfg, s, l).state)
  {
    hide SideOk, SideStep, NoCommonKeys;
    match l {
      case AtClient(act) => SideStepKeeps(cfg, s.client, s.server, act);
      case AtServer(act) =>
        PairSwaps(cfg, s.client, s.server);
        SideStepKeeps(cfg, s.server, s.client, act);
        var r := SideStep(cfg, s.server, s.client.sent, act);
        if r.Next? {
          PairSwaps(cfg, r.state, s.client);
        }
    }
  }

  lemma {:induction false} RunKeeps(cfg: Rules, s: State, ls: seq<Label>)
    requires Inv(cfg, s)
    ensures Run(cfg, s, ls).Next? ==> Inv(cfg, Run(cfg, s, ls).state)
    decreases |ls|
  {
    hide Inv, Step;
    if ls != [] {
      StepKeeps(cfg, s, ls[0]);
      if Step(cfg, s, ls[0]).Next? {
        RunKeeps(cfg, Step(cfg, s, ls[0]).state, ls[1..]);
      }
    }
  }

  lemma InitHolds(cfg: Rules)
    ensures Inv(cfg, Init())
  {
  }

  predicate Reachable(cfg: Rules, s: State, ls: seq<Label>) {
    Run(cfg, Init(), ls) == Next(s)
  }

  lemma ReachableInv(cfg: Rules, s: State, ls: seq<Label>)
    requires Reachable(cfg, s, ls)
    ensures Pair(cfg, s.client, s.server) && Pair(cfg, s.server, s.client) && s.client.client && !s.server.client
  {
    hide SideOk, Run, Init;
    InitHolds(cfg);
    RunKeeps(cfg, Init(), ls);
  }

  // ----- the results, for every run -----

  predicate Agrees(cfg: Rules, t: Transcript) {
    SameAlg(cfg, t) && SameResult(cfg, t)
  }

  /** Every exchange that either side has completed settled on the same algorithms for both directions and gave both sides
      the same result. */
  ghost predicate ExchangesAgree(cfg: Rules, s: State) {
    forall n | 1 <= n && (n <= Epoch(s.client.sent) || n <= Epoch(s.server.sent)) :: Agrees(cfg, Exchange(s.client.sent, s.server.sent, n))
  }

  lemma CauseIsExchange(cfg: Rules, s: State)
    requires ExchangesAgree(cfg, s)
    requires s.client.client && !s.server.client
    ensures !NoCommonKeys(cfg, s.client, s.server) && !NoCommonKeys(cfg, s.server, s.client)
  {
    hide SameAlg, Exchange, Epoch;
    if s.client.got < |s.server.sent| {
      Prefixes(s.server.sent, s.client.got);
      assert Epoch(s.server.sent) >= 1 ==> Agrees(cfg, Exchange(s.client.sent, s.server.sent, 1));
    }
    if s.server.got < |s.client.sent| {
      Prefixes(s.client.sent, s.server.got);
      assert Epoch(s.client.sent) >= 1 ==> Agrees(cfg, Exchange(s.client.sent, s.server.sent, 1));
    }
  }

  /** The step of a run that fails: the state before it, in which one side is about to read a packet with keys that are not
      the ones it was written with. */
  lemma {:induction false} FailureFrom(cfg: Rules, s: State, ls: seq<Label>) returns (k: nat, t: State)
    requires Inv(cfg, s) && Run(cfg, s, ls).Failed?
    ensures k < |ls| && Run(cfg, s, ls[..k]) == Next(t) && Step(cfg, t, ls[k]) == Failed(CannotDecrypt)
    ensures Inv(cfg, t) && (NoCommonKeys(cfg, t.client, t.server) || NoCommonKeys(cfg, t.server, t.client))
    decreases |ls|
  {
    hide Inv, Step, ReadExchange, Epoch;
    StepKeeps(cfg, s, ls[0]);
    if Step(cfg, s, ls[0]).Next? {
      k, t := FailureFrom(cfg, Step(cfg, s, ls[0]).state, ls[1..]);
      assert ls[..k + 1][1..] == ls[1..][..k] && ls[1..][k] == ls[k + 1];
      k := k + 1;
    } else {
      k, t := 0, s;
    }
  }

  /** The only way for a run to fail is that a packet cannot be decrypted after an exchange, itself part of the run, that
      settled on different algorithms for the two directions or gave the two sides different results. Where all its
      exchanges agree, every packet can be read, no NEWKEYS comes without a new cipher waiting, and no queue is full when a new cipher is put into it. */
  lemma NoRunFails(cfg: Rules, ls: seq<Label>)
    ensures Run(cfg, Init(), ls).Failed? ==> Run(cfg, Init(), ls).fault == CannotDecrypt
    ensures Run(cfg, Init(), ls).Failed? ==> exists k, s | 0 <= k < |ls| && Run(cfg, Init(), ls[..k]) == Next(s) :: !ExchangesAgree(cfg, s)
  {
    hide Inv, Run, Init, Step, ExchangesAgree, NoCommonKeys;
    InitHolds(cfg);
    if Run(cfg, Init(), ls).Failed? {
      var k, s := FailureFrom(cfg, Init(), ls);
      FailsAt(cfg, Init(), ls, k, s);
      if ExchangesAgree(cfg, s) {
        ClientIsClient(cfg, s);
        CauseIsExchange(cfg, s);
      }
    }
  }

  lemma ClientIsClient(cfg: Rules, s: State)
    requires Inv(cfg, s)
    ensures s.client.client && !s.server.client
  {
    hide SideOk;
  }

  lemma {:induction false} FailsAt(cfg: Rules, s: State, ls: seq<Label>, k: nat, t: State)
    requires k < |ls| && Run(cfg, s, ls[..k]) == Next(t) && Step(cfg, t, ls[k]) == Failed(CannotDecrypt)
    ensures Run(cfg, s, ls) == Failed(CannotDecrypt)
    decreases |ls|
  {
    hide Step;
    if k > 0 {
      assert ls[..k][1..] == ls[1..][..k - 1];
      FailsAt(cfg, Step(cfg, s, ls[0]).state, ls[1..], k - 1, t);
    }
  }

  /** And in any run the next packet for either side is read with the sequence number, epoch and position it was written
      with; it can be read if and only if it was sent before the first NEWKEYS, or the exchange settled on ciphers and MACs,
      as far as they are used, that are the same for both directions, and both sides have the same keys and session id. */
  lemma NextPacketInStep(cfg: Rules, s: State, ls: seq<Label>, client: bool)
    requires Reachable(cfg, s, ls)
    requires if client then s.client.got < |s.server.sent| else s.server.got < |s.client.sent|
    ensures var (x, p) := if client then (s.client, s.server) else (s.server, s.client);
            && InStep(cfg, x, p)
            && (Read(x, p.sent[x.got]) == Failed(CannotDecrypt) <==>
                  Epoch(p.sent[..x.got]) > 0 && !KeysAgree(cfg, ReadExchange(x, p), FirstExchange(x, p)))
  {
    hide Reachable, Epoch, ReadExchange, FirstExchange, Advance, Pair, Used;
    ReachableInv(cfg, s, ls);
    var (x, p) := if client then (s.client, s.server) else (s.server, s.client);
    ReadsInStep(cfg, x, p);
  }

  /** Sequence numbers count all packets ever sent or read; they are never reset. */
  lemma SequenceNumbersCountAll(cfg: Rules, s: State, ls: seq<Label>)
    requires Reachable(cfg, s, ls)
    ensures s.client.writer.seqNum == |s.client.sent| % TWO32 && s.server.writer.seqNum == |s.server.sent| % TWO32
    ensures s.client.reader.seqNum == s.client.got % TWO32 && s.server.reader.seqNum == s.server.got % TWO32
    ensures forall k | 0 <= k < |s.client.sent| :: s.client.sent[k].seqNum == k % TWO32
    ensures forall k | 0 <= k < |s.server.sent| :: s.server.sent[k].seqNum == k % TWO32
  {
    hide Reachable, Epoch, Inits, Kexes, Sizes, PlaceOf, Ciph, PlacesOk, SeenOk, QueuesOk, SessionOk;
    ReachableInv(cfg, s, ls);
    forall k | 0 <= k < |s.client.sent| ensures s.client.sent[k].seqNum == k % TWO32 {
      assert EntryOk(cfg, true, s.client.sent, s.server.sent, k);
    }
    forall k | 0 <= k < |s.server.sent| ensures s.server.sent[k].seqNum == k % TWO32 {
      assert EntryOk(cfg, false, s.server.sent, s.client.sent, k);
    }
  }

  predicate HasDir(c: Cipher, dir: Direction) {
    c.Keyed? ==> c.dir == dir
  }

  /** A connectionState and the cipher in its queue have the keys of this direction. */
  predicate ConnHasDir(c: ConnState, dir: Direction) {
    HasDir(c.cipher, dir) && (c.pending.Some? ==> HasDir(c.pending.value, dir))
  }

  /** What the client writes, waiting ciphers included, is under the client's keys at both ends, and what the server writes under
      the server's; so no end ever has the same keys for both directions. */
  lemma EachDirectionHasItsKeys(cfg: Rules, s: State, ls: seq<Label>)
    requires Reachable(cfg, s, ls)
    ensures ConnHasDir(s.client.writer, ClientKeys) && ConnHasDir(s.server.reader, ClientKeys)
    ensures ConnHasDir(s.server.writer, ServerKeys) && ConnHasDir(s.client.reader, ServerKeys)
    ensures forall k | 0 <= k < |s.client.sent| :: HasDir(s.client.sent[k].cipher, ClientKeys)
    ensures forall k | 0 <= k < |s.server.sent| :: HasDir(s.server.sent[k].cipher, ServerKeys)
    ensures s.client.writer.cipher.Keyed? ==> s.client.writer.cipher != s.client.reader.cipher
    ensures s.server.writer.cipher.Keyed? ==> s.server.writer.cipher != s.server.reader.cipher
  {
    hide Reachable, Epoch, Inits, Kexes, Sizes, PlaceOf, PlacesOk, SeenOk, SessionOk, Exchange;
    ReachableInv(cfg, s, ls);
    forall k | 0 <= k < |s.client.sent| ensures HasDir(s.client.sent[k].cipher, ClientKeys) {
      assert EntryOk(cfg, true, s.client.sent, s.server.sent, k);
    }
    forall k | 0 <= k < |s.server.sent| ensures HasDir(s.server.sent[k].cipher, ServerKeys) {
      assert EntryOk(cfg, false, s.server.sent, s.client.sent, k);
    }
  }

  /** Once set, the session id of either side is its hash of the first exchange. */
  lemma SessionIdIsFirstHash(cfg: Rules, s: State, ls: seq<Label>)
    requires Reachable(cfg, s, ls)
    ensures var first := Exchange(s.client.sent, s.server.sent, 1);
            && (s.client.sessionID.Some? ==> s.client.sessionID.value == cfg.result(true, first).h)
            && (s.server.sessionID.Some? ==> s.server.sessionID.value == cfg.result(false, first).h)
    ensures Epoch(s.client.sent) > 0 ==> s.client.sessionID.Some?
    ensures Epoch(s.server.sent) > 0 ==> s.server.sessionID.Some?
  {
    hide Reachable, Epoch, Exchange, PlacesOk, SeenOk, QueuesOk, ConnsOk, LogOk;
    ReachableInv(cfg, s, ls);
  }

  /** The one-slot queues: empty just before prepareKeyChange, full when NEWKEYS goes out, and full when the next packet
      to be read is NEWKEYS. */
  lemma QueuesAlternate(cfg: Rules, s: State, ls: seq<Label>, client: bool)
    requires Reachable(cfg, s, ls)
    ensures var (x, p) := if client then (s.client, s.server) else (s.server, s.client);
            && (x.stage == Agreed ==> x.reader.pending.None? && x.writer.pending.None?)
            && (x.stage == Prepared ==> x.writer.pending.Some?)
            && (Reads(x) && x.got < |p.sent| && p.sent[x.got].msg.NewKeys? ==> x.reader.pending.Some?)
  {
    hide Reachable, Epoch, Ciph, PlaceOf, SeenOk, SessionOk, ConnsOk, LogOk;
    ReachableInv(cfg, s, ls);
    var (x, p) := if client then (s.client, s.server) else (s.server, s.client);
    if x.got < |p.sent| {
      NextMessage(x, p);
    }
  }

  /** What a side sends follows (data* KEXINIT kex NEWKEYS)*, and the two sides are never more than one exchange apart. */
  lemma SentFollowsGrammar(cfg: Rules, s: State, ls: seq<Label>)
    requires Reachable(cfg, s, ls)
    ensures PlaceOf(s.client.sent) != Wrong && PlaceOf(s.server.sent) != Wrong
    ensures -1 <= Epoch(s.client.sent) - Epoch(s.server.sent) <= 1
  {
    hide Reachable, Epoch, PlaceOf, SeenOk, SessionOk, ConnsOk, LogOk, QueuesOk;
    ReachableInv(cfg, s, ls);
    OutNotWrong(s.client, s.server.sent);
    OutNotWrong(s.server, s.client.sent);
    Prefixes(s.client.sent, s.server.got);
    Prefixes(s.server.sent, s.client.got);
  }

  /** A side waits for the peer: it has read everything and wants more. */
  predicate Starved(x: Side, p: Side) {
    Reads(x) && x.got == |p.sent|
  }

  /** What a side does next when it is not waiting for a packet. */
  function NextAction(x: Side): Action {
    match x.stage
    case GotInit => EnterExchange([])
    case Agreed => Prepare
    case Prepared => SendNewKeys
    case Leaving => Leave
    case _ => if SendsKex(x) then SendKex([]) else ReadPacket
  }

  lemma NotDisabled(cfg: Rules, x: Side, peerSent: seq<Entry>)
    requires x.stage != Stopped && !(Reads(x) && x.got == |peerSent|) && x.got <= |peerSent|
    ensures !SideStep(cfg, x, peerSent, NextAction(x)).Disabled?
  {
    hide Advance;
  }

  /** A side that has not stopped and does not wait for a packet can go on. */
  lemma CanAct(cfg: Rules, s: State, ls: seq<Label>, client: bool)
    requires Reachable(cfg, s, ls) && ExchangesAgree(cfg, s) && (if client then s.client else s.server).stage != Stopped
    requires !(if client then Starved(s.client, s.server) else Starved(s.server, s.client))
    ensures var (x, p) := if client then (s.client, s.server) else (s.server, s.client); SideStep(cfg, x, p.sent, NextAction(x)).Next?
  {
    hide Reachable, Epoch, SideOk, SideStep, ReadExchange, NextAction, Reads, ExchangesAgree, NoCommonKeys;
    ReachableInv(cfg, s, ls);
    CauseIsExchange(cfg, s);
    var (x, p) := if client then (s.client, s.server) else (s.server, s.client);
    SideStepKeeps(cfg, x, p, NextAction(x));
    Behind(cfg, x, p);
    NotDisabled(cfg, x, p.sent);
  }

  lemma Behind(cfg: Rules, x: Side, p: Side)
    requires Pair(cfg, x, p)
    ensures x.got <= |p.sent|
  {
  }

  /** No exchange gets stuck: two sides that both wait for a packet are between exchanges. */
  lemma ExchangesDoNotDeadlock(cfg: Rules, s: State, ls: seq<Label>)
    requires Reachable(cfg, s, ls) && Starved(s.client, s.server) && Starved(s.server, s.client)
    ensures s.client.stage == Normal && s.server.stage == Normal && !s.client.sentInit && !s.server.sentInit
    ensures Epoch(s.client.sent) == Epoch(s.server.sent)
  {
    hide Reachable, Epoch, PlaceOf, SeenOk, SessionOk, ConnsOk, LogOk, QueuesOk;
    ReachableInv(cfg, s, ls);
    assert s.server.sent[..s.client.got] == s.server.sent && s.client.sent[..s.server.got] == s.client.sent;
  }
}
