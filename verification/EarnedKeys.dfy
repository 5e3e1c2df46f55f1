/** Keys are only ever changed to those of an exchange whose negotiation and whose key exchange have succeeded at this end; for a
    client that includes its check of the server's key and signature. */
module EarnedKeys {
  import opened ByteStrings
  import opened Transport

  /** The two KEXINITs have algorithms in common, and the exchange has succeeded at this end. */
  predicate Good(cfg: Rules, client: bool, t: Transcript) {
    cfg.finds(t.clientInit, t.serverInit) && cfg.succeeds(client, t)
  }

  predicate UnderWay(stage: Stage) {
    stage == Ready || stage == Half || stage == Agreed
  }

  ghost predicate Earned(cfg: Rules, x: Side, other: seq<Entry>) {
    && (forall n | 1 <= n <= Prepareds(x.stage, x.sent) :: Good(cfg, x.client, SeenExchange(x.client, x.sent, other, n)))
    && (UnderWay(x.stage) ==> cfg.finds(x.seen.clientInit, x.seen.serverInit))
  }

  /** What an end's own step does to what Earned speaks of. */
  lemma OwnStep(cfg: Rules, x: Side, peerSent: seq<Entry>, act: Action)
    requires PlacesOk(x, peerSent) && SideStep(cfg, x, peerSent, act).Next?
    ensures var y := SideStep(cfg, x, peerSent, act).state;
            && y.client == x.client && (y.sent == x.sent || (|y.sent| == |x.sent| + 1 && y.sent[..|x.sent|] == x.sent))
            && (act.Prepare? && y.stage == Prepared ==> y.sent == x.sent && x.stage == Agreed && cfg.succeeds(x.client, x.seen))
            && (!(act.Prepare? && y.stage == Prepared) ==> Prepareds(y.stage, y.sent) <= Prepareds(x.stage, x.sent))
            && (UnderWay(y.stage) && !UnderWay(x.stage) ==> cfg.finds(y.seen.clientInit, y.seen.serverInit))
            && (UnderWay(y.stage) && UnderWay(x.stage) ==>
                  y.seen.clientInit == x.seen.clientInit && y.seen.serverInit == x.seen.serverInit)
  {
    hide PlaceOf, Epoch, Inits, Kexes, Sizes, Advance, Size;
    var y := SideStep(cfg, x, peerSent, act).state;
    if |y.sent| == |x.sent| + 1 {
      Snoc(x.sent, y.sent[|x.sent|]);
      assert y.sent == x.sent + [y.sent[|x.sent|]];
    }
  }

  lemma ExchangesStay(x: Side, other: seq<Entry>, own': seq<Entry>, other': seq<Entry>, n: nat)
    requires PlacesOk(x, other) && n <= Prepareds(x.stage, x.sent) && Extends(x.sent, own') && Extends(other, other')
    ensures SeenExchange(x.client, own', other', n) == SeenExchange(x.client, x.sent, other, n)
  {
    hide PlacesOk, Exchange, Inits, Kexes, Epoch;
    BothHave(x, other);
    HasLess(x.sent, Prepareds(x.stage, x.sent), n);
    HasLess(other, Prepareds(x.stage, x.sent), n);
    if x.client {
      ExchangeStays(x.sent, other, own', other', n);
    } else {
      ExchangeStays(other, x.sent, other', own', n);
    }
  }

  lemma LogGrows(log: seq<Entry>, log': seq<Entry>)
    requires log' == log || (|log'| == |log| + 1 && log'[..|log|] == log)
    ensures Extends(log, log')
  {
    hide Inits, Kexes, Extends;
    if log' == log {
      ExtendsSelf(log);
    } else {
      assert log' == log + [log'[|log|]];
      ExtendsSnoc(log, log'[|log|]);
    }
  }

  lemma OwnStepEarns(cfg: Rules, x: Side, p: Side, act: Action)
    requires Pair(cfg, x, p) && Earned(cfg, x, p.sent) && SideStep(cfg, x, p.sent, act).Next?
    ensures Earned(cfg, SideStep(cfg, x, p.sent, act).state, p.sent)
  {
    hide PlaceOf, Epoch, Exchange, SideStep, QueuesOk, ConnsOk, SessionOk, LogOk, Extends, SeenOk, PlacesOk, SeenExchange;
    var y := SideStep(cfg, x, p.sent, act).state;
    OwnStep(cfg, x, p.sent, act);
    LogGrows(x.sent, y.sent);
    ExtendsSelf(p.sent);
    var k := Prepareds(x.stage, x.sent);
    forall n | 1 <= n <= Prepareds(y.stage, y.sent)
      ensures Good(cfg, y.client, SeenExchange(y.client, y.sent, p.sent, n))
    {
      if n <= k {
        ExchangesStay(x, p.sent, y.sent, p.sent, n);
      } else {
        SeenIsExchange(x, p.sent);
      }
    }
  }

  lemma PeerStepEarns(cfg: Rules, x: Side, other: seq<Entry>, other': seq<Entry>)
    requires PlacesOk(x, other) && Earned(cfg, x, other) && Extends(other, other')
    ensures Earned(cfg, x, other')
  {
    hide PlaceOf, Epoch, Exchange, Extends, PlacesOk, SeenExchange;
    ExtendsSelf(x.sent);
    forall n | 1 <= n <= Prepareds(x.stage, x.sent)
      ensures Good(cfg, x.client, SeenExchange(x.client, x.sent, other', n))
    {
      ExchangesStay(x, other, x.sent, other', n);
    }
  }

  ghost predicate BothEarned(cfg: Rules, s: State) {
    Inv(cfg, s) && Earned(cfg, s.client, s.server.sent) && Earned(cfg, s.server, s.client.sent)
  }

  lemma StepEarns(cfg: Rules, s: State, l: Label)
    requires BothEarned(cfg, s) && Step(cfg, s, l).Next?
    ensures BothEarned(cfg, Step(cfg, s, l).state)
  {
    hide SideStep, Earned, Extends, PlacesOk, SeenOk, QueuesOk, ConnsOk, SessionOk, LogOk, NoCommonKeys;
    var t := Step(cfg, s, l).state;
    StepKeeps(cfg, s, l);
    PairSwaps(cfg, s.client, s.server);
    match l {
      case AtClient(act) =>
        OwnStep(cfg, s.client, s.server.sent, act);
        OwnStepEarns(cfg, s.client, s.server, act);
        LogGrows(s.client.sent, t.client.sent);
        PeerStepEarns(cfg, s.server, s.client.sent, t.client.sent);
      case AtServer(act) =>
        OwnStep(cfg, s.server, s.client.sent, act);
        OwnStepEarns(cfg, s.server, s.client, act);
        LogGrows(s.server.sent, t.server.sent);
        PeerStepEarns(cfg, s.client, s.server.sent, t.server.sent);
    }
  }

  lemma {:induction false} RunEarns(cfg: Rules, s: State, ls: seq<Label>)
    requires BothEarned(cfg, s)
    ensures Run(cfg, s, ls).Next? ==> BothEarned(cfg, Run(cfg, s, ls).state)
    decreases |ls|
  {
    hide BothEarned, Step;
    if ls != [] && Step(cfg, s, ls[0]).Next? {
      StepEarns(cfg, s, ls[0]);
      RunEarns(cfg, Step(cfg, s, ls[0]).state, ls[1..]);
    }
  }

  /** In every reachable state, every exchange that an end has changed its keys for, or has prepared to, has common algorithms and
      has succeeded at that end. */
  lemma NoKeysWithoutSuccess(cfg: Rules, s: State, ls: seq<Label>, client: bool, n: nat)
    requires Reachable(cfg, s, ls)
    requires var x := if client then s.client else s.server; 1 <= n <= Epoch(x.sent) + if x.stage == Prepared then 1 else 0
    ensures Good(cfg, client, Exchange(s.client.sent, s.server.sent, n))
  {
    hide Run, Init, Epoch, Exchange, PlacesOk, SeenOk, QueuesOk, ConnsOk, SessionOk, LogOk;
    BeginningEarns(cfg);
    RunEarns(cfg, Init(), ls);
    ReachableInv(cfg, s, ls);
    var (x, p) := if client then (s.client, s.server) else (s.server, s.client);
    assert Earned(cfg, x, p.sent);
    assert Good(cfg, x.client, SeenExchange(x.client, x.sent, p.sent, n));
  }

  lemma BeginningEarns(cfg: Rules)
    ensures BothEarned(cfg, Init())
  {
    InitHolds(cfg);
  }

  /** And a side whose exchange has not succeeded stops: it never sends or reads anything again. */
  lemma StopsForGood(cfg: Rules, x: Side, peerSent: seq<Entry>, act: Action)
    requires x.stage == Agreed && !cfg.succeeds(x.client, x.seen)
    ensures SideStep(cfg, x, peerSent, Prepare) == Next(x.(stage := Stopped))
    ensures x.sentInit ==> SideStep(cfg, x.(stage := Stopped), peerSent, act).Disabled?
  {
  }
}
