/** One endpoint's handshakeTransport (handshake.go) as a state machine: any number of writer goroutines and other
    callers of requestKeyChange, one read loop, the mutex mu with its condition variable, and a peer and a
    connection that do as they please. A call of the connection's writePacket takes time, so that others may move
    while it runs; the code between taking and giving up the mutex is otherwise one step. */
module Handshake {
  import opened ByteStrings
  import opened Results

  const TWO64: nat := TWO32 * TWO32

  /** What goes out on the wire: packets of the layers above, and the three kinds of the key exchange itself. */
  datatype Packet = Data(len: nat) | KexInit | Kex | NewKeys

  /** A packet given to writePacket; forbidden ones start with the number of KEXINIT or NEWKEYS. */
  datatype Request = Request(len: nat, forbidden: bool)

  datatype Writer = Idle | Waiting(p: Request) | Busy

  /** Who holds mu, and what for. Leaked is the mutex after writePacket has returned writeError without
      unlocking it. */
  datatype Holder = Free | WriterInit(i: nat, p: Request) | WriterData(i: nat, p: Request) | LoopRequest | LoopInit | ExternalInit | Leaked

  /** The read loop: at its top, in the connection's readPacket, about to call sendKexInit for an exchange, between
      the writes of an exchange, in one of them, about to leave the exchange, or gone. */
  datatype Loop = Top | Reading | Entering | Exchanging(newKeysSent: bool) | Writing(m: Packet) | Leaving(failed: bool) | Dead

  /** How a call of the connection's writePacket ends. After a weak failure later writes succeed, as far as this end can
      tell (a packet that is too large, no random bytes for the padding; with AES-GCM the latter leaves four bytes in
      front of the next packet, which the peer then cannot read); after a break every later write fails. */
  datatype Written = Done | Weak | Broken

  /** The handshakeTransport, its threads and its connection, with what the connection has sent and how many KEXINITs
      of writers were lost to weak failures: since the last one that left, and in all. */
  datatype State = State(
    threshold: nat, maxLen: nat,
    writers: seq<Writer>, loop: Loop, holder: Holder,
    sentInit: bool, written: nat, readSince: nat, writeError: bool, broken: bool,
    sent: seq<Packet>, lost: nat, lostInAll: nat)

  datatype Label =
    | StartWrite(i: nat, p: Request)
    | Wake(i: nat)
    | StartRequest
    | FinishInit(how: Written)
    | FinishData(how: Written)
    | LoopCheck
    | LoopRead(len: nat, isKexInit: bool)
    | LoopReadFails
    | LoopEnter
    | ExchangeWrite(m: Packet)
    | FinishExchangeWrite(how: Written, checked: bool)
    | ExchangeFails
    | PeerNewKeys
    | LoopLeave

  // ----- the steps; None where a step is not possible or would wait -----

  /** writePacket after its threshold test, with mu held. */
  function Proceed(s: State, i: nat, p: Request): State
    requires i < |s.writers|
  {
    if s.sentInit then s.(writers := s.writers[i := Waiting(p)], holder := Free)
    else if s.writeError then s.(writers := s.writers[i := Idle], holder := Leaked)
    else
      var s' := s.(written := (s.written + p.len) % TWO64);
      if p.forbidden then s'.(writers := s.writers[i := Idle], holder := Free)
      else s'.(writers := s.writers[i := Busy], holder := WriterData(i, p))
  }

  function DoStartWrite(s: State, i: nat, p: Request): Option<State> {
    if i < |s.writers| && s.writers[i] == Idle && s.holder == Free && p.len <= s.maxLen then
      if s.written > s.threshold && !s.sentInit then
        Some(s.(writers := s.writers[i := Busy], holder := WriterInit(i, p)))
      else Some(Proceed(s, i, p))
    else None
  }

  function DoWake(s: State, i: nat): Option<State> {
    if i < |s.writers| && s.writers[i].Waiting? && s.holder == Free then Some(Proceed(s, i, s.writers[i].p)) else None
  }

  function DoStartRequest(s: State): Option<State> {
    if s.holder == Free then Some(if s.sentInit then s else s.(holder := ExternalInit)) else None
  }

  /** One packet leaving, or not. */
  function Wrote(s: State, m: Packet, how: Written): State {
    match how
    case Done => s.(sent := s.sent + [m])
    case Weak => s
    case Broken => s.(broken := true)
  }

  predicate CanEnd(s: State, how: Written) {
    how.Done? ==> !s.broken
  }

  /** What a call of sendKexInitLocked that writes leaves behind. */
  function AfterInit(s: State, how: Written): State {
    var s1 := Wrote(s, KexInit, how).(sentInit := how.Done?);
    if how.Done? then s1.(lost := 0)
    else if how.Weak? && s.holder.WriterInit? then s1.(lost := s.lost + 1, lostInAll := s.lostInAll + 1)
    else s1
  }

  /** The end of sendKexInitLocked's write, and what its caller does next. */
  function DoFinishInit(s: State, how: Written): Option<State> {
    if !CanEnd(s, how) then None
    else
      var s1 := AfterInit(s, how);
      match s.holder
      case WriterInit(i, p) => if i < |s.writers| then Some(Proceed(s1, i, p)) else None
      case LoopRequest => Some(s1.(holder := Free, loop := if how.Done? then Reading else Dead))
      case LoopInit => Some(s1.(holder := Free, loop := if how.Done? then Exchanging(false) else Leaving(true)))
      case ExternalInit => Some(s1.(holder := Free))
      case _ => None
  }

  function DoFinishData(s: State, how: Written): Option<State> {
    if s.holder.WriterData? && s.holder.i < |s.writers| && CanEnd(s, how) then
      Some(Wrote(s, Data(s.holder.p.len), how).(writers := s.writers[s.holder.i := Idle], holder := Free))
    else None
  }

  /** The test at the top of readOnePacket. */
  function DoLoopCheck(s: State): Option<State> {
    if s.loop != Top then None
    else if s.readSince <= s.threshold then Some(s.(loop := Reading))
    else if s.holder != Free then None
    else if s.sentInit then Some(s.(loop := Reading))
    else Some(s.(holder := LoopRequest))
  }

  function DoLoopRead(s: State, len: nat, isKexInit: bool): Option<State> {
    if s.loop == Reading then
      Some(s.(readSince := (s.readSince + len) % TWO64, loop := if isKexInit then Entering else Top))
    else None
  }

  function DoLoopEnter(s: State): Option<State> {
    if s.loop == Entering && s.holder == Free then
      Some(if s.sentInit then s.(loop := Exchanging(false)) else s.(holder := LoopInit))
    else None
  }

  function DoExchangeWrite(s: State, m: Packet): Option<State> {
    if s.loop == Exchanging(false) && (m == Kex || m == NewKeys) then Some(s.(loop := Writing(m))) else None
  }

  /** The error of a write within an exchange ends it, except for the reply of a Diffie-Hellman server, which does not
      look at it. */
  function DoFinishExchangeWrite(s: State, how: Written, checked: bool): Option<State> {
    if s.loop.Writing? && CanEnd(s, how) && (checked || s.loop.m == Kex) then
      Some(Wrote(s, s.loop.m, how).(loop := if how.Done? || !checked then Exchanging(s.loop.m == NewKeys) else Leaving(true)))
    else None
  }

  /** The part of readOnePacket after enterKeyExchange. A failure closes the connection, which breaks it. */
  function DoLoopLeave(s: State): Option<State> {
    if s.loop.Leaving? && s.holder == Free then
      var f := s.loop.failed;
      Some(s.(broken := s.broken || f, writeError := s.writeError || f, sentInit := false, written := 0,
              readSince := if f then s.readSince else 0, loop := if f then Dead else Top))
    else None
  }

  function Step(s: State, l: Label): Option<State> {
    match l
    case StartWrite(i, p) => DoStartWrite(s, i, p)
    case Wake(i) => DoWake(s, i)
    case StartRequest => DoStartRequest(s)
    case FinishInit(how) => DoFinishInit(s, how)
    case FinishData(how) => DoFinishData(s, how)
    case LoopCheck => DoLoopCheck(s)
    case LoopRead(len, isKexInit) => DoLoopRead(s, len, isKexInit)
    case LoopReadFails => if s.loop == Reading then Some(s.(loop := Dead)) else None
    case LoopEnter => DoLoopEnter(s)
    case ExchangeWrite(m) => DoExchangeWrite(s, m)
    case FinishExchangeWrite(how, checked) => DoFinishExchangeWrite(s, how, checked)
    case ExchangeFails => if s.loop.Exchanging? then Some(s.(loop := Leaving(true))) else None
    case PeerNewKeys => if s.loop == Exchanging(true) then Some(s.(loop := Leaving(false))) else None
    case LoopLeave => DoLoopLeave(s)
  }

  function Init(threshold: nat, maxLen: nat, writers: nat): State {
    State(threshold, maxLen, seq(writers, _ => Idle), Top, Free, false, 0, 0, false, false, [], 0, 0)
  }

  function Run(s: State, ls: seq<Label>): Option<State>
    decreases |ls|
  {
    if ls == [] then Some(s)
    else match Step(s, ls[0])
      case Some(s') => Run(s', ls[1..])
      case None => None
  }

  // ----- the grammar of what is sent -----

  /** Where a trace stands in (data* KEXINIT kex* NEWKEYS)*: between exchanges or inside one; None if it is no
      prefix of such a sequence. */
  datatype Place = Between | Inside

  function Next(at: Place, m: Packet): Option<Place> {
    match (at, m)
    case (Between, Data(_)) => Some(Between)
    case (Between, KexInit) => Some(Inside)
    case (Inside, Kex) => Some(Inside)
    case (Inside, NewKeys) => Some(Between)
    case _ => None
  }

  function Parse(t: seq<Packet>): Option<Place> {
    if t == [] then Some(Between)
    else match Parse(t[..|t| - 1])
      case Some(at) => Next(at, t[|t| - 1])
      case None => None
  }

  /** Data bytes after the last KEXINIT. */
  function DataSince(t: seq<Packet>): nat {
    if t == [] || t[|t| - 1].KexInit? then 0
    else DataSince(t[..|t| - 1]) + if t[|t| - 1].Data? then t[|t| - 1].len else 0
  }

  function WaitingCount(ws: seq<Writer>): nat {
    if ws == [] then 0 else WaitingCount(ws[..|ws| - 1]) + if ws[|ws| - 1].Waiting? then 1 else 0
  }

  lemma Snoc(t: seq<Packet>, m: Packet)
    ensures Parse(t + [m]) == match Parse(t) case Some(at) => Next(at, m) case None => None
    ensures DataSince(t + [m]) == if m.KexInit? then 0 else DataSince(t) + if m.Data? then m.len else 0
  {
    assert (t + [m])[..|t|] == t;
  }

  lemma {:induction false} WaitingUpdate(ws: seq<Writer>, i: nat, w: Writer)
    requires i < |ws|
    ensures WaitingCount(ws[i := w]) == WaitingCount(ws) - (if ws[i].Waiting? then 1 else 0) + (if w.Waiting? then 1 else 0)
  {
    var n := |ws| - 1;
    if i < n {
      assert ws[i := w][..n] == ws[..n][i := w];
      WaitingUpdate(ws[..n], i, w);
    } else {
      assert ws[i := w][..n] == ws[..n];
    }
  }

  lemma {:induction false} WaitingAtMost(ws: seq<Writer>)
    ensures WaitingCount(ws) <= |ws|
  {
    if ws != [] {
      WaitingAtMost(ws[..|ws| - 1]);
    }
  }

  lemma OthersWait(ws: seq<Writer>, i: nat)
    requires i < |ws| && !ws[i].Waiting?
    ensures WaitingCount(ws) <= |ws| - 1
  {
    WaitingUpdate(ws, i, Waiting(Request(0, false)));
    WaitingAtMost(ws[i := Waiting(Request(0, false))]);
  }

  // ----- the invariant -----

  predicate InConn(h: Holder) {
    h.WriterInit? || h.WriterData? || h.LoopRequest? || h.LoopInit? || h.ExternalInit?
  }

  predicate InExchange(l: Loop) {
    l.Exchanging? || l.Writing? || l == Leaving(false)
  }

  predicate NewKeysOut(l: Loop) {
    l == Exchanging(true) || l == Leaving(false)
  }

  predicate HolderOk(s: State) {
    && (s.holder.WriterInit? || s.holder.WriterData? ==> s.holder.i < |s.writers| && s.writers[s.holder.i] == Busy && s.holder.p.len <= s.maxLen)
    && (s.holder == LoopRequest ==> s.loop == Top && s.readSince > s.threshold)
    && (s.holder == LoopInit ==> s.loop == Entering)
    && (forall i | 0 <= i < |s.writers| && s.writers[i] == Busy :: (s.holder.WriterInit? || s.holder.WriterData?) && s.holder.i == i)
    && (forall i | 0 <= i < |s.writers| && s.writers[i].Waiting? :: s.writers[i].p.len <= s.maxLen)
  }

  /** Between KEXINIT and the end of the exchange nobody but the read loop may use the connection. */
  predicate TurnsOk(s: State) {
    && (InConn(s.holder) ==> !s.sentInit)
    && (InExchange(s.loop) ==> s.sentInit && !s.writeError)
    && (s.writeError ==> s.broken && s.loop == Dead && s.written == 0 && !s.sentInit)
    && (s.loop.Writing? ==> s.loop.m == Kex || s.loop.m == NewKeys)
    && (s.holder == Leaked ==> s.writeError)
  }

  predicate TraceOk(s: State) {
    && Parse(s.sent).Some?
    && (s.sentInit && !s.loop.Leaving? && !NewKeysOut(s.loop) ==> Parse(s.sent) == Some(Inside))
    && (NewKeysOut(s.loop) ==> Parse(s.sent) == Some(Between))
    && (!s.sentInit && !s.writeError ==> Parse(s.sent) == Some(Between))
  }

  predicate Inv(s: State) {
    HolderOk(s) && TurnsOk(s) && TraceOk(s)
  }

  // ----- every step keeps it -----

  lemma ProceedKeeps(s: State, i: nat, p: Request)
    requires i < |s.writers| && p.len <= s.maxLen && HolderOk(s) && TurnsOk(s.(holder := Free)) && TraceOk(s)
    requires s.holder == Free || s.holder == WriterInit(i, p)
    ensures Inv(Proceed(s, i, p))
  {
    hide Parse;
  }

  lemma StartWriteKeeps(s: State, i: nat, p: Request)
    requires Inv(s) && DoStartWrite(s, i, p).Some?
    ensures Inv(DoStartWrite(s, i, p).value)
  {
    hide Parse, Proceed;
    if !(s.written > s.threshold && !s.sentInit) {
      ProceedKeeps(s, i, p);
    }
  }

  lemma WakeKeeps(s: State, i: nat)
    requires Inv(s) && DoWake(s, i).Some?
    ensures Inv(DoWake(s, i).value)
  {
    hide Parse, Proceed;
    ProceedKeeps(s, i, s.writers[i].p);
  }

  lemma FinishInitKeeps(s: State, how: Written)
    requires Inv(s) && DoFinishInit(s, how).Some?
    ensures Inv(DoFinishInit(s, how).value)
  {
    hide Parse, Proceed;
    Snoc(s.sent, KexInit);
    var s1 := AfterInit(s, how);
    if s.holder.WriterInit? {
      ProceedKeeps(s1, s.holder.i, s.holder.p);
    }
  }

  lemma FinishDataKeeps(s: State, how: Written)
    requires Inv(s) && DoFinishData(s, how).Some?
    ensures Inv(DoFinishData(s, how).value)
  {
    hide Parse;
    Snoc(s.sent, Data(s.holder.p.len));
  }

  /** The read loop's moves outside Top and Entering do not concern the writers. */
  lemma HolderStays(s: State, s': State)
    requires HolderOk(s) && s.loop != Top && s.loop != Entering
    requires s'.writers == s.writers && s'.holder == s.holder && s'.maxLen == s.maxLen
    ensures HolderOk(s')
  {
  }

  lemma FinishExchangeWriteKeeps(s: State, how: Written, checked: bool)
    requires Inv(s) && DoFinishExchangeWrite(s, how, checked).Some?
    ensures Inv(DoFinishExchangeWrite(s, how, checked).value)
  {
    hide Parse, HolderOk;
    Snoc(s.sent, s.loop.m);
    HolderStays(s, DoFinishExchangeWrite(s, how, checked).value);
  }

  lemma LoopKeeps(s: State, l: Label)
    requires Inv(s) && Step(s, l).Some?
    requires l.StartRequest? || l.LoopCheck? || l.LoopRead? || l.LoopReadFails? || l.LoopEnter?
    ensures Inv(Step(s, l).value)
  {
    hide Parse;
  }

  lemma ExchangeKeeps(s: State, l: Label)
    requires Inv(s) && Step(s, l).Some?
    requires l.ExchangeWrite? || l.ExchangeFails? || l.PeerNewKeys? || l.LoopLeave?
    ensures Inv(Step(s, l).value)
  {
    hide Parse, HolderOk;
    HolderStays(s, Step(s, l).value);
  }

  lemma StepKeeps(s: State, l: Label)
    requires Inv(s) && Step(s, l).Some?
    ensures Inv(Step(s, l).value)
  {
    hide Inv, DoStartWrite, DoWake, DoFinishInit, DoFinishData, DoFinishExchangeWrite, DoLoopCheck, DoLoopRead, DoLoopEnter,
      DoExchangeWrite, DoLoopLeave, DoStartRequest;
    match l {
      case StartWrite(i, p) => StartWriteKeeps(s, i, p);
      case Wake(i) => WakeKeeps(s, i);
      case FinishInit(how) => FinishInitKeeps(s, how);
      case FinishData(how) => FinishDataKeeps(s, how);
      case FinishExchangeWrite(how, checked) => FinishExchangeWriteKeeps(s, how, checked);
      case ExchangeWrite(_) => ExchangeKeeps(s, l);
      case ExchangeFails => ExchangeKeeps(s, l);
      case PeerNewKeys => ExchangeKeeps(s, l);
      case LoopLeave => ExchangeKeeps(s, l);
      case _ => LoopKeeps(s, l);
    }
  }

  lemma {:induction false} RunKeeps(s: State, ls: seq<Label>)
    requires Inv(s) && Run(s, ls).Some?
    ensures Inv(Run(s, ls).value)
    decreases |ls|
  {
    hide Inv, Step;
    if ls != [] {
      StepKeeps(s, ls[0]);
      RunKeeps(Step(s, ls[0]).value, ls[1..]);
    }
  }

  // ----- the results, for every run -----

  /** All that was ever sent is a prefix of (data* KEXINIT kex* NEWKEYS)*; so there is one KEXINIT in an exchange,
      whichever side and whichever goroutine started it. */
  lemma SentFollowsGrammar(threshold: nat, maxLen: nat, writers: nat, ls: seq<Label>)
    requires Run(Init(threshold, maxLen, writers), ls).Some?
    ensures Parse(Run(Init(threshold, maxLen, writers), ls).value.sent).Some?
  {
    InitHolds(threshold, maxLen, writers);
    RunKeeps(Init(threshold, maxLen, writers), ls);
  }

  lemma InitHolds(threshold: nat, maxLen: nat, writers: nat)
    ensures Inv(Init(threshold, maxLen, writers))
  {
  }

  lemma RunInv(threshold: nat, maxLen: nat, writers: nat, ls: seq<Label>)
    requires Run(Init(threshold, maxLen, writers), ls).Some?
    ensures Inv(Run(Init(threshold, maxLen, writers), ls).value)
  {
    hide Inv, Run, Init;
    InitHolds(threshold, maxLen, writers);
    RunKeeps(Init(threshold, maxLen, writers), ls);
  }

  /** The read loop writes the packets of an exchange without taking mu, and yet never while another goroutine is in
      the connection's writePacket. */
  lemma OneInConnection(threshold: nat, maxLen: nat, writers: nat, ls: seq<Label>)
    requires Run(Init(threshold, maxLen, writers), ls).Some?
    ensures var s := Run(Init(threshold, maxLen, writers), ls).value; !(s.loop.Writing? && InConn(s.holder))
  {
    hide Run, Init;
    RunInv(threshold, maxLen, writers, ls);
  }

  /** An exchange has failed: the failure is on record, or the read loop is about to record it. */
  predicate Failed(s: State) {
    s.writeError || s.loop == Leaving(true)
  }

  /** Nothing can leave: the connection is broken, or everybody waits for the end of an exchange that has failed. */
  predicate Silent(s: State) {
    s.broken || (s.loop == Leaving(true) && s.sentInit)
  }

  lemma SilentStep(s: State, l: Label)
    requires Inv(s) && Silent(s) && Step(s, l).Some?
    ensures Silent(Step(s, l).value) && Step(s, l).value.sent == s.sent
  {
    hide Parse;
  }

  lemma {:induction false} SilentRun(s: State, ls: seq<Label>)
    requires Inv(s) && Silent(s) && Run(s, ls).Some?
    ensures Run(s, ls).value.sent == s.sent
    decreases |ls|
  {
    hide Inv, Step, Silent;
    if ls != [] {
      StepKeeps(s, ls[0]);
      SilentStep(s, ls[0]);
      SilentRun(Step(s, ls[0]).value, ls[1..]);
    }
  }

  /** What can still leave in any other state once the read loop is on its way out. */
  lemma SomethingLeaves(s: State) returns (ls: seq<Label>)
    requires Inv(s) && Failed(s) && !Silent(s)
    ensures Run(s, ls).Some? && Run(s, ls).value.sent != s.sent
  {
    hide Parse, Run, Proceed;
    var s1, last := s, if s.holder.WriterData? then FinishData(Done) else FinishInit(Done);
    if s.holder == Free {
      s1 := Step(s, StartRequest).value;
      RunTwo(s, StartRequest, last);
      ls := [StartRequest, last];
    } else {
      RunOne(s, last);
      ls := [last];
    }
    if s1.holder.WriterInit? {
      ProceedSends(AfterInit(s1, Done), s1.holder.i, s1.holder.p);
    }
  }

  lemma ProceedSends(s: State, i: nat, p: Request)
    requires i < |s.writers|
    ensures Proceed(s, i, p).sent == s.sent
  {
  }

  lemma RunOne(s: State, l: Label)
    ensures Run(s, [l]) == Step(s, l)
  {
    hide Step;
    assert [l][1..] == [];
  }

  lemma RunTwo(s: State, l: Label, l': Label)
    requires Step(s, l).Some?
    ensures Run(s, [l, l']) == Step(Step(s, l).value, l')
  {
    hide Step;
    assert [l, l'][1..] == [l'];
    RunOne(Step(s, l).value, l');
  }

  /** After a failed exchange nothing at all is sent any more, exactly if our KEXINIT was out, the connection is broken
      or the failure is on record. */
  lemma NothingAfterFailureIff(threshold: nat, maxLen: nat, writers: nat, ls: seq<Label>)
    requires Run(Init(threshold, maxLen, writers), ls).Some? && Failed(Run(Init(threshold, maxLen, writers), ls).value)
    ensures var s := Run(Init(threshold, maxLen, writers), ls).value;
            (forall later :: Run(s, later).Some? ==> Run(s, later).value.sent == s.sent) <==> s.sentInit || s.broken || s.writeError
  {
    hide Inv, Run, Init;
    RunInv(threshold, maxLen, writers, ls);
    var s := Run(Init(threshold, maxLen, writers), ls).value;
    FailedMeans(s);
    if Silent(s) {
      forall later | Run(s, later).Some? ensures Run(s, later).value.sent == s.sent {
        SilentRun(s, later);
      }
    } else {
      var later := SomethingLeaves(s);
      assert Run(s, later).Some? && Run(s, later).value.sent != s.sent;
    }
  }

  lemma FailedMeans(s: State)
    requires Inv(s) && Failed(s)
    ensures Silent(s) <==> s.sentInit || s.broken || s.writeError
  {
    hide Parse;
  }

  /** A run that takes the other way: no random bytes for the answer to the peer's KEXINIT, so that enterKeyExchange
      fails, and a writer sends its data before readOnePacket takes mu to record that. */
  lemma DataAfterFailure() returns (s: State, before: seq<Label>, later: seq<Label>)
    ensures Run(Init(256, 10, 1), before) == Some(s) && Failed(s) && s.sent == []
    ensures Run(s, later).Some? && Run(s, later).value.sent == [Data(5)]
  {
    hide Step, Run;
    var p := Request(5, false);
    later := [StartWrite(0, p), FinishData(Done)];
    s := Failing(Idle, Free, Leaving(true), 0, []);
    FailingSteps();
    FailingWrites();
    var (first, second) := ([LoopCheck, LoopRead(3, true)], [LoopEnter, FinishInit(Weak)]);
    before := first + second;
    RunTwo(Init(256, 10, 1), LoopCheck, LoopRead(3, true));
    RunTwo(Failing(Idle, Free, Entering, 0, []), LoopEnter, FinishInit(Weak));
    RunAppend(Init(256, 10, 1), first, second);
    RunTwo(s, StartWrite(0, p), FinishData(Done));
  }

  /** The endpoint with one writer after a KEXINIT of 3 bytes has been read. */
  function Failing(w: Writer, h: Holder, l: Loop, written: nat, sent: seq<Packet>): State {
    State(256, 10, [w], l, h, false, written, 3, false, false, sent, 0, 0)
  }

  lemma FailingSteps()
    ensures var top := Failing(Idle, Free, Top, 0, []).(readSince := 0);
            && Init(256, 10, 1) == top
            && Step(top, LoopCheck) == Some(top.(loop := Reading))
            && Step(top.(loop := Reading), LoopRead(3, true)) == Some(Failing(Idle, Free, Entering, 0, []))
    ensures Step(Failing(Idle, Free, Entering, 0, []), LoopEnter) == Some(Failing(Idle, LoopInit, Entering, 0, []))
    ensures Step(Failing(Idle, LoopInit, Entering, 0, []), FinishInit(Weak)) == Some(Failing(Idle, Free, Leaving(true), 0, []))
  {
    assert Init(256, 10, 1).writers == [Idle];
  }

  lemma FailingWrites()
    ensures var p := Request(5, false);
            && Step(Failing(Idle, Free, Leaving(true), 0, []), StartWrite(0, p)) == Some(Failing(Busy, WriterData(0, p), Leaving(true), 5, []))
            && Step(Failing(Busy, WriterData(0, p), Leaving(true), 5, []), FinishData(Done)) == Some(Failing(Idle, Free, Leaving(true), 5, [Data(5)]))
  {
    assert forall w: Writer, v: Writer :: [w][0 := v] == [v];
    assert [] + [Data(5)] == [Data(5)];
  }

  /** The first writer to be told of the failure keeps mu, and then no call of writePacket or
      requestKeyChange ever gets it again. */
  lemma FailureLeaksMutex(s: State, i: nat, p: Request, ls: seq<Label>)
    requires Inv(s) && s.writeError && s.holder == Free && i < |s.writers| && s.writers[i] == Idle && p.len <= s.maxLen
    requires Run(s, [StartWrite(i, p)] + ls).Some?
    ensures var s' := Run(s, [StartWrite(i, p)] + ls).value;
            s'.holder == Leaked && forall l: Label | l.StartWrite? || l.Wake? || l.StartRequest? :: Step(s', l).None?
  {
    hide HolderOk, TraceOk, Proceed;
    assert ([StartWrite(i, p)] + ls)[1..] == ls;
    assert Proceed(s, i, p).holder == Leaked by { Told(s, i, p); }
    LeakedForGood(Step(s, StartWrite(i, p)).value, ls);
  }

  lemma Told(s: State, i: nat, p: Request)
    requires i < |s.writers| && s.writeError && !s.sentInit
    ensures Proceed(s, i, p).holder == Leaked
  {
  }

  lemma {:induction false} LeakedForGood(s: State, ls: seq<Label>)
    requires s.holder == Leaked && Run(s, ls).Some?
    ensures Run(s, ls).value.holder == Leaked
    decreases |ls|
  {
    if ls != [] {
      LeakedForGood(Step(s, ls[0]).value, ls[1..]);
    }
  }

  // ----- the reading side -----

  /** The read loop asks for more than RekeyThreshold bytes only with a KEXINIT out. */
  predicate ReadsInBounds(s: State) {
    s.loop == Reading && s.readSince > s.threshold ==> s.sentInit
  }

  lemma ReadStep(s: State, l: Label)
    requires Inv(s) && ReadsInBounds(s) && Step(s, l).Some?
    ensures ReadsInBounds(Step(s, l).value)
  {
    hide Parse, TraceOk;
  }

  lemma {:induction false} ReadRun(s: State, ls: seq<Label>)
    requires Inv(s) && ReadsInBounds(s) && Run(s, ls).Some?
    ensures ReadsInBounds(Run(s, ls).value)
    decreases |ls|
  {
    hide Inv, Step, ReadsInBounds;
    if ls != [] {
      StepKeeps(s, ls[0]);
      ReadStep(s, ls[0]);
      ReadRun(Step(s, ls[0]).value, ls[1..]);
    }
  }

  /** The bytes of all packets read in a run since the last key exchange that has succeeded. */
  function BytesRead(start: State, ls: seq<Label>): nat
    decreases |ls|
  {
    if ls == [] then 0
    else
      var (before, l) := (ls[..|ls| - 1], ls[|ls| - 1]);
      if l.LoopRead? then BytesRead(start, before) + l.len
      else if l.LoopLeave? && Run(start, before).Some? && Run(start, before).value.loop == Leaving(false) then 0
      else BytesRead(start, before)
  }

  /** What one step does to the count. */
  lemma CountStep(s: State, l: Label)
    requires Step(s, l).Some?
    ensures Step(s, l).value.readSince ==
            if l.LoopRead? then (s.readSince + l.len) % TWO64 else if l.LoopLeave? && s.loop == Leaving(false) then 0 else s.readSince
  {
  }

  lemma AddWrapped(a: nat, b: nat)
    ensures (a % TWO64 + b) % TWO64 == (a + b) % TWO64
  {
  }

  /** readSinceKex counts every packet, modulo 2^64. */
  lemma {:induction false} ReadsAreCounted(threshold: nat, maxLen: nat, writers: nat, ls: seq<Label>)
    requires Run(Init(threshold, maxLen, writers), ls).Some?
    ensures Run(Init(threshold, maxLen, writers), ls).value.readSince == BytesRead(Init(threshold, maxLen, writers), ls) % TWO64
    decreases |ls|
  {
    hide Step, Run;
    var start := Init(threshold, maxLen, writers);
    if ls == [] {
      RunNothing(start);
    } else {
      var (before, l) := (ls[..|ls| - 1], ls[|ls| - 1]);
      assert ls == before + [l];
      RunSnoc(start, before, l);
      ReadsAreCounted(threshold, maxLen, writers, before);
      var s := Run(start, before).value;
      CountStep(s, l);
      if l.LoopRead? {
        AddWrapped(BytesRead(start, before), l.len);
      }
    }
  }

  lemma RunNothing(s: State)
    ensures Run(s, []) == Some(s)
  {
  }

  lemma {:induction false} RunSnoc(s: State, ls: seq<Label>, l: Label)
    ensures Run(s, ls + [l]) == match Run(s, ls) case Some(t) => Step(t, l) case None => None
    decreases |ls|
  {
    hide Step;
    if ls == [] {
      assert [] + [l] == [l];
      RunOne(s, l);
    } else {
      assert (ls + [l])[1..] == ls[1..] + [l];
      if Step(s, ls[0]).Some? {
        RunSnoc(Step(s, ls[0]).value, ls[1..], l);
      }
    }
  }

  /** Before it reads beyond RekeyThreshold bytes under one set of keys the read loop has seen to it that a key exchange is under
      way. At its top it asks for one itself if and only if it has read so much and no KEXINIT of ours is out. */
  lemma ReaderAsksFirst(threshold: nat, maxLen: nat, writers: nat, ls: seq<Label>)
    requires Run(Init(threshold, maxLen, writers), ls).Some?
    requires BytesRead(Init(threshold, maxLen, writers), ls) < TWO64
    ensures var (s, n) := (Run(Init(threshold, maxLen, writers), ls).value, BytesRead(Init(threshold, maxLen, writers), ls));
            && (s.loop == Reading && n > threshold ==> s.sentInit)
            && (s.loop == Top && s.holder == Free ==>
                  Step(s, LoopCheck) == Some(if n > threshold && !s.sentInit then s.(holder := LoopRequest) else s.(loop := Reading)))
  {
    hide Run;
    InitHolds(threshold, maxLen, writers);
    ReadRun(Init(threshold, maxLen, writers), ls);
    ReadsAreCounted(threshold, maxLen, writers, ls);
    SameThreshold(Init(threshold, maxLen, writers), ls);
  }

  lemma {:induction false} SameThreshold(s: State, ls: seq<Label>)
    requires Run(s, ls).Some?
    ensures Run(s, ls).value.threshold == s.threshold
    decreases |ls|
  {
    hide Step;
    if ls != [] {
      assert Step(s, ls[0]).value.threshold == s.threshold by { ThresholdStays(s, ls[0]); }
      SameThreshold(Step(s, ls[0]).value, ls[1..]);
    }
  }

  lemma ThresholdStays(s: State, l: Label)
    requires Step(s, l).Some?
    ensures Step(s, l).value.threshold == s.threshold
  {
  }

  /** What leaves is what a call of the connection's writePacket was given, once and when the call succeeds: a KEXINIT, the data
      of the writer that holds the mutex, or the message of the exchange; no other step sends anything. */
  lemma OnlyWritesSend(s: State, l: Label)
    requires Step(s, l).Some?
    ensures Step(s, l).value.sent == s.sent +
            if l == FinishInit(Done) then [KexInit]
            else if l == FinishData(Done) then [Data(s.holder.p.len)]
            else if l.FinishExchangeWrite? && l.how == Done then [s.loop.m]
            else []
  {
  }

  /** What the read loop can do outside the mutex: read any packet or an error; within an exchange write messages of it, end it with
      an error, and after its own NEWKEYS take the peer's; and any outcome of a write. */
  lemma LoopCanMove(s: State, len: nat, isKexInit: bool)
    ensures s.loop == Reading ==>
              && Step(s, LoopRead(len, isKexInit)) == Some(s.(readSince := (s.readSince + len) % TWO64, loop := if isKexInit then Entering else Top))
              && Step(s, LoopReadFails) == Some(s.(loop := Dead))
    ensures s.loop == Exchanging(false) ==>
              && Step(s, ExchangeWrite(Kex)) == Some(s.(loop := Writing(Kex))) && Step(s, ExchangeWrite(NewKeys)) == Some(s.(loop := Writing(NewKeys)))
    ensures s.loop.Exchanging? ==> Step(s, ExchangeFails) == Some(s.(loop := Leaving(true)))
    ensures s.loop == Exchanging(true) ==> Step(s, PeerNewKeys) == Some(s.(loop := Leaving(false)))
    ensures s.loop.Writing? ==>
              && Step(s, FinishExchangeWrite(Weak, true)) == Some(s.(loop := Leaving(true)))
              && Step(s, FinishExchangeWrite(Broken, true)) == Some(s.(broken := true, loop := Leaving(true)))
              && (!s.broken ==> Step(s, FinishExchangeWrite(Done, true)) == Some(s.(sent := s.sent + [s.loop.m], loop := Exchanging(s.loop.m == NewKeys))))
  {
  }

  /** A call of the connection's writePacket can end in any way, but not well on a broken connection; then whoever made it goes on, and
      with the mutex free the read loop and the waiting writers can. */
  lemma HoldersCanMove(s: State, how: Written)
    requires Inv(s) && (how.Done? ==> !s.broken)
    ensures s.holder.WriterData? ==> Step(s, FinishData(how)).Some? && Step(s, FinishData(how)).value.holder == Free
    ensures InConn(s.holder) && !s.holder.WriterData? ==> Step(s, FinishInit(how)).Some?
    ensures s.holder == Free && s.loop == Entering ==> Step(s, LoopEnter).Some?
    ensures s.holder == Free && s.loop.Leaving? ==> Step(s, LoopLeave).Some?
    ensures s.holder == Free && s.loop == Top ==> Step(s, LoopCheck).Some?
    ensures s.holder == Free ==> Step(s, StartRequest).Some?
    ensures forall i | 0 <= i < |s.writers| && s.holder == Free && s.writers[i].Waiting? :: Step(s, Wake(i)).Some?
    ensures forall i, p: Request | 0 <= i < |s.writers| && s.holder == Free && s.writers[i] == Idle && p.len <= s.maxLen :: Step(s, StartWrite(i, p)).Some?
  {
    hide Parse, TraceOk, Proceed;
  }

  // ----- the bound on the data under one set of keys -----

  /** RekeyThreshold, a packet for each writer, and one more for each KEXINIT that a writer has lost since the last one. */
  function Limit(s: State): nat {
    s.threshold + (|s.writers| + s.lost) * s.maxLen
  }

  /** The most that Limit can have been so far. */
  function Cap(s: State): nat {
    s.threshold + (|s.writers| + s.lostInAll) * s.maxLen
  }

  /** What the writers that wait may still add without another look at the threshold. */
  function Share(s: State): nat {
    s.maxLen * WaitingCount(s.writers)
  }

  function InFlight(h: Holder): nat {
    if h.WriterData? then h.p.len else 0
  }

  predicate BudgetOk(s: State) {
    && (s.sentInit ==> DataSince(s.sent) == 0)
    && (!s.sentInit ==> s.written + Share(s) <= Limit(s) && DataSince(s.sent) + InFlight(s.holder) <= s.written)
  }

  /** For as long as the count of bytes cannot have wrapped around. */
  predicate Bounded(s: State) {
    && s.lost <= s.lostInAll
    && Limit(s) <= Cap(s)
    && (Cap(s) < TWO64 ==> DataSince(s.sent) <= Limit(s) && (!s.broken ==> BudgetOk(s)))
  }

  lemma Times(m: nat, a: nat, b: nat)
    requires a <= b
    ensures m * a <= m * b
  {
  }

  lemma OneMore(m: nat, n: nat)
    requires n > 0
    ensures m * n == m + m * (n - 1)
  {
  }

  lemma LimitGrows(s: State, s': State)
    requires SameShape(s, s') && s.lost <= s'.lost && s.lostInAll <= s'.lostInAll
    ensures Limit(s) <= Limit(s') && Cap(s) <= Cap(s')
    ensures s'.lost == s.lost + 1 ==> Limit(s') == Limit(s) + s.maxLen
    ensures s'.lostInAll == s.lostInAll + 1 ==> Cap(s') == Cap(s) + s.maxLen
  {
    Times(s.maxLen, |s.writers| + s.lost, |s.writers| + s'.lost);
    Times(s.maxLen, |s.writers| + s.lostInAll, |s.writers| + s'.lostInAll);
    OneMore(s.maxLen, |s.writers| + s.lost + 1);
    OneMore(s.maxLen, |s.writers| + s.lostInAll + 1);
  }

  /** A writer that has just looked at the threshold was not waiting itself. */
  lemma RoomForOne(s: State, i: nat)
    requires i < |s.writers| && s.writers[i] == Idle && s.written <= s.threshold
    ensures s.written + s.maxLen + Share(s) <= Limit(s)
  {
    hide WaitingCount;
    OthersWait(s.writers, i);
    Times(s.maxLen, WaitingCount(s.writers), |s.writers| - 1);
    OneMore(s.maxLen, |s.writers|);
    Times(s.maxLen, |s.writers|, |s.writers| + s.lost);
  }

  /** One that has waited uses up its share. */
  lemma ShareChanges(s: State, s': State, i: nat)
    requires i < |s.writers| == |s'.writers| && s'.writers == s.writers[i := s'.writers[i]] && s'.maxLen == s.maxLen
    ensures Share(s') == Share(s) - (if s.writers[i].Waiting? then s.maxLen else 0) + (if s'.writers[i].Waiting? then s.maxLen else 0)
  {
    hide WaitingCount;
    WaitingUpdate(s.writers, i, s'.writers[i]);
    var (n, n') := (WaitingCount(s.writers), WaitingCount(s'.writers));
    if n > 0 {
      OneMore(s.maxLen, n);
    }
    if n' > 0 {
      OneMore(s.maxLen, n');
    }
  }

  lemma ProceedBounded(s: State, i: nat, p: Request)
    requires i < |s.writers| && p.len <= s.maxLen && !s.holder.WriterData? && (s.writeError ==> s.broken)
    requires Bounded(s)
    requires !s.sentInit && !s.broken && Cap(s) < TWO64
             ==> s.written + s.maxLen + Share(s) <= Limit(s) + if s.writers[i].Waiting? then s.maxLen else 0
    ensures Bounded(Proceed(s, i, p))
  {
    hide DataSince, WaitingCount, Share, Limit, Cap;
    var s' := Proceed(s, i, p);
    ShareChanges(s, s', i);
    LimitGrows(s, s');
    LimitGrows(s', s);
  }

  lemma WriterBounded(s: State, l: Label)
    requires Inv(s) && Bounded(s) && Step(s, l).Some? && (l.StartWrite? || l.Wake?)
    ensures Bounded(Step(s, l).value)
  {
    hide DataSince, WaitingCount, Proceed, TraceOk, Share, Limit, Cap;
    var s' := Step(s, l).value;
    if l.StartWrite? && s.written > s.threshold && !s.sentInit {
      ShareChanges(s, s', l.i);
      LimitGrows(s, s');
      LimitGrows(s', s);
    } else {
      if l.StartWrite? && !s.sentInit {
        RoomForOne(s, l.i);
      }
      ProceedBounded(s, l.i, if l.StartWrite? then l.p else s.writers[l.i].p);
    }
  }

  /** A writer that has lost its KEXINIT goes on with its packet, for which the bound makes room. */
  lemma AfterInitBounded(s: State, how: Written)
    requires Inv(s) && Bounded(s) && InConn(s.holder) && !s.holder.WriterData? && CanEnd(s, how)
    ensures Bounded(AfterInit(s, how))
    ensures var s1 := AfterInit(s, how);
            s.holder.WriterInit? && !s1.sentInit && !s1.broken && Cap(s1) < TWO64 ==> s1.written + s.maxLen + Share(s1) <= Limit(s1)
  {
    hide DataSince, WaitingCount, TraceOk, Share, Limit, Cap;
    var s1 := AfterInit(s, how);
    assert Share(s1) == Share(s) by { ShareSame(s, s1); }
    if how.Done? {
      Snoc(s.sent, KexInit);
      LimitGrows(s1, s1.(lost := s.lostInAll));
      assert Cap(s1) == Limit(s1.(lost := s.lostInAll)) by { CapMeans(s1); }
    } else {
      LimitGrows(s, s1);
      if s1.lost == s.lost {
        LimitGrows(s1, s);
      }
    }
  }

  lemma ShareSame(s: State, s': State)
    requires s'.maxLen == s.maxLen && s'.writers == s.writers
    ensures Share(s') == Share(s)
  {
  }

  lemma CapMeans(s: State)
    ensures Cap(s) == Limit(s.(lost := s.lostInAll))
  {
  }

  lemma InitBounded(s: State, how: Written)
    requires Inv(s) && Bounded(s) && DoFinishInit(s, how).Some?
    ensures Bounded(DoFinishInit(s, how).value)
  {
    hide Bounded, AfterInit, Proceed, TraceOk;
    AfterInitBounded(s, how);
    var s1 := AfterInit(s, how);
    AfterInitKeeps(s, how);
    if s.holder.WriterInit? {
      ProceedBounded(s1, s.holder.i, s.holder.p);
    } else {
      FreedBounded(s1, DoFinishInit(s, how).value);
    }
  }

  lemma AfterInitKeeps(s: State, how: Written)
    ensures var s1 := AfterInit(s, how); s1.(sent := s.sent, sentInit := s.sentInit, broken := s.broken, lost := s.lost, lostInAll := s.lostInAll) == s
    ensures s.broken ==> AfterInit(s, how).broken
  {
  }

  lemma FreedBounded(s: State, s': State)
    requires Bounded(s) && !s.holder.WriterData? && s' == s.(holder := Free, loop := s'.loop)
    ensures Bounded(s')
  {
    hide DataSince, WaitingCount;
  }

  lemma DataBounded(s: State, how: Written)
    requires Inv(s) && Bounded(s) && DoFinishData(s, how).Some?
    ensures Bounded(DoFinishData(s, how).value)
  {
    hide DataSince, WaitingCount, TraceOk, Share, Limit, Cap;
    var s' := DoFinishData(s, how).value;
    Snoc(s.sent, Data(s.holder.p.len));
    ShareChanges(s, s', s.holder.i);
    LimitGrows(s, s');
    LimitGrows(s', s);
  }

  lemma ExchangeBounded(s: State, how: Written, checked: bool)
    requires Inv(s) && Bounded(s) && DoFinishExchangeWrite(s, how, checked).Some?
    ensures Bounded(DoFinishExchangeWrite(s, how, checked).value)
  {
    hide DataSince, WaitingCount, TraceOk;
    Snoc(s.sent, s.loop.m);
  }

  lemma LeaveBounded(s: State)
    requires Inv(s) && Bounded(s) && DoLoopLeave(s).Some?
    ensures Bounded(DoLoopLeave(s).value)
  {
    hide DataSince, WaitingCount, TraceOk;
    WaitingAtMost(s.writers);
    Times(s.maxLen, WaitingCount(s.writers), |s.writers| + s.lost);
  }

  lemma OtherBounded(s: State, l: Label)
    requires Bounded(s) && Step(s, l).Some?
    requires l.StartRequest? || l.LoopCheck? || l.LoopRead? || l.LoopReadFails? || l.LoopEnter? || l.ExchangeWrite? || l.ExchangeFails?
             || l.PeerNewKeys?
    ensures Bounded(Step(s, l).value)
  {
    hide DataSince, WaitingCount;
  }

  lemma StepBounded(s: State, l: Label)
    requires Inv(s) && Bounded(s) && Step(s, l).Some?
    ensures Bounded(Step(s, l).value)
  {
    hide Inv, Bounded, DoStartWrite, DoWake, DoFinishInit, DoFinishData, DoFinishExchangeWrite, DoLoopCheck, DoLoopRead, DoLoopEnter,
      DoExchangeWrite, DoLoopLeave, DoStartRequest;
    match l {
      case StartWrite(_, _) => WriterBounded(s, l);
      case Wake(_) => WriterBounded(s, l);
      case FinishInit(how) => InitBounded(s, how);
      case FinishData(how) => DataBounded(s, how);
      case FinishExchangeWrite(how, checked) => ExchangeBounded(s, how, checked);
      case LoopLeave => LeaveBounded(s);
      case _ => OtherBounded(s, l);
    }
  }

  lemma {:induction false} RunBounded(s: State, ls: seq<Label>)
    requires Inv(s) && Bounded(s) && Run(s, ls).Some?
    ensures Bounded(Run(s, ls).value)
    decreases |ls|
  {
    hide Inv, Bounded, Step;
    if ls != [] {
      StepKeeps(s, ls[0]);
      StepBounded(s, ls[0]);
      RunBounded(Step(s, ls[0]).value, ls[1..]);
    }
  }

  predicate SameShape(s: State, s': State) {
    s'.threshold == s.threshold && s'.maxLen == s.maxLen && |s'.writers| == |s.writers|
  }

  lemma StepShape(s: State, l: Label)
    requires Step(s, l).Some?
    ensures SameShape(s, Step(s, l).value)
  {
    hide Proceed, DoFinishInit;
    if l.StartWrite? || l.Wake? {
      ProceedShape(s, l.i, if l.StartWrite? then l.p else s.writers[l.i].p);
    } else if l.FinishInit? {
      InitShape(s, l.how);
    }
  }

  lemma ProceedShape(s: State, i: nat, p: Request)
    requires i < |s.writers|
    ensures SameShape(s, Proceed(s, i, p))
  {
  }

  lemma InitShape(s: State, how: Written)
    requires DoFinishInit(s, how).Some?
    ensures SameShape(s, DoFinishInit(s, how).value)
  {
    hide Proceed;
    var s1 := AfterInit(s, how);
    if s.holder.WriterInit? {
      ProceedShape(s1, s.holder.i, s.holder.p);
    }
  }

  lemma {:induction false} RunShape(s: State, ls: seq<Label>)
    requires Run(s, ls).Some?
    ensures SameShape(s, Run(s, ls).value)
    decreases |ls|
  {
    hide Step;
    if ls != [] {
      StepShape(s, ls[0]);
      RunShape(Step(s, ls[0]).value, ls[1..]);
    }
  }

  lemma {:induction false} NoneWait(writers: nat)
    ensures WaitingCount(seq(writers, _ => Idle)) == 0
  {
    if writers > 0 {
      assert seq(writers, _ => Idle)[..writers - 1] == seq(writers - 1, _ => Idle);
      NoneWait(writers - 1);
    }
  }

  /** In every reachable state at most RekeyThreshold bytes of data, one packet more for each writer, and one more for
      each KEXINIT that a writer has lost since, have gone out since the last KEXINIT, however the writers and the
      exchanges interleave. */
  lemma DataBetweenExchanges(threshold: nat, maxLen: nat, writers: nat, ls: seq<Label>)
    requires Run(Init(threshold, maxLen, writers), ls).Some?
    requires threshold + (writers + Run(Init(threshold, maxLen, writers), ls).value.lostInAll) * maxLen < TWO64
    ensures var s := Run(Init(threshold, maxLen, writers), ls).value; DataSince(s.sent) <= threshold + (writers + s.lost) * maxLen
  {
    hide Inv, Run, DataSince, WaitingCount;
    var s := Init(threshold, maxLen, writers);
    InitHolds(threshold, maxLen, writers);
    NoneWait(writers);
    assert Bounded(s) by { Empty(); }
    RunBounded(s, ls);
    RunShape(s, ls);
  }

  lemma Empty()
    ensures DataSince([]) == 0 && Parse([]) == Some(Between)
  {
  }

  // ----- the bound is met -----

  lemma RunFirst(s: State, ls: seq<Label>)
    requires ls != [] && Step(s, ls[0]).Some?
    ensures Run(s, ls) == Run(Step(s, ls[0]).value, ls[1..])
  {
    hide Step;
  }

  lemma {:induction false} RunAppend(s: State, ls: seq<Label>, ls': seq<Label>)
    requires Run(s, ls).Some?
    ensures Run(s, ls + ls') == Run(Run(s, ls).value, ls')
    decreases |ls|
  {
    hide Step;
    if ls == [] {
      assert ls + ls' == ls';
    } else {
      assert (ls + ls')[1..] == ls[1..] + ls';
      RunAppend(Step(s, ls[0]).value, ls[1..], ls');
    }
  }

  lemma RunThree(s: State, l: Label, l': Label, l'': Label)
    requires Step(s, l).Some? && Step(Step(s, l).value, l').Some?
    ensures Run(s, [l, l', l'']) == Step(Step(Step(s, l).value, l').value, l'')
  {
    hide Step;
    assert [l, l', l''][1..] == [l', l''];
    RunFirst(s, [l, l', l'']);
    RunTwo(Step(s, l).value, l', l'');
  }

  /** The endpoint between exchanges, nobody holding mu. */
  function Quiet(t: nat, m: nat, ws: seq<Writer>, written: nat, sent: seq<Packet>, lost: nat): State {
    State(t, m, ws, Top, Free, false, written, 0, false, false, sent, lost, lost)
  }

  /** Writer i has just taken mu for its data. */
  function Taken(t: nat, m: nat, ws: seq<Writer>, i: nat, p: Request, written: nat, sent: seq<Packet>, lost: nat): State
    requires i < |ws|
  {
    Quiet(t, m, ws[i := Busy], written, sent, lost).(holder := WriterData(i, p))
  }

  lemma StartSteps(t: nat, m: nat, ws: seq<Writer>, i: nat, written: nat, sent: seq<Packet>, lost: nat, p: Request)
    requires i < |ws| && p.len <= m && written + p.len < TWO64 && !p.forbidden
    ensures var start := Quiet(t, m, ws, written, sent, lost);
            && (ws[i] == Idle && written <= t ==> Step(start, StartWrite(i, p)) == Some(Taken(t, m, ws, i, p, written + p.len, sent, lost)))
            && (ws[i] == Idle && written > t ==> Step(start, StartWrite(i, p)) == Some(start.(writers := ws[i := Busy], holder := WriterInit(i, p))))
            && (ws[i] == Waiting(p) ==> Step(start, Wake(i)) == Some(Taken(t, m, ws, i, p, written + p.len, sent, lost)))
  {
  }

  lemma FinishSteps(t: nat, m: nat, ws: seq<Writer>, i: nat, written: nat, sent: seq<Packet>, lost: nat, p: Request)
    requires i < |ws| && !p.forbidden
    ensures written + p.len < TWO64 ==>
            Step(Quiet(t, m, ws[i := Busy], written, sent, lost).(holder := WriterInit(i, p)), FinishInit(Weak)) ==
            Some(Taken(t, m, ws, i, p, written + p.len, sent, lost + 1))
    ensures Step(Taken(t, m, ws, i, p, written, sent, lost), FinishData(Done))
            == Some(Quiet(t, m, ws[i := Idle], written, sent + [Data(p.len)], lost))
  {
    assert ws[i := Busy][i := Busy] == ws[i := Busy] && ws[i := Busy][i := Idle] == ws[i := Idle];
  }

  /** What a run has reached: all the data since the last KEXINIT is counted. */
  predicate Reaches(t: nat, m: nat, count: nat, ls: seq<Label>, ws: seq<Writer>, written: nat, lost: nat) {
    match Run(Init(t, m, count), ls)
    case Some(s) => s == Quiet(t, m, ws, written, s.sent, lost) && DataSince(s.sent) == written
    case None => false
  }

  function SentBy(t: nat, m: nat, count: nat, ls: seq<Label>): seq<Packet> {
    match Run(Init(t, m, count), ls)
    case Some(s) => s.sent
    case None => []
  }

  lemma ReachesMore(t: nat, m: nat, count: nat, ls: seq<Label>, ws: seq<Writer>, written: nat, lost: nat, more: seq<Label>, ws': seq<Writer>,
                    len: nat, lost': nat)
    requires Reaches(t, m, count, ls, ws, written, lost)
    requires var sent := SentBy(t, m, count, ls);
             Run(Quiet(t, m, ws, written, sent, lost), more) == Some(Quiet(t, m, ws', written + len, sent + [Data(len)], lost'))
    ensures Reaches(t, m, count, ls + more, ws', written + len, lost')
  {
    hide Run, DataSince, Init;
    RunAppend(Init(t, m, count), ls, more);
    Snoc(SentBy(t, m, count, ls), Data(len));
  }

  /** A writer below the threshold sends its packet. */
  lemma WritesOne(t: nat, m: nat, count: nat, ls: seq<Label>, ws: seq<Writer>, written: nat, len: nat) returns (ls': seq<Label>)
    requires Reaches(t, m, count, ls, ws, written, 0) && ws != [] && ws[0] == Idle
    requires len <= m && written <= t && written + len < TWO64
    ensures Reaches(t, m, count, ls', ws, written + len, 0)
  {
    hide Run, Step, DataSince, Init, Reaches;
    var (p, sent) := (Request(len, false), SentBy(t, m, count, ls));
    var more := [StartWrite(0, p), FinishData(Done)];
    StartSteps(t, m, ws, 0, written, sent, 0, p);
    FinishSteps(t, m, ws, 0, written + len, sent, 0, p);
    RunTwo(Quiet(t, m, ws, written, sent, 0), more[0], more[1]);
    assert ws[0 := Idle] == ws;
    ReachesMore(t, m, count, ls, ws, written, 0, more, ws, len, 0);
    ls' := ls + more;
  }

  /** One that finds no random bytes for its KEXINIT goes on with its data all the same. */
  lemma LosesOne(t: nat, m: nat, count: nat, ls: seq<Label>, ws: seq<Writer>, written: nat, lost: nat) returns (ls': seq<Label>)
    requires Reaches(t, m, count, ls, ws, written, lost) && ws != [] && ws[0] == Idle && written > t && written + m < TWO64
    ensures Reaches(t, m, count, ls', ws, written + m, lost + 1)
  {
    hide Run, Step, DataSince, Init, Reaches;
    var (p, sent) := (Request(m, false), SentBy(t, m, count, ls));
    var more := [StartWrite(0, p), FinishInit(Weak), FinishData(Done)];
    StartSteps(t, m, ws, 0, written, sent, lost, p);
    FinishSteps(t, m, ws, 0, written, sent, lost, p);
    FinishSteps(t, m, ws, 0, written + m, sent, lost + 1, p);
    RunThree(Quiet(t, m, ws, written, sent, lost), more[0], more[1], more[2]);
    assert ws[0 := Idle] == ws;
    ReachesMore(t, m, count, ls, ws, written, lost, more, ws, m, lost + 1);
    ls' := ls + more;
  }

  /** Writers lo to hi - 1 wait with a packet of m bytes each. */
  function Waiters(m: nat, count: nat, lo: nat, hi: nat): seq<Writer> {
    seq(count, i => if lo <= i < hi then Waiting(Request(m, false)) else Idle)
  }

  /** One that has waited goes on without another look at the threshold. */
  lemma WakesOne(t: nat, m: nat, count: nat, ls: seq<Label>, lo: nat, written: nat) returns (ls': seq<Label>)
    requires 0 < lo < count && Reaches(t, m, count, ls, Waiters(m, count, lo, count), written, 0) && written + m < TWO64
    ensures Reaches(t, m, count, ls', Waiters(m, count, lo + 1, count), written + m, 0)
  {
    hide Run, Step, DataSince, Init, Reaches;
    var (p, sent, ws) := (Request(m, false), SentBy(t, m, count, ls), Waiters(m, count, lo, count));
    var more := [Wake(lo), FinishData(Done)];
    StartSteps(t, m, ws, lo, written, sent, 0, p);
    FinishSteps(t, m, ws, lo, written + m, sent, 0, p);
    RunTwo(Quiet(t, m, ws, written, sent, 0), more[0], more[1]);
    assert ws[lo := Idle] == Waiters(m, count, lo + 1, count);
    ReachesMore(t, m, count, ls, ws, written, 0, more, ws[lo := Idle], m, 0);
    ls' := ls + more;
  }

  // ----- an exchange during which all writers but the first begin to wait -----

  /** The endpoint with its KEXINIT out, after one of 1 byte has been read. */
  function During(t: nat, m: nat, ws: seq<Writer>): State {
    State(t, m, ws, Exchanging(false), Free, true, 0, 1, false, false, [KexInit], 0, 0)
  }

  lemma Enters(t: nat, m: nat, count: nat) returns (ls: seq<Label>)
    ensures Run(Init(t, m, count), ls) == Some(During(t, m, Waiters(m, count, 1, 1)))
  {
    hide Run, Parse, DataSince;
    var s := Init(t, m, count);
    assert s.writers == Waiters(m, count, 1, 1);
    assert [] + [KexInit] == [KexInit];
    RunTwo(s, LoopCheck, LoopRead(1, true));
    var s2 := Run(s, [LoopCheck, LoopRead(1, true)]).value;
    RunTwo(s2, LoopEnter, FinishInit(Done));
    RunAppend(s, [LoopCheck, LoopRead(1, true)], [LoopEnter, FinishInit(Done)]);
    ls := [LoopCheck, LoopRead(1, true)] + [LoopEnter, FinishInit(Done)];
  }

  lemma {:induction false} Queues(t: nat, m: nat, count: nat, hi: nat) returns (ls: seq<Label>)
    requires 1 <= hi <= count
    ensures Run(Init(t, m, count), ls) == Some(During(t, m, Waiters(m, count, 1, hi)))
    decreases hi
  {
    hide Run, Step, Init;
    if hi == 1 {
      ls := Enters(t, m, count);
    } else {
      ls := Queues(t, m, count, hi - 1);
      var l := StartWrite(hi - 1, Request(m, false));
      QueueStep(t, m, Waiters(m, count, 1, hi - 1), hi - 1);
      RunOne(During(t, m, Waiters(m, count, 1, hi - 1)), l);
      assert Waiters(m, count, 1, hi - 1)[hi - 1 := Waiting(Request(m, false))] == Waiters(m, count, 1, hi);
      RunAppend(Init(t, m, count), ls, [l]);
      ls := ls + [l];
    }
  }

  lemma QueueStep(t: nat, m: nat, ws: seq<Writer>, i: nat)
    requires i < |ws| && ws[i] == Idle
    ensures Step(During(t, m, ws), StartWrite(i, Request(m, false))) == Some(During(t, m, ws[i := Waiting(Request(m, false))]))
  {
  }

  lemma EndSteps(t: nat, m: nat, ws: seq<Writer>)
    ensures Run(During(t, m, ws), [ExchangeWrite(NewKeys), FinishExchangeWrite(Done, true)])
            == Some(During(t, m, ws).(loop := Exchanging(true), sent := [KexInit, NewKeys]))
    ensures Run(During(t, m, ws).(loop := Exchanging(true), sent := [KexInit, NewKeys]), [PeerNewKeys, LoopLeave])
            == Some(Quiet(t, m, ws, 0, [KexInit, NewKeys], 0))
  {
    hide Run, Parse, DataSince;
    assert [KexInit] + [NewKeys] == [KexInit, NewKeys];
    RunTwo(During(t, m, ws), ExchangeWrite(NewKeys), FinishExchangeWrite(Done, true));
    RunTwo(During(t, m, ws).(loop := Exchanging(true), sent := [KexInit, NewKeys]), PeerNewKeys, LoopLeave);
  }

  /** The exchange is over, and all writers but the first still wait. */
  lemma AllQueued(t: nat, m: nat, count: nat) returns (ls: seq<Label>)
    requires count > 0
    ensures Reaches(t, m, count, ls, Waiters(m, count, 1, count), 0, 0)
  {
    hide Run, Step, Init;
    var ws := Waiters(m, count, 1, count);
    var (first, second) := ([ExchangeWrite(NewKeys), FinishExchangeWrite(Done, true)], [PeerNewKeys, LoopLeave]);
    ls := Queues(t, m, count, count);
    EndSteps(t, m, ws);
    RunAppend(During(t, m, ws), first, second);
    RunAppend(Init(t, m, count), ls, first + second);
    ls := ls + (first + second);
    Snoc([], KexInit);
    Snoc([KexInit], NewKeys);
    assert [] + [KexInit] == [KexInit] && [KexInit] + [NewKeys] == [KexInit, NewKeys];
  }

  /** The first writer reaches the threshold and passes it with one packet; then the others, which do not look at it. */
  lemma {:induction false} AllWrite(t: nat, m: nat, count: nat, k: nat) returns (ls: seq<Label>)
    requires t <= m && 1 <= k <= count && t + k * m < TWO64
    ensures Reaches(t, m, count, ls, Waiters(m, count, k, count), t + k * m, 0)
    decreases k
  {
    hide Run, Step, Init, Reaches;
    OneMore(m, k);
    var before := t + (k - 1) * m;
    assert t + k * m == before + m;
    if k == 1 {
      ls := AllQueued(t, m, count);
      ls := WritesOne(t, m, count, ls, Waiters(m, count, 1, count), 0, t);
      ls := WritesOne(t, m, count, ls, Waiters(m, count, 1, count), t, m);
    } else {
      ls := AllWrite(t, m, count, k - 1);
      ls := WakesOne(t, m, count, ls, k - 1, before);
    }
  }

  lemma {:induction false} Loses(t: nat, m: nat, count: nat, n: nat) returns (ls: seq<Label>)
    requires t <= m && 0 < m && 0 < count && t + (count + n) * m < TWO64
    ensures Reaches(t, m, count, ls, Waiters(m, count, count, count), t + (count + n) * m, n)
    decreases n
  {
    hide Run, Step, Init, Reaches;
    OneMore(m, count + n);
    if n == 0 {
      ls := AllWrite(t, m, count, count);
    } else {
      ls := Loses(t, m, count, n - 1);
      Times(m, 1, count + n - 1);
      ls := LosesOne(t, m, count, ls, Waiters(m, count, count, count), t + (count + n - 1) * m, n - 1);
    }
  }

  /** The bound is attained for every number of writers and of lost KEXINITs: while an exchange runs all writers but one begin
      to wait, afterwards that one reaches the threshold and passes it, the others go on without a look at it, and
      writePacket ignores the error of sendKexInitLocked. So there is no smaller bound, and none that does not count losses. */
  lemma LossesReachBound(t: nat, m: nat, count: nat, n: nat) returns (ls: seq<Label>)
    requires 256 <= t <= m && 0 < count && t + (count + n) * m < TWO64
    ensures Run(Init(t, m, count), ls).Some?
    ensures var s := Run(Init(t, m, count), ls).value; s.lost == s.lostInAll == n && DataSince(s.sent) == t + (count + n) * m
  {
    hide Run, DataSince, Init;
    ls := Loses(t, m, count, n);
  }
}
