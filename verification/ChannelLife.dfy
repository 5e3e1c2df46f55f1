/** What a channel of ChannelFlow can do: data that is written can be read, an EOF is reported, and a channel can be closed. The
    direction is from a to b; SeenFrom and SwapRuns give the other one. */
module ChannelLife {
  import opened ByteStrings
  import opened ChannelFlow
  import opened ChannelInvariant
  import opened ChannelResults
  import opened Results

  /** An open channel with nothing under way from a to b. */
  predicate Idle(s: State) {
    && s.ab == [] && s.ba == []
    && s.a.decided && !s.a.sentClose && !s.a.sentEOF && s.a.writes == []
    && s.b.decided && !s.b.sentClose && s.b.bufs == [[], []] && s.b.uncredited == [] && s.b.owed == [] && s.b.discarded < WINDOW
  }

  /** And with a call of WriteExtended under way that still has todo to send. */
  predicate Sending(s: State, c: nat, todo: Bytes) {
    && s.a.writes == [WriteCall(c, todo, None)] && Idle(s.(a := s.a.(writes := [])))
    && FullCredit(s)
  }

  /** a has all of b's window, which is not empty. */
  predicate FullCredit(s: State) {
    && 0 < s.a.remoteWin == s.b.myWindow < TWO32 && s.a.maxRemote == MAX_PACKET && !s.a.winClosed
    && !s.b.gone && !s.b.closing && !s.a.gone && !s.a.closing
    && |s.a.sent| == |s.a.written| == |s.b.got| == 2
  }

  lemma IdleHasCredit(s: State, ls: seq<Label>, opener: bool)
    requires Reachable(s, ls) && Idle(SeenFrom(s, opener))
    ensures FullCredit(SeenFrom(s, opener))
  {
    hide Reachable;
    SeenInv(s, ls, opener);
    var t := SeenFrom(s, opener);
    assert Credits([]) == 0;
  }

  /** Each label leads from one of these states to the next. */
  predicate Path(ls: seq<Label>, states: seq<State>) {
    |states| == |ls| + 1 && forall i | 0 <= i < |ls| :: Step(states[i], ls[i]) == Next(states[i + 1])
  }

  lemma {:induction false} RunPath(ls: seq<Label>, states: seq<State>)
    requires Path(ls, states)
    ensures Run(states[0], ls) == Next(states[|ls|])
    decreases |ls|
  {
    hide Step;
    if ls != [] {
      var (rest, tail) := (ls[1..], states[1..]);
      forall i | 0 <= i < |rest| ensures Step(tail[i], rest[i]) == Next(tail[i + 1]) {
        assert rest[i] == ls[i + 1] && tail[i] == states[i + 1] && tail[i + 1] == states[i + 2];
      }
      RunPath(rest, tail);
    }
  }

  lemma RunThree(a: State, l1: Label, b: State, l2: Label, c: State, l3: Label, d: State)
    requires Step(a, l1) == Next(b) && Step(b, l2) == Next(c) && Step(c, l3) == Next(d)
    ensures Run(a, [l1, l2, l3]) == Next(d)
  {
    hide Step, Run;
    RunPath([l1, l2, l3], [a, b, c, d]);
  }

  lemma RunFive(a: State, l1: Label, b: State, l2: Label, c: State, l3: Label, d: State, l4: Label, e: State, l5: Label, f: State)
    requires Step(a, l1) == Next(b) && Step(b, l2) == Next(c) && Step(c, l3) == Next(d) && Step(d, l4) == Next(e) && Step(e, l5) == Next(f)
    ensures Run(a, [l1, l2, l3, l4, l5]) == Next(f)
  {
    hide Step, Run;
    RunPath([l1, l2, l3, l4, l5], [a, b, c, d, e, f]);
  }

  lemma {:induction false} RunJoined(s: State, ls: seq<Label>, ls': seq<Label>, t: State)
    requires Run(s, ls) == Next(t)
    ensures Run(s, ls + ls') == Run(t, ls')
    decreases |ls|
  {
    hide Step;
    if ls == [] {
      assert ls + ls' == ls';
    } else {
      assert (ls + ls')[1..] == ls[1..] + ls';
      RunJoined(Step(s, ls[0]).state, ls[1..], ls', t);
    }
  }

  /** How much the next packet takes. */
  function Portion(s: State, todo: Bytes): nat {
    Min(s.a.remoteWin, Min32(s.a.maxRemote, |todo|))
  }

  /** After one packet of k bytes has been written, read and credited. */
  function Moved(s: State, c: nat, todo: Bytes, k: nat): State
    requires k <= |todo|
  {
    s.(a := s.a.(writes := [WriteCall(c, todo[k..], None)], sent := Append(s.a.sent, c, todo[..k])),
       b := s.b.(got := Append(s.b.got, c, todo[..k])))
  }

  lemma SendOne(s: State, c: nat, todo: Bytes) returns (t: State)
    requires c < 2 && todo != [] && |todo| < TWO32 && Sending(s, c, todo)
    ensures var k := Portion(s, todo);
            && 0 < k <= |todo| && k <= s.b.myWindow
            && Run(s, [ActA(Reserve(0)), ActA(Send(0)), DeliverToB]) == Next(t)
            && t == s.(a := s.a.(writes := [WriteCall(c, todo[k..], None)], sent := Append(s.a.sent, c, todo[..k]), remoteWin := s.a.remoteWin - k),
                       b := s.b.(bufs := Append(s.b.bufs, c, todo[..k]), myWindow := s.b.myWindow - k))
  {
    hide Run, Step, Act, Append, Portion;
    PortionMeans(s, todo);
    var k := Portion(s, todo);
    var a0 := s.a;
    var a1 := a0.(writes := [WriteCall(c, todo, Some(k))], remoteWin := a0.remoteWin - k);
    var a2 := a1.(writes := [WriteCall(c, todo[k..], None)], sent := Append(a0.sent, c, todo[..k]));
    var s1 := s.(a := a1);
    var s2 := s.(a := a2, ab := [Data(c, todo[..k])]);
    t := s.(a := a2, b := s.b.(bufs := Append(s.b.bufs, c, todo[..k]), myWindow := s.b.myWindow - k));
    Reserves(s, c, todo);
    SendsPart(a1, c, todo, k);
    AActs(s, Reserve(0), a1, []);
    AActs(s1, Send(0), a2, [Data(c, todo[..k])]);
    TakesBytes(s2, c, todo[..k]);
    RunThree(s, ActA(Reserve(0)), s1, ActA(Send(0)), s2, DeliverToB, t);
  }

  lemma PortionMeans(s: State, todo: Bytes)
    requires todo != [] && |todo| < TWO32 && FullCredit(s)
    ensures 0 < Portion(s, todo) <= |todo| && Portion(s, todo) <= MAX_PACKET && Portion(s, todo) <= s.b.myWindow
  {
  }

  lemma AActs(s: State, act: Action, e: End, out: seq<Msg>)
    requires Act(s.a, act) == Some((e, out)) && s.ab == []
    ensures Step(s, ActA(act)) == Next(s.(a := e, ab := out))
  {
    hide Act;
    assert s.ab + out == out;
  }

  lemma Reserves(s: State, c: nat, todo: Bytes)
    requires todo != [] && |todo| < TWO32 && Sending(s, c, todo)
    ensures var k := Portion(s, todo);
            && k <= s.a.remoteWin
            && Act(s.a, Reserve(0)) == Some((s.a.(writes := [WriteCall(c, todo, Some(k))], remoteWin := s.a.remoteWin - k), []))
  {
    var k := Portion(s, todo);
    assert s.a.writes[0 := WriteCall(c, todo, Some(k))] == [WriteCall(c, todo, Some(k))];
  }

  lemma SendsPart(e: End, c: nat, todo: Bytes, k: nat)
    requires e.writes == [WriteCall(c, todo, Some(k))] && k <= |todo| && !e.sentClose
    ensures Act(e, Send(0)) ==
            Some((e.(writes := [WriteCall(c, todo[k..], None)], sent := Append(e.sent, c, todo[..k])), [Data(c, todo[..k])]))
  {
    hide Append;
    assert e.writes[0 := WriteCall(c, todo[k..], None)] == [WriteCall(c, todo[k..], None)];
  }

  lemma TakesBytes(s: State, c: nat, bytes: Bytes)
    requires c < 2 && 0 < |bytes| <= MAX_PACKET && |bytes| <= s.b.myWindow && s.ab == [Data(c, bytes)] && s.ba == []
    requires !s.b.gone && !s.b.closing && |s.b.bufs| == 2
    ensures Step(s, DeliverToB) == Next(s.(b := s.b.(bufs := Append(s.b.bufs, c, bytes), myWindow := s.b.myWindow - |bytes|), ab := []))
  {
    hide Append;
    assert s.ba + [] == s.ba && s.ab[1..] == [];
  }

  lemma RunNothing(s: State)
    ensures Run(s, []) == Next(s)
  {
  }

  lemma Told(e: End, c: nat, bytes: Bytes)
    ensures HasTold(e, c, bytes) == e.(bufs := [[], []], got := Append(e.got, c, bytes), myWindow := e.myWindow + |bytes|)
  {
    hide Append;
  }

  /** The peer reads what has arrived, and gives the credit back. */
  lemma BGives(s: State, c: nat, bytes: Bytes)
    requires c < 2 && bytes != [] && s.ba == [] && s.b.decided && !s.b.sentClose && s.b.myWindow + |bytes| < TWO32
    requires s.b.bufs == Append([[], []], c, bytes) && s.b.uncredited == [] && s.b.owed == [] && |s.b.got| == 2
    ensures Run(s, [ActB(Read(c, |bytes|)), ActB(Credit(0)), ActB(SendAdjust(0))])
            == Next(s.(b := HasTold(s.b, c, bytes), ba := [Adjust(|bytes|)]))
  {
    hide Run, Step, Act, Append, HasRead, HasCredited, HasTold;
    var k := |bytes|;
    var (b1, b2, b3) := (HasRead(s.b, c, bytes), HasCredited(s.b, c, bytes), HasTold(s.b, c, bytes));
    var (s1, s2, s3) := (s.(b := b1), s.(b := b2), s.(b := b3, ba := [Adjust(k)]));
    GivesBack(s.b, c, bytes);
    BActs(s, Read(c, k), b1, []);
    BActs(s1, Credit(0), b2, []);
    BActs(s2, SendAdjust(0), b3, [Adjust(k)]);
    RunThree(s, ActB(Read(c, k)), s1, ActB(Credit(0)), s2, ActB(SendAdjust(0)), s3);
  }

  /** b after reading the bytes, after crediting them, and after telling the peer. */
  function HasRead(e: End, c: nat, bytes: Bytes): End {
    e.(bufs := [[], []], got := Append(e.got, c, bytes), uncredited := [|bytes|])
  }

  function HasCredited(e: End, c: nat, bytes: Bytes): End {
    e.(bufs := [[], []], got := Append(e.got, c, bytes), owed := [|bytes|], myWindow := e.myWindow + |bytes|)
  }

  function HasTold(e: End, c: nat, bytes: Bytes): End {
    e.(bufs := [[], []], got := Append(e.got, c, bytes), myWindow := e.myWindow + |bytes|)
  }

  lemma GivesBack(e: End, c: nat, bytes: Bytes)
    requires c < 2 && bytes != [] && e.decided && !e.sentClose && e.bufs == Append([[], []], c, bytes) && |e.got| == 2
    requires e.uncredited == [] && e.owed == [] && e.myWindow + |bytes| < TWO32
    ensures Act(e, Read(c, |bytes|)) == Some((HasRead(e, c, bytes), []))
    ensures Act(HasRead(e, c, bytes), Credit(0)) == Some((HasCredited(e, c, bytes), []))
    ensures Act(HasCredited(e, c, bytes), SendAdjust(0)) == Some((HasTold(e, c, bytes), [Adjust(|bytes|)]))
  {
    hide Act, Append;
    ReadsAll(e, c, bytes);
    GivesCredit(HasRead(e, c, bytes), |bytes|);
    Adjusts(HasCredited(e, c, bytes), |bytes|);
  }

  lemma BActs(s: State, act: Action, e: End, out: seq<Msg>)
    requires Act(s.b, act) == Some((e, out)) && s.ba == []
    ensures Step(s, ActB(act)) == Next(s.(b := e, ba := out))
  {
    hide Act;
    assert s.ba + out == out;
  }

  lemma ReadsAll(e: End, c: nat, bytes: Bytes)
    requires c < 2 && bytes != [] && e.decided && e.bufs == Append([[], []], c, bytes) && e.uncredited == [] && |e.got| == 2
    ensures Act(e, Read(c, |bytes|)) == Some((e.(bufs := [[], []], got := Append(e.got, c, bytes), uncredited := [|bytes|]), []))
  {
    assert bytes[..|bytes|] == bytes && bytes[|bytes|..] == [];
    assert e.bufs[c] == bytes && e.bufs[c := []] == [[], []];
    assert [] + [|bytes|] == [|bytes|];
  }

  lemma GivesCredit(e: End, k: nat)
    requires e.uncredited == [k] && e.owed == [] && e.myWindow + k < TWO32
    ensures Act(e, Credit(0)) == Some((e.(uncredited := [], owed := [k], myWindow := e.myWindow + k), []))
  {
    assert Without([k], 0) == [] && [] + [k] == [k];
  }

  lemma Adjusts(e: End, k: nat)
    requires e.owed == [k] && !e.sentClose
    ensures Act(e, SendAdjust(0)) == Some((e.(owed := []), [Adjust(k)]))
  {
    assert Without([k], 0) == [];
  }

  lemma TakesAdjust(s: State, k: nat)
    requires s.ab == [] && s.ba == [Adjust(k)] && !s.a.gone && !s.a.closing && s.a.remoteWin + k < TWO32
    ensures Step(s, DeliverToA) == Next(s.(a := s.a.(remoteWin := s.a.remoteWin + k), ba := []))
  {
    assert s.ab + [] == s.ab && s.ba[1..] == [];
  }

  /** The call can run to its end, however often the window fills up. */
  lemma {:induction false} SendAll(s: State, c: nat, todo: Bytes) returns (more: seq<Label>, t: State)
    requires c < 2 && |todo| < TWO32 && Sending(s, c, todo)
    ensures Run(s, more) == Next(t) && Sending(t, c, [])
    ensures t == s.(a := s.a.(writes := [WriteCall(c, [], None)], sent := Append(s.a.sent, c, todo)), b := s.b.(got := Append(s.b.got, c, todo)))
    decreases |todo|
  {
    hide Run, Step, Portion, HasTold;
    if todo == [] {
      more, t := [], s;
      RunNothing(s);
      assert s.a.sent[c] + [] == s.a.sent[c] && s.b.got[c] + [] == s.b.got[c];
    } else {
      var k := Portion(s, todo);
      var s1 := SendOne(s, c, todo);
      var s2 := s1.(b := HasTold(s1.b, c, todo[..k]), ba := [Adjust(k)]);
      var s3 := s2.(a := s1.a.(remoteWin := s.a.remoteWin), ba := []);
      BGives(s1, c, todo[..k]);
      TakesAdjust(s2, k);
      Told(s1.b, c, todo[..k]);
      RunPath([DeliverToA], [s2, s3]);
      var (first, second) := ([ActA(Reserve(0)), ActA(Send(0)), DeliverToB], [ActB(Read(c, k)), ActB(Credit(0)), ActB(SendAdjust(0))]);
      RunJoined(s, first, second, s1);
      RunJoined(s, first + second, [DeliverToA], s2);
      var rest;
      rest, t := SendAll(s3, c, todo[k..]);
      RunJoined(s, first + second + [DeliverToA], rest, s3);
      more := first + second + [DeliverToA] + rest;
      assert todo[..k] + todo[k..] == todo;
      AppendTwice(s.a.sent, c, todo[..k], todo[k..]);
      AppendTwice(s.b.got, c, todo[..k], todo[k..]);
    }
  }

  lemma AppendTwice(h: seq<Bytes>, c: nat, x: Bytes, y: Bytes)
    ensures Append(Append(h, c, x), c, y) == Append(h, c, x + y)
  {
    if c < |h| {
      assert h[c] + x + y == h[c] + (x + y);
    }
  }

  /** On an idle channel data of any length can be written and read: a run of both ends leads to the same state but for the
      histories, with all of it written, sent and read. */
  lemma TransferCompletes(s: State, ls: seq<Label>, opener: bool, c: nat, data: Bytes) returns (more: seq<Label>, t: State)
    requires Reachable(s, ls) && Idle(SeenFrom(s, opener)) && c < 2 && |data| < TWO32
    ensures Run(SeenFrom(s, opener), more) == Next(t) && Idle(t)
    ensures var f := SeenFrom(s, opener);
            t == f.(a := f.a.(written := Append(f.a.written, c, data), sent := Append(f.a.sent, c, data)), b := f.b.(got := Append(f.b.got, c, data)))
  {
    hide Run, Reachable;
    IdleHasCredit(s, ls, opener);
    var f := SeenFrom(s, opener);
    var s1 := f.(a := f.a.(writes := [WriteCall(c, data, None)], written := Append(f.a.written, c, data)));
    assert Step(f, ActA(StartWrite(c, data))) == Next(s1) by {
      assert [] + [WriteCall(c, data, None)] == [WriteCall(c, data, None)] && f.ab + [] == f.ab;
    }
    RunPath([ActA(StartWrite(c, data))], [f, s1]);
    assert s1.a.(writes := []) == f.a.(written := s1.a.written);
    var middle, s2 := SendAll(s1, c, data);
    RunJoined(f, [ActA(StartWrite(c, data))], middle, s1);
    t := s2.(a := s2.a.(writes := []));
    assert Step(s2, ActA(ReturnWrite(0))) == Next(t) by {
      assert Without([WriteCall(c, [], None)], 0) == [] && s2.ab + [] == s2.ab;
    }
    RunPath([ActA(ReturnWrite(0))], [s2, t]);
    RunJoined(f, [ActA(StartWrite(c, data))] + middle, [ActA(ReturnWrite(0))], s2);
    more := [ActA(StartWrite(c, data))] + middle + [ActA(ReturnWrite(0))];
  }

  /** After CloseWrite on an idle channel the peer's next Read on either stream can report EOF. */
  lemma EofArrives(s: State, ls: seq<Label>, opener: bool) returns (t: State)
    requires Reachable(s, ls) && Idle(SeenFrom(s, opener))
    ensures Run(SeenFrom(s, opener), [ActA(SetEof), ActA(SendEof), DeliverToB]) == Next(t)
    ensures t.ab == t.ba == [] && t.a.sentEOF && t.b.bufs == [[], []] && ReportsEof(t.b, 0) && ReportsEof(t.b, 1)
  {
    hide Run, Reachable, MarkLate;
    IdleHasCredit(s, ls, opener);
    var f := SeenFrom(s, opener);
    var s1 := f.(a := f.a.(sentEOF := true, eofCalls := f.a.eofCalls + 1, late := MarkLate(f.a.late, f.a.writes)));
    var s2 := s1.(a := s1.a.(eofCalls := f.a.eofCalls), ab := [Eof]);
    t := s2.(b := f.b.(eof := true), ab := []);
    assert f.ab + [] == f.ab && f.ba + [] == f.ba && [] + [Eof] == [Eof];
    assert Step(f, ActA(SetEof)) == Next(s1);
    assert Step(s1, ActA(SendEof)) == Next(s2);
    assert Step(s2, DeliverToB) == Next(t);
    RunThree(f, ActA(SetEof), s1, ActA(SendEof), s2, DeliverToB, t);
  }

  /** After Close on an idle channel the CLOSE is answered and both ends tear the channel down. */
  lemma CloseCompletes(s: State, ls: seq<Label>, opener: bool) returns (t: State)
    requires Reachable(s, ls) && Idle(SeenFrom(s, opener))
    ensures Run(SeenFrom(s, opener), [ActA(CallClose), DeliverToB, ActB(Teardown), DeliverToA, ActA(Teardown)]) == Next(t)
    ensures t.ab == t.ba == [] && t.a.gone && t.b.gone && t.a.winClosed && t.b.winClosed
  {
    hide Run, Reachable;
    IdleHasCredit(s, ls, opener);
    var f := SeenFrom(s, opener);
    var s1 := f.(a := f.a.(sentClose := true), ab := [Close]);
    var s2 := s1.(b := f.b.(sentClose := true, closing := true), ab := [], ba := [Close]);
    var s3 := s2.(b := s2.b.(closing := false, gone := true, eof := true, winClosed := true));
    var s4 := s3.(a := s3.a.(closing := true), ba := []);
    t := s4.(a := s4.a.(closing := false, gone := true, eof := true, winClosed := true));
    assert f.ab + [Close] == [Close] && f.ba + [Close] == [Close] && f.ab + [] == [] && [Close] + [] == [Close];
    assert Step(f, ActA(CallClose)) == Next(s1);
    assert Step(s1, DeliverToB) == Next(s2);
    assert Step(s2, ActB(Teardown)) == Next(s3);
    assert Step(s3, DeliverToA) == Next(s4);
    assert Step(s4, ActA(Teardown)) == Next(t);
    RunFive(f, ActA(CallClose), s1, DeliverToB, s2, ActB(Teardown), s3, DeliverToA, s4, ActA(Teardown), t);
  }

  /** Requests and their answers can be sent for as long as no CLOSE has been, and the peer takes them. */
  lemma OthersAreSent(e: End, p: End)
    requires e.decided && !e.sentClose && !p.gone
    ensures Act(e, SendOther) == Some((e, [Other])) && Deliver(p, Other) == Ok((p, []))
  {
  }

  // ----- any peer -----

  /** Whatever the peer sends, the packet loop ends the connection exactly for a packet to a channel that is gone, for data beyond
      the packet size or the window, for a confirmation out of place or with an invalid packet size, and for an adjustment beyond
      uint32. */
  lemma DeliverFailsIff(e: End, m: Msg)
    ensures Deliver(e, m).Err? <==>
            || e.gone
            || (m.Data? && (|m.payload| > 32768 || |m.payload| > e.myWindow))
            || (m.Confirm? && (!e.outbound || e.decided || m.maxPacket < 9 || m.maxPacket > 0x8000_0000))
            || (m.Adjust? && e.remoteWin + m.n >= TWO32)
  {
  }

  /** And otherwise data goes to the end of the buffer of its stream and out of the window, and nothing else happens to either. */
  lemma DataIsBuffered(e: End, code: nat, payload: Bytes)
    requires |e.bufs| == 2 && Deliver(e, Data(code, payload)).Ok?
    ensures var (e', out) := Deliver(e, Data(code, payload)).value;
            && out == [] && e'.myWindow == e.myWindow - |payload|
            && e'.bufs == (if code == 0 then [e.bufs[0] + payload, e.bufs[1]] else if code == 1 then [e.bufs[0], e.bufs[1] + payload] else e.bufs)
            && e'.remoteWin == e.remoteWin && e'.got == e.got && e'.uncredited == e.uncredited
  {
    assert e.bufs == [e.bufs[0], e.bufs[1]];
    if payload == [] {
      assert e.bufs[0] + payload == e.bufs[0] && e.bufs[1] + payload == e.bufs[1];
    }
  }

  /** A confirmation, from any peer, sets the packet size to the peer's and adds its window; an adjustment adds to the window; an EOF
      ends the buffers; a CLOSE is answered with one CLOSE exactly if none has been sent, and begins the teardown. */
  lemma ControlMeans(e: End, m: Msg)
    requires Deliver(e, m).Ok? && !m.Data?
    ensures var (e', out) := Deliver(e, m).value;
            match m
            case Confirm(w, max) =>
              e' == e.(decided := true, maxRemote := max, remoteWin := if e.remoteWin + w < TWO32 then e.remoteWin + w else e.remoteWin) && out == []
            case Adjust(n) => e' == e.(remoteWin := e.remoteWin + n) && out == []
            case Eof => e' == e.(eof := true) && out == []
            case Close => e' == e.(sentClose := true, closing := true) && out == if e.sentClose then [] else [Close]
            case Other => e' == e && out == []
  {
  }

  /** One end alone: what it does, and what any peer sends it. */
  datatype Event = Does(act: Action) | Takes(m: Msg)

  function After(e: End, ev: Event): Option<End> {
    match ev
    case Does(act) => (match Act(e, act) case None => None case Some((e', _)) => Some(e'))
    case Takes(m) => (match Deliver(e, m) case Err(_) => None case Ok((e', _)) => Some(e'))
  }

  function AfterAll(e: End, evs: seq<Event>): Option<End>
    decreases |evs|
  {
    if evs == [] then Some(e) else match After(e, evs[0]) case None => None case Some(e') => AfterAll(e', evs[1..])
  }

  predicate Bounded(e: End) {
    |e.bufs| == |e.got| == 2 && WindowKept(e)
  }

  lemma AfterBounded(e: End, ev: Event)
    requires Bounded(e) && After(e, ev).Some?
    ensures Bounded(After(e, ev).value)
  {
    hide Sum, Without, Append;
    match ev {
      case Does(act) => ActBounded(e, act);
      case Takes(m) => TakeBounded(e, m);
    }
  }

  lemma TakeBounded(e: End, m: Msg)
    requires Bounded(e) && Deliver(e, m).Ok?
    ensures Bounded(Deliver(e, m).value.0)
  {
  }

  lemma ActBounded(e: End, act: Action)
    requires Bounded(e) && Act(e, act).Some?
    ensures Bounded(Act(e, act).value.0)
  {
    hide Sum, Without, ActRead, ActCredit, Append;
    match act {
      case Read(code, len) => ReadBounded(e, code, len);
      case Credit(j) => CreditBounded(e, j);
      case _ =>
    }
  }

  lemma ReadBounded(e: End, code: nat, len: nat)
    requires Bounded(e) && ActRead(e, code, len).Some?
    ensures Bounded(ActRead(e, code, len).value.0)
  {
    hide Sum;
    SumSnoc(e.uncredited, Min(len, |e.bufs[code]|));
  }

  lemma CreditBounded(e: End, j: nat)
    requires Bounded(e) && ActCredit(e, j).Some?
    ensures Bounded(ActCredit(e, j).value.0)
  {
    hide Sum, Without;
    SumWithout(e.uncredited, j);
  }

  /** However the peer behaves, what is buffered is never more than the window: it can fill it and no more. */
  lemma {:induction false} AnyPeerIsBounded(e: End, evs: seq<Event>)
    requires Bounded(e) && AfterAll(e, evs).Some?
    ensures var e' := AfterAll(e, evs).value; |e'.bufs| == 2 && |e'.bufs[0]| + |e'.bufs[1]| <= WINDOW
    decreases |evs|
  {
    hide Act, Deliver, After;
    if evs != [] {
      AfterBounded(e, evs[0]);
      AnyPeerIsBounded(After(e, evs[0]).value, evs[1..]);
    }
  }
}
