/** What holds in every run of ChannelFlow's two endpoints. */
module ChannelResults {
  import opened ByteStrings
  import opened ChannelFlow
  import opened ChannelInvariant
  import opened Results

  lemma {:induction false} RunKeeps(s: State, ls: seq<Label>)
    requires Inv(s)
    ensures !Run(s, ls).Failed?
    ensures Run(s, ls).Next? ==> Inv(Run(s, ls).state)
    decreases |ls|
  {
    hide Direction, Step;
    if ls != [] {
      StepKeeps(s, ls[0]);
      if Step(s, ls[0]).Next? {
        RunKeeps(Step(s, ls[0]).state, ls[1..]);
      }
    }
  }

  predicate Reachable(s: State, ls: seq<Label>) {
    Run(Init(), ls) == Next(s)
  }

  lemma ReachableInv(s: State, ls: seq<Label>)
    requires Reachable(s, ls)
    ensures Inv(s)
  {
    hide Direction, Run, Init, Step;
    InitHolds();
    RunKeeps(Init(), ls);
  }

  lemma SeenInv(s: State, ls: seq<Label>, opener: bool)
    requires Reachable(s, ls)
    ensures Inv(SeenFrom(s, opener))
  {
    hide Direction, Reachable;
    ReachableInv(s, ls);
  }

  function SwapAll(ls: seq<Label>): seq<Label> {
    seq(|ls|, i requires 0 <= i < |ls| => SwapLabel(ls[i]))
  }

  function SwapOutcome(o: Outcome): Outcome {
    match o
    case Next(s) => Next(Swap(s))
    case _ => o
  }

  /** What the exchanged channel does is what the channel does with the ends exchanged; so what is said below of runs that
      start in SeenFrom(s, opener) is said of runs of the channel, whichever end is looked from. */
  lemma {:induction false} SwapRuns(s: State, ls: seq<Label>)
    ensures Run(Swap(s), SwapAll(ls)) == SwapOutcome(Run(s, ls))
    decreases |ls|
  {
    hide Act, Deliver;
    if ls != [] {
      assert SwapAll(ls)[1..] == SwapAll(ls[1..]);
      if Step(s, ls[0]).Next? {
        SwapRuns(Step(s, ls[0]).state, ls[1..]);
      }
    }
  }

  /** Whatever the interleaving, no endpoint ever reports a protocol error. */
  lemma NoRunFails(ls: seq<Label>)
    ensures !Run(Init(), ls).Failed?
  {
    hide Direction, Run, Init, Step;
    InitHolds();
    RunKeeps(Init(), ls);
  }

  /** Flow control conserves credit, both ways: the sender's window, the credit held by its running writes, the
      data on the link, the grants on the way back and those still owed make up the receiver's myWindow; and
      myWindow, the buffered bytes, those read but not credited and those discarded make up the full window.
      Before either side has sent CLOSE nothing is dropped. */
  lemma CreditIsConserved(s: State, ls: seq<Label>)
    requires Reachable(s, ls)
    ensures CreditKept(s.a, s.b, s.ab, s.ba) && CreditKept(s.b, s.a, s.ba, s.ab)
    ensures |s.a.bufs| == |s.b.bufs| == 2 && WindowKept(s.a) && WindowKept(s.b)
    ensures !s.a.sentClose && !s.b.sentClose ==> s.a.lost + s.a.lostOwed + s.b.lost + s.b.lostOwed == 0
    ensures s.a.myWindow <= WINDOW && s.b.myWindow <= WINDOW && s.a.remoteWin <= WINDOW && s.b.remoteWin <= WINDOW
  {
    ReachableInv(s, ls);
  }

  /** A writer that finds its window empty on an open channel can wait in good faith: somewhere there are bytes the peer
      has not read, or credit on its way, or else the peer has thrown bytes away for which it never gives credit. */
  lemma BlockedWriterHasReason(s: State, ls: seq<Label>, opener: bool)
    requires Reachable(s, ls)
    requires var t := SeenFrom(s, opener); t.a.decided && t.a.remoteWin == 0 && !t.a.sentClose && !t.b.sentClose
    ensures var t := SeenFrom(s, opener);
            && |t.b.bufs| == 2
            && Credits(t.a.writes) + DataBytes(t.ab) + Grants(t.ba) + Sum(t.b.owed)
               + |t.b.bufs[0]| + |t.b.bufs[1]| + Sum(t.b.uncredited) + t.b.discarded == WINDOW
  {
    SeenInv(s, ls, opener);
  }

  /** The bytes returned by the Reads of a stream are a prefix of the bytes given to its Writes, in order. */
  lemma ReadsArePrefixOfWrites(s: State, ls: seq<Label>, c: nat)
    requires Reachable(s, ls) && c < 2
    ensures |s.b.got| == |s.a.written| == |s.a.got| == |s.b.written| == 2
    ensures s.b.got[c] <= s.a.written[c] && s.a.got[c] <= s.b.written[c]
  {
    ReachableInv(s, ls);
    GotWithinWritten(s.a, s.b, s.ab, s.ba, c);
    GotWithinWritten(s.b, s.a, s.ba, s.ab, c);
  }

  lemma SentWithinWritten(s: End, c: nat)
    requires c < 2 && |s.failed| == |s.written| == |s.sent| == 2
    requires WriterKept(s.failed[c], s.sentClose, s.written[c], s.sent[c], s.writes, c)
    ensures s.sent[c] <= s.written[c]
  {
    if !s.failed[c] && exists k :: 0 <= k < |s.writes| && s.writes[k].code == c {
      var k :| 0 <= k < |s.writes| && s.writes[k].code == c;
      assert s.written[c] == s.sent[c] + s.writes[k].todo;
    }
  }

  lemma GotWithinWritten(s: End, r: End, fwd: seq<Msg>, back: seq<Msg>, c: nat)
    requires c < 2 && Direction(s, r, fwd, back)
    ensures r.got[c] <= s.sent[c] <= s.written[c]
  {
    hide CallsFit, CloseIsLast, ConfirmIsFirst, PacketsFit, EofLink, Credits, Sum, DataBytes, Grants, Stream;
    SentWithinWritten(s, c);
    assert r.got[c] + r.bufs[c] + Stream(fwd, c) == r.got[c] + (r.bufs[c] + Stream(fwd, c));
  }

  lemma {:induction false} NoDataNoStream(l: seq<Msg>, c: nat)
    requires forall k | 0 <= k < |l| :: !(l[k].Data? && l[k].code == c)
    ensures Stream(l, c) == []
  {
    if l != [] {
      NoDataNoStream(l[1..], c);
    }
  }

  /** Read reports io.EOF when its buffer is drained and closed. */
  predicate ReportsEof(e: End, c: nat)
    requires c < |e.bufs|
  {
    e.eof && e.bufs[c] == []
  }

  /** When Read reports EOF it has returned everything that was sent on the stream, unless a Write on it still had data
      left when the other end called CloseWrite; and if no Write on it failed, everything that was written. */
  lemma EofMeansAllRead(s: State, ls: seq<Label>, opener: bool, c: nat)
    requires Reachable(s, ls) && c < 2
    requires var t := SeenFrom(s, opener);
             && |t.b.bufs| == |t.b.got| == |t.a.sent| == |t.a.written| == |t.a.failed| == |t.a.late| == 2
             && ReportsEof(t.b, c) && (!t.a.late[c] || t.b.gone)
    ensures var t := SeenFrom(s, opener); t.b.got[c] == t.a.sent[c]
    ensures var t := SeenFrom(s, opener); !t.a.late[c] && t.a.sentEOF && !t.a.failed[c] ==> t.b.got[c] == t.a.written[c]
  {
    hide Direction, Reachable;
    SeenInv(s, ls, opener);
    var t := SeenFrom(s, opener);
    AllReadAtEof(t.a, t.b, t.ab, t.ba, c);
  }

  lemma AllReadAtEof(s: End, r: End, fwd: seq<Msg>, back: seq<Msg>, c: nat)
    requires Both(s, r, fwd, back) && c < 2 && |s.late| == 2
    requires r.eof && |r.bufs| == 2 && r.bufs[c] == [] && (!s.late[c] || r.gone)
    ensures |r.got| == |s.sent| == |s.written| == |s.failed| == 2 && r.got[c] == s.sent[c]
    ensures !s.late[c] && s.sentEOF && !s.failed[c] ==> r.got[c] == s.written[c]
  {
    hide CallsFit, ConfirmIsFirst, PacketsFit, Credits, Sum, DataBytes, Grants, Unsent, WriterKept, EofLink, CloseIsLast, Stream;
    if r.gone {
      assert fwd == [] by { NothingAfterClose(s.sentClose, fwd); }
      NoDataNoStream(fwd, c);
    } else {
      InTimeOnly(s.sentEOF, s.late, fwd, c);
      NoDataNoStream(fwd, c);
    }
    assert r.got[c] + [] + [] == r.got[c];
    if !s.late[c] && s.sentEOF && !s.failed[c] {
      NothingUnsent(s.failed[c], s.sentClose, s.written[c], s.sent[c], s.writes, c);
    }
  }

  lemma NothingAfterClose(sentClose: bool, fwd: seq<Msg>)
    requires CloseIsLast(sentClose, true, fwd)
    ensures fwd == []
  {
  }

  lemma InTimeOnly(sentEOF: bool, late: seq<bool>, fwd: seq<Msg>, c: nat)
    requires EofLink(sentEOF, late, true, fwd) && c < |late| && !late[c]
    ensures forall k | 0 <= k < |fwd| :: !(fwd[k].Data? && fwd[k].code == c)
  {
  }

  lemma NothingUnsent(failed: bool, sentClose: bool, written: Bytes, sent: Bytes, ws: seq<WriteCall>, c: nat)
    requires WriterKept(failed, sentClose, written, sent, ws, c) && !failed && !Unsent(ws, c)
    ensures written == sent
  {
    if exists k :: 0 <= k < |ws| && ws[k].code == c {
      var k :| 0 <= k < |ws| && ws[k].code == c;
      assert sent + [] == sent;
    }
  }

  // ----- when exactly -----

  /** With CloseWrite called and nothing unsent on the stream, this stays so, and no Write on it fails. */
  predicate Punctual(e: End, c: nat)
    requires c < 2
  {
    |e.late| == 2 && |e.failed| == 2 && e.sentEOF && !e.late[c] && !e.failed[c]
  }

  lemma PunctualAct(s: End, r: End, fwd: seq<Msg>, back: seq<Msg>, act: Action, c: nat)
    requires Both(s, r, fwd, back) && c < 2 && Punctual(s, c) && Act(s, act).Some?
    ensures Punctual(Act(s, act).value.0, c)
  {
    hide CloseIsLast, ConfirmIsFirst, PacketsFit, WriterKept, EofLink, Credits, Sum, DataBytes, Grants, Stream, StreamKept;
    if act.Reserve? || act.Send? {
      assert s.writes[act.i].code == c ==> Unsent(s.writes, c);
    }
  }

  lemma PunctualDeliver(e: End, m: Msg, c: nat)
    requires c < 2 && Punctual(e, c) && Deliver(e, m).Ok?
    ensures Punctual(Deliver(e, m).value.0, c)
  {
  }

  lemma {:induction false} PunctualRun(s: State, ls: seq<Label>, c: nat)
    requires Inv(s) && c < 2 && Punctual(s.a, c) && Run(s, ls).Next?
    ensures Punctual(Run(s, ls).state.a, c)
    decreases |ls|
  {
    hide Direction, Act, Deliver, Punctual;
    if ls != [] {
      StepKeeps(s, ls[0]);
      match ls[0] {
        case ActA(act) => PunctualAct(s.a, s.b, s.ab, s.ba, act, c);
        case DeliverToA => PunctualDeliver(s.a, s.ba[0], c);
        case _ =>
      }
      PunctualRun(Step(s, ls[0]).state, ls[1..], c);
    }
  }

  /** Neither end has begun to close. */
  predicate Open(s: State) {
    s.a.decided && !s.a.sentClose && !s.b.sentClose
  }

  lemma DrainOne(s: State)
    requires Inv(s) && Open(s) && s.ab != []
    ensures Step(s, DeliverToB).Next?
    ensures var s' := Step(s, DeliverToB).state;
            Inv(s') && Open(s') && s'.a == s.a && s'.ab == s.ab[1..] && (s.b.eof || s.ab[0] == Eof ==> s'.b.eof)
  {
    hide CallsFit, ConfirmIsFirst, PacketsFit, WriterKept, EofLink, Credits, Sum, DataBytes, Grants, Stream, StreamKept;
    StepKeeps(s, DeliverToB);
    assert s.ab[0] != Close;
    assert s.ba + [] == s.ba;
  }

  /** The peer's packet loop takes everything on the link. */
  lemma {:induction false} Drain(s: State) returns (ls: seq<Label>, s': State)
    requires Inv(s) && Open(s)
    ensures Run(s, ls) == Next(s') && Inv(s') && Open(s') && s'.a == s.a && s'.ab == []
    ensures s.b.eof || Eof in s.ab ==> s'.b.eof
    decreases |s.ab|
  {
    hide Direction, Open, Step;
    ls, s' := [], s;
    if s.ab != [] {
      DrainOne(s);
      var s1 := Step(s, DeliverToB).state;
      assert Eof in s.ab ==> s.ab[0] == Eof || Eof in s.ab[1..];
      ls, s' := Drain(s1);
      assert ([DeliverToB] + ls)[1..] == ls;
      ls := [DeliverToB] + ls;
    }
  }

  lemma EofIsSent(s: State)
    requires Inv(s) && Open(s)
    ensures Step(s, ActA(SetEof)).Next?
    ensures var s1 := Step(s, ActA(SetEof)).state;
            && Inv(s1) && Open(s1) && s1.a.writes == s.a.writes && s1.a.sent == s.a.sent && s1.a.written == s.a.written
            && s1.a.failed == s.a.failed && s1.a.late == MarkLate(s.a.late, s.a.writes)
            && Step(s1, ActA(SendEof)).Next?
            && var s2 := Step(s1, ActA(SendEof)).state; Inv(s2) && Open(s2) && s2.a == s1.a.(eofCalls := s2.a.eofCalls) && Eof in s2.ab
  {
    hide Direction;
    StepKeeps(s, ActA(SetEof));
    var s1 := Step(s, ActA(SetEof)).state;
    assert s.ab + [] == s.ab;
    StepKeeps(s1, ActA(SendEof));
    assert (s1.ab + [Eof])[|s1.ab|] == Eof;
  }

  lemma ReadRest(s: State, c: nat) returns (ls: seq<Label>, s': State)
    requires Inv(s) && Open(s) && s.ab == [] && c < 2
    ensures Run(s, ls) == Next(s') && Inv(s') && Open(s') && s'.a == s.a && s'.b.eof == s.b.eof && s'.ab == []
    ensures |s'.b.bufs| == 2 && s'.b.bufs[c] == []
  {
    hide CallsFit, PacketsFit, WriterKept, EofLink, Credits, Sum, DataBytes, Grants, Stream, StreamKept, CloseIsLast;
    ls, s' := [], s;
    if s.b.bufs[c] != [] {
      var l := ActB(Read(c, |s.b.bufs[c]|));
      StepKeeps(s, l);
      s' := Step(s, l).state;
      ls := [l];
      assert [l][1..] == [];
    }
  }

  lemma {:induction false} RunConcat(s: State, ls: seq<Label>, ls': seq<Label>)
    requires Run(s, ls).Next?
    ensures Run(s, ls + ls') == Run(Run(s, ls).state, ls')
    decreases |ls|
  {
    hide Step;
    if ls == [] {
      assert ls + ls' == ls';
    } else {
      assert (ls + ls')[1..] == ls[1..] + ls';
      RunConcat(Step(s, ls[0]).state, ls[1..], ls');
    }
  }

  /** The other direction: with data left the peer can report EOF while the Write is still running and may go on. */
  lemma EofBeforeData(s: State, c: nat) returns (later: seq<Label>, s': State)
    requires Inv(s) && Open(s) && c < 2 && Unsent(s.a.writes, c)
    ensures Run(s, [ActA(SetEof)] + later) == Next(s') && Open(s') && s'.a.writes == s.a.writes
    ensures |s'.b.bufs| == |s'.b.got| == |s'.a.written| == 2 && ReportsEof(s'.b, c) && s'.b.got[c] != s'.a.written[c]
  {
    hide Direction, Open, Step, Unsent;
    EofIsSent(s);
    var s1 := Step(s, ActA(SetEof)).state;
    var s2 := Step(s1, ActA(SendEof)).state;
    var d, s3 := Drain(s2);
    var r, s4 := ReadRest(s3, c);
    RunConcat(s2, d, r);
    assert ([ActA(SendEof)] + (d + r))[1..] == d + r;
    later := [ActA(SendEof)] + (d + r);
    assert ([ActA(SetEof)] + later)[1..] == later;
    s' := s4;
    NotAllRead(s', c);
  }

  lemma NotAllRead(s: State, c: nat)
    requires Inv(s) && Open(s) && c < 2 && Unsent(s.a.writes, c) && s.ab == [] && |s.b.bufs| == 2 && s.b.bufs[c] == []
    ensures |s.b.got| == |s.a.written| == 2 && s.b.got[c] != s.a.written[c]
  {
    hide CallsFit, PacketsFit, EofLink, Credits, Sum, DataBytes, Grants, CloseIsLast;
    var k :| 0 <= k < |s.a.writes| && s.a.writes[k].code == c && s.a.writes[k].todo != [];
    assert s.b.got[c] + [] + [] == s.b.got[c];
    assert |s.a.sent[c] + s.a.writes[k].todo| > |s.a.sent[c]|;
  }

  /** CloseWrite on an open channel, the first one: afterwards EOF always means that everything written has been read, if
      and only if no Write on the stream still has data left at that moment. */
  lemma EofAfterCloseWriteIff(s: State, ls: seq<Label>, opener: bool, c: nat)
    requires Reachable(s, ls) && c < 2 && Open(SeenFrom(s, opener)) && !SeenFrom(s, opener).a.sentEOF
    ensures var t := SeenFrom(s, opener);
            (forall later :: EofIsHonest(Run(t, [ActA(SetEof)] + later), c)) <==> !Unsent(t.a.writes, c)
  {
    hide Direction, Reachable, Open, Step, Unsent, EofIsHonest, Run;
    SeenInv(s, ls, opener);
    var t := SeenFrom(s, opener);
    if Unsent(t.a.writes, c) {
      var later, t' := EofBeforeData(t, c);
      assert !EofIsHonest(Run(t, [ActA(SetEof)] + later), c) by { NotHonest(t', c); }
    } else {
      forall later ensures EofIsHonest(Run(t, [ActA(SetEof)] + later), c) {
        HonestLater(t, later, c);
      }
    }
  }

  predicate EofIsHonest(o: Outcome, c: nat) {
    o.Next? ==>
      && |o.state.b.bufs| == |o.state.b.got| == |o.state.a.written| == 2
      && (c < 2 && ReportsEof(o.state.b, c) ==> o.state.b.got[c] == o.state.a.written[c])
  }

  lemma NotHonest(s: State, c: nat)
    requires c < 2 && |s.b.bufs| == |s.b.got| == |s.a.written| == 2 && ReportsEof(s.b, c) && s.b.got[c] != s.a.written[c]
    ensures !EofIsHonest(Next(s), c)
  {
  }

  lemma HonestLater(s: State, later: seq<Label>, c: nat)
    requires Inv(s) && Open(s) && c < 2 && !Unsent(s.a.writes, c) && !s.a.sentEOF
    ensures EofIsHonest(Run(s, [ActA(SetEof)] + later), c)
  {
    hide Direction, Open, Step, Unsent;
    EofIsSent(s);
    var s1 := Step(s, ActA(SetEof)).state;
    assert ([ActA(SetEof)] + later)[1..] == later;
    StartsPunctual(s, s1, c);
    if Run(s1, later).Next? {
      PunctualRun(s1, later, c);
      RunKeeps(s1, later);
      var t := Run(s1, later).state;
      FramesOf(t);
      if ReportsEof(t.b, c) {
        AllReadAtEof(t.a, t.b, t.ab, t.ba, c);
      }
    }
  }

  lemma FramesOf(s: State)
    requires Inv(s)
    ensures |s.b.bufs| == |s.b.got| == |s.a.written| == 2
  {
  }

  lemma StartsPunctual(s: State, s1: State, c: nat)
    requires Inv(s) && Open(s) && c < 2 && !Unsent(s.a.writes, c) && !s.a.sentEOF
    requires s1.a.late == MarkLate(s.a.late, s.a.writes) && s1.a.failed == s.a.failed && Step(s, ActA(SetEof)) == Next(s1)
    ensures Punctual(s1.a, c)
  {
    hide CallsFit, PacketsFit, EofLink, Credits, Sum, DataBytes, Grants, CloseIsLast, Stream, StreamKept, Unsent;
  }

  /** A whole run of that kind: a Write that has its credit when CloseWrite is called sends its data after the EOF, and the
      peer reports EOF in between. */
  lemma LateWriteOutlivesEof() returns (ls: seq<Label>, s: State)
    ensures Reachable(s, ls) && |s.b.bufs| == |s.b.got| == |s.a.written| == 2
    ensures ReportsEof(s.b, 0) && s.a.sentEOF && !s.a.sentClose && s.b.got[0] != s.a.written[0]
    ensures Step(s, ActA(Send(0))).Next? && Step(s, ActA(Send(0))).state.ab == [Data(0, [7])]
  {
    hide Step, Run, Init;
    var s1, s2, s3 := LateStart();
    var s4, s5, s6 := LateEnd(s3);
    assert Run(Init(), []) == Next(Init()) by { RunNothing(Init()); }
    RunSnoc([], DeliverToA, Init());
    ls := [] + [DeliverToA];
    RunSnoc(ls, ActA(StartWrite(0, [7])), s1);
    ls := ls + [ActA(StartWrite(0, [7]))];
    RunSnoc(ls, ActA(Reserve(0)), s2);
    ls := ls + [ActA(Reserve(0))];
    RunSnoc(ls, ActA(SetEof), s3);
    ls := ls + [ActA(SetEof)];
    RunSnoc(ls, ActA(SendEof), s4);
    ls := ls + [ActA(SendEof)];
    RunSnoc(ls, DeliverToB, s5);
    ls := ls + [DeliverToB];
    s := s6;
  }

  lemma RunNothing(s: State)
    ensures Run(s, []) == Next(s)
  {
  }

  lemma RunSnoc(ls: seq<Label>, l: Label, s: State)
    requires Run(Init(), ls) == Next(s) && Step(s, l).Next?
    ensures Run(Init(), ls + [l]) == Step(s, l)
  {
    hide Step, Init;
    RunAppend(Init(), ls, l, s);
  }

  lemma RunAppend(s0: State, ls: seq<Label>, l: Label, s: State)
    requires Run(s0, ls) == Next(s) && Step(s, l).Next?
    ensures Run(s0, ls + [l]) == Step(s, l)
  {
    hide Step;
    assert [l][1..] == [];
    RunConcat(s0, ls, [l]);
  }

  lemma LateStart() returns (s1: State, s2: State, s3: State)
    ensures Step(Init(), DeliverToA) == Next(s1)
    ensures Step(s1, ActA(StartWrite(0, [7]))) == Next(s2)
    ensures Step(s2, ActA(Reserve(0))) == Next(s3)
    ensures s3.b == NewEnd(false) && s3.ab == s3.ba == []
    ensures s3.a.decided && !s3.a.sentClose && s3.a.writes == [WriteCall(0, [7], Some(1))] && s3.a.written == [[7], []] && s3.a.sent == [[], []]
  {
    s1 := Step(Init(), DeliverToA).state;
    s2 := Step(s1, ActA(StartWrite(0, [7]))).state;
    s3 := Step(s2, ActA(Reserve(0))).state;
    var none: seq<Bytes> := [[], []];
    assert none[0] + [7] == [7];
    assert s2.a.written == none[0 := [7]] == [[7], []];
  }

  lemma LateEnd(s3: State) returns (s4: State, s5: State, s6: State)
    requires s3.b == NewEnd(false) && s3.ab == s3.ba == []
    requires s3.a.decided && !s3.a.sentClose && s3.a.writes == [WriteCall(0, [7], Some(1))] && s3.a.written == [[7], []] && s3.a.sent == [[], []]
    ensures Step(s3, ActA(SetEof)) == Next(s4)
    ensures Step(s4, ActA(SendEof)) == Next(s5)
    ensures Step(s5, DeliverToB) == Next(s6)
    ensures |s6.b.bufs| == |s6.b.got| == |s6.a.written| == 2
    ensures ReportsEof(s6.b, 0) && s6.a.sentEOF && !s6.a.sentClose && s6.b.got[0] != s6.a.written[0]
    ensures Step(s6, ActA(Send(0))).Next? && Step(s6, ActA(Send(0))).state.ab == [Data(0, [7])]
  {
    s4 := Step(s3, ActA(SetEof)).state;
    s5 := Step(s4, ActA(SendEof)).state;
    s6 := Step(s5, DeliverToB).state;
    assert [7][..1] == [7];
  }

  /** reserve makes progress for a Write with data left unless the number of bytes left is a multiple of 2^32,
      where min comes to zero. */
  lemma ReserveMakesProgressIff(s: State, ls: seq<Label>, opener: bool, i: nat)
    requires Reachable(s, ls)
    requires var e := SeenFrom(s, opener).a;
             i < |e.writes| && e.writes[i].credit.None? && e.writes[i].todo != [] && !e.winClosed && e.remoteWin > 0
    ensures var e := SeenFrom(s, opener).a;
            && ActReserve(e, i).Some? && i < |ActReserve(e, i).value.0.writes|
            && var c := ActReserve(e, i).value.0.writes[i].credit;
            c.Some? && (c.value > 0 <==> |e.writes[i].todo| % TWO32 != 0)
  {
    hide CallsFit, CloseIsLast, ConfirmIsFirst, PacketsFit, EofLink, Credits, Sum, DataBytes, Grants, Stream, Reachable;
    SeenInv(s, ls, opener);
    assert SeenFrom(s, opener).a.decided;
  }
}
