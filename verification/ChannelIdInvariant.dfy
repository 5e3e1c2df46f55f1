/** The proof that every step of ChannelIds keeps the invariant of ChannelViews and none fails. */
module ChannelIdInvariant {
  import opened ByteStrings
  import opened ChanLists
  import opened ChannelIds
  import opened ChannelViews
  import opened Results

  // ----- the application's calls -----

  lemma NewKeeps(e: End, p: End, next: nat)
    requires Pair(e, p, next)
    ensures Pair(AddChan(e, next, Rec(true, false, false, false, false, 0, 0)), p, next + 1)
  {
    hide OnlyFor, SlotsOk;
    var rec := Rec(true, false, false, false, false, 0, 0);
    var e' := AddChan(e, next, rec);
    assert Fresh(e, next) && Fresh(p, next);
    NothingInFlight(e.sent, p.got, next);
    NothingInFlight(p.sent, e.got, next);
    AddFor(e, next, rec, p.sent);
    assert e.closing != Some(next) && p.closing != Some(next) by { NotClosing(e, next); NotClosing(p, next); }
    assert Starting(ViewOf(e', p, next));
    OneChannel(e, e', p, next, next + 1, next);
  }

  lemma NotClosing(e: End, u: nat)
    requires SlotsOk(e) && u !in e.chans
    ensures e.closing != Some(u)
  {
  }

  lemma {:induction false} OfSuffix(l: seq<Msg>, k: nat, u: nat)
    requires k <= |l| && Of(l, u) == []
    ensures Of(l[k..], u) == []
  {
    assert l == l[..k] + l[k..];
    OfConcat(l[..k], l[k..], u);
  }

  lemma NothingInFlight(sent: seq<Msg>, got: nat, u: nat)
    requires got <= |sent| && Of(sent, u) == []
    ensures Flight(sent, got, u) == []
  {
    OfSuffix(sent, got, u);
  }

  lemma SendOpenKeeps(e: End, p: End, next: nat, u: nat, max: nat)
    requires Pair(e, p, next) && Act(e, next, SendOpen(u, max)).Some?
    ensures Pair(Act(e, next, SendOpen(u, max)).value, p, next)
  {
    hide Flight, Of, SlotsOk, Live, Body, Way, Addressed;
    Known(e, p, next, u);
    if ChanOk(p, e, u) {
      Directions(p, e, u);
    }
    PutKeeps(e, p, next, u, e.chans[u].(announced := true), [Open(u, e.chans[u].localId, max)]);
  }

  lemma Known(e: End, p: End, next: nat, u: nat)
    requires Pair(e, p, next) && u in e.chans
    ensures u < next
  {
    assert u >= next ==> Fresh(e, u);
  }

  lemma AcceptKeeps(e: End, p: End, next: nat, u: nat)
    requires Pair(e, p, next) && Act(e, next, Accept(u)).Some?
    ensures Pair(Act(e, next, Accept(u)).value, p, next)
  {
    hide Flight, Of, SlotsOk, Live, Way;
    Known(e, p, next, u);
    if ChanOk(e, p, u) {
      Directions(e, p, u);
    }
    PutKeeps(e, p, next, u, e.chans[u].(decided := true), [Confirm(u, e.chans[u].remoteId, e.chans[u].localId)]);
  }

  lemma RejectKeeps(e: End, p: End, next: nat, u: nat)
    requires Pair(e, p, next) && Act(e, next, Reject(u)).Some?
    ensures Pair(Act(e, next, Reject(u)).value, p, next)
  {
    hide Flight, Of, SlotsOk, Live, Body, Way, Addressed;
    Known(e, p, next, u);
    if ChanOk(e, p, u) {
      Directions(e, p, u);
    }
    PutKeeps(e, p, next, u, e.chans[u].(decided := true, rejected := true), [Failure(u, e.chans[u].remoteId)]);
  }

  lemma SpeakKeeps(e: End, p: End, next: nat, u: nat, m: Msg)
    requires Pair(e, p, next) && MaySend(e, u) && (m.Data? || m.Close?) && m.uid == u && m.to == e.chans[u].remoteId
    ensures Pair(Put(e, u, e.chans[u].(sentClose := m.Close?), [m]), p, next)
  {
    hide Flight, Of, SlotsOk, Live, Phase, Way, Addressed, Body;
    Known(e, p, next, u);
    if ChanOk(e, p, u) {
      OpenerSends(ViewOf(e, p, u), m);
    }
    if ChanOk(p, e, u) {
      AcceptorSends(ViewOf(p, e, u), m);
    }
    PutKeeps(e, p, next, u, e.chans[u].(sentClose := m.Close?), [m]);
  }

  lemma RemoveKeeps(e: End, p: End, next: nat)
    requires Pair(e, p, next) && Act(e, next, Remove).Some?
    ensures Pair(Act(e, next, Remove).value, p, next)
  {
    hide Flight, Of, SlotsOk, Fresh;
    var u := e.closing.value;
    Known(e, p, next, u);
    assert Live(e, u) by { ClosingLive(e, p, u); }
    var e1 := Drop(e, e.chans[u].localId);
    DropFor(e, u, p.sent);
    var e' := e1.(closing := None);
    assert OnlyFor(e, e', p.sent, u);
    assert SlotsOk(e') by { assert SlotsOk(e1); SlotsFrame(e1, e'); }
    RemoveView(e, e', p, u);
    OneChannel(e, e', p, next, next, u);
  }

  lemma SlotsFrame(e: End, e': End)
    requires SlotsOk(e) && e'.chans == e.chans && e'.slots == e.slots && e'.closing.None?
    ensures SlotsOk(e')
  {
  }

  lemma ClosingLive(e: End, p: End, u: nat)
    requires e.closing == Some(u) && (ChanOk(e, p, u) || ChanOk(p, e, u))
    ensures Live(e, u)
  {
    hide Flight, Of, Live, Body, Addressed;
  }

  lemma RemoveView(e: End, e': End, p: End, u: nat)
    requires e.closing == Some(u) && e'.closing == None && e'.chans == e.chans && e'.sent == e.sent && e'.got == e.got && !Live(e', u)
    requires ChanOk(e, p, u) || ChanOk(p, e, u)
    ensures ChanOk(e', p, u) || ChanOk(p, e', u)
  {
    hide Flight, Of, Live, Body, Addressed;
  }

  lemma ActKeeps(e: End, p: End, next: nat, act: Action)
    requires Pair(e, p, next) && Act(e, next, act).Some?
    ensures Pair(Act(e, next, act).value, p, next + if act.NewOutbound? then 1 else 0)
  {
    hide Pair, Put, AddChan, Drop;
    match act {
      case NewOutbound => NewKeeps(e, p, next);
      case SendOpen(u, max) => SendOpenKeeps(e, p, next, u, max);
      case Accept(u) => AcceptKeeps(e, p, next, u);
      case Reject(u) => RejectKeeps(e, p, next, u);
      case Use(u) =>
        SpeakKeeps(e, p, next, u, Data(u, e.chans[u].remoteId));
        assert e.chans[u].(sentClose := false) == e.chans[u];
      case CallClose(u) => SpeakKeeps(e, p, next, u, Close(u, e.chans[u].remoteId));
      case Remove => RemoveKeeps(e, p, next);
    }
  }

  // ----- the packet loop -----

  function Count(e: End): End {
    e.(got := e.got + 1)
  }

  /** The message at the head of the link belongs to a known channel and is the first one in flight of it. */
  lemma Head(e: End, p: End, next: nat)
    requires Pair(e, p, next) && e.got < |p.sent|
    ensures p.sent[e.got].uid < next
    ensures var u := p.sent[e.got].uid; Flight(p.sent, e.got, u) == [p.sent[e.got]] + Flight(p.sent, e.got + 1, u)
  {
    var u := p.sent[e.got].uid;
    Taken(p.sent, e.got, u);
    if u >= next {
      assert Fresh(p, u);
      NothingInFlight(p.sent, e.got, u);
    }
  }

  lemma CountFor(e: End, peerSent: seq<Msg>)
    requires SlotsOk(e) && e.got < |peerSent|
    ensures OnlyFor(e, Count(e), peerSent, peerSent[e.got].uid) && SlotsOk(Count(e))
  {
  }

  lemma OnlyForStep(e: End, e1: End, e2: End, peerSent: seq<Msg>, u: nat)
    requires OnlyFor(e, e1, peerSent, u) && OnlyFor(e1, e2, peerSent, u)
    requires (e1.got == e.got || e2.got == e1.got) && (e1.sent == e.sent || e2.sent == e1.sent)
    ensures OnlyFor(e, e2, peerSent, u)
  {
    hide Live;
  }

  /** A message that opens a channel finds a fresh number, or is turned down at once. */
  lemma TakeOpenKeeps(e: End, p: End, next: nat)
    requires Pair(e, p, next) && e.got < |p.sent| && p.sent[e.got].Open?
    ensures Pair(TakeOpen(Count(e), p.sent[e.got]), p, next)
  {
    hide Of, Flight, OnlyFor, SlotsOk, Live, Way, Body, Addressed, AddChan;
    var m := p.sent[e.got];
    var u := m.uid;
    var e' := TakeOpen(Count(e), m);
    Head(e, p, next);
    CountFor(e, p.sent);
    if ChanOk(e, p, u) {
      OpenerGets(ViewOf(e, p, u), Flight(p.sent, e.got + 1, u));
    }
    assert ChanOk(p, e, u);
    FirstGets(ViewOf(p, e, u));
    assert u !in e.chans && Flight(p.sent, e.got + 1, u) == [];
    NotClosing(e, u);
    if m.maxPacket < 9 || m.maxPacket > 0x8000_0000 {
      Sends(e.sent, p.got, Failure(u, m.from), u);
      SendFor(Count(e), Failure(u, m.from), p.sent);
      OnlyForStep(e, Count(e), e', p.sent, u);
      assert !Live(e', u) by { NotLive(e', u); }
      assert Failing(ViewOf(p, e', u));
    } else {
      var rec := Rec(false, true, false, false, false, 0, m.from);
      AddFor(Count(e), u, rec, p.sent);
      Added(Count(e), u, rec);
      OnlyForStep(e, Count(e), e', p.sent, u);
      assert Pending(ViewOf(p, e', u));
    }
    OneChannel(e, e', p, next, next, u);
  }

  lemma Added(e: End, u: nat, rec: Rec)
    ensures var e' := AddChan(e, u, rec);
            u in e'.chans && e'.chans[u] == rec.(localId := e'.chans[u].localId)
            && e'.sent == e.sent && e'.got == e.got && e'.closing == e.closing
  {
  }

  lemma NotLive(e: End, u: nat)
    requires u !in e.chans
    ensures !Live(e, u)
  {
  }

  lemma SendFor(e: End, m: Msg, peerSent: seq<Msg>)
    requires SlotsOk(e) && e.got <= |peerSent|
    ensures var e' := e.(sent := e.sent + [m]); OnlyFor(e, e', peerSent, m.uid) && SlotsOk(e')
  {
  }

  /** What can reach the opener of a channel. */
  lemma OpenerGets(v: View, rest: seq<Msg>)
    requires Phase(v) && |v.b| > 0 && v.b[1..] == rest
    ensures !v.b[0].Open? && v.oLive && !v.oClosing && v.b[0].to == v.o.localId
    ensures v.b[0].Failure? ==> Failing(v)
    ensures v.b[0].Confirm? ==> Confirming(v)
    ensures v.b[0].Data? || v.b[0].Close? ==> Running(v)
  {
  }

  /** An open message is the first on its channel. */
  lemma FirstGets(v: View)
    requires Phase(v) && |v.f| > 0 && v.f[0].Open?
    ensures Starting(v) && v.f[1..] == []
  {
  }

  /** And the acceptor. */
  lemma AcceptorGets(v: View)
    requires Phase(v) && |v.f| > 0 && !v.f[0].Open?
    ensures Running(v) && v.c.Some? && v.cLive && !v.cClosing && v.f[0].to == v.c.value.localId && (v.f[0].Data? || v.f[0].Close?)
  {
  }

  /** getChan finds the struct of the very channel a message was sent for. */
  lemma Finds(e: End, p: End, next: nat)
    requires Pair(e, p, next) && e.got < |p.sent| && !p.sent[e.got].Open?
    ensures var m := p.sent[e.got]; Lookup(e.slots, m.to) == Some(m.uid) && m.uid in e.chans && e.chans[m.uid].localId == m.to
  {
    hide Of, Flight, OnlyFor, SlotsOk, Phase;
    var m := p.sent[e.got];
    Head(e, p, next);
    if ChanOk(e, p, m.uid) {
      OpenerGets(ViewOf(e, p, m.uid), Flight(p.sent, e.got + 1, m.uid));
    } else {
      AcceptorGets(ViewOf(p, e, m.uid));
    }
  }

  // The same channel after the first message in flight to the opener, or to the acceptor, has been taken.

  lemma TakesData(v: View, f: seq<Msg>, b: seq<Msg>)
    requires Phase(v)
    ensures v.b != [] && v.b[0].Data? && b == v.b[1..] ==> Phase(v.(b := b))
    ensures v.f != [] && v.f[0].Data? && f == v.f[1..] ==> Phase(v.(f := f))
  {
  }

  lemma BodyRest(l: seq<Msg>, closed: bool, id: nat)
    requires l != [] && Body(l, closed) && Addressed(l, id)
    ensures l[0].Close? ==> l[1..] == [] && closed
    ensures l[0].Data? ==> Body(l[1..], closed) && Addressed(l[1..], id)
  {
  }

  lemma OpenerTakesClose(v: View, out: seq<Msg>)
    requires Phase(v) && v.b != [] && v.b[0].Close?
    requires if v.o.sentClose then out == [] else |out| == 1 && out[0].Close? && out[0].to == v.o.remoteId
    ensures Phase(v.(o := v.o.(sentClose := true), oClosing := true, f := v.f + out, b := v.b[1..], hf := v.hf + out))
  {
    hide Body, Addressed;
    assert Running(v);
    BodyRest(v.b, v.c.value.sentClose, v.o.localId);
    if !v.o.sentClose {
      assert out == [out[0]];
      BodyTail(v.hf, out[0]);
      WayGrows(v.f, out[0], v.c.value.localId, v.cLive, v.cClosing, v.c.value.sentClose);
    } else {
      assert v.f + out == v.f && v.hf + out == v.hf;
    }
  }

  lemma AcceptorTakesClose(v: View, out: seq<Msg>)
    requires Phase(v) && v.f != [] && v.f[0].Close? && v.c.Some?
    requires if v.c.value.sentClose then out == [] else |out| == 1 && out[0].Close? && out[0].to == v.c.value.remoteId
    ensures Phase(v.(c := Some(v.c.value.(sentClose := true)), cClosing := true, b := v.b + out, f := v.f[1..], hb := v.hb + out))
  {
    hide Body, Addressed;
    AcceptorGets(v);
    BodyRest(v.f, v.o.sentClose, v.c.value.localId);
    if !v.c.value.sentClose {
      assert out == [out[0]];
      BodyTail(v.hb, out[0]);
      WayGrows(v.b, out[0], v.o.localId, v.oLive, v.oClosing, v.o.sentClose);
    } else {
      assert v.b + out == v.b && v.hb + out == v.hb;
    }
  }

  lemma TakesConfirm(v: View)
    requires Phase(v) && v.b != [] && v.b[0].Confirm?
    ensures Phase(v.(o := v.o.(decided := true, remoteId := v.b[0].from), b := v.b[1..]))
  {
    assert Confirming(v);
  }

  lemma TakesFailure(v: View)
    requires Phase(v) && v.b != [] && v.b[0].Failure?
    ensures Phase(v.(o := v.o.(decided := true, rejected := true), oLive := false, b := v.b[1..]))
  {
    assert Failing(v);
  }

  /** What taking the head message does to its channel, apart from struct, list and replies. */
  lemma CountView(e: End, p: End, next: nat)
    requires Pair(e, p, next) && e.got < |p.sent|
    ensures var u := p.sent[e.got].uid;
            && (ChanOk(e, p, u) ==> var v := ViewOf(e, p, u); |v.b| > 0 && v.b[0] == p.sent[e.got] && ViewOf(Count(e), p, u) == v.(b := v.b[1..]))
            && (ChanOk(p, e, u) ==> var v := ViewOf(p, e, u); |v.f| > 0 && v.f[0] == p.sent[e.got] && ViewOf(p, Count(e), u) == v.(f := v.f[1..]))
  {
    hide Of, Flight, Phase, SlotsOk;
    Head(e, p, next);
    var u := p.sent[e.got].uid;
    assert Flight(p.sent, e.got, u)[1..] == Flight(p.sent, e.got + 1, u);
  }

  lemma TakeDataKeeps(e: End, p: End, next: nat)
    requires Pair(e, p, next) && e.got < |p.sent| && p.sent[e.got].Data?
    ensures Pair(Count(e), p, next)
  {
    hide Of, Flight, OnlyFor, SlotsOk, Phase, ViewOf, Fresh, Live, Count;
    var u := p.sent[e.got].uid;
    Head(e, p, next);
    CountView(e, p, next);
    CountFor(e, p.sent);
    if ChanOk(e, p, u) {
      TakesData(ViewOf(e, p, u), [], ViewOf(e, p, u).b[1..]);
    }
    if ChanOk(p, e, u) {
      TakesData(ViewOf(p, e, u), ViewOf(p, e, u).f[1..], []);
    }
    assert Count(e).chans == e.chans by { CountKeeps(e); }
    OneChannel(e, Count(e), p, next, next, u);
  }

  lemma CountKeeps(e: End)
    ensures Count(e).chans == e.chans && Count(e).slots == e.slots && Count(e).sent == e.sent && Count(e).closing == e.closing
    ensures Count(e).got == e.got + 1
  {
  }

  lemma TakeCloseKeeps(e: End, p: End, next: nat)
    requires Pair(e, p, next) && e.got < |p.sent| && p.sent[e.got].Close? && e.closing.None?
    ensures TakeOnChannel(Count(e), p.sent[e.got]).Ok? && Pair(TakeOnChannel(Count(e), p.sent[e.got]).value, p, next)
  {
    hide Of, Flight, OnlyFor, SlotsOk, Phase, Fresh, Live, ViewOf;
    var u := p.sent[e.got].uid;
    Head(e, p, next);
    Finds(e, p, next);
    CountView(e, p, next);
    CountFor(e, p.sent);
    var rec := e.chans[u];
    var out := if rec.sentClose then [] else [Close(u, rec.remoteId)];
    var e1 := Put(Count(e), u, rec.(sentClose := true), out);
    var e' := e1.(closing := Some(u));
    PutFor(Count(e), u, rec.(sentClose := true), out, p.sent);
    PutView(Count(e), p, u, rec.(sentClose := true), out);
    Closes(e1, u, p.sent);
    OnlyForStep(e, Count(e), e1, p.sent, u);
    OnlyForStep(e, e1, e', p.sent, u);
    CloseView(e1, p, u);
    if ChanOk(e, p, u) {
      Recs(e, p, u);
      OpenerTakesClose(ViewOf(e, p, u), out);
    }
    if ChanOk(p, e, u) {
      Recs(p, e, u);
      AcceptorTakesClose(ViewOf(p, e, u), out);
    }
    OneChannel(e, e', p, next, next, u);
  }

  lemma Recs(o: End, c: End, u: nat)
    requires u in o.chans
    ensures var v := ViewOf(o, c, u); v.o == o.chans[u] && v.c == if u in c.chans then Some(c.chans[u]) else None
  {
  }

  lemma Closes(e: End, u: nat, peerSent: seq<Msg>)
    requires e.closing.None? && u in e.chans && SlotsOk(e) && e.got <= |peerSent|
    ensures var e' := e.(closing := Some(u)); OnlyFor(e, e', peerSent, u) && SlotsOk(e')
  {
  }

  lemma CloseView(e: End, p: End, u: nat)
    requires u in e.chans
    ensures var e' := e.(closing := Some(u));
            && ViewOf(e', p, u) == ViewOf(e, p, u).(oClosing := true)
            && (u in p.chans ==> ViewOf(p, e', u) == ViewOf(p, e, u).(cClosing := true))
  {
    hide Of, Flight;
  }

  lemma TakeConfirmKeeps(e: End, p: End, next: nat)
    requires Pair(e, p, next) && e.got < |p.sent| && p.sent[e.got].Confirm?
    ensures TakeOnChannel(Count(e), p.sent[e.got]).Ok? && Pair(TakeOnChannel(Count(e), p.sent[e.got]).value, p, next)
  {
    hide Of, Flight, OnlyFor, SlotsOk, Fresh, Live, Way, Body, Addressed;
    var m := p.sent[e.got];
    var u := m.uid;
    Head(e, p, next);
    Finds(e, p, next);
    CountView(e, p, next);
    CountFor(e, p.sent);
    if ChanOk(p, e, u) {
      AcceptorGets(ViewOf(p, e, u));
    }
    assert ChanOk(e, p, u);
    OpenerGets(ViewOf(e, p, u), ViewOf(e, p, u).b[1..]);
    TakesConfirm(ViewOf(e, p, u));
    var rec := e.chans[u].(decided := true, remoteId := m.from);
    PutFor(Count(e), u, rec, [], p.sent);
    PutView(Count(e), p, u, rec, []);
    var e' := Put(Count(e), u, rec, []);
    OnlyForStep(e, Count(e), e', p.sent, u);
    Nothing(ViewOf(e, p, u));
    OneChannel(e, e', p, next, next, u);
  }

  lemma Nothing(v: View)
    ensures v.f + [] == v.f && v.hf + [] == v.hf && v.b + [] == v.b && v.hb + [] == v.hb
  {
  }

  lemma TakeFailureKeeps(e: End, p: End, next: nat)
    requires Pair(e, p, next) && e.got < |p.sent| && p.sent[e.got].Failure?
    ensures TakeOnChannel(Count(e), p.sent[e.got]).Ok? && Pair(TakeOnChannel(Count(e), p.sent[e.got]).value, p, next)
  {
    hide Of, Flight, OnlyFor, SlotsOk, Fresh, Live, Way, Body, Addressed;
    var m := p.sent[e.got];
    var u := m.uid;
    Head(e, p, next);
    Finds(e, p, next);
    CountView(e, p, next);
    CountFor(e, p.sent);
    if ChanOk(p, e, u) {
      AcceptorGets(ViewOf(p, e, u));
    }
    assert ChanOk(e, p, u);
    OpenerGets(ViewOf(e, p, u), ViewOf(e, p, u).b[1..]);
    TakesFailure(ViewOf(e, p, u));
    var rec := e.chans[u].(decided := true, rejected := true);
    PutFor(Count(e), u, rec, [], p.sent);
    PutView(Count(e), p, u, rec, []);
    var e1 := Put(Count(e), u, rec, []);
    OnlyForStep(e, Count(e), e1, p.sent, u);
    Nothing(ViewOf(e, p, u));
    DropFor(e1, u, p.sent);
    var e' := Drop(e1, m.to);
    OnlyForStep(e, e1, e', p.sent, u);
    OneChannel(e, e', p, next, next, u);
  }

  /** The packet loop never meets an unknown channel or an answer out of place. */
  lemma TakeKeeps(e: End, p: End, next: nat)
    requires Pair(e, p, next) && e.got < |p.sent| && e.closing.None?
    ensures Take(Count(e), p.sent[e.got]).Ok? && Pair(Take(Count(e), p.sent[e.got]).value, p, next)
  {
    hide Pair, TakeOpen, Put, Drop, Lookup;
    match p.sent[e.got] {
      case Open(_, _, _) => TakeOpenKeeps(e, p, next);
      case Confirm(_, _, _) => TakeConfirmKeeps(e, p, next);
      case Failure(_, _) => TakeFailureKeeps(e, p, next);
      case Close(_, _) => TakeCloseKeeps(e, p, next);
      case Data(_, _) =>
        TakeDataKeeps(e, p, next);
        DataLeavesEnd(e, p, next);
    }
  }

  lemma DataLeavesEnd(e: End, p: End, next: nat)
    requires Pair(e, p, next) && e.got < |p.sent| && p.sent[e.got].Data?
    ensures TakeOnChannel(Count(e), p.sent[e.got]) == Ok(Count(e))
  {
    hide Pair;
    Finds(e, p, next);
  }

  lemma EndStepKeeps(e: End, p: End, next: nat, act: Action)
    requires Pair(e, p, next)
    ensures var r := EndStep(e, p.sent, next, act);
            r.Some? ==> r.value.Ok? && Pair(r.value.value, p, next + if act.NewOutbound? then 1 else 0)
  {
    hide Pair, Take, Act;
    if act.Deliver? {
      assert e.(got := e.got + 1) == Count(e);
      if e.got < |p.sent| && e.closing.None? {
        TakeKeeps(e, p, next);
      }
    } else if Act(e, next, act).Some? {
      ActKeeps(e, p, next, act);
    }
  }

  ghost predicate Inv(s: State) {
    Pair(s.a, s.b, s.next)
  }

  lemma StepKeeps(s: State, l: Label)
    requires Inv(s)
    ensures !Step(s, l).Failed?
    ensures Step(s, l).Next? ==> Inv(Step(s, l).state)
  {
    hide Pair, EndStep;
    PairSwaps(s.a, s.b, s.next);
    if l.side == A {
      EndStepKeeps(s.a, s.b, s.next, l.action);
    } else {
      EndStepKeeps(s.b, s.a, s.next, l.action);
      if Step(s, l).Next? {
        PairSwaps(Step(s, l).state.b, s.a, Step(s, l).state.next);
      }
    }
  }

  lemma {:induction false} RunKeeps(s: State, ls: seq<Label>)
    requires Inv(s)
    ensures !Run(s, ls).Failed?
    ensures Run(s, ls).Next? ==> Inv(Run(s, ls).state)
    decreases |ls|
  {
    hide Inv, Step;
    if ls != [] {
      StepKeeps(s, ls[0]);
      if Step(s, ls[0]).Next? {
        RunKeeps(Step(s, ls[0]).state, ls[1..]);
      }
    }
  }

  lemma InitHolds()
    ensures Inv(Init())
  {
  }

  predicate Reachable(s: State, ls: seq<Label>) {
    Run(Init(), ls) == Next(s)
  }

  lemma ReachableInv(s: State, ls: seq<Label>)
    requires Reachable(s, ls)
    ensures Pair(s.a, s.b, s.next) && Pair(s.b, s.a, s.next)
  {
    hide Pair, Init, Run;
    InitHolds();
    RunKeeps(Init(), ls);
    PairSwaps(s.a, s.b, s.next);
  }
}
