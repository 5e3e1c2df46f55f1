/** What one channel looks like to both ends of ChannelIds and the links between them, and the invariant of such a view. */
module ChannelViews {
  import opened ByteStrings
  import opened ChanLists
  import opened ChannelIds
  import opened Results

  // ----- one channel seen from outside -----

  /** The messages of one channel, in order. */
  function Of(l: seq<Msg>, u: nat): seq<Msg> {
    if l == [] then [] else (if l[0].uid == u then [l[0]] else []) + Of(l[1..], u)
  }

  predicate Live(e: End, u: nat) {
    u in e.chans && Lookup(e.slots, e.chans[u].localId) == Some(u)
  }

  /** All there is to a channel: the opener's struct, whether its number still stands for it and whether it is being
      torn down, the same at the acceptor, the messages in flight from and to the opener, and all ever sent. */
  datatype View = View(o: Rec, oLive: bool, oClosing: bool, c: Option<Rec>, cLive: bool, cClosing: bool,
                       f: seq<Msg>, b: seq<Msg>, hf: seq<Msg>, hb: seq<Msg>)

  function EndView(e: End, u: nat): (Option<Rec>, bool, bool) {
    (if u in e.chans then Some(e.chans[u]) else None, Live(e, u), e.closing == Some(u))
  }

  function Flight(sent: seq<Msg>, got: nat, u: nat): seq<Msg> {
    if got <= |sent| then Of(sent[got..], u) else []
  }

  function ViewOf(o: End, c: End, u: nat): View
    requires u in o.chans
  {
    var (co, cl, cc) := EndView(c, u);
    View(o.chans[u], Live(o, u), o.closing == Some(u), co, cl, cc,
         Flight(o.sent, c.got, u), Flight(c.sent, o.got, u), Of(o.sent, u), Of(c.sent, u))
  }

  /** Ordinary messages, and one CLOSE at the end exactly if closed. */
  predicate Body(l: seq<Msg>, closed: bool) {
    && (forall i | 0 <= i < |l| :: l[i].Data? || (closed && i == |l| - 1 && l[i].Close?))
    && (closed ==> l != [] && l[|l| - 1].Close?)
  }

  predicate Addressed(l: seq<Msg>, id: nat) {
    forall i | 0 <= i < |l| :: (l[i].Data? || l[i].Close?) && l[i].to == id
  }

  /** One way of an accepted channel: until the receiver has taken the CLOSE its number stands for the channel. */
  predicate Way(closed: bool, l: seq<Msg>, id: nat, live: bool, closing: bool, answered: bool) {
    if l != [] || !closed then Body(l, closed) && Addressed(l, id) && live && !closing
    else answered && (closing <==> live)
  }

  predicate Undecided(v: View) {
    && v.o.outbound && !v.o.decided && !v.o.rejected && !v.o.sentClose && v.oLive && !v.oClosing
    && !v.cClosing
  }

  predicate Refused(v: View) {
    && v.f == [] && |v.hf| == 1 && v.hf[0].Open? && |v.hb| == 1 && v.hb[0].Failure?
    && !v.cClosing && !v.oClosing
    && (v.c.Some? ==> !v.c.value.outbound && v.c.value.decided && v.c.value.rejected && !v.c.value.sentClose && v.cLive)
  }

  predicate Starting(v: View) {
    Undecided(v) && v.c.None? && v.b == [] && v.hb == [] && v.hf == v.f &&
    if v.o.announced then |v.f| == 1 && v.f[0].Open? && v.f[0].from == v.o.localId else v.f == []
  }

  predicate Pending(v: View) {
    && Undecided(v) && v.o.announced && v.c.Some? && v.cLive && v.f == [] && v.b == [] && v.hb == [] && |v.hf| == 1 && v.hf[0].Open?
    && var c := v.c.value; !c.outbound && !c.decided && !c.rejected && !c.sentClose && c.remoteId == v.o.localId
  }

  predicate Failing(v: View) {
    Undecided(v) && v.o.announced && Refused(v) && |v.b| == 1 && v.b[0].Failure? && v.b[0].to == v.o.localId
  }

  predicate Fails(v: View) {
    Refused(v) && v.b == [] && v.o.outbound && v.o.announced && v.o.decided && v.o.rejected && !v.o.sentClose && !v.oLive
  }

  predicate Accepted(v: View) {
    && v.o.outbound && v.o.announced && !v.o.rejected && v.c.Some?
    && var c := v.c.value;
    && !c.outbound && c.decided && !c.rejected && c.remoteId == v.o.localId
    && v.hf != [] && v.hf[0].Open? && Body(v.hf[1..], v.o.sentClose)
    && v.hb != [] && v.hb[0].Confirm? && Body(v.hb[1..], c.sentClose)
  }

  predicate Confirming(v: View) {
    && Accepted(v) && Undecided(v) && v.cLive && v.f == []
    && var c := v.c.value;
    && v.b != [] && v.b[0].Confirm? && v.b[0].to == v.o.localId && v.b[0].from == c.localId
    && Body(v.b[1..], c.sentClose) && Addressed(v.b[1..], v.o.localId)
  }

  predicate Running(v: View) {
    && Accepted(v) && v.o.decided && v.o.remoteId == v.c.value.localId
    && Way(v.o.sentClose, v.f, v.c.value.localId, v.cLive, v.cClosing, v.c.value.sentClose)
    && Way(v.c.value.sentClose, v.b, v.o.localId, v.oLive, v.oClosing, v.o.sentClose)
  }

  predicate Phase(v: View) {
    Starting(v) || Pending(v) || Failing(v) || Fails(v) || Confirming(v) || Running(v)
  }

  // ----- the invariant -----

  predicate SlotsOk(e: End) {
    && (forall i | 0 <= i < |e.slots| && e.slots[i].Some? :: e.slots[i].value in e.chans && e.chans[e.slots[i].value].localId == i)
    && (forall u | u in e.chans :: e.chans[u].localId < |e.slots|)
    && (e.closing.Some? ==> e.closing.value in e.chans)
  }

  predicate ChanOk(o: End, c: End, u: nat) {
    u in o.chans && Phase(ViewOf(o, c, u))
  }

  predicate Fresh(e: End, u: nat) {
    u !in e.chans && Of(e.sent, u) == []
  }

  /** What the endpoints and links keep between them, seen from either side. */
  ghost predicate Pair(e: End, p: End, next: nat) {
    && SlotsOk(e) && SlotsOk(p) && e.got <= |p.sent| && p.got <= |e.sent|
    && (forall u: nat | u < next :: ChanOk(e, p, u) || ChanOk(p, e, u))
    && (forall u: nat | u >= next :: Fresh(e, u) && Fresh(p, u))
  }

  // ----- lemmas on Of and the list -----

  lemma {:induction false} OfConcat(l: seq<Msg>, m: seq<Msg>, u: nat)
    ensures Of(l + m, u) == Of(l, u) + Of(m, u)
  {
    if l == [] {
      assert l + m == m;
    } else {
      assert (l + m)[1..] == l[1..] + m && (l + m)[0] == l[0];
      OfConcat(l[1..], m, u);
      var h := if l[0].uid == u then [l[0]] else [];
      assert h + (Of(l[1..], u) + Of(m, u)) == h + Of(l[1..], u) + Of(m, u);
    }
  }

  lemma OfOne(m: Msg, u: nat)
    ensures Of([m], u) == if m.uid == u then [m] else []
  {
    assert [m][1..] == [];
  }

  /** Sending adds to what is in flight and to the history of that channel. */
  lemma Sends(sent: seq<Msg>, got: nat, m: Msg, u: nat)
    requires got <= |sent|
    ensures Flight(sent + [m], got, u) == Flight(sent, got, u) + if m.uid == u then [m] else []
    ensures Of(sent + [m], u) == Of(sent, u) + if m.uid == u then [m] else []
  {
    assert (sent + [m])[got..] == sent[got..] + [m];
    OfConcat(sent[got..], [m], u);
    OfConcat(sent, [m], u);
    OfOne(m, u);
  }

  /** Taking a message removes the first one in flight of its channel. */
  lemma Taken(sent: seq<Msg>, got: nat, u: nat)
    requires got < |sent|
    ensures Flight(sent, got, u) == (if sent[got].uid == u then [sent[got]] else []) + Flight(sent, got + 1, u)
  {
    assert sent[got..][1..] == sent[got + 1..];
  }

  // ----- every step keeps it -----

  /** From e to e' nothing changes but what concerns channel u. */
  ghost predicate OnlyFor(e: End, e': End, peerSent: seq<Msg>, u: nat) {
    && e.got <= |peerSent| && e.got <= e'.got <= e.got + 1 && e'.got <= |peerSent| && (e'.got > e.got ==> peerSent[e.got].uid == u)
    && |e.sent| <= |e'.sent| <= |e.sent| + 1 && e'.sent[..|e.sent|] == e.sent && (|e'.sent| > |e.sent| ==> e'.sent[|e.sent|].uid == u)
    && (forall v: nat | v != u :: (v in e.chans <==> v in e'.chans) && (v in e.chans ==> e.chans[v] == e'.chans[v]))
    && (forall v: nat | v != u :: Live(e, v) <==> Live(e', v))
    && (forall v: nat | v != u :: e.closing == Some(v) <==> e'.closing == Some(v))
  }

  lemma SentFor(e: End, e': End, peerSent: seq<Msg>, got: nat, u: nat, v: nat)
    requires OnlyFor(e, e', peerSent, u) && u != v && got <= |e.sent|
    ensures Of(e'.sent, v) == Of(e.sent, v) && Flight(e'.sent, got, v) == Flight(e.sent, got, v)
    ensures Flight(peerSent, e'.got, v) == Flight(peerSent, e.got, v)
  {
    hide Of, Live, Flight;
    if |e'.sent| > |e.sent| {
      var m := e'.sent[|e.sent|];
      assert e'.sent == e.sent + [m];
      Sends(e.sent, got, m, v);
    } else {
      assert e'.sent == e.sent;
    }
    if e'.got > e.got {
      Taken(peerSent, e.got, v);
    }
  }

  lemma OtherChannel(e: End, e': End, p: End, u: nat, v: nat)
    requires OnlyFor(e, e', p.sent, u) && u != v && p.got <= |e.sent|
    ensures ChanOk(e, p, v) ==> ChanOk(e', p, v)
    ensures ChanOk(p, e, v) ==> ChanOk(p, e', v)
    ensures Fresh(e, v) ==> Fresh(e', v)
  {
    hide Of, Live, Flight, Phase;
    SentFor(e, e', p.sent, p.got, u, v);
  }

  /** A step about one channel keeps the pair if it keeps that channel. */
  lemma OneChannel(e: End, e': End, p: End, next: nat, next': nat, u: nat)
    requires Pair(e, p, next) && OnlyFor(e, e', p.sent, u) && SlotsOk(e')
    requires u < next' && (next' == next || (u == next && next' == next + 1))
    requires ChanOk(e', p, u) || ChanOk(p, e', u)
    ensures Pair(e', p, next')
  {
    hide OnlyFor, ChanOk, Fresh, SlotsOk;
    assert e'.got <= |p.sent| && p.got <= |e'.sent| by { Counters(e, e', p, u); }
    forall v: nat | v < next' && v != u
      ensures ChanOk(e', p, v) || ChanOk(p, e', v)
    {
      OtherChannel(e, e', p, u, v);
    }
    forall v: nat | v >= next'
      ensures Fresh(e', v) && Fresh(p, v)
    {
      OtherChannel(e, e', p, u, v);
    }
  }

  lemma Counters(e: End, e': End, p: End, u: nat)
    requires OnlyFor(e, e', p.sent, u) && p.got <= |e.sent|
    ensures e'.got <= |p.sent| && p.got <= |e'.sent|
  {
  }

  /** Put changes one channel. */
  lemma PutFor(e: End, u: nat, rec: Rec, out: seq<Msg>, peerSent: seq<Msg>)
    requires SlotsOk(e) && e.got <= |peerSent| && u in e.chans && rec.localId == e.chans[u].localId
    requires |out| <= 1 && (out != [] ==> out[0].uid == u)
    ensures OnlyFor(e, Put(e, u, rec, out), peerSent, u) && SlotsOk(Put(e, u, rec, out))
    ensures Live(Put(e, u, rec, out), u) <==> Live(e, u)
  {
  }

  lemma AddFor(e: End, u: nat, rec: Rec, peerSent: seq<Msg>)
    requires SlotsOk(e) && e.got <= |peerSent| && u !in e.chans
    ensures OnlyFor(e, AddChan(e, u, rec), peerSent, u) && SlotsOk(AddChan(e, u, rec)) && Live(AddChan(e, u, rec), u)
  {
  }

  lemma DropFor(e: End, u: nat, peerSent: seq<Msg>)
    requires SlotsOk(e) && e.got <= |peerSent| && Live(e, u)
    ensures var e' := Drop(e, e.chans[u].localId);
            OnlyFor(e, e', peerSent, u) && SlotsOk(e') && !Live(e', u) && e'.(slots := e.slots) == e
  {
  }

  lemma PairSwaps(e: End, p: End, next: nat)
    requires Pair(e, p, next)
    ensures Pair(p, e, next)
  {
    hide ChanOk, Fresh, SlotsOk;
  }

  lemma PutView(e: End, p: End, u: nat, rec: Rec, out: seq<Msg>)
    requires u in e.chans && rec.localId == e.chans[u].localId && p.got <= |e.sent|
    requires |out| <= 1 && (out != [] ==> out[0].uid == u)
    ensures var (v, e') := (ViewOf(e, p, u), Put(e, u, rec, out));
            ViewOf(e', p, u) == v.(o := rec, f := v.f + out, hf := v.hf + out)
    ensures u in p.chans ==>
              var (v, e') := (ViewOf(p, e, u), Put(e, u, rec, out));
              ViewOf(p, e', u) == v.(c := Some(rec), b := v.b + out, hb := v.hb + out)
  {
    hide Flight, Of;
    if out != [] {
      assert out == [out[0]];
      Sends(e.sent, p.got, out[0], u);
    } else {
      assert e.sent + out == e.sent;
    }
  }

  /** Changing and perhaps sending on one channel. */
  lemma PutKeeps(e: End, p: End, next: nat, u: nat, rec: Rec, out: seq<Msg>)
    requires Pair(e, p, next) && u < next && u in e.chans && rec.localId == e.chans[u].localId
    requires |out| <= 1 && (out != [] ==> out[0].uid == u)
    requires ChanOk(e, p, u) ==> var v := ViewOf(e, p, u); Phase(v.(o := rec, f := v.f + out, hf := v.hf + out))
    requires ChanOk(p, e, u) ==> var v := ViewOf(p, e, u); Phase(v.(c := Some(rec), b := v.b + out, hb := v.hb + out))
    ensures Pair(Put(e, u, rec, out), p, next)
  {
    hide Flight, Of, OnlyFor, SlotsOk, Fresh, Live, Phase, ViewOf;
    var e' := Put(e, u, rec, out);
    PutView(e, p, u, rec, out);
    PutFor(e, u, rec, out, p.sent);
    assert ChanOk(e', p, u) || ChanOk(p, e', u);
    OneChannel(e, e', p, next, next, u);
  }

  // ----- what the phases say -----

  /** The two structs of a channel have opposite directions. */
  lemma Directions(o: End, c: End, u: nat)
    requires ChanOk(o, c, u)
    ensures o.chans[u].outbound && (u in c.chans ==> !c.chans[u].outbound)
  {
    hide Flight, Of, Live;
  }

  lemma BodyGrows(l: seq<Msg>, m: Msg)
    requires Body(l, false) && (m.Data? || m.Close?)
    ensures Body(l + [m], m.Close?)
  {
  }

  lemma BodyTail(l: seq<Msg>, m: Msg)
    requires l != [] && Body(l[1..], false) && (m.Data? || m.Close?)
    ensures Body((l + [m])[1..], m.Close?) && (l + [m])[0] == l[0]
  {
    assert (l + [m])[1..] == l[1..] + [m];
    BodyGrows(l[1..], m);
  }

  lemma WayGrows(l: seq<Msg>, m: Msg, id: nat, live: bool, closing: bool, answered: bool)
    requires Way(false, l, id, live, closing, answered) && (m.Data? || m.Close?) && m.to == id
    ensures Way(m.Close?, l + [m], id, live, closing, answered)
  {
    BodyGrows(l, m);
  }

  /** The opener of an accepted channel may say something more. */
  lemma OpenerSends(v: View, m: Msg)
    requires Phase(v) && v.o.decided && !v.o.rejected && !v.o.sentClose
    requires (m.Data? || m.Close?) && m.to == v.o.remoteId
    ensures Phase(v.(o := v.o.(sentClose := m.Close?), f := v.f + [m], hf := v.hf + [m]))
  {
    hide Way, Body;
    assert Running(v);
    BodyTail(v.hf, m);
    WayGrows(v.f, m, v.c.value.localId, v.cLive, v.cClosing, v.c.value.sentClose);
    WayMeans(v);
    WayKept(v.c.value.sentClose, v.b, v.o.localId, v.oLive, v.oClosing, v.o.sentClose, m.Close?);
  }

  lemma WayMeans(v: View)
    requires Running(v)
    ensures v.b == [] && v.c.value.sentClose ==> v.o.sentClose
    ensures v.f == [] && v.o.sentClose ==> v.c.value.sentClose
  {
  }

  lemma WayKept(closed: bool, l: seq<Msg>, id: nat, live: bool, closing: bool, was: bool, answered: bool)
    requires Way(closed, l, id, live, closing, was) && (was ==> answered)
    ensures Way(closed, l, id, live, closing, answered)
  {
  }

  /** And so may the acceptor, also while its confirmation is on the way. */
  lemma AcceptorSends(v: View, m: Msg)
    requires Phase(v) && v.c.Some? && v.c.value.decided && !v.c.value.rejected && !v.c.value.sentClose
    requires (m.Data? || m.Close?) && m.to == v.c.value.remoteId
    ensures Phase(v.(c := Some(v.c.value.(sentClose := m.Close?)), b := v.b + [m], hb := v.hb + [m]))
  {
    hide Way, Body;
    BodyTail(v.hb, m);
    if v.o.decided {
      assert Running(v);
      WayMeans(v);
      WayGrows(v.b, m, v.o.localId, v.oLive, v.oClosing, v.o.sentClose);
      WayKept(v.o.sentClose, v.f, v.c.value.localId, v.cLive, v.cClosing, v.c.value.sentClose, m.Close?);
    } else {
      assert Confirming(v);
      BodyTail(v.b, m);
      assert (v.b + [m])[1..] == v.b[1..] + [m];
    }
  }
}
