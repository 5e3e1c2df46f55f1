/** What holds in every run of ChannelIds. */
module ChannelIdResults {
  import opened ByteStrings
  import opened ChanLists
  import opened ChannelIds
  import opened ChannelIdInvariant
  import opened ChannelViews
  import opened Results

  /** Whatever the interleaving and however often numbers are reused, no packet loop ever reports an invalid
      channel or an answer out of place. */
  lemma NoRunFails(ls: seq<Label>)
    ensures !Run(Init(), ls).Failed?
  {
    hide Inv, Init, Run;
    InitHolds();
    RunKeeps(Init(), ls);
  }

  function At(s: State, side: Side): End {
    if side == A then s.a else s.b
  }

  function Other(side: Side): Side {
    if side == A then B else A
  }

  /** The next packet for an endpoint reaches the channel it was sent for: a number is never reused while packets
      for its earlier channel are under way. */
  lemma ReachesItsOwnChannel(s: State, ls: seq<Label>, side: Side)
    requires Reachable(s, ls)
    requires var (e, p) := (At(s, side), At(s, Other(side))); e.got < |p.sent| && !p.sent[e.got].Open?
    ensures var (e, p) := (At(s, side), At(s, Other(side))); Lookup(e.slots, p.sent[e.got].to) == Some(p.sent[e.got].uid)
  {
    hide Pair, Reachable, Lookup;
    ReachableInv(s, ls);
    Finds(At(s, side), At(s, Other(side)), s.next);
  }

  /** In everything an endpoint ever sent, a CLOSE or an open failure is its last message on that channel. */
  lemma NothingFollowsClose(s: State, ls: seq<Label>, side: Side, u: nat, i: nat)
    requires Reachable(s, ls)
    requires i < |Of(At(s, side).sent, u)| && (Of(At(s, side).sent, u)[i].Close? || Of(At(s, side).sent, u)[i].Failure?)
    ensures i == |Of(At(s, side).sent, u)| - 1
  {
    hide Reachable, Of, Live, Flight, SlotsOk, Way, Addressed;
    ReachableInv(s, ls);
    var (e, p) := (At(s, side), At(s, Other(side)));
    assert u >= s.next ==> Fresh(e, u);
    if ChanOk(e, p, u) {
      LastWords(ViewOf(e, p, u));
    } else {
      LastWords(ViewOf(p, e, u));
    }
  }

  lemma LastWords(v: View)
    requires Phase(v)
    ensures forall i | 0 <= i < |v.hf| && (v.hf[i].Close? || v.hf[i].Failure?) :: i == |v.hf| - 1
    ensures forall i | 0 <= i < |v.hb| && (v.hb[i].Close? || v.hb[i].Failure?) :: i == |v.hb| - 1
  {
    hide Way, Addressed;
    forall i | 0 <= i < |v.hf| && (v.hf[i].Close? || v.hf[i].Failure?) ensures i == |v.hf| - 1 {
      if i > 0 && Accepted(v) {
        assert v.hf[i] == v.hf[1..][i - 1];
      }
    }
    forall i | 0 <= i < |v.hb| && (v.hb[i].Close? || v.hb[i].Failure?) ensures i == |v.hb| - 1 {
      if i > 0 && Accepted(v) {
        assert v.hb[i] == v.hb[1..][i - 1];
      }
    }
  }

  /** A number that no longer stands for its channel was freed after the peer's last word on that channel, a CLOSE or
      an open failure, and nothing for it is under way or can ever be sent again. */
  lemma FreedAfterPeersLastWord(s: State, ls: seq<Label>, side: Side, u: nat)
    requires Reachable(s, ls) && u in At(s, side).chans && !Live(At(s, side), u)
    ensures var (e, p) := (At(s, side), At(s, Other(side)));
            && Flight(p.sent, e.got, u) == []
            && (var said := Of(p.sent, u); said != [] && (said[|said| - 1].Close? || said[|said| - 1].Failure?))
            && (u in p.chans ==> p.chans[u].sentClose || p.chans[u].rejected)
  {
    hide Reachable, Of, Live, Flight, SlotsOk, Addressed, Phase, Fresh;
    ReachableInv(s, ls);
    var (e, p) := (At(s, side), At(s, Other(side)));
    Known(e, p, s.next, u);
    if ChanOk(e, p, u) {
      Freed(ViewOf(e, p, u));
    } else {
      Freed(ViewOf(p, e, u));
    }
  }

  lemma Freed(v: View)
    requires Phase(v)
    ensures !v.oLive ==> v.b == [] && v.hb != [] && (v.hb[|v.hb| - 1].Close? || v.hb[|v.hb| - 1].Failure?)
    ensures !v.oLive && v.c.Some? ==> v.c.value.sentClose || v.c.value.rejected
    ensures !v.cLive && v.c.Some? ==> v.f == [] && v.hf != [] && v.hf[|v.hf| - 1].Close? && v.o.sentClose
  {
    hide Addressed;
    if Running(v) {
      assert !v.oLive ==> v.hb[1..] != [] && v.hb[|v.hb| - 1] == v.hb[1..][|v.hb| - 2];
      assert !v.cLive ==> v.hf[1..] != [] && v.hf[|v.hf| - 1] == v.hf[1..][|v.hf| - 2];
    }
  }

  /** Nothing leaks: once the links are empty and no teardown is under way, an accepted channel that either end
      has closed is gone from both lists. */
  lemma ClosedChannelsAreFreed(s: State, ls: seq<Label>, side: Side, u: nat)
    requires Reachable(s, ls) && u in At(s, side).chans && At(s, side).chans[u].sentClose
    requires s.a.got == |s.b.sent| && s.b.got == |s.a.sent| && s.a.closing.None? && s.b.closing.None?
    ensures !Live(s.a, u) && !Live(s.b, u)
  {
    hide Reachable, Live, SlotsOk, Addressed, Fresh, Body;
    ReachableInv(s, ls);
    var (e, p) := (At(s, side), At(s, Other(side)));
    Known(e, p, s.next, u);
    assert Flight(s.a.sent, s.b.got, u) == [] && Flight(s.b.sent, s.a.got, u) == [];
    if ChanOk(e, p, u) {
      ClosedAndQuiet(ViewOf(e, p, u));
    } else {
      ClosedAndQuiet(ViewOf(p, e, u));
    }
  }

  lemma ClosedAndQuiet(v: View)
    requires Phase(v) && v.f == [] && v.b == [] && !v.oClosing && !v.cClosing
    requires v.o.sentClose || (v.c.Some? && v.c.value.sentClose)
    ensures !v.oLive && !v.cLive
  {
  }

  /** Except a rejected one at the end that rejected it: nothing ever frees that number. */
  lemma RejectedKeepsItsNumber(s: State, ls: seq<Label>, side: Side, u: nat)
    requires Reachable(s, ls) && u in At(s, side).chans && At(s, side).chans[u].rejected && !At(s, side).chans[u].outbound
    ensures Live(At(s, side), u)
  {
    hide Reachable, Live, SlotsOk, Addressed, Fresh, Body, Of, Flight;
    ReachableInv(s, ls);
    var (e, p) := (At(s, side), At(s, Other(side)));
    Known(e, p, s.next, u);
    if ChanOk(e, p, u) {
      Directions(e, p, u);
    }
  }

  /** No open request is forgotten: an opener without an answer has its request under way, or waiting at the peer's
      application, or the answer under way. */
  lemma OpenRequestsAreKept(s: State, ls: seq<Label>, side: Side, u: nat)
    requires Reachable(s, ls) && u in At(s, side).chans
    requires At(s, side).chans[u].outbound && At(s, side).chans[u].announced && !At(s, side).chans[u].decided
    ensures var (e, p) := (At(s, side), At(s, Other(side)));
            || (|Flight(e.sent, p.got, u)| == 1 && Flight(e.sent, p.got, u)[0].Open?)
            || (u in p.chans && !p.chans[u].outbound && !p.chans[u].decided && Live(p, u))
            || (Flight(p.sent, e.got, u) != [] && (Flight(p.sent, e.got, u)[0].Confirm? || Flight(p.sent, e.got, u)[0].Failure?))
  {
    hide Reachable, Live, SlotsOk, Addressed, Fresh, Body, Of, Flight;
    ReachableInv(s, ls);
    var (e, p) := (At(s, side), At(s, Other(side)));
    Known(e, p, s.next, u);
    if ChanOk(p, e, u) {
      Directions(p, e, u);
    }
  }
}
