/** What ChannelIds can do: from every reachable state an open request is answered as it should be, and channels that both ends
    have accepted can be used and closed. */
module ChannelIdLife {
  import opened ByteStrings
  import opened ChanLists
  import opened ChannelIds
  import opened ChannelIdInvariant
  import opened ChannelIdResults
  import opened ChannelViews
  import opened Results

  predicate ValidSize(max: nat) {
    9 <= max <= 0x8000_0000
  }

  /** handleChannelOpen: with a packet size of at least minPacketLength and at most 1<<31 the channel goes to the list under a
      number that was free, for the application to decide; otherwise all that happens is that the opener is told. */
  lemma TakeOpenIff(e: End, u: nat, from: nat, max: nat)
    requires SlotsOk(e) && u !in e.chans
    ensures var e' := TakeOpen(e, Open(u, from, max));
            if ValidSize(max) then
              && u in e'.chans && Live(e', u) && Lookup(e.slots, e'.chans[u].localId).None?
              && (var r := e'.chans[u]; !r.outbound && !r.decided && !r.rejected && !r.sentClose && r.remoteId == from)
              && (forall v | v != u :: (v in e'.chans <==> v in e.chans) && (v in e.chans ==> e'.chans[v] == e.chans[v]))
              && (forall v | v != u :: Live(e', v) <==> Live(e, v))
              && e'.sent == e.sent && e'.got == e.got && e'.closing == e.closing
            else e' == e.(sent := e.sent + [Failure(u, from)])
  {
  }

  /** Whatever any peer sends: the packet loop ends with an error exactly for a packet to a number that stands for no channel, and for
      an answer to a channel that this end has not opened or that has been answered. */
  lemma TakeFailsIff(e: End, m: Msg)
    requires SlotsOk(e)
    ensures Take(e, m).Err? <==>
            && !m.Open?
            && (Lookup(e.slots, m.to).None?
                || ((m.Confirm? || m.Failure?) &&
                    var r := e.chans[Lookup(e.slots, m.to).value]; !r.outbound || r.decided))
  {
  }

  // ----- steps of a reachable state -----

  lemma {:induction false} RunAppend(s: State, ls: seq<Label>, l: Label)
    ensures Run(s, ls + [l]) == match Run(s, ls) case Next(t) => Step(t, l) case o => o
    decreases |ls|
  {
    hide Step;
    if ls == [] {
      assert [] + [l] == [l] && [l][1..] == [];
    } else {
      assert (ls + [l])[1..] == ls[1..] + [l];
      if Step(s, ls[0]).Next? {
        RunAppend(Step(s, ls[0]).state, ls[1..], l);
      }
    }
  }

  /** t is reached from s by the steps more. */
  predicate Reaches(s: State, ls: seq<Label>, more: seq<Label>, t: State) {
    Reachable(t, ls + more) && Run(s, more) == Next(t)
  }

  lemma NoStep(s: State, ls: seq<Label>)
    requires Reachable(s, ls)
    ensures Reaches(s, ls, [], s)
  {
    hide Reachable;
    assert ls + [] == ls;
  }

  lemma OneStep(s: State, ls: seq<Label>, more: seq<Label>, t: State, l: Label)
    requires Reaches(s, ls, more, t) && Step(t, l).Next?
    ensures Reaches(s, ls, more + [l], Step(t, l).state)
  {
    hide Step, Run, Init;
    assert ls + (more + [l]) == ls + more + [l];
    RunAppend(Init(), ls + more, l);
    RunAppend(s, more, l);
  }

  lemma {:induction false} MoreSteps(s: State, ls: seq<Label>, more: seq<Label>, t: State, more': seq<Label>, t': State)
    requires Reaches(s, ls, more, t) && Reaches(t, ls + more, more', t')
    ensures Reaches(s, ls, more + more', t')
  {
    hide Step, Init, Run;
    assert ls + (more + more') == ls + more + more';
    RunJoined(s, more, more', t);
  }

  lemma {:induction false} RunJoined(s: State, ls: seq<Label>, ls': seq<Label>, t: State)
    requires Run(s, ls) == Next(t)
    ensures Run(s, ls + ls') == Run(t, ls')
    decreases |ls|
  {
    hide Step;
    if ls == [] {
      assert ls + ls' == ls';
    } else {
      assert (ls + ls')[1..] == ls[1..] + ls';
      RunJoined(Step(s, ls[0]).state, ls[1..], ls', t);
    }
  }

  function With(s: State, side: Side, e: End): State {
    if side == A then s.(a := e) else s.(b := e)
  }

  lemma StepIs(s: State, side: Side, act: Action)
    ensures var r := EndStep(At(s, side), At(s, Other(side)).sent, s.next, act);
            r.Some? && r.value.Ok? ==>
              Step(s, Label(side, act)) == Next(With(s, side, r.value.value).(next := s.next + if act.NewOutbound? then 1 else 0))
  {
    hide EndStep;
  }

  // ----- taking all that is under way -----

  /** No CLOSE for u among these messages. */
  predicate Unclosed(l: seq<Msg>, u: nat) {
    forall i | 0 <= i < |l| :: !(l[i].Close? && l[i].uid == u)
  }

  /** What e' may differ in from e after taking n messages, or fewer, and ending teardowns. */
  predicate Grown(e: End, e': End, n: nat) {
    && |e'.slots| <= |e.slots| + n && |e.sent| <= |e'.sent| <= |e.sent| + n && e'.sent[..|e.sent|] == e.sent
    && forall u | u in e.chans :: u in e'.chans && e'.chans[u].outbound == e.chans[u].outbound
  }

  /** A channel that is not closed yet stays so for as long as no CLOSE for it is taken. */
  predicate StaysOpen(e: End, e': End, taken: seq<Msg>, u: nat) {
    u in e.chans && !e.chans[u].sentClose && Unclosed(taken, u) ==> u in e'.chans && !e'.chans[u].sentClose
  }

  lemma RemoveStep(s: State, ls: seq<Label>, side: Side) returns (t: State)
    requires Reachable(s, ls) && At(s, side).closing.Some?
    ensures Reaches(s, ls, [Label(side, Remove)], t) && At(t, Other(side)) == At(s, Other(side)) && t.next == s.next
    ensures var (e, e') := (At(s, side), At(t, side));
            e'.got == e.got && e'.closing.None? && e'.chans == e.chans && e'.sent == e.sent && |e'.slots| == |e.slots|
  {
    hide Pair, Reachable, Run;
    ReachableInv(s, ls);
    var l := Label(side, Remove);
    ClosingKnown(At(s, side), At(s, Other(side)), s.next);
    StepIs(s, side, Remove);
    t := Step(s, l).state;
    NoStep(s, ls);
    OneStep(s, ls, [], s, l);
    assert [] + [l] == [l];
  }

  lemma ClosingKnown(e: End, p: End, next: nat)
    requires Pair(e, p, next) && e.closing.Some?
    ensures e.closing.value in e.chans
  {
  }

  lemma DeliverStep(s: State, ls: seq<Label>, side: Side) returns (t: State)
    requires Reachable(s, ls) && At(s, side).got < |At(s, Other(side)).sent| && At(s, side).closing.None?
    requires |At(s, side).slots| < TWO32 - 1
    ensures Reaches(s, ls, [Label(side, Deliver)], t) && At(t, Other(side)) == At(s, Other(side)) && t.next == s.next
    ensures var (e, e', m) := (At(s, side), At(t, side), At(s, Other(side)).sent[At(s, side).got]);
            && Take(Count(e), m) == Ok(e') && e'.got == e.got + 1 && Grown(e, e', 1)
            && forall u :: StaysOpen(e, e', [m], u)
  {
    hide Pair, Reachable, Run, Take, Grown, StaysOpen;
    ReachableInv(s, ls);
    var l := Label(side, Deliver);
    var (e, p) := (At(s, side), At(s, Other(side)));
    TakeKeeps(e, p, s.next);
    assert e.(got := e.got + 1) == Count(e);
    StepIs(s, side, Deliver);
    t := Step(s, l).state;
    NoStep(s, ls);
    OneStep(s, ls, [], s, l);
    assert [] + [l] == [l];
    TakeGrows(e, p, s.next);
  }

  predicate OnlyAdds(e: End, e': End, u: nat) {
    && |e'.slots| <= |e.slots| + 1 && |e.sent| <= |e'.sent| <= |e.sent| + 1 && e'.sent[..|e.sent|] == e.sent
    && forall v | v in e.chans && v != u :: v in e'.chans && e'.chans[v] == e.chans[v]
  }

  lemma AddsOnly(e: End, m: Msg)
    requires m.Open?
    ensures OnlyAdds(e, TakeOpen(Count(e), m), m.uid)
  {
  }

  lemma TakeGrows(e: End, p: End, next: nat)
    requires Pair(e, p, next) && e.got < |p.sent| && Take(Count(e), p.sent[e.got]).Ok?
    ensures var (m, e') := (p.sent[e.got], Take(Count(e), p.sent[e.got]).value);
            e'.got == e.got + 1 && Grown(e, e', 1) && forall u :: StaysOpen(e, e', [m], u)
  {
    hide Pair, Lookup;
    var m := p.sent[e.got];
    if m.Open? {
      OpensFresh(p, e, next);
      assert OnlyAdds(e, Take(Count(e), m).value, m.uid) by { AddsOnly(e, m); }
    } else {
      Finds(e, p, next);
      assert [m][0] == m;
    }
  }

  /** The packet loop takes the messages up to the n-th, with all teardowns that these begin. */
  lemma {:induction false} TakeAll(s: State, ls: seq<Label>, side: Side, n: nat) returns (more: seq<Label>, t: State)
    requires Reachable(s, ls) && At(s, side).got <= n <= |At(s, Other(side)).sent|
    requires |At(s, side).slots| + n - At(s, side).got < TWO32 - 1
    ensures Reaches(s, ls, more, t) && At(t, Other(side)) == At(s, Other(side)) && t.next == s.next
    ensures var (e, e') := (At(s, side), At(t, side));
            && e'.got == n && e'.closing.None? && Grown(e, e', n - e.got)
            && forall u :: StaysOpen(e, e', At(s, Other(side)).sent[e.got..n], u)
    decreases n - At(s, side).got, At(s, side).closing.Some?
  {
    hide Reachable, Run, StaysOpen, Grown, Take;
    var (e, p) := (At(s, side), At(s, Other(side)));
    if e.closing.Some? {
      var t1 := RemoveStep(s, ls, side);
      var rest;
      rest, t := TakeAll(t1, ls + [Label(side, Remove)], side, n);
      more := [Label(side, Remove)] + rest;
      MoreSteps(s, ls, [Label(side, Remove)], t1, rest, t);
      GrownSame(e, At(t1, side), At(t, side), n - e.got, p.sent[e.got..n]);
    } else if e.got < n {
      var t1 := DeliverStep(s, ls, side);
      GrownMeans(e, At(t1, side), 1);
      var rest;
      rest, t := TakeAll(t1, ls + [Label(side, Deliver)], side, n);
      more := [Label(side, Deliver)] + rest;
      MoreSteps(s, ls, [Label(side, Deliver)], t1, rest, t);
      assert p.sent[e.got..n] == [p.sent[e.got]] + p.sent[e.got + 1..n];
      GrownTwice(e, At(t1, side), At(t, side), n - e.got - 1, p.sent[e.got], p.sent[e.got + 1..n]);
    } else {
      more, t := [], s;
      NoStep(s, ls);
      GrownNothing(e, p.sent[e.got..n]);
    }
  }

  lemma GrownMeans(e: End, e': End, n: nat)
    requires Grown(e, e', n)
    ensures |e'.slots| <= |e.slots| + n
  {
  }

  lemma GrownNothing(e: End, taken: seq<Msg>)
    ensures Grown(e, e, 0) && forall u :: StaysOpen(e, e, taken, u)
  {
  }

  lemma GrownSame(e: End, e1: End, e2: End, n: nat, taken: seq<Msg>)
    requires e1.chans == e.chans && e1.sent == e.sent && |e1.slots| == |e.slots| && Grown(e1, e2, n) && forall u :: StaysOpen(e1, e2, taken, u)
    ensures Grown(e, e2, n) && forall u :: StaysOpen(e, e2, taken, u)
  {
    hide Unclosed;
    forall u ensures StaysOpen(e, e2, taken, u) {
      assert StaysOpen(e1, e2, taken, u);
    }
  }

  lemma GrownTwice(e: End, e1: End, e2: End, n: nat, m: Msg, rest: seq<Msg>)
    requires Grown(e, e1, 1) && Grown(e1, e2, n)
    requires (forall u :: StaysOpen(e, e1, [m], u)) && forall u :: StaysOpen(e1, e2, rest, u)
    ensures Grown(e, e2, n + 1) && forall u :: StaysOpen(e, e2, [m] + rest, u)
  {
    assert e2.sent[..|e.sent|] == e2.sent[..|e1.sent|][..|e.sent|];
    forall u ensures StaysOpen(e, e2, [m] + rest, u) {
      assert StaysOpen(e, e1, [m], u) && StaysOpen(e1, e2, rest, u);
      if Unclosed([m] + rest, u) {
        assert ([m] + rest)[0] == m;
        assert forall i | 0 <= i < |rest| :: rest[i] == ([m] + rest)[i + 1];
      }
    }
  }

  // ----- opening -----

  /** Lists and links are not about to run out of numbers. */
  predicate Room(s: State, more: nat) {
    |s.a.slots| + |s.b.slots| + |s.a.sent| + |s.b.sent| + more < 0x1000_0000
  }

  /** Both ends know the channel as open, each under the number that the other one's list has for it. */
  predicate Established(e: End, p: End, u: nat) {
    && u in e.chans && e.chans[u].decided && !e.chans[u].rejected && !e.chans[u].sentClose && Live(e, u)
    && u in p.chans && p.chans[u].decided && !p.chans[u].rejected && !p.chans[u].sentClose && Live(p, u)
    && e.chans[u].remoteId == p.chans[u].localId && p.chans[u].remoteId == e.chans[u].localId
  }

  lemma {:induction false} OfHas(l: seq<Msg>, i: nat)
    requires i < |l|
    ensures l[i] in Of(l, l[i].uid)
  {
    if i > 0 {
      OfHas(l[1..], i - 1);
    }
  }

  lemma AcceptorOf(e: End, p: End, next: nat, u: nat)
    requires Pair(e, p, next) && u in p.chans && !p.chans[u].outbound
    ensures ChanOk(e, p, u)
  {
    hide SlotsOk, Fresh, Phase;
    Known(p, e, next, u);
    if ChanOk(p, e, u) {
      Directions(p, e, u);
    }
  }

  /** Where the acceptor has said yes and no more, and the opener has taken all, it is established. */
  lemma AcceptedIsEstablished(e: End, p: End, next: nat, u: nat)
    requires Pair(e, p, next) && u in p.chans && !p.chans[u].outbound && p.chans[u].decided && !p.chans[u].rejected && !p.chans[u].sentClose
    requires e.got == |p.sent| && u in e.chans && !e.chans[u].sentClose
    ensures Established(e, p, u)
  {
    hide SlotsOk, Fresh, Live, Body, Addressed;
    AcceptorOf(e, p, next, u);
    assert Flight(p.sent, e.got, u) == [];
  }

  lemma AcceptorIsUnclosed(e: End, p: End, next: nat, u: nat)
    requires Pair(e, p, next) && u in p.chans && !p.chans[u].outbound && p.chans[u].decided && !p.chans[u].rejected && !p.chans[u].sentClose
    requires e.got <= |p.sent|
    ensures Unclosed(p.sent[e.got..], u)
  {
    hide SlotsOk, Fresh, Live, Of, Addressed, Flight;
    AcceptorOf(e, p, next, u);
    var hb := Of(p.sent, u);
    assert forall i | 0 <= i < |hb| :: !hb[i].Close? by {
      assert forall i | 0 < i < |hb| :: hb[i] == hb[1..][i - 1];
    }
    forall i | 0 <= i < |p.sent[e.got..]| ensures !(p.sent[e.got..][i].Close? && p.sent[e.got..][i].uid == u) {
      OfHas(p.sent, e.got + i);
    }
  }

  /** Where it has been turned down and the opener has taken all, the opener has no number for it any more. */
  lemma RefusedIsOver(e: End, p: End, next: nat, u: nat)
    requires Pair(e, p, next) && u < next && u in e.chans && e.chans[u].outbound && e.got == |p.sent| && Of(p.sent, u) != []
    requires u in p.chans ==> p.chans[u].rejected
    ensures e.chans[u].decided && e.chans[u].rejected && !Live(e, u)
  {
    hide SlotsOk, Fresh, Live, Body, Addressed, Way, Of;
    if ChanOk(p, e, u) {
      Directions(p, e, u);
    }
    assert Flight(p.sent, e.got, u) == [] by { OfNothing(p.sent[e.got..], u); }
  }

  lemma OfNothing(l: seq<Msg>, u: nat)
    requires l == []
    ensures Of(l, u) == []
  {
  }

  /** The packet with the request has been taken by everything before it; now it is taken and answered. */
  lemma OpenTaken(s: State, ls: seq<Label>, side: Side, accept: bool) returns (more: seq<Label>, t: State)
    requires Reachable(s, ls)
    requires var (e, p) := (At(s, side), At(s, Other(side)));
             p.got < |e.sent| && e.sent[p.got].Open? && p.closing.None? && |p.slots| < TWO32 - 1
    ensures Reaches(s, ls, more, t) && At(t, side) == At(s, side) && t.next == s.next
    ensures var (e, p, p', m) := (At(s, side), At(s, Other(side)), At(t, Other(side)), At(s, side).sent[At(s, Other(side)).got]);
            && m.uid < s.next && m.uid in e.chans && e.chans[m.uid].outbound && !e.chans[m.uid].sentClose
            && |p'.sent| == |p.sent| + 1 && |p'.slots| <= |p.slots| + 1 && p'.sent[|p.sent|].uid == m.uid
            && if ValidSize(m.maxPacket) then
                 && m.uid in p'.chans
                 && var r := p'.chans[m.uid]; !r.outbound && r.decided && !r.sentClose && r.rejected == !accept
               else m.uid !in p'.chans
  {
    hide Pair, Reachable, Run, Reaches, Grown, StaysOpen;
    var (e, p) := (At(s, side), At(s, Other(side)));
    var m := e.sent[p.got];
    ReachableInv(s, ls);
    OpensFresh(e, p, s.next);
    t := DeliverStep(s, ls, Other(side));
    more := [Label(Other(side), Deliver)];
    TakeOpenIff(Count(p), m.uid, m.from, m.maxPacket);
    if ValidSize(m.maxPacket) {
      var answer := Label(Other(side), if accept then Accept(m.uid) else Reject(m.uid));
      StepIs(t, Other(side), answer.action);
      OneStep(s, ls, more, t, answer);
      more, t := more + [answer], Step(t, answer).state;
    }
  }

  lemma OpensFresh(e: End, p: End, next: nat)
    requires Pair(p, e, next) && p.got < |e.sent| && e.sent[p.got].Open?
    ensures var u := e.sent[p.got].uid;
            u < next && u !in p.chans && u in e.chans && e.chans[u].outbound && !e.chans[u].sentClose && SlotsOk(Count(p))
  {
    hide Of, Live, Way, Body, Addressed, Flight;
    var u := e.sent[p.got].uid;
    Head(p, e, next);
    if ChanOk(p, e, u) {
      OpenerGets(ViewOf(p, e, u), Flight(e.sent, p.got + 1, u));
    }
    FirstGets(ViewOf(e, p, u));
  }

  /** In every reachable state each open request under way can be answered: if its packet size is valid and the application
      accepts, the channel comes to be established at both ends; if not, the opener learns that it has been rejected and gives
      its number back, and the channel is in the other end's list only if the application has rejected it. */
  lemma OpenIsAnswered(s: State, ls: seq<Label>, side: Side, i: nat, accept: bool) returns (more: seq<Label>, t: State)
    requires Reachable(s, ls) && Room(s, 0)
    requires At(s, Other(side)).got <= i < |At(s, side).sent| && At(s, side).sent[i].Open?
    ensures Reaches(s, ls, more, t)
    ensures var (e, p, m) := (At(t, side), At(t, Other(side)), At(s, side).sent[i]);
            if ValidSize(m.maxPacket) && accept then Established(e, p, m.uid)
            else
              && m.uid in e.chans && e.chans[m.uid].decided && e.chans[m.uid].rejected && !Live(e, m.uid)
              && (m.uid in p.chans <==> ValidSize(m.maxPacket)) && (m.uid in p.chans ==> p.chans[m.uid].rejected)
  {
    hide Pair, Run, Reachable, Established, Live, Unclosed;
    var (e0, p0) := (At(s, side), At(s, Other(side)));
    var u := e0.sent[i].uid;
    var t1, t2, more1, more2, more3;
    more1, t1 := TakeAll(s, ls, Other(side), i);
    more2, t2 := OpenTaken(t1, ls + more1, side, accept);
    MoreSteps(s, ls, more1, t1, more2, t2);
    ReachableInv(t2, ls + (more1 + more2));
    GotAtMost(At(t2, side), At(t2, Other(side)), t2.next);
    more3, t := TakeAll(t2, ls + (more1 + more2), side, |At(t2, Other(side)).sent|);
    MoreSteps(s, ls, more1 + more2, t2, more3, t);
    more := more1 + more2 + more3;
    ReachableInv(t, ls + more);
    var (e2, p2, e, p) := (At(t2, side), At(t2, Other(side)), At(t, side), At(t, Other(side)));
    if ValidSize(e0.sent[i].maxPacket) && accept {
      AcceptorIsUnclosed(e2, p2, t2.next, u);
      assert p2.sent[e2.got..|p2.sent|] == p2.sent[e2.got..];
      assert StaysOpen(e2, e, p2.sent[e2.got..|p2.sent|], u);
      AcceptedIsEstablished(e, p, t.next, u);
    } else {
      OfHas(p.sent, |p.sent| - 1);
      RefusedIsOver(e, p, t.next, u);
    }
  }

  lemma GotAtMost(e: End, p: End, next: nat)
    requires Pair(e, p, next)
    ensures e.got <= |p.sent|
  {
  }

  /** And from every reachable state a new channel can be opened: the struct is made, the request goes out, and the other end
      accepts. */
  lemma NewChannelOpens(s: State, ls: seq<Label>, side: Side, max: nat) returns (more: seq<Label>, t: State)
    requires Reachable(s, ls) && Room(s, 2) && ValidSize(max)
    ensures Reaches(s, ls, more, t) && Established(At(t, side), At(t, Other(side)), s.next)
  {
    hide Pair, Run, Reachable, Established, Live;
    var u := s.next;
    ReachableInv(s, ls);
    NoStep(s, ls);
    var t1 := Step(s, Label(side, NewOutbound)).state;
    StepIs(s, side, NewOutbound);
    OneStep(s, ls, [], s, Label(side, NewOutbound));
    var t2 := Step(t1, Label(side, SendOpen(u, max))).state;
    StepIs(t1, side, SendOpen(u, max));
    var begin := [] + [Label(side, NewOutbound)] + [Label(side, SendOpen(u, max))];
    OneStep(s, ls, [] + [Label(side, NewOutbound)], t1, Label(side, SendOpen(u, max)));
    ReachableInv(t2, ls + begin);
    GotAtMost(At(s, Other(side)), At(s, side), s.next);
    var i := |At(s, side).sent|;
    assert At(t2, side).sent[i] == Open(u, At(t1, side).chans[u].localId, max);
    var rest;
    rest, t := OpenIsAnswered(t2, ls + begin, side, i, true);
    MoreSteps(s, ls, begin, t2, rest, t);
    more := begin + rest;
  }

  // ----- using and closing -----

  /** What an end sends on a channel it may use is one message, to the number that the peer's list has for that channel; closing
      it sends a CLOSE there. */
  lemma SpeaksToPeer(s: State, ls: seq<Label>, side: Side, u: nat)
    requires Reachable(s, ls) && MaySend(At(s, side), u)
    ensures var (e, p) := (At(s, side), At(s, Other(side)));
            && u in p.chans && Live(p, u)
            && Step(s, Label(side, Use(u))) == Next(With(s, side, e.(sent := e.sent + [Data(u, p.chans[u].localId)])))
            && Step(s, Label(side, CallClose(u))) ==
               Next(With(s, side, e.(sent := e.sent + [Close(u, p.chans[u].localId)], chans := e.chans[u := e.chans[u].(sentClose := true)])))
  {
    hide Reachable, Live, Pair, Run;
    ReachableInv(s, ls);
    var (e, p) := (At(s, side), At(s, Other(side)));
    PeerHasIt(e, p, s.next, u);
    assert e.chans[u := e.chans[u]] == e.chans;
    StepIs(s, side, Use(u));
    StepIs(s, side, CallClose(u));
  }

  lemma PeerHasIt(e: End, p: End, next: nat, u: nat)
    requires Pair(e, p, next) && MaySend(e, u)
    ensures u in p.chans && Live(p, u) && e.chans[u].remoteId == p.chans[u].localId
  {
    hide SlotsOk, Fresh, Live, Body, Addressed, Flight, Of;
    Known(e, p, next, u);
    if ChanOk(e, p, u) {
      Directions(e, p, u);
    } else {
      Directions(p, e, u);
    }
  }

  /** From every reachable state a channel that may be used can be closed: the CLOSE is answered, and neither list has a number
      for the channel any more. */
  lemma ClosingCompletes(s: State, ls: seq<Label>, side: Side, u: nat) returns (more: seq<Label>, t: State)
    requires Reachable(s, ls) && Room(s, 0) && MaySend(At(s, side), u)
    ensures Reaches(s, ls, more, t) && u in At(t, side).chans && u in At(t, Other(side)).chans
    ensures !Live(At(t, side), u) && !Live(At(t, Other(side)), u)
  {
    hide Pair, Run, Reachable, Live, StaysOpen, MaySend;
    SpeaksToPeer(s, ls, side, u);
    NoStep(s, ls);
    var close := Label(side, CallClose(u));
    var t1 := Step(s, close).state;
    OneStep(s, ls, [], s, close);
    var more1 := [] + [close];
    ReachableInv(t1, ls + more1);
    GotAtMost(At(t1, Other(side)), At(t1, side), t1.next);
    var more2, t2 := TakeAll(t1, ls + more1, Other(side), |At(t1, side).sent|);
    MoreSteps(s, ls, more1, t1, more2, t2);
    ReachableInv(t2, ls + (more1 + more2));
    ClosedIsAnswered(At(t2, side), At(t2, Other(side)), t2.next, u);
    GotAtMost(At(t2, side), At(t2, Other(side)), t2.next);
    var more3;
    more3, t := TakeAll(t2, ls + (more1 + more2), side, |At(t2, Other(side)).sent|);
    MoreSteps(s, ls, more1 + more2, t2, more3, t);
    more := more1 + more2 + more3;
    ReachableInv(t, ls + more);
    ClosedIsAnswered(At(t, Other(side)), At(t, side), t.next, u);
  }

  /** An end that has taken all of the peer's messages, its CLOSE among them, has no number for the channel. */
  lemma ClosedIsAnswered(e: End, p: End, next: nat, u: nat)
    requires Pair(e, p, next) && u in e.chans && e.chans[u].sentClose && u in p.chans && p.got == |e.sent| && p.closing.None?
    ensures p.chans[u].sentClose && !Live(p, u)
  {
    hide SlotsOk, Fresh, Live, Body, Addressed, Of;
    Known(e, p, next, u);
    OfNothing(e.sent[p.got..], u);
    if ChanOk(e, p, u) {
      Directions(e, p, u);
    } else {
      Directions(p, e, u);
    }
  }
}
