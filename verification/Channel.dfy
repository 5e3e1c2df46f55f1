/** The channel struct as an object (channel.go). Its methods are checked against the steps of ChannelFlow: the ghost field
    flow is the endpoint of that model, and every method says which of its steps it takes. The two buffers are kept as
    the byte queues that the class in Buffers implements. */
module Channels {
  import opened ByteStrings
  import opened ChannelFlow
  import ChannelResults
  import opened Results
  import Windows

  /** How a call of WriteExtended ends: all written, io.EOF, or waiting for the peer to enlarge the window. */
  datatype WriteOutcome = Written | EndOfFile | Waiting

  datatype ReadOutcome = ReadBytes | ReadEof | ReadWaits | Unimplemented

  /** What an endpoint does: a step of its own, or a packet taken from the link. */
  datatype Event = Own(act: Action) | Take(m: Msg)

  function Happens(e: End, ev: Event): Effect {
    match ev
    case Own(act) => Act(e, act)
    case Take(m) => if e.closing || Deliver(e, m).Err? then None else Some(Deliver(e, m).value)
  }

  /** Several of them one after the other, and all they send. */
  function Acts(e: End, evs: seq<Event>): Option<(End, seq<Msg>)> {
    if evs == [] then Some((e, []))
    else
      match Acts(e, evs[..|evs| - 1])
      case None => None
      case Some((e1, out1)) =>
        match Happens(e1, evs[|evs| - 1])
        case None => None
        case Some((e2, out2)) => Some((e2, out1 + out2))
  }

  lemma ActsSnoc(e: End, evs: seq<Event>, act: Action)
    requires Acts(e, evs).Some? && Act(Acts(e, evs).value.0, act).Some?
    ensures Acts(e, evs + [Own(act)]) ==
            Some((Act(Acts(e, evs).value.0, act).value.0, Acts(e, evs).value.1 + Act(Acts(e, evs).value.0, act).value.1))
  {
    hide Act;
    assert (evs + [Own(act)])[..|evs|] == evs;
  }

  lemma ActsNothing(e: End)
    ensures Acts(e, []) == Some((e, []))
  {
  }

  /** The packets taken, in order. */
  function Taken(evs: seq<Event>): seq<Msg> {
    if evs == [] then [] else Taken(evs[..|evs| - 1]) + if evs[|evs| - 1].Take? then [evs[|evs| - 1].m] else []
  }

  function AsLabels(evs: seq<Event>): seq<Label> {
    seq(|evs|, i requires 0 <= i < |evs| => if evs[i].Own? then ActA(evs[i].act) else DeliverToA)
  }

  /** What a channel does, with the packets on its link as they come, is a run of the two-endpoint model. */
  lemma {:induction false} ActsAreRun(s: State, evs: seq<Event>)
    requires Acts(s.a, evs).Some? && Taken(evs) <= s.ba
    ensures Run(s, AsLabels(evs))
            == Next(s.(a := Acts(s.a, evs).value.0, ab := s.ab + Acts(s.a, evs).value.1, ba := s.ba[|Taken(evs)|..]))
  {
    hide Act, Deliver;
    if evs == [] {
      assert s.ab + [] == s.ab && AsLabels(evs) == [] && s.ba[0..] == s.ba;
    } else {
      var n := |evs| - 1;
      var before := Acts(s.a, evs[..n]).value;
      var t := Taken(evs[..n]);
      var mid := s.(a := before.0, ab := s.ab + before.1, ba := s.ba[|t|..]);
      ActsAreRun(s, evs[..n]);
      var l := if evs[n].Own? then ActA(evs[n].act) else DeliverToA;
      assert AsLabels(evs) == AsLabels(evs[..n]) + [l];
      if evs[n].Take? {
        assert mid.ba[0] == evs[n].m by { assert Taken(evs)[|t|] == evs[n].m; }
        assert mid.ba[1..] == s.ba[|t| + 1..];
      }
      assert Step(mid, l).Next?;
      ChannelResults.RunAppend(s, AsLabels(evs[..n]), l, mid);
      var more := Happens(before.0, evs[n]).value.1;
      assert s.ab + before.1 + more == s.ab + (before.1 + more);
    }
  }

  /** The part of an endpoint that the object keeps. */
  datatype Kept = Kept(outbound: bool, remoteWin: nat, winClosed: bool, decided: bool, maxRemote: nat, myWindow: nat, bufs: seq<Bytes>, eof: bool,
                       sentEOF: bool, sentClose: bool)

  function KeptOf(e: End): Kept {
    Kept(e.outbound, e.remoteWin, e.winClosed, e.decided, e.maxRemote, e.myWindow, e.bufs, e.eof, e.sentEOF, e.sentClose)
  }

  predicate Shaped(e: End) {
    |e.bufs| == |e.got| == |e.failed| == 2
  }

  predicate Runs(ws: seq<WriteCall>, w: WriteCall) {
    exists i :: 0 <= i < |ws| && ws[i] == w
  }

  /** What reserve takes for a call with rest still to be sent. */
  function Take(v: Kept, rest: Bytes): nat {
    Min(v.remoteWin, if v.maxRemote < |rest| then v.maxRemote else |rest|)
  }

  lemma ReserveStep(e: End, i: nat, code: nat, rest: Bytes)
    requires Shaped(e) && 0 < |rest| < TWO32 && KeptOf(e).maxRemote > 0 && !(KeptOf(e).remoteWin == 0 && !KeptOf(e).winClosed)
    requires i < |e.writes| && e.writes[i] == WriteCall(code, rest, None)
    ensures Act(e, Reserve(i)).Some? && Act(e, Reserve(i)).value.1 == []
    ensures var (e', v) := (Act(e, Reserve(i)).value.0, KeptOf(e));
            && Shaped(e') && Take(v, rest) <= v.remoteWin && KeptOf(e') == v.(remoteWin := v.remoteWin - Take(v, rest))
            && (!v.winClosed ==> 0 < Take(v, rest) && i < |e'.writes| && e'.writes[i] == WriteCall(code, rest, Some(Take(v, rest))))
  {
  }

  lemma SendStep(e: End, i: nat, code: nat, rest: Bytes, k: nat)
    requires Shaped(e) && k <= |rest| && i < |e.writes| && e.writes[i] == WriteCall(code, rest, Some(k))
    ensures Act(e, Send(i)).Some? && Act(e, Send(i)).value.1 == (if e.sentClose then [] else [Data(code, rest[..k])]) &&
            var e' := Act(e, Send(i)).value.0;
            && Shaped(e') && KeptOf(e') == KeptOf(e)
            && (!e.sentClose ==> i < |e'.writes| && e'.writes[i] == WriteCall(code, rest[k..], None))
  {
  }

  lemma CallSteps(e: End, i: nat, code: nat, data: Bytes)
    requires Shaped(e)
    ensures e.decided && !e.sentEOF && code < TWO32 && (forall k | 0 <= k < |e.writes| :: e.writes[k].code != code) ==>
              Act(e, StartWrite(code, data)).Some? && Act(e, StartWrite(code, data)).value.1 == [] &&
              var e' := Act(e, StartWrite(code, data)).value.0;
              Shaped(e') && KeptOf(e') == KeptOf(e) && e'.writes == e.writes + [WriteCall(code, data, None)]
    ensures i < |e.writes| && e.writes[i].credit.None? && e.writes[i].todo == [] ==>
              Act(e, ReturnWrite(i)).Some? && Act(e, ReturnWrite(i)).value.1 == [] &&
              var e' := Act(e, ReturnWrite(i)).value.0;
              Shaped(e') && KeptOf(e') == KeptOf(e)
  {
  }

  /** What taking a packet does to the kept part. */
  lemma DataStep(e: End, code: nat, payload: Bytes)
    requires Shaped(e)
    ensures var (r, v) := (HandleData(e, code, payload), KeptOf(e));
            if |payload| == 0 then r == Ok(e)
            else if |payload| > MAX_PACKET then r == Err(PayloadTooLarge)
            else if v.myWindow < |payload| then r == Err(WroteTooMuch)
            else
              && r.Ok? && Shaped(r.value)
              && KeptOf(r.value) == v.(myWindow := v.myWindow - |payload|,
                                       bufs := if code < 2 then v.bufs[code := v.bufs[code] + payload] else v.bufs)
  {
  }

  lemma CloseStep(e: End)
    requires Shaped(e) && !e.gone
    ensures Deliver(e, Close).Ok? && Deliver(e, Close).value.1 == if KeptOf(e).sentClose then [] else [Close]
    ensures var e' := Deliver(e, Close).value.0;
            && Act(e', Teardown).Some? && Act(e', Teardown).value.1 == []
            && var e2 := Act(e', Teardown).value.0; Shaped(e2) && KeptOf(e2) == KeptOf(e).(sentClose := true, eof := true, winClosed := true)
  {
  }

  lemma EofStep(e: End)
    requires Shaped(e) && !e.gone
    ensures Deliver(e, Eof).Ok? && Deliver(e, Eof).value.1 == []
    ensures Shaped(Deliver(e, Eof).value.0) && KeptOf(Deliver(e, Eof).value.0) == KeptOf(e).(eof := true)
    ensures Deliver(e, Other) == Ok((e, []))
  {
  }

  lemma AdjustStep(e: End, n: nat)
    requires Shaped(e) && !e.gone
    ensures var (r, v) := (Deliver(e, Adjust(n)), KeptOf(e));
            if v.remoteWin + n < TWO32 then r.Ok? && r.value.1 == [] && Shaped(r.value.0) && KeptOf(r.value.0) == v.(remoteWin := v.remoteWin + n)
            else r == Err(InvalidUpdate)
  {
  }

  lemma ConfirmStep(e: End, window: nat, maxPacket: nat)
    requires Shaped(e) && !e.gone
    ensures var (r, v) := (Deliver(e, Confirm(window, maxPacket)), KeptOf(e));
            if !v.outbound || v.decided then r == Err(UnexpectedConfirm)
            else if maxPacket < 9 || maxPacket > 0x8000_0000 then r == Err(InvalidMaxPacket)
            else
              && r.Ok? && r.value.1 == [] && Shaped(r.value.0)
              && KeptOf(r.value.0) == v.(decided := true, maxRemote := maxPacket,
                                         remoteWin := if v.remoteWin + window < TWO32 then v.remoteWin + window else v.remoteWin)
  {
  }

  lemma ReadSteps(e: End, code: nat, len: nat)
    requires Shaped(e) && KeptOf(e).decided && code < 2 && len > 0 && KeptOf(e).bufs[code] != []
    ensures var (v, n) := (KeptOf(e), Min(len, |KeptOf(e).bufs[code]|));
            && Act(e, Read(code, len)).Some? && Act(e, Read(code, len)).value.1 == []
            && var e1 := Act(e, Read(code, len)).value.0;
            && Shaped(e1) && KeptOf(e1) == v.(bufs := v.bufs[code := v.bufs[code][n..]])
            && e1.uncredited == e.uncredited + [n]
  {
  }

  lemma CreditStep(e: End, n: nat)
    requires Shaped(e) && e.uncredited != [] && e.uncredited[|e.uncredited| - 1] == n
    ensures var (v, j) := (KeptOf(e), |e.uncredited| - 1);
            && Act(e, Credit(j)).Some? && Act(e, Credit(j)).value.1 == []
            && var e1 := Act(e, Credit(j)).value.0;
            && Shaped(e1) && KeptOf(e1) == v.(myWindow := (v.myWindow + n) % TWO32)
            && |e1.owed| == |e.owed| + 1 && e1.owed[|e.owed|] == n
  {
  }

  lemma SendAdjustStep(e: End, j: nat)
    requires Shaped(e) && j < |e.owed|
    ensures Act(e, SendAdjust(j)).Some? && Act(e, SendAdjust(j)).value.1 == if KeptOf(e).sentClose then [] else [Adjust(e.owed[j])]
    ensures var e1 := Act(e, SendAdjust(j)).value.0; Shaped(e1) && KeptOf(e1) == KeptOf(e)
  {
  }

  lemma NoStream(code: nat)
    ensures Stream([], code) == []
  {
  }

  lemma StreamGrows(out: seq<Msg>, before: seq<Msg>, m: Msg, code: nat)
    requires before <= out && m.Data? && m.code == code
    ensures Stream((out + [m])[|before|..], code) == Stream(out[|before|..], code) + m.payload
    ensures (out + [m])[|before|..] == out[|before|..] + [m]
  {
    hide Stream;
    assert (out + [m])[|before|..] == out[|before|..] + [m];
    StreamSnoc(out[|before|..], m, code);
    StreamOne(m, code);
  }

  lemma StreamOne(m: Msg, code: nat)
    requires m.Data? && m.code == code
    ensures Stream([m], code) == m.payload
  {
    assert [m][1..] == [];
  }

  class Channel {
    const outbound: bool
    const remoteWin: Windows.Window
    var decided: bool
    var maxRemotePayload: nat
    var myWindow: nat
    var pending: Bytes
    var extPending: Bytes
    var eof: bool
    var sentEOF: bool
    var sentClose: bool
    /** What the channel has given to the mux's connection. */
    var out: seq<Msg>

    ghost var flow: End

    ghost predicate Valid()
      reads this, remoteWin
    {
      && remoteWin.Valid() && Shaped(flow)
      && KeptOf(flow) == Kept(outbound, remoteWin.win, remoteWin.closed, decided, maxRemotePayload, myWindow, [pending, extPending], eof, sentEOF, sentClose)
    }

    constructor (outbound: bool)
      ensures Valid() && flow == NewEnd(outbound) && out == [] && fresh(remoteWin)
    {
      this.outbound := outbound;
      var w := new Windows.Window();
      if !outbound {
        var _ := w.Add(WINDOW);
      }
      remoteWin := w;
      decided, maxRemotePayload, myWindow := !outbound, if outbound then 0 else MAX_PACKET, WINDOW;
      pending, extPending, eof, sentEOF, sentClose, out := [], [], false, false, false, [];
      flow := NewEnd(outbound);
    }

    /** writePacket: nothing goes out after a CLOSE. */
    method WritePacket(m: Msg) returns (ok: bool)
      modifies `out, `sentClose
      ensures ok == !old(sentClose)
      ensures out == old(out) + if ok then [m] else []
      ensures sentClose == (old(sentClose) || m == Close)
    {
      if sentClose {
        return false;
      }
      sentClose := m.Close?;
      out := out + [m];
      return true;
    }

    /** The call of reserve in WriteExtended, for the running call with index i of which rest is still to be sent. */
    method ReserveCredit(ghost i: nat, code: nat, rest: Bytes) returns (r: Windows.Reservation)
      requires Valid() && 0 < |rest| < TWO32 && maxRemotePayload > 0
      requires i < |flow.writes| && flow.writes[i] == WriteCall(code, rest, None)
      modifies remoteWin, `flow
      ensures Valid()
      ensures r.Wait? <==> old(remoteWin.win) == 0 && !old(remoteWin.closed)
      ensures r.Refused? <==> old(remoteWin.closed)
      ensures r.Wait? ==> unchanged(remoteWin)
      ensures remoteWin.closed == old(remoteWin.closed)
      ensures if r.Wait? then flow == old(flow) else Act(old(flow), Reserve(i)) == Some((flow, []))
      ensures r.Granted? ==> 0 < r.n <= |rest| && r.n <= maxRemotePayload
                             && i < |flow.writes| && flow.writes[i] == WriteCall(code, rest, Some(r.n))
    {
      hide Act, KeptOf, Shaped;
      var space := if maxRemotePayload < |rest| then maxRemotePayload else |rest|;
      r := remoteWin.Reserve(space);
      if !r.Wait? {
        ReserveStep(flow, i, code, rest);
        flow := Act(flow, Reserve(i)).value.0;
      }
    }

    /** The call of writePacket in WriteExtended. */
    method SendPacket(ghost i: nat, code: nat, rest: Bytes, k: nat) returns (ok: bool)
      requires Valid() && k <= |rest| && i < |flow.writes| && flow.writes[i] == WriteCall(code, rest, Some(k))
      modifies `out, `sentClose, `flow
      ensures Valid() && sentClose == old(sentClose) == !ok
      ensures Act(old(flow), Send(i)) == Some((flow, if ok then [Data(code, rest[..k])] else []))
      ensures out == old(out) + if ok then [Data(code, rest[..k])] else []
      ensures ok ==> i < |flow.writes| && flow.writes[i] == WriteCall(code, rest[k..], None)
    {
      hide Act;
      SendStep(flow, i, code, rest, k);
      ok := WritePacket(Data(code, rest[..k]));
      flow := Act(flow, Send(i)).value.0;
    }

    /** The start and the end of a call, which leave the object as it is. */
    ghost method StartCall(code: nat, data: Bytes)
      requires Valid() && decided && !sentEOF && code < TWO32 && forall k | 0 <= k < |flow.writes| :: flow.writes[k].code != code
      modifies `flow
      ensures Valid() && Act(old(flow), StartWrite(code, data)) == Some((flow, []))
      ensures flow.writes == old(flow).writes + [WriteCall(code, data, None)]
    {
      hide Act;
      CallSteps(flow, 0, code, data);
      flow := Act(flow, StartWrite(code, data)).value.0;
    }

    ghost method EndCall(i: nat)
      requires Valid() && i < |flow.writes| && flow.writes[i].credit.None? && flow.writes[i].todo == []
      modifies `flow
      ensures Valid() && Act(old(flow), ReturnWrite(i)) == Some((flow, []))
    {
      hide Act;
      CallSteps(flow, i, 0, []);
      flow := Act(flow, ReturnWrite(i)).value.0;
    }

    /** WriteExtended: sends the data in packets no larger than the peer takes, each paid for with credit, until it is all
        sent, the window is empty, or the channel is closed. A writer of 2^32 bytes or more may find no progress. */
    method WriteExtended(data: Bytes, code: nat) returns (n: nat, outcome: WriteOutcome, ghost acts: seq<Event>)
      requires Valid() && decided && maxRemotePayload > 0 && code < TWO32 && |data| < TWO32
      requires forall k | 0 <= k < |flow.writes| :: flow.writes[k].code != code
      modifies this, remoteWin
      ensures Valid() && Acts(old(flow), acts).Some? && flow == Acts(old(flow), acts).value.0
      ensures out == old(out) + Acts(old(flow), acts).value.1
      ensures if old(sentEOF) then acts == [] && outcome.EndOfFile? else acts != [] && acts[0] == Own(StartWrite(code, data))
      ensures n <= |data| && (outcome.Written? ==> n == |data|)
      ensures outcome.EndOfFile? ==> old(sentEOF) || sentClose || remoteWin.closed
      ensures outcome.Waiting? ==> n < |data| && remoteWin.win == 0 && !remoteWin.closed && Runs(flow.writes, WriteCall(code, data[n..], None))
      ensures Stream(out[|old(out)|..], code) == data[..n]
      ensures forall m | m in out[|old(out)|..] :: m.Data? && m.code == code && 0 < |m.payload| <= old(maxRemotePayload)
    {
      hide Act, Acts, Stream, KeptOf;
      ghost var e, before := flow, out;
      n, acts := 0, [];
      ActsNothing(e);
      NoStream(code);
      assert out[|out|..] == [] && data[..0] == [];
      if sentEOF {
        assert out + [] == out;
        return 0, EndOfFile, acts;
      }
      StartCall(code, data);
      ActsSnoc(e, acts, StartWrite(code, data));
      acts := acts + [Own(StartWrite(code, data))];
      assert out + [] == out;
      ghost var i := |flow.writes| - 1;
      var ok := true;
      while n < |data|
        invariant n <= |data| && Valid() && maxRemotePayload == old(maxRemotePayload) && before <= out
        invariant Acts(e, acts).Some? && flow == Acts(e, acts).value.0 && out == before + Acts(e, acts).value.1
        invariant acts != [] && acts[0] == Own(StartWrite(code, data))
        invariant i < |flow.writes| && flow.writes[i] == WriteCall(code, data[n..], None)
        invariant Stream(out[|before|..], code) == data[..n]
        invariant forall m | m in out[|before|..] :: m.Data? && m.code == code && 0 < |m.payload| <= maxRemotePayload
      {
        var r := ReserveCredit(i, code, data[n..]);
        if r.Wait? {
          return n, Waiting, acts;
        }
        ActsSnoc(e, acts, Reserve(i));
        acts := acts + [Own(Reserve(i))];
        assert Acts(e, acts).value.1 + [] == Acts(e, acts).value.1;
        if r.Refused? {
          return n, EndOfFile, acts;
        }
        ghost var was := out;
        var k := r.n;
        ok := SendPacket(i, code, data[n..], k);
        ActsSnoc(e, acts, Send(i));
        acts := acts + [Own(Send(i))];
        if !ok {
          assert was + [] == was;
          return n, EndOfFile, acts;
        }
        StreamGrows(was, before, Data(code, data[n..][..k]), code);
        assert data[n..][k..] == data[n + k..] && data[..n] + data[n..][..k] == data[..n + k];
        n := n + k;
      }
      EndCall(i);
      ActsSnoc(e, acts, ReturnWrite(i));
      acts := acts + [Own(ReturnWrite(i))];
      outcome := Written;
    }

    // ----- the packet loop's side -----

    /** handleData after the header has been taken apart. */
    method TakeData(code: nat, payload: Bytes) returns (r: Option<ChanError>)
      requires Valid()
      modifies `myWindow, `pending, `extPending, `flow
      ensures Valid()
      ensures match HandleData(old(flow), code, payload)
              case Err(x) => r == Some(x) && flow == old(flow)
              case Ok(e) => r == None && flow == e
    {
      hide HandleData, KeptOf, Shaped;
      ghost var v := KeptOf(flow);
      assert Shaped(flow);
      DataStep(flow, code, payload);
      if |payload| == 0 {
        return None;
      }
      if |payload| > MAX_PACKET {
        return Some(PayloadTooLarge);
      }
      if myWindow < |payload| {
        return Some(WroteTooMuch);
      }
      myWindow := myWindow - |payload|;
      if code == 1 {
        extPending := extPending + payload;
      } else if code > 1 {
      } else {
        pending := pending + payload;
      }
      flow := HandleData(flow, code, payload).value;
      assert [pending, extPending] == if code < 2 then v.bufs[code := v.bufs[code] + payload] else v.bufs;
      return None;
    }

    /** The CLOSE case of handlePacket: the answer, and then close; the number was freed in between (ChannelIds). */
    method TakeClose()
      requires Valid() && !flow.gone
      modifies this, remoteWin
      ensures Valid()
      ensures var r := Deliver(old(flow), Close);
              r.Ok? && Act(r.value.0, Teardown).Some? && flow == Act(r.value.0, Teardown).value.0 && out == old(out) + r.value.1
    {
      hide Deliver, Act, KeptOf, Shaped;
      CloseStep(flow);
      var _ := WritePacket(Close);
      eof := true;
      sentClose := true;
      remoteWin.Close();
      ghost var e := Deliver(flow, Close).value.0;
      flow := Act(e, Teardown).value.0;
    }

    /** The other cases of handlePacket that concern flow control. */
    method TakeControl(m: Msg) returns (r: Option<ChanError>)
      requires Valid() && !flow.gone && (m.Eof? || m.Adjust? || m.Confirm? || m.Other?)
      requires (m.Adjust? ==> m.n < TWO32) && (m.Confirm? ==> m.window < TWO32)
      modifies this, remoteWin
      ensures match Deliver(old(flow), m)
              case Err(x) => r == Some(x)
              case Ok((e, outs)) => r == None && Valid() && flow == e && outs == []
      ensures out == old(out)
    {
      hide Deliver, KeptOf, Shaped;
      EofStep(flow);
      ghost var d := Deliver(flow, m);
      if m.Eof? {
        eof := true;
      } else if m.Adjust? {
        AdjustStep(flow, m.n);
        var ok := remoteWin.Add(m.n);
        if !ok {
          return Some(InvalidUpdate);
        }
      } else if m.Confirm? {
        ConfirmStep(flow, m.window, m.maxPacket);
        if !outbound || decided {
          return Some(UnexpectedConfirm);
        }
        decided := true;
        if m.maxPacket < 9 || m.maxPacket > 0x8000_0000 {
          return Some(InvalidMaxPacket);
        }
        maxRemotePayload := m.maxPacket;
        var _ := remoteWin.Add(m.window);
      }
      flow := d.value.0;
      return None;
    }

    // ----- the reader's side -----

    /** ReadExtended: takes from the buffer, gives the credit back to myWindow, and then to the peer. */
    method ReadExtended(code: nat, len: nat) returns (data: Bytes, outcome: ReadOutcome)
      requires Valid() && decided
      modifies `pending, `extPending, `myWindow, `out, `sentClose, `flow
      ensures Valid()
      ensures outcome.Unimplemented? <==> code > 1
      ensures code <= 1 ==>
                var b := if code == 0 then old(pending) else old(extPending);
                && data == b[..Min(len, |b|)] && (if code == 0 then pending else extPending) == b[|data|..]
                && (outcome.ReadEof? <==> data == [] && len > 0 && eof)
                && (outcome.ReadWaits? <==> data == [] && len > 0 && !eof)
      ensures data == [] ==> flow == old(flow) && out == old(out)
      ensures data != [] ==>
                && Act(old(flow), Read(code, len)).Some?
                && var e1 := Act(old(flow), Read(code, len)).value.0;
                && e1.uncredited != [] && Act(e1, Credit(|e1.uncredited| - 1)).Some?
                && var e2 := Act(e1, Credit(|e1.uncredited| - 1)).value.0;
                && Act(e2, SendAdjust(|e1.owed|)).Some? && flow == Act(e2, SendAdjust(|e1.owed|)).value.0
                && out == old(out) + Act(e2, SendAdjust(|e1.owed|)).value.1
    {
      hide Act, KeptOf, Shaped;
      if code > 1 {
        return [], Unimplemented;
      }
      var b := if code == 0 then pending else extPending;
      if |b| == 0 || len == 0 {
        return [], if len == 0 then ReadBytes else if eof then ReadEof else ReadWaits;
      }
      ghost var bufs := [pending, extPending];
      assert b == bufs[code];
      ReadSteps(flow, code, len);
      var n := Min(len, |b|);
      data := b[..n];
      if code == 0 {
        pending := b[n..];
      } else {
        extPending := b[n..];
      }
      assert [pending, extPending] == bufs[code := b[n..]];
      flow := Act(flow, Read(code, len)).value.0;
      AdjustWindow(n);
      return data, ReadBytes;
    }

    /** adjustWindow. */
    method AdjustWindow(n: nat)
      requires Valid() && flow.uncredited != [] && flow.uncredited[|flow.uncredited| - 1] == n
      modifies `myWindow, `out, `sentClose, `flow
      ensures Valid()
      ensures Act(old(flow), Credit(|old(flow).uncredited| - 1)).Some?
      ensures var e2 := Act(old(flow), Credit(|old(flow).uncredited| - 1)).value.0;
              && Act(e2, SendAdjust(|old(flow).owed|)).Some? && flow == Act(e2, SendAdjust(|old(flow).owed|)).value.0
              && out == old(out) + Act(e2, SendAdjust(|old(flow).owed|)).value.1
    {
      hide Act, KeptOf, Shaped;
      CreditStep(flow, n);
      ghost var owed := |flow.owed|;
      myWindow := (myWindow + n) % TWO32;
      flow := Act(flow, Credit(|flow.uncredited| - 1)).value.0;
      SendAdjustStep(flow, owed);
      var _ := WritePacket(Adjust(n));
      flow := Act(flow, SendAdjust(owed)).value.0;
    }
  }
}
