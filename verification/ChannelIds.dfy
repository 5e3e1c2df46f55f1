/** Opening and closing channels between two endpoints of this library, and the reuse of channel numbers
    (mux.go and the open/close parts of channel.go). Any number of goroutines open, accept, reject, use and close
    channels; each endpoint has one packet loop; packets travel in order. The steps are the code's critical
    sections: newChannel puts a channel into the list before the open message is sent, and the packet loop
    answers a CLOSE before it takes the channel out of the list. */
module ChannelIds {
  import opened ByteStrings
  import opened ChanLists
  import opened Results

  /** uid names the channel a message was sent for. It is bookkeeping: no endpoint looks at it. to is PeersId, and
      from is the sender's own number (PeersId of an open message, MyId of a confirmation). Data stands for every
      other message on a channel. */
  datatype Msg =
    | Open(uid: nat, from: nat, maxPacket: nat)
    | Confirm(uid: nat, to: nat, from: nat)
    | Failure(uid: nat, to: nat)
    | Data(uid: nat, to: nat)
    | Close(uid: nat, to: nat)

  /** One endpoint's channel struct. announced: its open message has been sent; rejected: it was refused. */
  datatype Rec = Rec(outbound: bool, announced: bool, decided: bool, rejected: bool, sentClose: bool, localId: nat, remoteId: nat)

  /** An endpoint: every channel struct it ever made, the chans slice of its chanList, the channel its packet loop
      is tearing down, all messages it has sent, and how many of the peer's it has taken. */
  datatype End = End(chans: map<nat, Rec>, slots: seq<Option<nat>>, closing: Option<nat>, sent: seq<Msg>, got: nat)

  datatype State = State(a: End, b: End, next: nat)

  datatype MuxError = InvalidChannel | ResponseOnInbound | DuplicateResponse

  datatype Action =
    | NewOutbound
    | SendOpen(openUid: nat, maxPacket: nat)
    | Accept(uid: nat)
    | Reject(uid: nat)
    | Use(uid: nat)
    | CallClose(uid: nat)
    | Deliver
    | Remove

  datatype Side = A | B

  datatype Label = Label(side: Side, action: Action)

  datatype Outcome = Next(state: State) | Disabled | Failed(error: MuxError)

  // ----- newChannel and chanList.remove -----

  /** newChannel: a struct for uid in the first free place. */
  function AddChan(e: End, uid: nat, rec: Rec): End {
    var i := FreeSlot(e.slots);
    e.(chans := e.chans[uid := rec.(localId := i)],
       slots := if i < |e.slots| then e.slots[i := Some(uid)] else e.slots + [Some(uid)])
  }

  function Drop(e: End, id: nat): End {
    if id < |e.slots| then e.(slots := e.slots[id := None]) else e
  }

  function Put(e: End, uid: nat, rec: Rec, out: seq<Msg>): End {
    e.(chans := e.chans[uid := rec], sent := e.sent + out)
  }

  // ----- steps -----

  predicate MaySend(e: End, u: nat) {
    u in e.chans && e.chans[u].decided && !e.chans[u].rejected && !e.chans[u].sentClose
  }

  /** A call by the application, or the end of a teardown; None where it does nothing. */
  function Act(e: End, next: nat, act: Action): Option<End> {
    match act
    case NewOutbound =>
      if FreeSlot(e.slots) < TWO32 - 1 then Some(AddChan(e, next, Rec(true, false, false, false, false, 0, 0))) else None
    case SendOpen(u, max) =>
      if u in e.chans && e.chans[u].outbound && !e.chans[u].announced then
        Some(Put(e, u, e.chans[u].(announced := true), [Open(u, e.chans[u].localId, max)]))
      else None
    case Accept(u) =>
      if u in e.chans && !e.chans[u].outbound && !e.chans[u].decided then
        Some(Put(e, u, e.chans[u].(decided := true), [Confirm(u, e.chans[u].remoteId, e.chans[u].localId)]))
      else None
    case Reject(u) =>
      if u in e.chans && !e.chans[u].outbound && !e.chans[u].decided then
        Some(Put(e, u, e.chans[u].(decided := true, rejected := true), [Failure(u, e.chans[u].remoteId)]))
      else None
    case Use(u) =>
      if MaySend(e, u) then Some(Put(e, u, e.chans[u], [Data(u, e.chans[u].remoteId)])) else None
    case CallClose(u) =>
      if MaySend(e, u) then Some(Put(e, u, e.chans[u].(sentClose := true), [Close(u, e.chans[u].remoteId)])) else None
    case Deliver => None
    case Remove =>
      if e.closing.Some? && e.closing.value in e.chans then
        Some(Drop(e, e.chans[e.closing.value].localId).(closing := None))
      else None
  }

  /** handleChannelOpen: the answer is at once a failure, or later the application's. */
  function TakeOpen(e: End, m: Msg): End
    requires m.Open?
  {
    if m.maxPacket < 9 || m.maxPacket > 0x8000_0000 then e.(sent := e.sent + [Failure(m.uid, m.from)])
    else AddChan(e, m.uid, Rec(false, true, false, false, false, 0, m.from))
  }

  /** onePacket for the other messages: getChan, then handlePacket on the channel found. */
  function TakeOnChannel(e: End, m: Msg): Result<End, MuxError>
    requires !m.Open?
  {
    var found := Lookup(e.slots, m.to);
    if found.None? || found.value !in e.chans then Err(InvalidChannel)
    else
      var u := found.value;
      var rec := e.chans[u];
      match m
      case Data(_, _) => Ok(e)
      case Close(_, _) =>
        Ok(Put(e, u, rec.(sentClose := true), if rec.sentClose then [] else [Close(u, rec.remoteId)]).(closing := Some(u)))
      case Confirm(_, _, from) =>
        if !rec.outbound then Err(ResponseOnInbound)
        else if rec.decided then Err(DuplicateResponse)
        else Ok(Put(e, u, rec.(decided := true, remoteId := from), []))
      case Failure(_, to) =>
        if !rec.outbound then Err(ResponseOnInbound)
        else if rec.decided then Err(DuplicateResponse)
        else Ok(Drop(Put(e, u, rec.(decided := true, rejected := true), []), to))
  }

  function Take(e: End, m: Msg): Result<End, MuxError> {
    if m.Open? then Ok(TakeOpen(e, m)) else TakeOnChannel(e, m)
  }

  /** One step of endpoint e whose peer has sent the given messages; the packet loop waits out a teardown. */
  function EndStep(e: End, peerSent: seq<Msg>, next: nat, act: Action): Option<Result<End, MuxError>> {
    if act.Deliver? then
      if e.got < |peerSent| && e.closing.None? && (peerSent[e.got].Open? ==> FreeSlot(e.slots) < TWO32 - 1) then
        Some(Take(e.(got := e.got + 1), peerSent[e.got]))
      else None
    else
      match Act(e, next, act) case None => None case Some(e') => Some(Ok(e'))
  }

  function Step(s: State, l: Label): Outcome {
    var (e, p) := if l.side == A then (s.a, s.b) else (s.b, s.a);
    match EndStep(e, p.sent, s.next, l.action)
    case None => Disabled
    case Some(Err(x)) => Failed(x)
    case Some(Ok(e')) =>
      var next := s.next + if l.action.NewOutbound? then 1 else 0;
      Next(if l.side == A then State(e', s.b, next) else State(s.a, e', next))
  }

  function Init(): State {
    var e := End(map[], [], None, [], 0);
    State(e, e, 0)
  }

  function Run(s: State, ls: seq<Label>): Outcome
    decreases |ls|
  {
    if ls == [] then Next(s)
    else match Step(s, ls[0])
      case Next(s') => Run(s', ls[1..])
      case o => o
  }
}
