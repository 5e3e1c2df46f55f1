/** One open channel between two endpoints of this library as a state machine (channel.go, with window in
    common.go): any number of concurrent writers, readers and closers on each side, two packet loops, and a
    FIFO link each way. The steps are the code's critical sections, so the gaps between them are visible:
    credit is reserved before the packet is sent, bytes are read before they are credited, myWindow is raised
    before the adjust message goes out, sentEOF is set before the EOF message, and the reply to a CLOSE goes
    out before the channel is torn down. */
module ChannelFlow {
  import opened ByteStrings
  import opened Results

  const MAX_PACKET := 32768
  const WINDOW := 64 * MAX_PACKET

  datatype Msg =
    | Confirm(window: nat, maxPacket: nat)
    | Data(code: nat, payload: Bytes)
    | Adjust(n: nat)
    | Eof
    | Close
    | Other

  /** A running call of WriteExtended: what is still to be sent, and the credit it holds for the next packet. */
  datatype WriteCall = WriteCall(code: nat, todo: Bytes, credit: Option<nat>)

  datatype ChanError =
    | InvalidChannel
    | PayloadTooLarge
    | WroteTooMuch
    | InvalidUpdate
    | UnexpectedConfirm
    | InvalidMaxPacket

  /** The channel struct of one endpoint (bufs holds pending and extPending, eof their closed flags), the calls
      under way on it, and a history: per stream 0 and 1 the bytes given to Write calls, put into packets, and
      returned by Read calls, whether a Write call returned an error, and whether one that still had data to send was
      running when sentEOF was set; the bytes discarded as extended data of other codes; and the credit that was dropped
      because a packet could no longer be sent. */
  datatype End = End(
    outbound: bool, decided: bool, remoteWin: nat, winClosed: bool, maxRemote: nat, myWindow: nat,
    bufs: seq<Bytes>, eof: bool, sentEOF: bool, sentClose: bool, closing: bool, gone: bool,
    writes: seq<WriteCall>, uncredited: seq<nat>, owed: seq<nat>, eofCalls: nat,
    written: seq<Bytes>, sent: seq<Bytes>, got: seq<Bytes>, failed: seq<bool>, late: seq<bool>,
    discarded: nat, lost: nat, lostOwed: nat)

  datatype Action =
    | StartWrite(wcode: nat, data: Bytes)
    | Reserve(i: nat)
    | Send(i: nat)
    | ReturnWrite(i: nat)
    | Read(rcode: nat, len: nat)
    | Credit(j: nat)
    | SendAdjust(j: nat)
    | SetEof
    | SendEof
    | CallClose
    | SendOther
    | Teardown

  // ----- the code's critical sections -----

  /** min, with its conversion of len(data) to uint32. */
  function Min32(a: nat, b: nat): nat {
    if a < b % TWO32 then a else b % TWO32
  }

  function Min(a: nat, b: nat): nat {
    if a < b then a else b
  }

  function Without<T>(s: seq<T>, i: nat): seq<T>
    requires i < |s|
  {
    s[..i] + s[i + 1..]
  }

  /** Appends to the history of a stream; other codes have none. */
  function Append(h: seq<Bytes>, code: nat, b: Bytes): seq<Bytes> {
    if code < |h| then h[code := h[code] + b] else h
  }

  /** A WriteExtended call returning an error. */
  function FailWrite(e: End, i: nat): End
    requires i < |e.writes|
  {
    var code := e.writes[i].code;
    e.(writes := Without(e.writes, i), failed := if code < |e.failed| then e.failed[code := true] else e.failed)
  }

  // Each step gives the new state and what it sends, or None where it is not possible or would wait.

  type Effect = Option<(End, seq<Msg>)>

  /** WriteExtended up to its loop. A second writer on the same stream is the caller's mistake. */
  function ActStartWrite(e: End, code: nat, data: Bytes): Effect {
    if e.decided && !e.sentEOF && code < TWO32 && (forall k | 0 <= k < |e.writes| :: e.writes[k].code != code) then
      Some((e.(writes := e.writes + [WriteCall(code, data, None)], written := Append(e.written, code, data)), []))
    else None
  }

  /** window.reserve in the loop of WriteExtended. */
  function ActReserve(e: End, i: nat): Effect {
    if i < |e.writes| && e.writes[i].credit.None? && e.writes[i].todo != [] && !(e.remoteWin == 0 && !e.winClosed) then
      var w := e.writes[i];
      var take := Min(e.remoteWin, Min32(e.maxRemote, |w.todo|));
      if e.winClosed then Some((FailWrite(e, i).(remoteWin := e.remoteWin - take, lost := e.lost + take), []))
      else Some((e.(remoteWin := e.remoteWin - take, writes := e.writes[i := w.(credit := Some(take))]), []))
    else None
  }

  /** channel.writePacket in the loop of WriteExtended. */
  function ActSend(e: End, i: nat): Effect {
    if i < |e.writes| && e.writes[i].credit.Some? && e.writes[i].credit.value <= |e.writes[i].todo| then
      var w := e.writes[i];
      var k := w.credit.value;
      if e.sentClose then Some((FailWrite(e, i).(lost := e.lost + k), []))
      else
        Some((e.(writes := e.writes[i := WriteCall(w.code, w.todo[k..], None)], sent := Append(e.sent, w.code, w.todo[..k])),
              [Data(w.code, w.todo[..k])]))
    else None
  }

  function ActReturnWrite(e: End, i: nat): Effect {
    if i < |e.writes| && e.writes[i].credit.None? && e.writes[i].todo == [] then
      Some((e.(writes := Without(e.writes, i)), []))
    else None
  }

  /** buffer.Read with bytes to give. */
  function ActRead(e: End, code: nat, len: nat): Effect {
    if e.decided && code < |e.bufs| && code < |e.got| && len > 0 && e.bufs[code] != [] then
      var n := Min(len, |e.bufs[code]|);
      Some((e.(bufs := e.bufs[code := e.bufs[code][n..]], got := Append(e.got, code, e.bufs[code][..n]),
               uncredited := e.uncredited + [n]), []))
    else None
  }

  /** adjustWindow, the part under windowMu. */
  function ActCredit(e: End, j: nat): Effect {
    if j < |e.uncredited| then
      Some((e.(myWindow := (e.myWindow + e.uncredited[j]) % TWO32, uncredited := Without(e.uncredited, j),
               owed := e.owed + [e.uncredited[j]]), []))
    else None
  }

  /** adjustWindow, the message. */
  function ActSendAdjust(e: End, j: nat): Effect {
    if j < |e.owed| then
      var rest := e.(owed := Without(e.owed, j));
      if e.sentClose then Some((rest.(lostOwed := e.lostOwed + e.owed[j]), []))
      else Some((rest, [Adjust(e.owed[j])]))
    else None
  }

  /** A running call on the stream has data left. */
  predicate Unsent(ws: seq<WriteCall>, code: nat) {
    exists k :: 0 <= k < |ws| && ws[k].code == code && ws[k].todo != []
  }

  function MarkLate(late: seq<bool>, ws: seq<WriteCall>): seq<bool> {
    seq(|late|, c requires 0 <= c < |late| => late[c] || Unsent(ws, c))
  }

  /** CloseWrite: the flag, then the message. */
  function ActSetEof(e: End): Effect {
    if e.decided then Some((e.(sentEOF := true, eofCalls := e.eofCalls + 1, late := MarkLate(e.late, e.writes)), [])) else None
  }

  function ActSendEof(e: End): Effect {
    if e.eofCalls > 0 then Some((e.(eofCalls := e.eofCalls - 1), if e.sentClose then [] else [Eof])) else None
  }

  function ActClose(e: End): Effect {
    if e.decided then Some((e.(sentClose := true), if e.sentClose then [] else [Close])) else None
  }

  /** A channel request or its answer. */
  function ActOther(e: End): Effect {
    if e.decided && !e.sentClose then Some((e, [Other])) else None
  }

  /** The rest of the CLOSE case of handlePacket: chanList.remove and close. */
  function ActTeardown(e: End): Effect {
    if e.closing then
      Some((e.(closing := false, gone := true, eof := true, sentClose := true, winClosed := true), []))
    else None
  }

  function Act(e: End, act: Action): Effect {
    match act
    case StartWrite(code, data) => ActStartWrite(e, code, data)
    case Reserve(i) => ActReserve(e, i)
    case Send(i) => ActSend(e, i)
    case ReturnWrite(i) => ActReturnWrite(e, i)
    case Read(code, len) => ActRead(e, code, len)
    case Credit(j) => ActCredit(e, j)
    case SendAdjust(j) => ActSendAdjust(e, j)
    case SetEof => ActSetEof(e)
    case SendEof => ActSendEof(e)
    case CallClose => ActClose(e)
    case SendOther => ActOther(e)
    case Teardown => ActTeardown(e)
  }

  /** handleData. */
  function HandleData(e: End, code: nat, payload: Bytes): Result<End, ChanError> {
    if |payload| == 0 then Ok(e)
    else if |payload| > MAX_PACKET then Err(PayloadTooLarge)
    else if e.myWindow < |payload| then Err(WroteTooMuch)
    else
      Ok(TakeData(e, code, payload))
  }

  /** The part of handleData after its tests: codes 0 and 1 are buffered, others discarded. */
  function TakeData(e: End, code: nat, payload: Bytes): End
    requires |payload| <= e.myWindow
  {
    e.(myWindow := e.myWindow - |payload|, bufs := Append(e.bufs, code, payload),
       discarded := e.discarded + if code < |e.bufs| then 0 else |payload|)
  }

  /** The packet loop taking one packet from the link: getChan and handlePacket. An error ends the connection. */
  function Deliver(e: End, m: Msg): Result<(End, seq<Msg>), ChanError> {
    if e.gone then Err(InvalidChannel)
    else
      match m
      case Data(code, payload) =>
        (match HandleData(e, code, payload)
         case Err(x) => Err(x)
         case Ok(e') => Ok((e', [])))
      case Close => Ok((e.(sentClose := true, closing := true), if e.sentClose then [] else [Close]))
      case Eof => Ok((e.(eof := true), []))
      case Confirm(window, maxPacket) =>
        if !e.outbound || e.decided then Err(UnexpectedConfirm)
        else if maxPacket < 9 || maxPacket > 0x8000_0000 then Err(InvalidMaxPacket)
        else
          var sum := e.remoteWin + window;
          Ok((e.(decided := true, maxRemote := maxPacket, remoteWin := if sum < TWO32 then sum else e.remoteWin), []))
      case Adjust(n) =>
        if e.remoteWin + n < TWO32 then Ok((e.(remoteWin := e.remoteWin + n), [])) else Err(InvalidUpdate)
      case Other => Ok((e, []))
  }

  // ----- two endpoints -----

  datatype State = State(a: End, b: End, ab: seq<Msg>, ba: seq<Msg>)

  datatype Label = ActA(actA: Action) | ActB(actB: Action) | DeliverToA | DeliverToB

  datatype Outcome = Next(state: State) | Disabled | Failed(error: ChanError)

  function Step(s: State, l: Label): Outcome {
    match l
    case ActA(act) =>
      (match Act(s.a, act) case None => Disabled case Some((e, out)) => Next(s.(a := e, ab := s.ab + out)))
    case ActB(act) =>
      (match Act(s.b, act) case None => Disabled case Some((e, out)) => Next(s.(b := e, ba := s.ba + out)))
    case DeliverToA =>
      if s.ba == [] || s.a.closing then Disabled
      else
        (match Deliver(s.a, s.ba[0]) case Err(x) => Failed(x) case Ok((e, out)) => Next(s.(a := e, ab := s.ab + out, ba := s.ba[1..])))
    case DeliverToB =>
      if s.ab == [] || s.b.closing then Disabled
      else
        (match Deliver(s.b, s.ab[0]) case Err(x) => Failed(x) case Ok((e, out)) => Next(s.(b := e, ba := s.ba + out, ab := s.ab[1..])))
  }

  function NewEnd(outbound: bool): End {
    End(outbound, !outbound, if outbound then 0 else WINDOW, false, if outbound then 0 else MAX_PACKET, WINDOW,
        [[], []], false, false, false, false, false, [], [], [], 0, [[], []], [[], []], [[], []], [false, false], [false, false], 0, 0, 0)
  }

  /** After Accept: the acceptor b has the opener's window and packet size, and its own are on their way. */
  function Init(): State {
    State(NewEnd(true), NewEnd(false), [], [Confirm(WINDOW, MAX_PACKET)])
  }

  /** The same channel with the ends exchanged. */
  function Swap(s: State): State {
    State(s.b, s.a, s.ba, s.ab)
  }

  function SwapLabel(l: Label): Label {
    match l
    case ActA(act) => ActB(act)
    case ActB(act) => ActA(act)
    case DeliverToA => DeliverToB
    case DeliverToB => DeliverToA
  }

  /** The channel as seen from the opener, or from the acceptor. */
  function SeenFrom(s: State, opener: bool): State {
    if opener then s else Swap(s)
  }

  /** Runs all labels; stops at the first one that is disabled or fails. */
  function Run(s: State, ls: seq<Label>): Outcome
    decreases |ls|
  {
    if ls == [] then Next(s)
    else match Step(s, ls[0])
      case Next(s') => Run(s', ls[1..])
      case o => o
  }

  // ----- sums over calls and links -----

  function Sum(s: seq<nat>): nat {
    if s == [] then 0 else s[0] + Sum(s[1..])
  }

  function CreditOf(w: WriteCall): nat {
    if w.credit.Some? then w.credit.value else 0
  }

  function Credits(ws: seq<WriteCall>): nat {
    Sum(seq(|ws|, i requires 0 <= i < |ws| => CreditOf(ws[i])))
  }

  /** Data bytes on a link. */
  function DataBytes(l: seq<Msg>): nat {
    if l == [] then 0 else (if l[0].Data? then |l[0].payload| else 0) + DataBytes(l[1..])
  }

  /** Credit on a link: adjust messages, and the window in the confirmation. */
  function Grants(l: seq<Msg>): nat {
    if l == [] then 0
    else (match l[0] case Adjust(n) => n case Confirm(w, _) => w case _ => 0) + Grants(l[1..])
  }

  /** The bytes of stream c on a link, in order. */
  function Stream(l: seq<Msg>, c: nat): Bytes {
    if l == [] then [] else (if l[0].Data? && l[0].code == c then l[0].payload else []) + Stream(l[1..], c)
  }

  lemma {:induction false} SumConcat(s: seq<nat>, t: seq<nat>)
    ensures Sum(s + t) == Sum(s) + Sum(t)
  {
    if s == [] {
      assert s + t == t;
    } else {
      assert (s + t)[1..] == s[1..] + t;
      SumConcat(s[1..], t);
    }
  }

  lemma SumSnoc(s: seq<nat>, x: nat)
    ensures Sum(s + [x]) == Sum(s) + x
  {
    SumConcat(s, [x]);
    assert [x][1..] == [];
  }

  lemma {:induction false} SumWithout(s: seq<nat>, i: nat)
    requires i < |s|
    ensures Sum(Without(s, i)) == Sum(s) - s[i]
  {
    if i == 0 {
      assert Without(s, i) == s[1..];
    } else {
      assert Without(s, i) == [s[0]] + Without(s[1..], i - 1);
      SumWithout(s[1..], i - 1);
    }
  }

  lemma SumUpdate(s: seq<nat>, i: nat, x: nat)
    requires i < |s|
    ensures Sum(s[i := x]) == Sum(s) - s[i] + x
  {
    SumWithout(s, i);
    SumWithout(s[i := x], i);
    assert Without(s[i := x], i) == Without(s, i);
  }

  lemma CreditsSnoc(ws: seq<WriteCall>, w: WriteCall)
    ensures Credits(ws + [w]) == Credits(ws) + CreditOf(w)
  {
    var s := seq(|ws|, i requires 0 <= i < |ws| => CreditOf(ws[i]));
    var all := ws + [w];
    assert seq(|all|, i requires 0 <= i < |all| => CreditOf(all[i])) == s + [CreditOf(w)];
    SumSnoc(s, CreditOf(w));
  }

  lemma CreditsWithout(ws: seq<WriteCall>, i: nat)
    requires i < |ws|
    ensures Credits(Without(ws, i)) == Credits(ws) - CreditOf(ws[i])
  {
    var s := seq(|ws|, k requires 0 <= k < |ws| => CreditOf(ws[k]));
    var less := Without(ws, i);
    assert seq(|less|, k requires 0 <= k < |less| => CreditOf(less[k])) == Without(s, i);
    SumWithout(s, i);
  }

  lemma CreditsUpdate(ws: seq<WriteCall>, i: nat, w: WriteCall)
    requires i < |ws|
    ensures Credits(ws[i := w]) == Credits(ws) - CreditOf(ws[i]) + CreditOf(w)
  {
    var s := seq(|ws|, k requires 0 <= k < |ws| => CreditOf(ws[k]));
    var new' := ws[i := w];
    assert seq(|new'|, k requires 0 <= k < |new'| => CreditOf(new'[k])) == s[i := CreditOf(w)];
    SumUpdate(s, i, CreditOf(w));
  }

  lemma {:induction false} DataBytesSnoc(l: seq<Msg>, m: Msg)
    ensures DataBytes(l + [m]) == DataBytes(l) + DataBytes([m])
  {
    if l == [] {
      assert l + [m] == [m];
    } else {
      assert (l + [m])[1..] == l[1..] + [m];
      DataBytesSnoc(l[1..], m);
    }
  }

  lemma {:induction false} GrantsSnoc(l: seq<Msg>, m: Msg)
    ensures Grants(l + [m]) == Grants(l) + Grants([m])
  {
    if l == [] {
      assert l + [m] == [m];
    } else {
      assert (l + [m])[1..] == l[1..] + [m];
      GrantsSnoc(l[1..], m);
    }
  }

  lemma {:induction false} StreamSnoc(l: seq<Msg>, m: Msg, c: nat)
    ensures Stream(l + [m], c) == Stream(l, c) + Stream([m], c)
  {
    if l == [] {
      assert l + [m] == [m];
    } else {
      assert (l + [m])[1..] == l[1..] + [m];
      StreamSnoc(l[1..], m, c);
      var h := if l[0].Data? && l[0].code == c then l[0].payload else [];
      assert h + (Stream(l[1..], c) + Stream([m], c)) == h + Stream(l[1..], c) + Stream([m], c);
    }
  }

  lemma OneMessage(m: Msg)
    ensures DataBytes([m]) == if m.Data? then |m.payload| else 0
    ensures Grants([m]) == match m case Adjust(n) => n case Confirm(w, _) => w case _ => 0
    ensures forall c: nat :: Stream([m], c) == if m.Data? && m.code == c then m.payload else []
  {
    assert [m][1..] == [];
    forall c: nat ensures Stream([m], c) == if m.Data? && m.code == c then m.payload else [] {
      assert Stream([m], c) == (if m.Data? && m.code == c then m.payload else []) + Stream([], c);
    }
  }
}
