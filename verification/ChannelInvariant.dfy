/** The invariant of ChannelFlow's two endpoints, and the proof that every step keeps it and none fails. */
module ChannelInvariant {
  import opened ByteStrings
  import opened ChannelFlow
  import opened Results

  // ----- the invariant, for the direction from s to r: fwd leads from s to r, back from r to s -----

  predicate Frame(e: End) {
    && |e.bufs| == |e.written| == |e.sent| == |e.got| == |e.failed| == |e.late| == 2
    && (e.decided ==> e.maxRemote == MAX_PACKET)
    && (!e.decided ==> e.outbound && e.remoteWin == 0 && e.writes == [] && !e.sentEOF && !e.sentClose && !e.closing && !e.gone)
    && (e.closing || e.gone ==> e.sentClose)
    && !(e.closing && e.gone)
    && (e.winClosed ==> e.sentClose)
  }

  /** Calls on distinct streams, and no call holds more credit than a packet or its remaining data need. */
  predicate CallsFit(ws: seq<WriteCall>) {
    && (forall k | 0 <= k < |ws| :: ws[k].credit.Some? ==> ws[k].credit.value <= Min(MAX_PACKET, |ws[k].todo|) && ws[k].todo != [])
    && (forall k, l | 0 <= k < l < |ws| :: ws[k].code != ws[l].code)
  }

  /** Every byte of the receiver's window is with the sender, on the way, or dropped for a packet that was never sent. */
  predicate CreditKept(s: End, r: End, fwd: seq<Msg>, back: seq<Msg>) {
    s.remoteWin + Credits(s.writes) + DataBytes(fwd) + Grants(back) + Sum(r.owed) + s.lost + r.lostOwed == r.myWindow
  }

  /** What is missing from the full window is buffered, read but not yet credited, or discarded. */
  predicate WindowKept(r: End)
    requires |r.bufs| == 2
  {
    r.myWindow + |r.bufs[0]| + |r.bufs[1]| + Sum(r.uncredited) + r.discarded == WINDOW
  }

  /** Credit is dropped only by an endpoint that has sent CLOSE. */
  predicate LostOnlyAfterClose(e: End) {
    e.lost + e.lostOwed > 0 ==> e.sentClose
  }

  /** CLOSE is the last message an endpoint sends: once sent it is the last one on the link, until the peer has taken it. */
  predicate CloseIsLast(sentClose: bool, taken: bool, fwd: seq<Msg>) {
    && (forall k | 0 <= k < |fwd| - 1 :: fwd[k] != Close)
    && (!sentClose ==> !taken && (fwd != [] ==> fwd[|fwd| - 1] != Close))
    && (sentClose ==> if taken then fwd == [] else fwd != [] && fwd[|fwd| - 1] == Close)
  }

  /** The confirmation is the first message of the accepting side, and there is one. */
  predicate ConfirmIsFirst(decided: bool, back: seq<Msg>) {
    && (forall k | 0 < k < |back| :: !back[k].Confirm?)
    && (decided ==> back != [] ==> !back[0].Confirm?)
    && (!decided ==> back != [] && back[0] == Confirm(WINDOW, MAX_PACKET))
  }

  predicate PacketsFit(fwd: seq<Msg>) {
    forall k | 0 <= k < |fwd| :: fwd[k].Data? ==> |fwd[k].payload| <= MAX_PACKET
  }

  /** What was read, what is buffered and what is on the way make up what was sent, per stream and in order. */
  predicate StreamKept(s: End, r: End, fwd: seq<Msg>, c: nat)
    requires c < 2 && |r.got| == |r.bufs| == |s.sent| == 2
  {
    r.got[c] + r.bufs[c] + Stream(fwd, c) == s.sent[c]
  }

  /** What was sent is a prefix of what was written; the rest is with the running call, or was given up with an error. */
  predicate WriterKept(failed: bool, sentClose: bool, written: Bytes, sent: Bytes, ws: seq<WriteCall>, c: nat) {
    if failed then
      sentClose && sent <= written
    else
      && (forall k | 0 <= k < |ws| :: ws[k].code == c ==> written == sent + ws[k].todo)
      && ((forall k | 0 <= k < |ws| :: ws[k].code != c) ==> written == sent)
  }

  predicate EofFlags(s: End, r: End)
    requires |s.late| == 2
  {
    && (s.eofCalls > 0 || s.late[0] || s.late[1] ==> s.sentEOF)
    && (s.sentEOF && !s.late[0] ==> !Unsent(s.writes, 0))
    && (s.sentEOF && !s.late[1] ==> !Unsent(s.writes, 1))
    && (r.eof ==> r.gone || s.sentEOF)
  }

  /** Data of a stream on which everything had been sent when sentEOF was set. */
  predicate InTime(late: seq<bool>, m: Msg) {
    m.Data? && m.code < |late| && !late[m.code]
  }

  /** No such data follows an EOF, on the link or once it was taken. */
  predicate EofLink(sentEOF: bool, late: seq<bool>, taken: bool, fwd: seq<Msg>) {
    && (Eof in fwd ==> sentEOF)
    && (taken ==> forall k | 0 <= k < |fwd| :: !InTime(late, fwd[k]))
    && (forall k, l | 0 <= k < l < |fwd| :: fwd[k] == Eof ==> !InTime(late, fwd[l]))
  }

  predicate Direction(s: End, r: End, fwd: seq<Msg>, back: seq<Msg>) {
    && Frame(s) && Frame(r) && CallsFit(s.writes)
    && CreditKept(s, r, fwd, back) && WindowKept(r) && LostOnlyAfterClose(s)
    && CloseIsLast(s.sentClose, r.closing || r.gone, fwd) && ConfirmIsFirst(s.decided, back) && PacketsFit(fwd)
    && StreamKept(s, r, fwd, 0) && StreamKept(s, r, fwd, 1)
    && WriterKept(s.failed[0], s.sentClose, s.written[0], s.sent[0], s.writes, 0)
    && WriterKept(s.failed[1], s.sentClose, s.written[1], s.sent[1], s.writes, 1)
    && EofFlags(s, r) && EofLink(s.sentEOF, s.late, r.eof && !r.gone, fwd)
  }

  predicate Both(s: End, r: End, fwd: seq<Msg>, back: seq<Msg>) {
    Direction(s, r, fwd, back) && Direction(r, s, back, fwd)
  }

  predicate Inv(s: State) {
    Both(s.a, s.b, s.ab, s.ba)
  }

  // ----- the invariant holds at the start -----

  lemma InitHolds()
    ensures Inv(Init())
  {
    var s := Init();
    InitDirection(s.a, s.b);
    InitDirection(s.b, s.a);
  }

  lemma InitDirection(s: End, r: End)
    requires s.outbound != r.outbound && s == NewEnd(s.outbound) && r == NewEnd(r.outbound)
    ensures var fwd := if s.outbound then [] else [Confirm(WINDOW, MAX_PACKET)];
            var back := if s.outbound then [Confirm(WINDOW, MAX_PACKET)] else [];
            Direction(s, r, fwd, back)
  {
    OneMessage(Confirm(WINDOW, MAX_PACKET));
    assert Credits([]) == 0;
  }

  // ----- messages entering and leaving a link -----

  lemma Appended(l: seq<Msg>, m: Msg)
    ensures DataBytes(l + [m]) == DataBytes(l) + if m.Data? then |m.payload| else 0
    ensures Grants(l + [m]) == Grants(l) + match m case Adjust(n) => n case Confirm(w, _) => w case _ => 0
    ensures Stream(l + [m], 0) == Stream(l, 0) + if m.Data? && m.code == 0 then m.payload else []
    ensures Stream(l + [m], 1) == Stream(l, 1) + if m.Data? && m.code == 1 then m.payload else []
  {
    hide DataBytes, Grants, Stream;
    DataBytesSnoc(l, m);
    GrantsSnoc(l, m);
    StreamSnoc(l, m, 0);
    StreamSnoc(l, m, 1);
    OneMessage(m);
  }

  lemma AppendBeforeClose(taken: bool, l: seq<Msg>, m: Msg)
    requires CloseIsLast(false, taken, l)
    ensures m != Close ==> CloseIsLast(false, taken, l + [m])
    ensures CloseIsLast(true, taken, l + [Close])
  {
    var l' := l + [m];
    forall k | 0 <= k < |l'| - 1 ensures l'[k] != Close {
      assert l'[k] == l[k];
    }
  }

  lemma AppendAfterConfirm(decided: bool, l: seq<Msg>, m: Msg)
    requires ConfirmIsFirst(decided, l) && !m.Confirm?
    ensures ConfirmIsFirst(decided, l + [m])
  {
  }

  lemma AppendFits(l: seq<Msg>, m: Msg)
    requires PacketsFit(l) && (m.Data? ==> |m.payload| <= MAX_PACKET)
    ensures PacketsFit(l + [m])
  {
  }

  lemma AppendEof(sentEOF: bool, late: seq<bool>, taken: bool, l: seq<Msg>, m: Msg)
    requires EofLink(sentEOF, late, taken, l)
    requires m == Eof ==> sentEOF
    requires InTime(late, m) ==> !taken && !sentEOF
    ensures EofLink(sentEOF, late, taken, l + [m])
  {
  }

  /** A message other than data, confirmation and CLOSE put on the link by an endpoint that has not sent CLOSE. */
  lemma AppendControl(s: End, r: End, fwd: seq<Msg>, back: seq<Msg>, m: Msg)
    requires Both(s, r, fwd, back) && !s.sentClose
    requires m.Adjust? || m == Other || (m == Eof && s.sentEOF)
    ensures CloseIsLast(false, r.closing || r.gone, fwd + [m]) && ConfirmIsFirst(r.decided, fwd + [m]) && PacketsFit(fwd + [m])
    ensures EofLink(s.sentEOF, s.late, r.eof && !r.gone, fwd + [m])
  {
    hide CallsFit, WriterKept, EofFlags, Credits, Sum, DataBytes, Grants, Stream;
    AppendBeforeClose(r.closing || r.gone, fwd, m);
    AppendAfterConfirm(r.decided, fwd, m);
    AppendFits(fwd, m);
    AppendEof(s.sentEOF, s.late, r.eof && !r.gone, fwd, m);
  }

  /** What the links' conditions say about the first message, and that they hold for the rest. */
  lemma Popped(s: End, r: End, fwd: seq<Msg>, back: seq<Msg>)
    requires Both(s, r, fwd, back) && fwd != []
    ensures !r.closing && !r.gone
    ensures fwd[0] == Close ==> s.sentClose && fwd[1..] == []
    ensures fwd[0] != Close ==> CloseIsLast(s.sentClose, false, fwd[1..])
    ensures fwd[0].Confirm? ==> !r.decided && fwd[0] == Confirm(WINDOW, MAX_PACKET) && ConfirmIsFirst(true, fwd[1..])
    ensures !fwd[0].Confirm? ==> r.decided && ConfirmIsFirst(true, fwd[1..])
    ensures PacketsFit(fwd[1..]) && (fwd[0].Data? ==> |fwd[0].payload| <= MAX_PACKET)
    ensures EofLink(s.sentEOF, s.late, r.eof, fwd[1..])
    ensures fwd[0] == Eof ==> s.sentEOF && EofLink(s.sentEOF, s.late, true, fwd[1..])
  {
    hide CallsFit, WriterKept, EofFlags, Credits, Sum, DataBytes, Grants, Stream;
    var t := fwd[1..];
    assert forall k | 0 <= k < |t| :: t[k] == fwd[k + 1];
    PoppedClose(s.sentClose, r.closing || r.gone, fwd);
    PoppedEof(s.sentEOF, s.late, r.eof && !r.gone, fwd);
  }

  lemma PoppedClose(sentClose: bool, taken: bool, fwd: seq<Msg>)
    requires CloseIsLast(sentClose, taken, fwd) && fwd != []
    ensures !taken
    ensures fwd[0] == Close ==> sentClose && fwd[1..] == []
    ensures fwd[0] != Close ==> CloseIsLast(sentClose, false, fwd[1..])
  {
    var t := fwd[1..];
    assert forall k | 0 <= k < |t| :: t[k] == fwd[k + 1];
  }

  lemma PoppedEof(sentEOF: bool, late: seq<bool>, taken: bool, fwd: seq<Msg>)
    requires EofLink(sentEOF, late, taken, fwd) && fwd != []
    ensures EofLink(sentEOF, late, taken, fwd[1..])
    ensures fwd[0] == Eof ==> sentEOF && EofLink(sentEOF, late, true, fwd[1..])
  {
    var t := fwd[1..];
    assert forall k | 0 <= k < |t| :: t[k] == fwd[k + 1];
    assert Eof in t ==> Eof in fwd;
    if fwd[0] == Eof {
      forall k | 0 <= k < |t| ensures !InTime(late, t[k]) {
        assert 0 < k + 1 && t[k] == fwd[k + 1];
      }
    }
  }

  // ----- every step keeps the invariant -----

  lemma StartWriteKeeps(s: End, r: End, fwd: seq<Msg>, back: seq<Msg>, code: nat, data: Bytes)
    requires Both(s, r, fwd, back) && ActStartWrite(s, code, data).Some?
    ensures Both(ActStartWrite(s, code, data).value.0, r, fwd, back)
    ensures ActStartWrite(s, code, data).value.1 == []
  {
    hide CallsFit, CloseIsLast, ConfirmIsFirst, PacketsFit, WriterKept, EofLink, Credits, Sum, DataBytes, Grants, Stream;
    CreditsSnoc(s.writes, WriteCall(code, data, None));
    NewCall(s, code, data);
    NewCallKept(s, code, data, 0);
    NewCallKept(s, code, data, 1);
  }

  lemma NewCall(s: End, code: nat, data: Bytes)
    requires CallsFit(s.writes) && ActStartWrite(s, code, data).Some?
    ensures CallsFit(s.writes + [WriteCall(code, data, None)])
  {
  }

  lemma NewCallKept(s: End, code: nat, data: Bytes, c: nat)
    requires c < 2 && Frame(s) && ActStartWrite(s, code, data).Some?
    requires WriterKept(s.failed[c], s.sentClose, s.written[c], s.sent[c], s.writes, c)
    ensures var s' := ActStartWrite(s, code, data).value.0;
            WriterKept(s.failed[c], s.sentClose, s'.written[c], s.sent[c], s'.writes, c)
  {
    var s' := ActStartWrite(s, code, data).value.0;
    var ws, ws' := s.writes, s'.writes;
    assert forall k | 0 <= k < |ws| :: ws'[k] == ws[k];
    assert ws'[|ws|] == WriteCall(code, data, None);
  }

  lemma ReserveKeeps(s: End, r: End, fwd: seq<Msg>, back: seq<Msg>, i: nat)
    requires Both(s, r, fwd, back) && ActReserve(s, i).Some?
    ensures Both(ActReserve(s, i).value.0, r, fwd, back)
    ensures ActReserve(s, i).value.1 == []
  {
    hide CallsFit, CloseIsLast, ConfirmIsFirst, PacketsFit, WriterKept, EofLink, Credits, Sum, DataBytes, Grants, Stream, Unsent;
    var s' := ActReserve(s, i).value.0;
    UnsentLess(s.writes, i, s.writes[i], 0);
    UnsentLess(s.writes, i, s.writes[i], 1);
    if s.winClosed {
      CreditsWithout(s.writes, i);
      DropCall(s, i, 0);
      DropCall(s, i, 1);
      DropCallFits(s.writes, i);
    } else {
      CreditsUpdate(s.writes, i, s'.writes[i]);
      UnsentLess(s.writes, i, s'.writes[i], 0);
      UnsentLess(s.writes, i, s'.writes[i], 1);
      HoldCredit(s.writes, i, s'.writes[i].credit.value);
      HoldCreditKept(s, i, s'.writes[i].credit.value, 0);
      HoldCreditKept(s, i, s'.writes[i].credit.value, 1);
    }
  }

  lemma DropCallFits(ws: seq<WriteCall>, i: nat)
    requires CallsFit(ws) && i < |ws|
    ensures CallsFit(Without(ws, i))
  {
  }

  /** A call that ends with an error after CLOSE leaves a prefix of its data sent. */
  lemma DropCall(s: End, i: nat, c: nat)
    requires c < 2 && Frame(s) && i < |s.writes| && s.sentClose
    requires CallsFit(s.writes)
    requires WriterKept(s.failed[c], s.sentClose, s.written[c], s.sent[c], s.writes, c)
    ensures var s' := FailWrite(s, i); WriterKept(s'.failed[c], s'.sentClose, s'.written[c], s'.sent[c], s'.writes, c)
  {
    if !s.failed[c] {
      DropCallKept(s.sentClose, s.written[c], s.sent[c], s.writes, i, c);
    }
  }

  lemma DropCallKept(sentClose: bool, written: Bytes, sent: Bytes, ws: seq<WriteCall>, i: nat, c: nat)
    requires i < |ws| && WriterKept(false, sentClose, written, sent, ws, c)
    ensures if ws[i].code == c then sent <= written else WriterKept(false, sentClose, written, sent, Without(ws, i), c)
  {
    if ws[i].code == c {
      assert written == sent + ws[i].todo;
    } else {
      OthersSame(ws, i, c);
      WithoutMembers(ws, i);
    }
  }

  lemma WithoutMembers(ws: seq<WriteCall>, i: nat)
    requires i < |ws|
    ensures var less := Without(ws, i);
            forall k | 0 <= k < |less| :: less[k] == if k < i then ws[k] else ws[k + 1]
  {
  }

  /** Nothing becomes unsent when a call goes on or ends. */
  lemma UnsentLess(ws: seq<WriteCall>, i: nat, w: WriteCall, c: nat)
    requires i < |ws| && w.code == ws[i].code && (w.todo != [] ==> ws[i].todo != [])
    ensures Unsent(ws[i := w], c) ==> Unsent(ws, c)
    ensures Unsent(Without(ws, i), c) ==> Unsent(ws, c)
  {
    if Unsent(ws[i := w], c) {
      var k :| 0 <= k < |ws| && ws[i := w][k].code == c && ws[i := w][k].todo != [];
      assert ws[k].code == c && ws[k].todo != [];
    }
    var less := Without(ws, i);
    if Unsent(less, c) {
      WithoutMembers(ws, i);
      var k :| 0 <= k < |less| && less[k].code == c && less[k].todo != [];
      var j := if k < i then k else k + 1;
      assert ws[j].code == c && ws[j].todo != [];
    }
  }

  /** Removing a call leaves the question whether there is a call on another stream as it was. */
  lemma OthersSame(ws: seq<WriteCall>, i: nat, c: nat)
    requires i < |ws| && ws[i].code != c
    ensures var less := Without(ws, i);
            (forall k | 0 <= k < |less| :: less[k].code != c) ==> forall k | 0 <= k < |ws| :: ws[k].code != c
  {
    var less := Without(ws, i);
    if forall k | 0 <= k < |less| :: less[k].code != c {
      forall k | 0 <= k < |ws| ensures ws[k].code != c {
        if k < i {
          assert ws[k] == less[k];
        } else if k > i {
          assert ws[k] == less[k - 1];
        }
      }
    }
  }

  lemma HoldCredit(ws: seq<WriteCall>, i: nat, n: nat)
    requires CallsFit(ws) && i < |ws| && ws[i].todo != [] && n <= Min(MAX_PACKET, |ws[i].todo|)
    ensures CallsFit(ws[i := ws[i].(credit := Some(n))])
  {
  }

  lemma HoldCreditKept(s: End, i: nat, n: nat, c: nat)
    requires c < 2 && Frame(s) && i < |s.writes|
    requires WriterKept(s.failed[c], s.sentClose, s.written[c], s.sent[c], s.writes, c)
    ensures WriterKept(s.failed[c], s.sentClose, s.written[c], s.sent[c], s.writes[i := s.writes[i].(credit := Some(n))], c)
  {
    var ws := s.writes[i := s.writes[i].(credit := Some(n))];
    assert forall k | 0 <= k < |ws| :: ws[k].code == s.writes[k].code && ws[k].todo == s.writes[k].todo;
  }

  lemma SendKeeps(s: End, r: End, fwd: seq<Msg>, back: seq<Msg>, i: nat)
    requires Both(s, r, fwd, back) && ActSend(s, i).Some?
    ensures Both(ActSend(s, i).value.0, r, fwd + ActSend(s, i).value.1, back)
  {
    if s.sentClose {
      assert fwd + [] == fwd;
      SendRefused(s, r, fwd, back, i);
    } else {
      hide Direction;
      SendData(s, r, fwd, back, i);
    }
  }

  lemma SendRefused(s: End, r: End, fwd: seq<Msg>, back: seq<Msg>, i: nat)
    requires Both(s, r, fwd, back) && ActSend(s, i).Some? && s.sentClose
    ensures Both(ActSend(s, i).value.0, r, fwd, back)
  {
    hide CallsFit, CloseIsLast, ConfirmIsFirst, PacketsFit, WriterKept, EofLink, Credits, Sum, DataBytes, Grants, Stream, Unsent;
    CreditsWithout(s.writes, i);
    DropCall(s, i, 0);
    DropCall(s, i, 1);
    DropCallFits(s.writes, i);
    UnsentLess(s.writes, i, s.writes[i], 0);
    UnsentLess(s.writes, i, s.writes[i], 1);
  }

  lemma SendData(s: End, r: End, fwd: seq<Msg>, back: seq<Msg>, i: nat)
    requires Both(s, r, fwd, back) && ActSend(s, i).Some? && !s.sentClose
    ensures Both(ActSend(s, i).value.0, r, fwd + ActSend(s, i).value.1, back)
  {
    hide CallsFit, CloseIsLast, ConfirmIsFirst, PacketsFit, WriterKept, EofLink, Credits, Sum, DataBytes, Grants, Stream, StreamKept, Unsent;
    var (s', out) := ActSend(s, i).value;
    var m := out[0];
    assert out == [m];
    CreditsUpdate(s.writes, i, s'.writes[i]);
    SentCallFits(s.writes, i);
    SentCallKept(s, i, 0);
    SentCallKept(s, i, 1);
    Appended(fwd, m);
    AppendBeforeClose(r.closing || r.gone, fwd, m);
    AppendAfterConfirm(r.decided, fwd, m);
    AppendFits(fwd, m);
    SendIsLate(s, r, i);
    AppendEof(s.sentEOF, s.late, r.eof && !r.gone, fwd, m);
    StreamExtends(s, s', r, fwd, m, 0);
    StreamExtends(s, s', r, fwd, m, 1);
    SendFrame(s, r, back, i);
    UnsentLess(s.writes, i, s'.writes[i], 0);
    UnsentLess(s.writes, i, s'.writes[i], 1);
  }

  /** A call that still holds credit has data left. */
  lemma SendIsLate(s: End, r: End, i: nat)
    requires Frame(s) && EofFlags(s, r) && CallsFit(s.writes) && i < |s.writes| && s.writes[i].credit.Some?
    ensures InTime(s.late, Data(s.writes[i].code, s.writes[i].todo[..s.writes[i].credit.value])) ==> !s.sentEOF && !(r.eof && !r.gone)
  {
    if s.writes[i].code < 2 {
      assert Unsent(s.writes, s.writes[i].code);
    }
  }

  /** Sending changes neither buffers nor what came in. */
  lemma SendFrame(s: End, r: End, back: seq<Msg>, i: nat)
    requires Frame(s) && Frame(r) && ActSend(s, i).Some? && !s.sentClose
    requires StreamKept(r, s, back, 0) && StreamKept(r, s, back, 1)
    ensures Frame(ActSend(s, i).value.0)
    ensures StreamKept(r, ActSend(s, i).value.0, back, 0) && StreamKept(r, ActSend(s, i).value.0, back, 1)
  {
  }

  lemma StreamExtends(s: End, s': End, r: End, fwd: seq<Msg>, m: Msg, c: nat)
    requires c < 2 && |r.got| == |r.bufs| == |s.sent| == 2 && m.Data?
    requires s'.sent == Append(s.sent, m.code, m.payload) && |s'.sent| == 2
    requires StreamKept(s, r, fwd, c)
    ensures StreamKept(s', r, fwd + [m], c)
  {
    hide Stream;
    StreamSnoc(fwd, m, c);
    OneMessage(m);
    var p := if m.code == c then m.payload else [];
    assert r.got[c] + r.bufs[c] + (Stream(fwd, c) + p) == r.got[c] + r.bufs[c] + Stream(fwd, c) + p;
  }

  lemma SentCallFits(ws: seq<WriteCall>, i: nat)
    requires CallsFit(ws) && i < |ws| && ws[i].credit.Some? && ws[i].credit.value <= |ws[i].todo|
    ensures CallsFit(ws[i := WriteCall(ws[i].code, ws[i].todo[ws[i].credit.value..], None)])
    ensures ws[i].credit.value <= MAX_PACKET
  {
  }

  lemma SentCallKept(s: End, i: nat, c: nat)
    requires c < 2 && Frame(s) && CallsFit(s.writes) && ActSend(s, i).Some? && !s.sentClose
    requires WriterKept(s.failed[c], s.sentClose, s.written[c], s.sent[c], s.writes, c)
    ensures var s' := ActSend(s, i).value.0;
            WriterKept(s.failed[c], s.sentClose, s.written[c], s'.sent[c], s'.writes, c)
  {
    var s' := ActSend(s, i).value.0;
    var w := s.writes[i];
    var n := w.credit.value;
    assert w.todo == w.todo[..n] + w.todo[n..];
    assert s.sent[c] + (w.todo[..n] + w.todo[n..]) == s.sent[c] + w.todo[..n] + w.todo[n..];
    assert forall k | 0 <= k < |s.writes| && k != i :: s'.writes[k] == s.writes[k];
    assert s'.writes[i].code == w.code && s'.writes[i].todo == w.todo[n..];
  }

  lemma ReturnWriteKeeps(s: End, r: End, fwd: seq<Msg>, back: seq<Msg>, i: nat)
    requires Both(s, r, fwd, back) && ActReturnWrite(s, i).Some?
    ensures Both(ActReturnWrite(s, i).value.0, r, fwd, back)
    ensures ActReturnWrite(s, i).value.1 == []
  {
    hide CallsFit, CloseIsLast, ConfirmIsFirst, PacketsFit, WriterKept, EofLink, Credits, Sum, DataBytes, Grants, Stream, Unsent;
    CreditsWithout(s.writes, i);
    DropCallFits(s.writes, i);
    UnsentLess(s.writes, i, s.writes[i], 0);
    UnsentLess(s.writes, i, s.writes[i], 1);
    ReturnedKept(s, i, 0);
    ReturnedKept(s, i, 1);
  }

  lemma ReturnedKept(s: End, i: nat, c: nat)
    requires c < 2 && Frame(s) && CallsFit(s.writes) && ActReturnWrite(s, i).Some?
    requires WriterKept(s.failed[c], s.sentClose, s.written[c], s.sent[c], s.writes, c)
    ensures WriterKept(s.failed[c], s.sentClose, s.written[c], s.sent[c], Without(s.writes, i), c)
  {
    if !s.failed[c] {
      if s.writes[i].code != c {
        OthersSame(s.writes, i, c);
      } else {
        assert s.written[c] == s.sent[c] + [];
      }
    }
  }

  lemma ReadKeeps(s: End, r: End, fwd: seq<Msg>, back: seq<Msg>, code: nat, len: nat)
    requires Both(s, r, fwd, back) && ActRead(s, code, len).Some?
    ensures Both(ActRead(s, code, len).value.0, r, fwd, back)
    ensures ActRead(s, code, len).value.1 == []
  {
    hide CallsFit, CloseIsLast, ConfirmIsFirst, PacketsFit, WriterKept, EofLink, Credits, Sum, DataBytes, Grants, Stream;
    var n := Min(len, |s.bufs[code]|);
    SumSnoc(s.uncredited, n);
    assert s.bufs[code] == s.bufs[code][..n] + s.bufs[code][n..];
    assert s.got[code] + s.bufs[code] == s.got[code] + s.bufs[code][..n] + s.bufs[code][n..];
  }

  lemma CreditKeeps(s: End, r: End, fwd: seq<Msg>, back: seq<Msg>, j: nat)
    requires Both(s, r, fwd, back) && ActCredit(s, j).Some?
    ensures Both(ActCredit(s, j).value.0, r, fwd, back)
    ensures ActCredit(s, j).value.1 == []
  {
    hide CallsFit, CloseIsLast, ConfirmIsFirst, PacketsFit, WriterKept, EofLink, Credits, Sum, DataBytes, Grants, Stream;
    SumWithout(s.uncredited, j);
    SumSnoc(s.owed, s.uncredited[j]);
  }

  lemma SendAdjustKeeps(s: End, r: End, fwd: seq<Msg>, back: seq<Msg>, j: nat)
    requires Both(s, r, fwd, back) && ActSendAdjust(s, j).Some?
    ensures Both(ActSendAdjust(s, j).value.0, r, fwd + ActSendAdjust(s, j).value.1, back)
  {
    hide CallsFit, CloseIsLast, ConfirmIsFirst, PacketsFit, WriterKept, EofLink, Credits, Sum, DataBytes, Grants, Stream;
    var out := ActSendAdjust(s, j).value.1;
    SumWithout(s.owed, j);
    if s.sentClose {
      assert fwd + out == fwd;
    } else {
      assert out == [out[0]];
      Appended(fwd, out[0]);
      AppendControl(s, r, fwd, back, out[0]);
    }
  }

  lemma SetEofKeeps(s: End, r: End, fwd: seq<Msg>, back: seq<Msg>)
    requires Both(s, r, fwd, back) && ActSetEof(s).Some?
    ensures Both(ActSetEof(s).value.0, r, fwd, back)
    ensures ActSetEof(s).value.1 == []
  {
    hide CallsFit, CloseIsLast, ConfirmIsFirst, PacketsFit, WriterKept, Credits, Sum, DataBytes, Grants, Stream;
  }

  lemma SendEofKeeps(s: End, r: End, fwd: seq<Msg>, back: seq<Msg>)
    requires Both(s, r, fwd, back) && ActSendEof(s).Some?
    ensures Both(ActSendEof(s).value.0, r, fwd + ActSendEof(s).value.1, back)
  {
    hide CallsFit, CloseIsLast, ConfirmIsFirst, PacketsFit, WriterKept, EofLink, Credits, Sum, DataBytes, Grants, Stream;
    if s.sentClose {
      assert fwd + [] == fwd;
    } else {
      Appended(fwd, Eof);
      AppendControl(s, r, fwd, back, Eof);
      assert Stream(fwd, 0) + [] == Stream(fwd, 0) && Stream(fwd, 1) + [] == Stream(fwd, 1);
    }
  }

  /** Sending CLOSE, on the user's request or in answer to the peer's. */
  lemma CloseKeeps(s: End, r: End, fwd: seq<Msg>, back: seq<Msg>)
    requires Both(s, r, fwd, back) && s.decided
    ensures Both(s.(sentClose := true), r, fwd + if s.sentClose then [] else [Close], back)
  {
    hide CallsFit, CloseIsLast, ConfirmIsFirst, PacketsFit, EofLink, Credits, Sum, DataBytes, Grants, Stream;
    if s.sentClose {
      assert fwd + [] == fwd;
    } else {
      Appended(fwd, Close);
      AppendBeforeClose(r.closing || r.gone, fwd, Close);
      AppendAfterConfirm(r.decided, fwd, Close);
      AppendFits(fwd, Close);
      AppendEof(s.sentEOF, s.late, r.eof && !r.gone, fwd, Close);
      assert Stream(fwd, 0) + [] == Stream(fwd, 0) && Stream(fwd, 1) + [] == Stream(fwd, 1);
    }
  }

  lemma OtherKeeps(s: End, r: End, fwd: seq<Msg>, back: seq<Msg>)
    requires Both(s, r, fwd, back) && ActOther(s).Some?
    ensures Both(s, r, fwd + [Other], back)
  {
    hide CallsFit, CloseIsLast, ConfirmIsFirst, PacketsFit, WriterKept, EofLink, Credits, Sum, DataBytes, Grants, Stream;
    Appended(fwd, Other);
    AppendControl(s, r, fwd, back, Other);
    assert Stream(fwd, 0) + [] == Stream(fwd, 0) && Stream(fwd, 1) + [] == Stream(fwd, 1);
  }

  lemma TeardownKeeps(s: End, r: End, fwd: seq<Msg>, back: seq<Msg>)
    requires Both(s, r, fwd, back) && ActTeardown(s).Some?
    ensures Both(ActTeardown(s).value.0, r, fwd, back)
    ensures ActTeardown(s).value.1 == []
  {
    hide CallsFit, CloseIsLast, ConfirmIsFirst, PacketsFit, WriterKept, Credits, Sum, DataBytes, Grants, Stream;
  }

  lemma ActKeeps(s: End, r: End, fwd: seq<Msg>, back: seq<Msg>, act: Action)
    requires Both(s, r, fwd, back) && Act(s, act).Some?
    ensures Both(Act(s, act).value.0, r, fwd + Act(s, act).value.1, back)
  {
    hide Direction, ActStartWrite, ActReserve, ActSend, ActReturnWrite, ActRead, ActCredit, ActSendAdjust, ActSetEof, ActSendEof;
    assert fwd + [] == fwd;
    match act {
      case StartWrite(code, data) => StartWriteKeeps(s, r, fwd, back, code, data);
      case Reserve(i) => ReserveKeeps(s, r, fwd, back, i);
      case Send(i) => SendKeeps(s, r, fwd, back, i);
      case ReturnWrite(i) => ReturnWriteKeeps(s, r, fwd, back, i);
      case Read(code, len) => ReadKeeps(s, r, fwd, back, code, len);
      case Credit(j) => CreditKeeps(s, r, fwd, back, j);
      case SendAdjust(j) => SendAdjustKeeps(s, r, fwd, back, j);
      case SetEof => SetEofKeeps(s, r, fwd, back);
      case SendEof => SendEofKeeps(s, r, fwd, back);
      case CallClose => CloseKeeps(s, r, fwd, back);
      case SendOther => OtherKeeps(s, r, fwd, back);
      case Teardown => TeardownKeeps(s, r, fwd, back);
    }
  }

  // ----- a packet taken from the link is never an error, and keeps the invariant -----

  /** What the first message adds to the sums of the link. */
  lemma Head(fwd: seq<Msg>)
    requires fwd != []
    ensures DataBytes(fwd) == DataBytes(fwd[1..]) + if fwd[0].Data? then |fwd[0].payload| else 0
    ensures Grants(fwd) == Grants(fwd[1..]) + match fwd[0] case Adjust(n) => n case Confirm(w, _) => w case _ => 0
    ensures forall c: nat :: Stream(fwd, c) == (if fwd[0].Data? && fwd[0].code == c then fwd[0].payload else []) + Stream(fwd[1..], c)
  {
  }

  lemma DataArrives(s: End, r: End, fwd: seq<Msg>, back: seq<Msg>)
    requires Both(s, r, fwd, back) && fwd != [] && fwd[0].Data?
    ensures HandleData(r, fwd[0].code, fwd[0].payload).Ok?
    ensures Both(s, HandleData(r, fwd[0].code, fwd[0].payload).value, fwd[1..], back)
  {
    hide CallsFit, CloseIsLast, ConfirmIsFirst, PacketsFit, WriterKept, EofLink, Credits, Sum, DataBytes, Grants, Stream, StreamKept, TakeData;
    Popped(s, r, fwd, back);
    Head(fwd);
    if fwd[0].payload == [] {
      EmptyDataStream(s, r, fwd, 0);
      EmptyDataStream(s, r, fwd, 1);
    } else {
      DataTaken(s, r, fwd, back);
    }
  }

  lemma DataTaken(s: End, r: End, fwd: seq<Msg>, back: seq<Msg>)
    requires Both(s, r, fwd, back) && fwd != [] && fwd[0].Data? && |fwd[0].payload| <= r.myWindow
    ensures Both(s, TakeData(r, fwd[0].code, fwd[0].payload), fwd[1..], back)
  {
    hide CallsFit, CloseIsLast, ConfirmIsFirst, PacketsFit, WriterKept, EofLink, Credits, Sum, DataBytes, Grants, Stream, StreamKept, Append;
    var (code, payload) := (fwd[0].code, fwd[0].payload);
    var r' := TakeData(r, code, payload);
    Popped(s, r, fwd, back);
    Head(fwd);
    Buffered(r.bufs, code, payload);
    DataStream(s, r, r', fwd, 0);
    DataStream(s, r, r', fwd, 1);
    SameStream(r, r', s, back, 0);
    SameStream(r, r', s, back, 1);
  }

  lemma Buffered(bufs: seq<Bytes>, code: nat, payload: Bytes)
    requires |bufs| == 2
    ensures var b := Append(bufs, code, payload);
            |b| == 2 && |b[0]| + |b[1]| == |bufs[0]| + |bufs[1]| + if code < 2 then |payload| else 0
  {
  }

  lemma EmptyDataStream(s: End, r: End, fwd: seq<Msg>, c: nat)
    requires c < 2 && Frame(s) && Frame(r) && fwd != [] && fwd[0].Data? && fwd[0].payload == []
    requires StreamKept(s, r, fwd, c)
    ensures StreamKept(s, r, fwd[1..], c)
  {
    hide Stream;
    Head(fwd);
    assert [] + Stream(fwd[1..], c) == Stream(fwd[1..], c);
  }

  lemma DataStream(s: End, r: End, r': End, fwd: seq<Msg>, c: nat)
    requires c < 2 && |r.got| == |r.bufs| == |s.sent| == 2 && fwd != [] && fwd[0].Data?
    requires r'.bufs == Append(r.bufs, fwd[0].code, fwd[0].payload) && r'.got == r.got && |r'.bufs| == 2
    requires StreamKept(s, r, fwd, c)
    ensures StreamKept(s, r', fwd[1..], c)
  {
    hide Stream;
    Head(fwd);
    if fwd[0].code == c {
      var p := fwd[0].payload;
      assert r'.bufs[c] == r.bufs[c] + p;
      assert r.got[c] + r.bufs[c] + (p + Stream(fwd[1..], c)) == r.got[c] + (r.bufs[c] + p) + Stream(fwd[1..], c);
    } else {
      assert r'.bufs[c] == r.bufs[c];
      assert [] + Stream(fwd[1..], c) == Stream(fwd[1..], c);
    }
  }

  lemma SameStream(s: End, s': End, r: End, fwd: seq<Msg>, c: nat)
    requires c < 2 && |r.got| == |r.bufs| == |s.sent| == 2 && s'.sent == s.sent && StreamKept(s, r, fwd, c)
    ensures StreamKept(s', r, fwd, c)
  {
  }

  lemma CloseArrives(s: End, r: End, fwd: seq<Msg>, back: seq<Msg>)
    requires Both(s, r, fwd, back) && fwd != [] && fwd[0] == Close
    ensures Both(s, r.(sentClose := true, closing := true), fwd[1..], back + if r.sentClose then [] else [Close])
  {
    hide CallsFit, ConfirmIsFirst, PacketsFit, WriterKept, EofLink, Credits, Sum, DataBytes, Grants, Stream, StreamKept, CloseIsLast;
    Popped(s, r, fwd, back);
    assert fwd == [Close];
    CloseKeeps(r, s, back, fwd);
    var r' := r.(sentClose := true);
    var back' := back + if r.sentClose then [] else [Close];
    ClosingFlag(s, r', fwd, back');
  }

  lemma ClosingFlag(s: End, r: End, fwd: seq<Msg>, back: seq<Msg>)
    requires Both(s, r, fwd, back) && fwd == [Close] && r.sentClose && r.decided && !r.gone
    ensures Both(s, r.(closing := true), [], back)
  {
    hide CallsFit, WriterKept, Credits, Sum;
    Popped(s, r, fwd, back);
    Head(fwd);
    assert fwd[1..] == [];
    assert [] + Stream([], 0) == [] && [] + Stream([], 1) == [];
  }

  lemma EofArrives(s: End, r: End, fwd: seq<Msg>, back: seq<Msg>)
    requires Both(s, r, fwd, back) && fwd != [] && fwd[0] == Eof
    ensures Both(s, r.(eof := true), fwd[1..], back)
  {
    hide CallsFit, CloseIsLast, ConfirmIsFirst, PacketsFit, WriterKept, EofLink, Credits, Sum, DataBytes, Grants, Stream;
    Popped(s, r, fwd, back);
    Head(fwd);
    assert [] + Stream(fwd[1..], 0) == Stream(fwd[1..], 0) && [] + Stream(fwd[1..], 1) == Stream(fwd[1..], 1);
  }

  lemma GrantArrives(s: End, r: End, fwd: seq<Msg>, back: seq<Msg>)
    requires Both(s, r, fwd, back) && fwd != [] && (fwd[0].Confirm? || fwd[0].Adjust? || fwd[0] == Other)
    ensures Deliver(r, fwd[0]).Ok? && Deliver(r, fwd[0]).value.1 == []
    ensures Both(s, Deliver(r, fwd[0]).value.0, fwd[1..], back)
  {
    hide CallsFit, CloseIsLast, ConfirmIsFirst, PacketsFit, WriterKept, EofLink, Credits, Sum, DataBytes, Grants, Stream;
    Popped(s, r, fwd, back);
    Head(fwd);
    assert [] + Stream(fwd[1..], 0) == Stream(fwd[1..], 0) && [] + Stream(fwd[1..], 1) == Stream(fwd[1..], 1);
  }

  lemma DeliverKeeps(s: End, r: End, fwd: seq<Msg>, back: seq<Msg>)
    requires Both(s, r, fwd, back) && fwd != []
    ensures Deliver(r, fwd[0]).Ok?
    ensures var (r', out) := Deliver(r, fwd[0]).value; Both(s, r', fwd[1..], back + out)
  {
    hide Direction, HandleData;
    Popped(s, r, fwd, back);
    assert back + [] == back;
    match fwd[0] {
      case Data(_, _) => DataArrives(s, r, fwd, back);
      case Close => CloseArrives(s, r, fwd, back);
      case Eof => EofArrives(s, r, fwd, back);
      case _ => GrantArrives(s, r, fwd, back);
    }
  }

  /** No step fails: no packet is too large, overruns the window, overflows the peer's window or reaches a
      removed channel. And every step keeps the invariant. */
  lemma StepKeeps(s: State, l: Label)
    requires Inv(s)
    ensures !Step(s, l).Failed?
    ensures Step(s, l).Next? ==> Inv(Step(s, l).state)
  {
    hide Direction, Act, Deliver;
    match l {
      case ActA(act) =>
        if Act(s.a, act).Some? {
          ActKeeps(s.a, s.b, s.ab, s.ba, act);
        }
      case ActB(act) =>
        if Act(s.b, act).Some? {
          ActKeeps(s.b, s.a, s.ba, s.ab, act);
        }
      case DeliverToA =>
        if s.ba != [] {
          DeliverKeeps(s.b, s.a, s.ba, s.ab);
        }
      case DeliverToB =>
        if s.ab != [] {
          DeliverKeeps(s.a, s.b, s.ab, s.ba);
        }
    }
  }
}
