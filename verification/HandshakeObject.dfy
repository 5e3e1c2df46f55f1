/** handshakeTransport as an object (handshake.go). Each method is one critical section of the code: it takes the step
    of Handshake that models it, and its contract says what the caller may rely on. */
module HandshakeObjects {
  import opened ByteStrings
  import opened Handshake
  import opened Results

  class HandshakeTransport {
    const threshold: nat
    const maxLen: nat
    var writers: seq<Writer>
    var loop: Loop
    var holder: Holder
    var sentInit: bool
    var writtenSinceKex: nat
    var readSinceKex: nat
    var writeError: bool
    var broken: bool
    var sent: seq<Packet>
    var lost: nat
    var lostInAll: nat

    function View(): State
      reads this
    {
      State(threshold, maxLen, writers, loop, holder, sentInit, writtenSinceKex, readSinceKex, writeError, broken, sent, lost, lostInAll)
    }

    ghost predicate Valid()
      reads this
    {
      Inv(View())
    }

    /** The packet may be the next one. */
    ghost predicate MaySend(m: Packet)
      reads this
    {
      Parse(sent + [m]).Some?
    }

    constructor (threshold: nat, maxLen: nat, count: nat)
      ensures Valid() && View() == Init(threshold, maxLen, count)
    {
      this.threshold, this.maxLen := threshold, maxLen;
      writers := seq(count, _ => Idle);
      loop, holder, sentInit, writtenSinceKex, readSinceKex := Top, Free, false, 0, 0;
      writeError, broken, sent, lost, lostInAll := false, false, [], 0, 0;
    }

    /** writePacket from the wait loop on. It uses the connection only when data is the next thing to send, gives up
        the mutex to wait or after a refusal, and keeps it when it returns an error on record. */
    method ProceedLocked(i: nat, p: Request)
      requires i < |writers| && p.len <= maxLen && HolderOk(View()) && TurnsOk(View().(holder := Free)) && TraceOk(View())
      requires holder == Free || holder == WriterInit(i, p)
      modifies this
      ensures Valid() && sent == old(sent)
      ensures InConn(holder) ==> holder == WriterData(i, p) && MaySend(Data(p.len)) && !p.forbidden
      ensures holder == Leaked <==> old(writeError)
      ensures sentInit == old(sentInit) && |writers| == |old(writers)| && (writers[i].Waiting? <==> sentInit)
      ensures View() == Proceed(old(View()), i, p)
    {
      hide Parse, HolderOk, TurnsOk, TraceOk;
      ProceedKeeps(View(), i, p);
      ProceedMeans(View(), i, p);
      if sentInit {
        writers := writers[i := Waiting(p)];
        holder := Free;
        return;
      }
      if writeError {
        writers := writers[i := Idle];
        holder := Leaked;
        return;
      }
      writtenSinceKex := (writtenSinceKex + p.len) % TWO64;
      if p.forbidden {
        writers := writers[i := Idle];
        holder := Free;
      } else {
        writers := writers[i := Busy];
        holder := WriterData(i, p);
      }
    }

    /** writePacket up to its first wait or write. It leaves with the mutex for good exactly if a failure is on record;
        otherwise it holds the mutex only to send what may be sent, the KEXINIT first when there was too much data. */
    method WritePacket(i: nat, p: Request)
      requires Valid() && i < |writers| && writers[i] == Idle && holder == Free && p.len <= maxLen
      modifies this
      ensures Valid() && sent == old(sent)
      ensures holder == Leaked <==> old(writeError)
      ensures holder.WriterInit? ==> holder == WriterInit(i, p) && MaySend(KexInit) && old(writtenSinceKex) > threshold
      ensures holder.WriterData? ==> holder == WriterData(i, p) && MaySend(Data(p.len)) && old(writtenSinceKex) <= threshold
      ensures sentInit == old(sentInit) && |writers| == |old(writers)| && (writers[i].Waiting? <==> sentInit)
      ensures DoStartWrite(old(View()), i, p) == Some(View())
    {
      hide Parse, Proceed;
      StartWriteKeeps(View(), i, p);
      Snoc(sent, KexInit);
      assert sentInit ==> !writeError;
      if writtenSinceKex > threshold && !sentInit {
        writers := writers[i := Busy];
        holder := WriterInit(i, p);
      } else {
        ProceedLocked(i, p);
      }
    }

    /** The return from cond.Wait, where the threshold is not looked at again. */
    method Woken(i: nat)
      requires Valid() && i < |writers| && writers[i].Waiting? && holder == Free
      modifies this
      ensures Valid() && sent == old(sent)
      ensures holder == Leaked <==> old(writeError)
      ensures InConn(holder) ==> holder == WriterData(i, old(writers[i].p)) && MaySend(Data(holder.p.len))
      ensures sentInit == old(sentInit) && |writers| == |old(writers)| && (writers[i].Waiting? <==> sentInit)
      ensures DoWake(old(View()), i) == Some(View())
    {
      hide Parse, Proceed;
      ProceedLocked(i, writers[i].p);
    }

    method RequestKeyChange()
      requires Valid() && holder == Free
      modifies this`holder
      ensures Valid()
      ensures InConn(holder) && !writeError ==> MaySend(KexInit)
      ensures holder == Free <==> sentInit
      ensures DoStartRequest(old(View())) == Some(View())
    {
      hide Parse;
      LoopKeepsRequest(View());
      Snoc(sent, KexInit);
      if !sentInit {
        holder := ExternalInit;
      }
    }

    /** The fields that sendKexInitLocked sets, and what has become of its packet. */
    method RecordInit(how: Written)
      modifies this
      ensures View() == AfterInit(old(View()), how)
    {
      if how.Done? {
        sent := sent + [KexInit];
        sentInit := true;
        lost := 0;
      } else {
        sentInit := false;
        broken := broken || how.Broken?;
        if how.Weak? && holder.WriterInit? {
          lost, lostInAll := lost + 1, lostInAll + 1;
        }
      }
    }

    /** sendKexInitLocked once its write has ended, and its caller. A KEXINIT that has left blocks everybody else; one
        that a writer could not send does not keep that writer from its data. */
    method KexInitWritten(how: Written)
      requires Valid() && InConn(holder) && !holder.WriterData? && CanEnd(View(), how)
      modifies this
      ensures Valid()
      ensures how.Done? ==> sent == old(sent) + [KexInit] && Parse(sent) == Some(Inside)
      ensures how.Done? ==> sentInit && holder == Free
      ensures !how.Done? ==> sent == old(sent) && !sentInit && (InConn(holder) ==> holder.WriterData?)
      ensures how.Weak? && old(holder).WriterInit? && !old(writeError) && !old(holder).p.forbidden
              ==> holder == WriterData(old(holder).i, old(holder).p) && MaySend(Data(holder.p.len)) && lost == old(lost) + 1
      ensures old(holder) == LoopInit ==> loop == if how.Done? then Exchanging(false) else Leaving(true)
      ensures DoFinishInit(old(View()), how) == Some(View())
    {
      hide Parse, Proceed, Inv, HolderOk, TurnsOk, TraceOk, AfterInit;
      FinishInitMeans(View(), how);
      FinishInitKeeps(View(), how);
      AfterInitTurns(View(), how);
      AfterInitKeeps(View(), how);
      RecordInit(how);
      match holder {
        case WriterInit(i, p) => ProceedLocked(i, p);
        case LoopRequest =>
          holder := Free;
          loop := if how.Done? then Reading else Dead;
        case LoopInit =>
          holder := Free;
          loop := if how.Done? then Exchanging(false) else Leaving(true);
        case ExternalInit => holder := Free;
        case _ =>
      }
    }

    /** The end of writePacket. */
    method DataWritten(how: Written)
      requires Valid() && holder.WriterData? && CanEnd(View(), how)
      modifies this
      ensures Valid()
      ensures holder == Free && writers == old(writers)[old(holder.i) := Idle]
      ensures sent == old(sent) + if how.Done? then [Data(old(holder).p.len)] else []
      ensures !writeError ==> Parse(sent) == Some(Between)
      ensures DoFinishData(old(View()), how) == Some(View())
    {
      hide Parse;
      FinishDataKeeps(View(), how);
      if how.Done? {
        sent := sent + [Data(holder.p.len)];
      }
      broken := broken || how.Broken?;
      writers := writers[holder.i := Idle];
      holder := Free;
    }

    /** The top of readOnePacket: when it reads on at once, it is within the threshold or a KEXINIT is out. */
    method CheckThreshold()
      requires Valid() && loop == Top && (holder == Free || readSinceKex <= threshold)
      modifies this`loop, this`holder
      ensures Valid() && ReadsInBounds(View())
      ensures loop == Reading || (holder == LoopRequest && MaySend(KexInit))
      ensures holder == LoopRequest <==> readSinceKex > threshold && !sentInit
      ensures DoLoopCheck(old(View())) == Some(View())
    {
      hide Parse;
      Snoc(sent, KexInit);
      if readSinceKex > threshold && !sentInit {
        holder := LoopRequest;
      } else {
        loop := Reading;
      }
    }

    /** The rest of readOnePacket for a packet: its bytes are counted, and a KEXINIT begins an exchange. */
    method PacketRead(len: nat, isKexInit: bool)
      requires Valid() && loop == Reading
      modifies this`loop, this`readSinceKex
      ensures Valid() && loop == if isKexInit then Entering else Top
      ensures readSinceKex == (old(readSinceKex) + len) % TWO64
      ensures DoLoopRead(old(View()), len, isKexInit) == Some(View())
    {
      hide Parse;
      readSinceKex := (readSinceKex + len) % TWO64;
      loop := if isKexInit then Entering else Top;
    }

    /** The call of sendKexInit in enterKeyExchange: the exchange goes on at once exactly if our KEXINIT is out, and
        otherwise a KEXINIT is what may be sent next. */
    method EnterKeyExchange()
      requires Valid() && loop == Entering && holder == Free
      modifies this`loop, this`holder
      ensures Valid()
      ensures loop == Exchanging(false) ==> holder == Free && Parse(sent) == Some(Inside)
      ensures loop != Exchanging(false) ==> holder == LoopInit && MaySend(KexInit) && !MaySend(Kex)
      ensures DoLoopEnter(old(View())) == Some(View())
    {
      hide Parse, Inv;
      EnterMeans(View());
      if sentInit {
        loop := Exchanging(false);
      } else {
        holder := LoopInit;
      }
    }

    /** The rest of readOnePacket after enterKeyExchange has returned. After a failure nothing is ever sent again;
        otherwise data may follow, and every waiting writer can go on. */
    method LeaveKeyExchange()
      requires Valid() && loop.Leaving? && holder == Free
      modifies this
      ensures Valid() && !sentInit && holder == Free && writers == old(writers)
      ensures old(loop).failed ==> loop == Dead && forall ls: seq<Label> :: Run(View(), ls).Some? ==> Run(View(), ls).value.sent == sent
      ensures !old(loop).failed ==> loop == Top && Parse(sent) == Some(Between) && writtenSinceKex == readSinceKex == 0
      ensures forall i | 0 <= i < |writers| && writers[i].Waiting? :: DoWake(View(), i).Some?
      ensures DoLoopLeave(old(View())) == Some(View())
    {
      hide Parse, Run, Step;
      LeaveKeeps(View());
      var failed := loop.failed;
      if failed {
        broken := true;
        writeError := true;
      }
      sentInit := false;
      writtenSinceKex := 0;
      if failed {
        loop := Dead;
        NothingFollows(View());
        return;
      }
      readSinceKex := 0;
      loop := Top;
    }
  }

  lemma LoopKeepsRequest(s: State)
    requires Inv(s) && s.holder == Free
    ensures Inv(DoStartRequest(s).value)
  {
    hide Parse;
  }

  lemma EnterMeans(s: State)
    requires Inv(s) && s.loop == Entering && s.holder == Free
    ensures Inv(DoLoopEnter(s).value)
    ensures s.sentInit ==> Parse(s.sent) == Some(Inside)
    ensures !s.sentInit ==> Parse(s.sent + [KexInit]).Some? && Parse(s.sent + [Kex]).None?
  {
    hide Parse;
    Snoc(s.sent, KexInit);
    Snoc(s.sent, Kex);
    LoopKeeps(s, LoopEnter);
  }

  lemma LeaveKeeps(s: State)
    requires Inv(s) && DoLoopLeave(s).Some?
    ensures Inv(DoLoopLeave(s).value)
  {
    hide Parse;
    ExchangeKeeps(s, LoopLeave);
  }

  lemma AfterInitTurns(s: State, how: Written)
    requires Inv(s) && InConn(s.holder) && !s.holder.WriterData? && CanEnd(s, how)
    ensures var s1 := AfterInit(s, how); HolderOk(s1) && TurnsOk(s1.(holder := Free)) && TraceOk(s1)
    ensures s.holder.WriterInit? ==> s.holder.i < |s.writers| && s.holder.p.len <= s.maxLen
  {
    hide Parse;
    Snoc(s.sent, KexInit);
  }

  lemma ProceedMeans(s: State, i: nat, p: Request)
    requires i < |s.writers| && TurnsOk(s.(holder := Free)) && TraceOk(s) && (s.holder == Free || s.holder == WriterInit(i, p))
    ensures var s' := Proceed(s, i, p);
            && (s'.holder == Leaked <==> s.writeError)
            && (InConn(s'.holder) ==> s'.holder == WriterData(i, p) && Parse(s.sent + [Data(p.len)]).Some? && !p.forbidden)
  {
    hide Parse;
    Snoc(s.sent, Data(p.len));
  }

  lemma FinishInitMeans(s: State, how: Written)
    requires Inv(s) && InConn(s.holder) && !s.holder.WriterData? && CanEnd(s, how)
    ensures DoFinishInit(s, how).Some?
    ensures var s' := DoFinishInit(s, how).value;
            && (how.Done? ==> s'.sent == s.sent + [KexInit] && Parse(s'.sent) == Some(Inside) && s'.sentInit && s'.holder == Free)
            && (!how.Done? ==> s'.sent == s.sent && !s'.sentInit && (InConn(s'.holder) ==> s'.holder.WriterData?))
            && (how.Weak? && s.holder.WriterInit? && !s.writeError && !s.holder.p.forbidden
                ==> s'.holder == WriterData(s.holder.i, s.holder.p) && Parse(s'.sent + [Data(s.holder.p.len)]).Some? && s'.lost == s.lost + 1)
            && (s.holder == LoopInit ==> s'.loop == if how.Done? then Exchanging(false) else Leaving(true))
  {
    hide Parse;
    Snoc(s.sent, KexInit);
    if s.holder.WriterInit? {
      Snoc(s.sent, Data(s.holder.p.len));
    }
  }

  lemma NothingFollows(s: State)
    requires Inv(s) && Silent(s)
    ensures forall ls: seq<Label> :: Run(s, ls).Some? ==> Run(s, ls).value.sent == s.sent
  {
    hide Inv, Silent, Run;
    forall ls: seq<Label> | Run(s, ls).Some? ensures Run(s, ls).value.sent == s.sent {
      SilentRun(s, ls);
    }
  }
}
