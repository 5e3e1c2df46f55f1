/** connectionState and transport as objects (transport.go), checked against the steps of Transport. */
module Connections {
  import opened ByteStrings
  import opened Results
  import opened Transport

  class Connection {
    var cipher: Cipher
    var done: seq<nat>
    var seqNum: nat
    /** The channel of capacity one. */
    var pendingKeyChange: Option<Cipher>

    function View(): ConnState
      reads this
    {
      ConnState(cipher, done, seqNum, pendingKeyChange)
    }

    constructor ()
      ensures View() == ConnState(NoCipher, [], 0, None)
    {
      cipher, done, seqNum, pendingKeyChange := NoCipher, [], 0, None;
    }

    /** What reading and writing have in common: the cipher has processed a packet, and on NEWKEYS the waiting cipher
        takes over, if there is one. */
    method Process(m: Msg) returns (ok: bool)
      modifies this
      ensures ok <==> m.NewKeys? ==> old(pendingKeyChange).Some?
      ensures ok && m.NewKeys? ==> cipher == old(pendingKeyChange).value && done == [] && pendingKeyChange == None
      ensures !(ok && m.NewKeys?) ==> cipher == old(cipher) && done == old(done) + [Size(m)] && pendingKeyChange == old(pendingKeyChange)
      ensures seqNum == (old(seqNum) + 1) % TWO32
      ensures Advance(old(View()), m) == if ok then Some(View()) else None
    {
      done := done + [Size(m)];
      seqNum := (seqNum + 1) % TWO32;
      if m.NewKeys? {
        if pendingKeyChange.None? {
          return false;
        }
        cipher, done, pendingKeyChange := pendingKeyChange.value, [], None;
      }
      return true;
    }

    /** readPacket, with what its cipher makes of the next packet, or None where that fails. The packet is counted in
        every case, and the keys change only with a NEWKEYS that was read. */
    method ReadPacket(m: Option<Msg>) returns (ok: bool)
      modifies this
      ensures seqNum == (old(seqNum) + 1) % TWO32
      ensures ok <==> m.Some? && Size(m.value) > 0 && (m.value.NewKeys? ==> old(pendingKeyChange).Some?)
      ensures ok ==> Advance(old(View()), m.value) == Some(View())
      ensures !ok ==> cipher == old(cipher) && pendingKeyChange == old(pendingKeyChange)
    {
      if m.None? {
        seqNum := (seqNum + 1) % TWO32;
        return false;
      }
      ok := Process(m.value);
      ok := ok && Size(m.value) > 0;
    }

    /** writePacket; passed says whether the cipher and the connection took the packet. One that they did not take is
        not counted; false with a packet taken is the panic for want of key material. */
    method WritePacket(m: Msg, passed: bool) returns (ok: bool)
      modifies this
      ensures !passed ==> !ok && View() == old(View())
      ensures passed ==> seqNum == (old(seqNum) + 1) % TWO32 && (ok <==> m.NewKeys? ==> old(pendingKeyChange).Some?)
      ensures ok ==> Advance(old(View()), m) == Some(View())
      ensures !ok ==> cipher == old(cipher) && pendingKeyChange == old(pendingKeyChange)
    {
      if !passed {
        return false;
      }
      ok := Process(m);
    }

    /** Sending on pendingKeyChange; false where it would block for ever. */
    method Offer(c: Cipher) returns (ok: bool)
      modifies `pendingKeyChange
      ensures ok == old(pendingKeyChange).None?
      ensures pendingKeyChange == if ok then Some(c) else old(pendingKeyChange)
    {
      if pendingKeyChange.Some? {
        return false;
      }
      pendingKeyChange := Some(c);
      return true;
    }
  }

  class Conn {
    const client: bool
    const reader: Connection
    const writer: Connection
    var sessionID: Option<Bytes>

    constructor (client: bool)
      ensures this.client == client && sessionID == None && reader != writer && fresh(reader) && fresh(writer)
      ensures reader.View() == writer.View() == ConnState(NoCipher, [], 0, None)
    {
      this.client, sessionID := client, None;
      reader := new Connection();
      writer := new Connection();
    }

    /** The object stands for this side of the model. */
    ghost predicate Stands(x: Side)
      reads this, reader, writer
    {
      reader != writer && client == x.client && sessionID == x.sessionID && reader.View() == x.reader && writer.View() == x.writer
    }

    /** The keys for what this end writes, or reads. */
    function Dir(writing: bool): Direction {
      if client == writing then ClientKeys else ServerKeys
    }

    /** prepareKeyChange for the transcript the side has seen: it puts a cipher into each queue, made from r, w and the result with
        the keys of the direction, and the first time takes the hash as the session id. */
    method PrepareKeyChange(cfg: Rules, ghost x: Side, seen: Transcript) returns (ok: bool)
      requires Stands(x) && x.seen == seen
      modifies this, reader, writer
      ensures ok == DoPrepare(cfg, x).Next?
      ensures ok ==> Stands(DoPrepare(cfg, x).state)
      ensures ok <==> old(reader.pendingKeyChange).None? && old(writer.pendingKeyChange).None?
      ensures sessionID == if old(sessionID).None? then Some(cfg.result(client, seen).h) else old(sessionID)
      ensures ok ==>
                var res := cfg.result(client, seen);
                && reader.pendingKeyChange == Some(Keyed(Dir(false), Used(cfg.r(seen)), res.k, res.h, sessionID.value))
                && writer.pendingKeyChange == Some(Keyed(Dir(true), Used(cfg.w(seen)), res.k, res.h, sessionID.value))
    {
      var res := cfg.result(client, seen);
      if sessionID.None? {
        sessionID := Some(res.h);
      }
      var r := reader.Offer(Keyed(WriteDir(!client), Used(cfg.r(seen)), res.k, res.h, sessionID.value));
      if !r {
        return false;
      }
      ok := writer.Offer(Keyed(WriteDir(client), Used(cfg.w(seen)), res.k, res.h, sessionID.value));
    }

    method WritePacket(ghost x: Side, m: Msg) returns (ok: bool)
      requires Stands(x)
      modifies writer
      ensures ok == Write(x, m).Next? && (ok ==> Stands(Write(x, m).state))
    {
      ok := writer.WritePacket(m, true);
    }

    /** readPacket for a packet that the reader's cipher, position and number fit. */
    method ReadPacket(ghost x: Side, ghost e: Entry, m: Msg) returns (ok: bool)
      requires Stands(x) && e.msg == m && !(Read(x, e) == Failed(CannotDecrypt))
      modifies reader
      ensures ok == (Read(x, e).Next? && Size(m) > 0) && (ok ==> Stands(Read(x, e).state))
    {
      ok := reader.ReadPacket(Some(m));
    }
  }
}
