/** The linked-list buffer between the packet loop and a channel's reader (buffer.go). */
module Buffers {
  import opened ByteStrings

  class Element {
    var buf: Bytes
    var next: Element?

    constructor (buf: Bytes)
      ensures this.buf == buf && next == null
    {
      this.buf := buf;
      next := null;
    }
  }

  /** How a call of Read ends: with bytes (or an empty request), with io.EOF, or by waiting for the producer. */
  datatype Outcome = Done | EOF | Wait

  function Flatten(bufs: seq<Bytes>): Bytes {
    if bufs == [] then [] else bufs[0] + Flatten(bufs[1..])
  }

  lemma {:induction false} FlattenSnoc(bufs: seq<Bytes>, b: Bytes)
    ensures Flatten(bufs + [b]) == Flatten(bufs) + b
  {
    if bufs == [] {
      assert [b][1..] == [];
    } else {
      assert (bufs + [b])[1..] == bufs[1..] + [b];
      FlattenSnoc(bufs[1..], b);
    }
  }

  class Buffer {
    var head: Element
    var tail: Element
    var closed: bool

    ghost var nodes: seq<Element>
    ghost var bufs: seq<Bytes>

    ghost predicate Valid()
      reads this, nodes
    {
      && |nodes| == |bufs| > 0
      && nodes[0] == head && nodes[|nodes| - 1] == tail && tail.next == null
      && (forall i | 0 <= i < |nodes| - 1 :: nodes[i].next == nodes[i + 1])
      && (forall i, j | 0 <= i < j < |nodes| :: nodes[i] != nodes[j])
      && (forall i | 0 <= i < |nodes| :: nodes[i].buf == bufs[i])
    }

    /** The queued bytes, whatever way they are cut into elements. */
    ghost function Contents(): Bytes
      reads this
    {
      Flatten(bufs)
    }

    constructor ()
      ensures Valid() && Contents() == [] && !closed && fresh(nodes)
    {
      var e := new Element([]);
      head, tail, closed := e, e, false;
      nodes, bufs := [e], [[]];
      new;
      assert Flatten([[]]) == [] + Flatten([[]][1..]);
    }

    method Write(buf: Bytes)
      requires Valid()
      modifies this, tail
      ensures Valid() && fresh(nodes[|nodes| - 1]) && nodes[..|nodes| - 1] == old(nodes)
      ensures Contents() == old(Contents()) + buf
      ensures closed == old(closed)
    {
      var e := new Element(buf);
      tail.next := e;
      tail := e;
      FlattenSnoc(bufs, buf);
      nodes, bufs := nodes + [e], bufs + [buf];
    }

    method Eof()
      requires Valid()
      modifies this`closed
      ensures Valid() && closed
    {
      closed := true;
    }

    /** Read: fills dst from its front with min(dst.Length, available) bytes and removes exactly those; reports
        EOF only for a closed buffer that is drained, and waits only on an open one that is empty. */
    method Read(dst: array<byte>) returns (n: nat, outcome: Outcome)
      requires Valid()
      modifies this`head, this`nodes, this`bufs, nodes, dst
      ensures Valid() && forall e | e in nodes :: e in old(nodes)
      ensures n == if dst.Length <= |old(Contents())| then dst.Length else |old(Contents())|
      ensures dst[..n] == old(Contents())[..n]
      ensures forall i | n <= i < dst.Length :: dst[i] == old(dst[i])
      ensures Contents() == old(Contents())[n..]
      ensures outcome == if n > 0 || dst.Length == 0 then Done else if closed then EOF else Wait
    {
      n := 0;
      outcome := Done;
      ghost var all := Contents();
      while n < dst.Length
        invariant n <= dst.Length && outcome == Done
        invariant Valid() && forall e | e in nodes :: e in old(nodes)
        invariant dst[..n] + Contents() == all
        invariant forall i | n <= i < dst.Length :: dst[i] == old(dst[i])
        decreases dst.Length - n, |nodes|
      {
        if |head.buf| > 0 {
          assert nodes[0] in nodes;
          n := TakeFromHead(dst, n, all);
        } else if head != tail {
          DropHead();
        } else {
          HeadIsLast();
          assert dst[..n] == all;
          if n == 0 {
            if closed {
              outcome := EOF;
            } else {
              outcome := Wait;
            }
          }
          assert n == |all|;
          break;
        }
      }
      assert all[..n] == dst[..n] && all[n..] == Contents();
    }

    /** Moves on from a used-up element. */
    method DropHead()
      requires Valid() && |head.buf| == 0 && head != tail
      modifies this`head, this`nodes, this`bufs
      ensures Valid() && nodes == old(nodes)[1..] && Contents() == old(Contents())
    {
      assert head.next == nodes[1];
      assert Flatten(bufs) == [] + Flatten(bufs[1..]);
      head := head.next;
      nodes, bufs := nodes[1..], bufs[1..];
    }

    /** An element that is both first and last is the only one; when it is empty the buffer is. */
    lemma HeadIsLast()
      requires Valid() && head == tail && |head.buf| == 0
      ensures Contents() == []
    {
      assert |nodes| == 1;
      assert bufs[1..] == [];
      assert Flatten(bufs) == bufs[0] + [];
    }

    /** The copy step of Read: moves bytes from the head element to dst[n..]. */
    method TakeFromHead(dst: array<byte>, n: nat, ghost all: Bytes) returns (n': nat)
      requires Valid() && n < dst.Length && |head.buf| > 0
      requires dst[..n] + Contents() == all
      modifies this`bufs, head`buf, dst
      ensures Valid() && n < n' <= dst.Length
      ensures dst[..n'] + Contents() == all
      ensures forall i | n' <= i < dst.Length :: dst[i] == old(dst[i])
    {
      var src := head.buf;
      var r := if |src| < dst.Length - n then |src| else dst.Length - n;
      CopyAt(dst, n, src[..r]);
      head.buf := src[r..];
      ghost var rest := Flatten(bufs[1..]);
      bufs := [src[r..]] + bufs[1..];
      assert bufs[1..] == old(bufs)[1..];
      n' := n + r;
      assert src == src[..r] + src[r..];
      assert old(dst[..n]) + src[..r] + (src[r..] + rest) == old(dst[..n]) + (src + rest);
    }
  }

  /** Go's copy(dst[n:], src) for a source that fits. */
  method CopyAt(dst: array<byte>, n: nat, src: Bytes)
    requires n + |src| <= dst.Length
    modifies dst
    ensures dst[..n + |src|] == old(dst[..n]) + src
    ensures forall i | n + |src| <= i < dst.Length :: dst[i] == old(dst[i])
  {
    for i := 0 to |src|
      invariant forall j | 0 <= j < n :: dst[j] == old(dst[j])
      invariant forall j | n <= j < n + i :: dst[j] == src[j - n]
      invariant forall j | n + i <= j < dst.Length :: dst[j] == old(dst[j])
    {
      dst[n + i] := src[i];
    }
  }
}
