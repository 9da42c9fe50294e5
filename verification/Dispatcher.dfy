/** The packet queue between the I/O threads and the game loop (Dispatcher.cpp), run by one thread.
    PacketFlow.dfy puts the same queue under every interleaving. */
module Dispatch {
  import opened Framing

  /** An SPacket. `hasBuffer` is false when malloc gave no block for an empty body. */
  datatype Packet = Packet(dnid: nat, body: Bytes, hasBuffer: bool)

  /** The packet onMessage builds; `mallocZero` says whether malloc(0) yields a block on this platform. */
  function PacketOf(dnid: nat, body: Bytes, mallocZero: bool): Packet {
    Packet(dnid, body, body != [] || mallocZero)
  }

  /** MESSAGETYPE, a uint16_t; the protocol field of a message is a single byte. */
  type MessageType = x: int | 0 <= x < 0x1_0000

  /** How a DispatchMsg call ends: normally, by calling an empty std::function, or by reading the
      protocol byte of an empty message. */
  datatype Outcome = Finished(count: nat) | NoCallback | NoProtocolByte

  function Delivered(packets: seq<Packet>): seq<Packet> {
    if packets == [] then []
    else
      var last := packets[|packets| - 1];
      Delivered(packets[..|packets| - 1]) + if last.hasBuffer then [last] else []
  }

  lemma DeliveredSnoc(packets: seq<Packet>, p: Packet)
    ensures Delivered(packets + [p]) == Delivered(packets) + if p.hasBuffer then [p] else []
  {
    assert (packets + [p])[..|packets|] == packets;
  }

  class Dispatcher {
    var bound: set<MessageType>   // message types with a callback
    var queue: seq<Packet>        // m_MsgQueue
    ghost var handled: seq<Packet> // every callback made so far, in order

    constructor ()
      ensures bound == {} && queue == [] && handled == []
    {
      bound, queue := {}, [];
      handled := [];
    }

    method BindCB(t: MessageType)
      modifies this`bound
      ensures bound == old(bound) + {t}
    {
      bound := bound + {t};
    }

    method PushPack(p: Packet)
      modifies this`queue
      ensures queue == old(queue) + [p]
    {
      queue := queue + [p];
    }

    method GetPack() returns (found: bool, p: Packet)
      modifies this`queue
      ensures found == (old(queue) != [])
      ensures found ==> old(queue) == [p] + queue
      ensures !found ==> queue == old(queue)
    {
      if queue == [] {
        return false, Packet(0, [], false);
      }
      found, p := true, queue[0];
      queue := queue[1..];
    }

    /** `clock(k)` is the k-th reading of the millisecond clock during the call, a QWORD like its differences. */
    method DispatchMsg(clock: nat -> nat) returns (out: Outcome, ghost popped: nat)
      modifies this`queue, this`handled
      ensures popped <= |old(queue)| && queue == old(queue)[popped..]
      // Every packet was popped on a reading within the second, and the call goes on until the queue is empty or
      // the second is over.
      ensures forall k :: 1 <= k <= popped ==> (clock(k) - clock(0)) % 0x1_0000_0000_0000_0000 <= 1000
      ensures out.Finished? ==> queue == [] || (clock(popped + 1) - clock(0)) % 0x1_0000_0000_0000_0000 > 1000
      // Exactly the packets with a buffer that were popped are handled, in queue order, and counted; each had a callback.
      ensures out.Finished? ==>
                && handled == old(handled) + Delivered(old(queue)[..popped])
                && out.count == |Delivered(old(queue)[..popped])|
                && AllCalled(bound, old(queue)[..popped])
      // An exception comes from the last popped packet; the ones before it are handled.
      ensures !out.Finished? ==>
                && 0 < popped && old(queue)[popped - 1].hasBuffer
                && handled == old(handled) + Delivered(old(queue)[..popped - 1])
                && AllCalled(bound, old(queue)[..popped - 1])
      ensures out.NoProtocolByte? ==> old(queue)[popped - 1].body == []
      ensures out.NoCallback? ==> old(queue)[popped - 1].body != [] && old(queue)[popped - 1].body[0] !in bound
    {
      hide Delivered, AllCalled;
      DeliveredNone(bound);
      ghost var all := queue;
      var count, ticks := 0, 1;
      var begin := clock(0);
      popped := 0;
      while Elapsed(begin, clock(ticks)) <= 1000
        invariant ticks == popped + 1
        invariant popped <= |old(queue)| && queue == old(queue)[popped..]
        invariant handled == old(handled) + Delivered(old(queue)[..popped])
        invariant count == |Delivered(old(queue)[..popped])|
        invariant forall k :: 1 <= k <= popped ==> Elapsed(clock(0), clock(k)) <= 1000
        invariant AllCalled(bound, old(queue)[..popped])
        decreases |queue|
      {
        ticks := ticks + 1;
        ghost var front := all[..popped];
        var found, p := GetPack();
        if !found {
          break;
        }
        Advance(all, popped, p, queue);
        DeliveredSnoc(front, p);
        CalledSnoc(bound, front, p);
        popped := popped + 1;
        if !p.hasBuffer {
          continue;
        }
        if p.body == [] {
          return NoProtocolByte, popped;
        }
        if p.body[0] !in bound {
          return NoCallback, popped;
        }
        handled := handled + [p];
        count := count + 1;
      }
      out := Finished(count);
    }
  }

  /** Every packet with a buffer has a protocol byte and a callback for it. */
  ghost predicate AllCalled(bound: set<MessageType>, ps: seq<Packet>) {
    forall k :: 0 <= k < |ps| && ps[k].hasBuffer ==> ps[k].body != [] && ps[k].body[0] in bound
  }

  lemma CalledSnoc(bound: set<MessageType>, ps: seq<Packet>, p: Packet)
    requires AllCalled(bound, ps)
    ensures AllCalled(bound, ps + [p]) <==> !p.hasBuffer || (p.body != [] && p.body[0] in bound)
  {
    assert (ps + [p])[|ps|] == p;
  }

  lemma DeliveredNone(bound: set<MessageType>)
    ensures Delivered([]) == [] && AllCalled(bound, [])
  {
  }

  lemma Advance(all: seq<Packet>, n: nat, p: Packet, rest: seq<Packet>)
    requires n <= |all| && all[n..] == [p] + rest
    ensures n < |all| && p == all[n] && rest == all[n + 1..] && all[..n + 1] == all[..n] + [p] && all[..n + 1][..n] == all[..n]
  {
    assert all[n..][0] == p && all[n..][1..] == rest;
  }

  /** With a clock that neither goes back nor wraps around, the differences are plain ones. */
  lemma WithinTheSecond(clock: nat -> nat, k: nat)
    requires clock(0) <= clock(k) < 0x1_0000_0000_0000_0000
    ensures (clock(k) - clock(0)) % 0x1_0000_0000_0000_0000 <= 1000 <==> clock(k) - clock(0) <= 1000
  {
  }

  /** QWORD subtraction. */
  function Elapsed(begin: nat, now: nat): nat {
    (now - begin) % 0x1_0000_0000_0000_0000
  }
}
