/** The packet record that all hops and sockets exchange (include/simulator/packet.hpp). */
module Packets {

  newtype Byte = b: int | 0 <= b < 256

  /** Segment sizes are positive. */
  type Pos = n: int | 0 < n witness 1

  datatype ErrorCode =
    | NoError
    | BadDescriptor
    | NotConnected
    | WouldBlock
    | Eof
    | ConnectionReset
    | InvalidArgument
    | MessageSize
    | AccessDenied
    | AddressInUse

  datatype Kind = Uninitialized | Syn | SynAck | Ack | Error | Payload

  /** `returnable` says whether the packet still carries a drop callback: the
      hop that drops a packet moves the callback out before calling it. */
  datatype Packet = Packet(
    kind: Kind,
    seqNr: nat,
    buffer: seq<Byte>,
    overhead: nat,
    ec: ErrorCode,
    returnable: bool)
  {
    /** Acks, handshake replies and errors are never dropped. */
    predicate OkToDrop()
    {
      kind != SynAck && kind != Ack && kind != Error
    }

    /** What the packet occupies on a link. */
    function Size(): (r: nat)
    {
      |buffer| + overhead
    }
  }

  /** The payload carried by a list of packets, in order. */
  function PayloadOf(ps: seq<Packet>): (r: seq<Byte>)
  {
    if ps == [] then [] else ps[0].buffer + PayloadOf(ps[1..])
  }

  lemma {:induction false} PayloadConcat(a: seq<Packet>, b: seq<Packet>)
    ensures PayloadOf(a + b) == PayloadOf(a) + PayloadOf(b)
  {
    if a == [] {
      assert a + b == b;
    } else {
      assert (a + b)[1..] == a[1..] + b;
      PayloadConcat(a[1..], b);
    }
  }

  lemma PayloadSnoc(a: seq<Packet>, p: Packet)
    ensures PayloadOf(a + [p]) == PayloadOf(a) + p.buffer
  {
    PayloadConcat(a, [p]);
    assert PayloadOf([p]) == p.buffer + PayloadOf([]);
  }

  /** The sequence numbers of a list of packets. */
  function Seqs(ps: seq<Packet>): (r: seq<nat>)
    ensures |r| == |ps|
    ensures forall i :: 0 <= i < |ps| ==> r[i] == ps[i].seqNr
  {
    seq(|ps|, i requires 0 <= i < |ps| => ps[i].seqNr)
  }
}
