/** One direction of an established TCP connection: a sending socket, a
    receiving socket and the network between them.  A run is any sequence of
    steps; steps that are not possible in a state leave it unchanged. */
module Transport {
  import opened Sequences
  import opened Packets
  import opened TcpSpec

  /** `net` and `acks` are in transit and may arrive in any order.  The rest is
      history: every packet the sender numbered (`log`), the sequence numbers of
      packets that were dropped without a callback (`lost`), the bytes the writer
      was told were accepted, and the bytes the reader was given.  `fault` stands
      for a failed assertion or a null dereference, after which nothing runs;
      `stale` for the branch that reports a sequence number below the expected
      one. */
  datatype System = System(
    snd: Sock,
    rcv: Sock,
    net: seq<Packet>,
    acks: seq<nat>,
    log: seq<Packet>,
    lost: seq<nat>,
    accepted: seq<Byte>,
    delivered: seq<Byte>,
    eofRead: bool,
    stale: bool,
    fault: bool)

  /** `drops` are the sequence numbers that some hop drops synchronously while
      the packet is being handed over; `i` picks a packet in transit. */
  datatype Step =
    | Write(wbufs: seq<seq<Byte>>, wdrops: set<nat>)
    | CloseSender
    | Drop(i: nat)
    | Deliver(i: nat)
    | AckArrives(i: nat, adrops: set<nat>)
    | Read(rbufs: seq<seq<Byte>>)

  function Init(mss: Pos): (s: System)
  {
    System(Established(mss), Established(mss), [], [], [], [], [], [], false, false, false)
  }

  /** The packets that no hop drops while they are being handed over. */
  function Surviving(ps: seq<Packet>, drops: set<nat>): (r: seq<Packet>)
  {
    if ps == [] then []
    else (if ps[0].seqNr in drops then [] else [ps[0]]) + Surviving(ps[1..], drops)
  }

  function DroppedSeqs(ps: seq<Packet>, drops: set<nat>): (r: seq<nat>)
  {
    if ps == [] then []
    else (if ps[0].seqNr in drops then [ps[0].seqNr] else []) + DroppedSeqs(ps[1..], drops)
  }

  function NextWrite(s: System, bufs: seq<seq<Byte>>, drops: set<nat>): (r: System)
  {
    var w := WriteSome(s.snd, bufs, drops);
    s.(snd := w.st,
       log := s.log + w.sent,
       net := s.net + Surviving(w.sent, drops),
       accepted := s.accepted + Flatten(bufs)[..Min(w.ret, |Flatten(bufs)|)])
  }

  function NextClose(s: System): (r: System)
  {
    if !s.snd.channel then s
    else
      var c := Close(s.snd);
      s.(snd := c.0, log := s.log + c.1, net := s.net + c.1)
  }

  /** A hop drops a packet.  Returning it to a sender that has closed
      dereferences a null channel (src/tcp_socket.cpp:807). */
  predicate ReturnsAfterClose(s: System, step: Step)
  {
    && step.Drop? && step.i < |s.net|
    && s.net[step.i].OkToDrop() && s.net[step.i].returnable && !s.snd.channel
  }

  function NextDrop(s: System, i: nat): (r: System)
  {
    if i >= |s.net| || !s.net[i].OkToDrop() then s
    else
      var p := s.net[i];
      var s1 := s.(net := RemoveAt(s.net, i));
      if !p.returnable then s1.(lost := s.lost + [p.seqNr])
      else if !s.snd.channel then s.(fault := true)
      else s1.(snd := PacketDropped(s.snd, p.(returnable := false)))
  }

  function NextDeliver(s: System, i: nat): (r: System)
  {
    if i >= |s.net| then s
    else if !s.rcv.channel then s.(fault := true)
    else
      var p := s.net[i];
      s.(net := RemoveAt(s.net, i),
         acks := s.acks + [p.seqNr],
         rcv := IncomingData(s.rcv, p),
         stale := s.stale || p.seqNr < s.rcv.nextIn)
  }

  /** An ack reaches the sender; once the sender has closed it vanishes. */
  function NextAck(s: System, i: nat, drops: set<nat>): (r: System)
  {
    if i >= |s.acks| then s
    else if !s.snd.channel then s.(acks := RemoveAt(s.acks, i))
    else if s.acks[i] !in s.snd.outstanding || s.snd.inFlight < s.snd.outstanding[s.acks[i]] || s.snd.cwnd <= 0 then
      s.(fault := true)
    else
      var w := IncomingAck(s.snd, s.acks[i]);
      s.(snd := w.st,
         acks := RemoveAt(s.acks, i),
         net := s.net + Surviving(w.sent, drops),
         lost := s.lost + DroppedSeqs(w.sent, drops))
  }

  function NextRead(s: System, bufs: seq<seq<Byte>>): (r: System)
  {
    var r := ReadSome(s.rcv, bufs);
    if |Flatten(bufs)| > 0 && r.ec == NoError && r.ret == 0 then s.(fault := true)
    else
      s.(rcv := r.st,
         delivered := s.delivered + Flatten(r.bufs)[..Min(r.ret, |Flatten(r.bufs)|)],
         eofRead := s.eofRead || r.ec == Eof)
  }

  function Next(s: System, step: Step): (r: System)
  {
    if s.fault then s
    else
      match step
      case Write(bufs, drops) => NextWrite(s, bufs, drops)
      case CloseSender => NextClose(s)
      case Drop(i) => NextDrop(s, i)
      case Deliver(i) => NextDeliver(s, i)
      case AckArrives(i, drops) => NextAck(s, i, drops)
      case Read(bufs) => NextRead(s, bufs)
  }

  function Exec(s: System, steps: seq<Step>): (r: System)
  {
    if steps == [] then s
    else Next(Exec(s, steps[..|steps| - 1]), steps[|steps| - 1])
  }
}

/** The same steps, one packet at a time. */
module MicroSteps {
  import opened Packets
  import opened TcpSpec
  import opened Transport

  function EmitOne(s: System, seg: seq<Byte>, drops: set<nat>): (r: System)
  {
    var p := DataPacket(s.snd.nextOut, seg);
    s.(snd := EmitSegment(s.snd, seg, drops),
       log := s.log + [p],
       net := s.net + (if p.seqNr in drops then [] else [p]),
       accepted := s.accepted + seg)
  }

  function EmitMany(s: System, segs: seq<seq<Byte>>, drops: set<nat>): (r: System)
    decreases |segs|
  {
    if segs == [] then s
    else
      var s1 := EmitOne(s, segs[0], drops);
      if s1.snd.Writable() then EmitMany(s1, segs[1..], drops) else s1
  }

  lemma {:induction false} EmitManyIsWriteLoop(s: System, segs: seq<seq<Byte>>, drops: set<nat>)
    ensures var w := WriteLoop(s.snd, segs, drops);
            EmitMany(s, segs, drops) ==
            s.(snd := w.st, log := s.log + w.sent, net := s.net + Surviving(w.sent, drops),
               accepted := s.accepted + PayloadOf(w.sent))
    decreases |segs|
  {
    hide EmitSegment;
    var w := WriteLoop(s.snd, segs, drops);
    if segs == [] {
      assert s.log + [] == s.log && s.net + [] == s.net && s.accepted + [] == s.accepted;
    } else {
      var p := DataPacket(s.snd.nextOut, segs[0]);
      var s1 := EmitOne(s, segs[0], drops);
      var here := if p.seqNr in drops then [] else [p];
      if s1.snd.Writable() {
        EmitManyIsWriteLoop(s1, segs[1..], drops);
        var w1 := WriteLoop(s1.snd, segs[1..], drops);
        Associate(s.log, [p], w1.sent);
        Associate(s.net, here, Surviving(w1.sent, drops));
        Associate(s.accepted, segs[0], PayloadOf(w1.sent));
        HeadOf(p, w1.sent, drops);
      } else {
        HeadOf(p, [], drops);
        assert here + [] == here && segs[0] + [] == segs[0] && [p] + [] == [p];
      }
    }
  }

  lemma HeadOf(p: Packet, rest: seq<Packet>, drops: set<nat>)
    ensures Surviving([p] + rest, drops) == (if p.seqNr in drops then [] else [p]) + Surviving(rest, drops)
    ensures DroppedSeqs([p] + rest, drops) == (if p.seqNr in drops then [p.seqNr] else []) + DroppedSeqs(rest, drops)
    ensures PayloadOf([p] + rest) == p.buffer + PayloadOf(rest)
  {
    assert ([p] + rest)[1..] == rest;
  }

  lemma Associate<T>(a: seq<T>, b: seq<T>, c: seq<T>)
    ensures (a + b) + c == a + (b + c)
  {
  }

  function ResendStep(s: System, drops: set<nat>): (r: System)
    requires s.snd.outgoing != []
  {
    var p := s.snd.outgoing[0];
    s.(snd := ResendOne(s.snd),
       net := s.net + (if p.seqNr in drops then [] else [p]),
       lost := s.lost + (if p.seqNr in drops then [p.seqNr] else []))
  }

  function ResendMany(s: System, drops: set<nat>): (r: System)
    decreases |s.snd.outgoing|
  {
    if MayResend(s.snd) then ResendMany(ResendStep(s, drops), drops) else s
  }

  lemma {:induction false} ResendManyIsResendLoop(s: System, drops: set<nat>)
    ensures var w := ResendLoop(s.snd);
            ResendMany(s, drops) ==
            s.(snd := w.st, net := s.net + Surviving(w.sent, drops), lost := s.lost + DroppedSeqs(w.sent, drops))
    decreases |s.snd.outgoing|
  {
    if !MayResend(s.snd) {
      assert s.net + [] == s.net && s.lost + [] == s.lost;
    } else {
      var p := s.snd.outgoing[0];
      var s1 := ResendStep(s, drops);
      hide ResendOne;
      ResendManyIsResendLoop(s1, drops);
      var w1 := ResendLoop(s1.snd);
      Associate(s.net, if p.seqNr in drops then [] else [p], Surviving(w1.sent, drops));
      Associate(s.lost, if p.seqNr in drops then [p.seqNr] else [], DroppedSeqs(w1.sent, drops));
      HeadOf(p, w1.sent, drops);
    }
  }
}
