/** Concrete runs in which a connection does what one would not expect. */
module TransportRuns {
  import opened Sequences
  import opened Packets
  import opened ReceiveFacts
  import opened TcpSpec
  import opened Transport
  import opened MicroSteps
  import opened TransportInv
  import opened TransportSteps
  import opened TransportDelivery
  import opened TransportTheorems

  /** Losses happen: two packets, the first is dropped, the ack of the second
      makes the sender re-send it, and it is dropped again.  The one byte that
      is outstanding then counts as two in flight. */
  lemma SecondDropLoses()
    ensures var s := Exec(Init(2), [Write([[7], [8]], {}), Drop(0), Deliver(0), AckArrives(0, {0})]);
            && s.lost == [0] && s.net == [] && s.snd.outgoing == [] && s.acks == [] && !s.fault
            && s.snd.hist.resent == 1 && s.snd.inFlight == 2 && SumUpTo(s.snd.outstanding, |s.log|) == 1
  {
    var steps := [Write([[7], [8]], {}), Drop(0), Deliver(0), AckArrives(0, {0})];
    assert steps[..3] == [steps[0], steps[1], steps[2]] && steps[..3][..2] == [steps[0], steps[1]];
    assert steps[..3][..2][..1] == [steps[0]] && [steps[0]][..0] == [];
    hide Next;
    var s1 := TwoPackets();
    var s2 := FirstDropped(s1);
    var s3 := SecondDelivered(s2);
    var s4 := FirstLost(s3);
    assert Exec(Init(2), []) == Init(2);
    assert Exec(Init(2), [steps[0]]) == s1;
    assert Exec(Init(2), [steps[0], steps[1]]) == s2;
    assert Exec(Init(2), steps[..3]) == s3;
  }

  /** Late returns happen: write, close, and let a hop drop the first packet. */
  lemma LateReturnHappens()
    ensures Exec(Init(2), [Write([[7], [8]], {}), CloseSender, Drop(0)]).fault
  {
    hide Next;
    var steps := [Write([[7], [8]], {}), CloseSender, Drop(0)];
    assert steps[..2] == [steps[0], steps[1]] && steps[..2][..1] == [steps[0]] && [steps[0]][..0] == [];
    var s1 := TwoPackets();
    CloseThenDropFaults(s1, 0);
    assert Exec(Init(2), []) == Init(2);
    assert Exec(Init(2), [steps[0]]) == s1;
    assert Exec(Init(2), steps[..2]) == Next(s1, CloseSender);
  }

  /** A close strands what waits to be re-sent: the first of two packets is
      dropped, the sender closes, and the rest arrives.  Nothing was lost and no
      assertion failed, but the reader gets no byte and no eof (see StuckIsFinal). */
  lemma CloseStrands()
    ensures var s := Exec(Init(2), [Write([[7], [8]], {}), Drop(0), CloseSender, Deliver(0), Deliver(0)]);
            && s.net == [] && s.lost == [] && !s.fault && Stuck(s) && s.snd.outgoing != []
            && s.accepted == [7, 8] && s.delivered == [] && s.rcv.incoming == []
  {
    var steps := [Write([[7], [8]], {}), Drop(0), CloseSender, Deliver(0), Deliver(0)];
    assert steps[..4] == [steps[0], steps[1], steps[2], steps[3]];
    assert steps[..4][..3] == [steps[0], steps[1], steps[2]] && steps[..4][..3][..2] == [steps[0], steps[1]];
    assert steps[..4][..3][..2][..1] == [steps[0]] && [steps[0]][..0] == [];
    hide Next;
    var s1 := TwoPackets();
    var s2 := FirstDropped(s1);
    var s3 := ClosedAfterDrop(s2);
    var s4 := HeldBack(s3);
    var s5 := HeldBack(s4);
    assert Exec(Init(2), []) == Init(2);
    assert Exec(Init(2), [steps[0]]) == s1;
    assert Exec(Init(2), [steps[0], steps[1]]) == s2;
    assert Exec(Init(2), steps[..4][..3]) == s3;
    assert Exec(Init(2), steps[..4]) == s4;
  }

  /** One drop is enough to stall an open connection: with a single packet
      nothing else is acked, and the halved window has no room. */
  lemma OneDropStalls()
    ensures var s := Exec(Init(2), [Write([[7]], {}), Drop(0)]);
            Quiet(s) && Stuck(s) && s.snd.channel && s.snd.outgoing != [] && s.lost == [] && !s.fault
  {
    var steps := [Write([[7]], {}), Drop(0)];
    assert steps[..1] == [steps[0]] && [steps[0]][..0] == [];
    hide Next;
    var s1 := OnePacket();
    assert Exec(Init(2), []) == Init(2);
    assert Exec(Init(2), [steps[0]]) == s1;
    OnlyOneDropped(s1);
  }

  lemma OnePacket() returns (s: System)
    ensures s == Next(Init(2), Write([[7]], {}))
    ensures s.net == [DataPacket(0, [7])] && s.acks == [] && s.lost == [] && !s.fault
    ensures s.snd.channel && s.snd.cwnd == 4 && s.snd.mss == 2 && s.snd.lastDrop == 0 && s.snd.inFlight == 1
  {
    var s0 := Init(2);
    s := Next(s0, Write([[7]], {}));
    SplitWhole([[7]], 2);
    NextWriteIsEmitMany(s0, [[7]], {});
    var s1 := EmitOne(s0, [7], {});
    assert EmitMany(s0, [[7]], {}) == s1 by {
      assert [[7 as Byte]][1..] == [];
    }
  }

  lemma OnlyOneDropped(s1: System)
    requires s1.net == [DataPacket(0, [7])] && s1.acks == [] && s1.lost == [] && !s1.fault
    requires s1.snd.channel && s1.snd.cwnd == 4 && s1.snd.mss == 2 && s1.snd.lastDrop == 0 && s1.snd.inFlight == 1
    ensures var s := Next(s1, Drop(0));
            Quiet(s) && Stuck(s) && s.snd.channel && s.snd.outgoing != [] && s.lost == [] && !s.fault
  {
    assert RemoveAt(s1.net, 0) == [];
  }

  lemma ClosedAfterDrop(s2: System) returns (s: System)
    requires s2.net == [DataPacket(1, [8])] && !s2.fault && s2.snd.nextOut == 2
    requires s2.snd.channel && s2.snd.hops > 0 && !s2.snd.connecting
    ensures s == Next(s2, CloseSender)
    ensures s.net == [DataPacket(1, [8]), EofPacket(2)] && !s.snd.channel && s.snd.outgoing == s2.snd.outgoing
    ensures s == s2.(net := s.net, snd := s.snd, log := s.log)
  {
    s := Next(s2, CloseSender);
  }

  /** A packet that is not the next one is held back. */
  lemma HeldBack(s1: System) returns (s: System)
    requires s1.net != [] && s1.net[0].seqNr > 0 && !s1.fault && s1.rcv.channel && s1.rcv.nextIn == 0
    ensures s == Next(s1, Deliver(0))
    ensures s.net == s1.net[1..] && s.rcv.channel && s.rcv.nextIn == 0 && s.rcv.incoming == s1.rcv.incoming
    ensures s == s1.(net := s.net, acks := s.acks, rcv := s.rcv, stale := s.stale)
  {
    s := Next(s1, Deliver(0));
    assert RemoveAt(s1.net, 0) == s1.net[1..];
  }

  lemma TwoPackets() returns (s: System)
    ensures s == Next(Init(2), Write([[7], [8]], {}))
    ensures s.net == [DataPacket(0, [7]), DataPacket(1, [8])] && s.acks == [] && s.lost == [] && !s.fault
    ensures s.snd.channel && s.snd.cwnd == 4 && s.snd.mss == 2 && s.snd.lastDrop == 0 && s.snd.outgoing == []
    ensures s.snd.inFlight == 2 && s.snd.outstanding == map[0 := 1, 1 := 1]
    ensures s.rcv.channel && s.rcv.nextIn == 0 && s.rcv.reorder == map[] && s.rcv.incoming == []
    ensures |s.log| == 2 && s.snd.nextOut == 2 && s.snd.hist.resent == 0 && s.snd.hops == 1 && !s.snd.connecting
    ensures s.accepted == [7, 8] && s.delivered == []
  {
    var s0 := Init(2);
    var segs := [[7], [8]];
    s := Next(s0, Write(segs, {}));
    SplitWhole(segs, 2);
    NextWriteIsEmitMany(s0, segs, {});
    var s1 := EmitOne(s0, [7], {});
    assert segs[1..] == [[8]];
    var s2 := EmitOne(s1, [8], {});
    assert EmitMany(s1, [[8]], {}) == s2 by {
      assert [[8 as Byte]][1..] == [];
    }
  }

  lemma FirstDropped(s1: System) returns (s: System)
    requires s1.net == [DataPacket(0, [7]), DataPacket(1, [8])] && s1.acks == [] && s1.lost == [] && !s1.fault
    requires s1.snd.channel && s1.snd.cwnd == 4 && s1.snd.mss == 2 && s1.snd.lastDrop == 0 && s1.snd.outgoing == []
    ensures s == Next(s1, Drop(0))
    ensures s == s1.(net := [DataPacket(1, [8])], snd := s.snd)
    ensures s.snd == s1.snd.(cwnd := 2, outgoing := [DataPacket(0, [7]).(returnable := false)], hist := s.snd.hist)
    ensures s.snd.hist.resent == s1.snd.hist.resent
  {
    s := Next(s1, Drop(0));
    assert RemoveAt(s1.net, 0) == [DataPacket(1, [8])];
  }

  lemma SecondDelivered(s2: System) returns (s: System)
    requires s2.net == [DataPacket(1, [8])] && s2.acks == [] && !s2.fault
    requires s2.rcv.channel && s2.rcv.nextIn == 0 && s2.rcv.reorder == map[]
    ensures s == Next(s2, Deliver(0))
    ensures s == s2.(net := [], acks := [1], rcv := s.rcv, stale := s.stale)
  {
    s := Next(s2, Deliver(0));
    assert RemoveAt(s2.net, 0) == [];
  }

  lemma FirstLost(s3: System) returns (s: System)
    requires s3.net == [] && s3.acks == [1] && s3.lost == [] && !s3.fault
    requires s3.snd.channel && s3.snd.cwnd == 2 && s3.snd.mss == 2 && s3.snd.inFlight == 2
    requires s3.snd.outstanding == map[0 := 1, 1 := 1] && |s3.log| == 2 && s3.snd.hist.resent == 0
    requires s3.snd.outgoing == [DataPacket(0, [7]).(returnable := false)]
    ensures s == Next(s3, AckArrives(0, {0}))
    ensures s.snd.hist.resent == 1 && s.snd.inFlight == 2 && SumUpTo(s.snd.outstanding, |s.log|) == 1
    ensures s.lost == [0] && s.net == [] && s.snd.outgoing == [] && s.acks == [] && !s.fault
  {
    s := Next(s3, AckArrives(0, {0}));
    var p := DataPacket(0, [7]).(returnable := false);
    var t := TakeAck(s3.snd, 1);
    assert t.inFlight == 1 && MayResend(t);
    var u := ResendOne(t);
    assert u.outgoing == [];
    assert ResendLoop(u) == Written(u, []);
    assert ResendLoop(t) == Written(u, [p]);
    assert Surviving([p], {0}) == [] && DroppedSeqs([p], {0}) == [0];
    assert RemoveAt(s3.acks, 0) == [];
    assert s.snd.outstanding == map[0 := 1];
    assert SumUpTo(s.snd.outstanding, 1) == 1;
  }

  // ---------------------------------------------------------------------------
  // Longer runs

  lemma ExecStep(s: System, steps: seq<Step>, k: nat)
    requires k < |steps|
    ensures Exec(s, steps[..k + 1]) == Next(Exec(s, steps[..k]), steps[k])
  {
    assert steps[..k + 1][..k] == steps[..k];
  }

  /** Buffers of at most one segment are sent as they are. */
  lemma {:induction false} SplitWhole(bufs: seq<seq<Byte>>, mss: Pos)
    requires forall i :: 0 <= i < |bufs| ==> 0 < |bufs[i]| <= mss
    ensures SplitAll(bufs, mss) == bufs
  {
    if bufs != [] {
      var b := bufs[0];
      assert b[..|b|] == b && b[|b|..] == [];
      assert Split([], mss) == [] && Split(b, mss) == [b];
      SplitWhole(bufs[1..], mss);
      assert bufs == [b] + bufs[1..];
    }
  }

  lemma {:induction false} NoneDropped(ps: seq<Packet>)
    ensures Surviving(ps, {}) == ps && DroppedSeqs(ps, {}) == []
  {
    if ps != [] {
      NoneDropped(ps[1..]);
      assert ps == [ps[0]] + ps[1..];
    }
  }

  lemma {:induction false} DrainStaysOpen(s: Sock)
    ensures Drain(s).channel == s.channel
    decreases |s.reorder|
  {
    if s.nextIn in s.reorder {
      DrainStep(s);
      var r := s.(reorder := s.reorder - {s.nextIn}, nextIn := s.nextIn + 1);
      DrainStaysOpen(r.(incoming := s.incoming + [s.reorder[s.nextIn]]));
    }
  }

  /** Nothing has gone wrong and both ends are open. */
  predicate Up(s: System)
  {
    !s.fault && s.snd.channel && s.rcv.channel && s.lost == []
  }

  lemma DropAt(s: System, i: nat) returns (r: System)
    requires Up(s) && i < |s.net| && s.net[i].OkToDrop() && s.net[i].returnable
    ensures r == Next(s, Drop(i)) && Up(r)
    ensures r.net == RemoveAt(s.net, i) && r.acks == s.acks
    ensures r.snd == PacketDropped(s.snd, s.net[i].(returnable := false))
  {
    r := Next(s, Drop(i));
  }

  lemma DeliverAt(s: System, i: nat) returns (r: System)
    requires Up(s) && i < |s.net|
    ensures r == Next(s, Deliver(i)) && Up(r)
    ensures r.net == RemoveAt(s.net, i) && r.acks == s.acks + [s.net[i].seqNr] && r.snd == s.snd
  {
    r := Next(s, Deliver(i));
    DrainStaysOpen(s.rcv.(nextIn := s.rcv.nextIn + 1, incoming := s.rcv.incoming + [s.net[i]]));
    hide Drain;
  }

  lemma AckFirst(s: System) returns (r: System)
    requires Up(s) && s.acks != [] && s.acks[0] in s.snd.outstanding && s.snd.cwnd > 0
    requires s.snd.inFlight >= s.snd.outstanding[s.acks[0]]
    ensures r == Next(s, AckArrives(0, {})) && Up(r)
    ensures var w := IncomingAck(s.snd, s.acks[0]);
            r.snd == w.st && r.net == s.net + w.sent && r.acks == s.acks[1..]
  {
    r := Next(s, AckArrives(0, {}));
    NoneDropped(IncomingAck(s.snd, s.acks[0]).sent);
    assert RemoveAt(s.acks, 0) == s.acks[1..];
    assert s.lost + [] == s.lost;
    hide IncomingAck;
    ResendKeepsOpen(TakeAck(s.snd, s.acks[0]));
  }

  lemma {:induction false} ResendKeepsOpen(s: Sock)
    ensures ResendLoop(s).st.channel == s.channel
    decreases |s.outgoing|
  {
    if MayResend(s) { ResendKeepsOpen(ResendOne(s)); }
  }

  /** A fresh packet is sent and fits the window with room to spare, or not. */
  lemma EmitSegmentOpen(s: System, seg: seq<Byte>) returns (r: System)
    requires Up(s)
    ensures r == EmitOne(s, seg, {}) && Up(r)
    ensures r.net == s.net + [DataPacket(s.snd.nextOut, seg)] && r.acks == s.acks
    ensures r.snd == SendPacket(s.snd.(nextOut := s.snd.nextOut + 1), DataPacket(s.snd.nextOut, seg))
  {
    r := EmitOne(s, seg, {});
  }

  lemma EmitManyStep(s: System, segs: seq<seq<Byte>>)
    requires segs != []
    ensures var s1 := EmitOne(s, segs[0], {});
            EmitMany(s, segs, {}) == if s1.snd.Writable() then EmitMany(s1, segs[1..], {}) else s1
  {
  }

  lemma WholeWrite(mss: Pos, segs: seq<seq<Byte>>)
    requires forall i :: 0 <= i < |segs| ==> 0 < |segs[i]| <= mss
    ensures Next(Init(mss), Write(segs, {})) == EmitMany(Init(mss), segs, {})
  {
    hide WriteLoop;
    hide EmitMany;
    SplitWhole(segs, mss);
    NextWriteIsEmitMany(Init(mss), segs, {});
  }

  const HALVING_TWICE := [Write([[7], [8], [9, 10]], {}), Drop(0), Deliver(1), AckArrives(0, {}), Drop(0)]

  /** The halving at sequence number 0 is not remembered: the window grows back to
      two packets, and dropping the next number halves it again. */
  lemma HalvedAgainWithinWindow()
    ensures var s := Exec(Init(2), HALVING_TWICE);
            && s.snd.hist.cuts == [Cut(0, 4), Cut(1, 4)]
            && s.snd.hist.cuts[1].seqNr < s.snd.hist.cuts[0].seqNr + s.snd.hist.cuts[1].cwnd / s.snd.mss
  {
    hide Next;
    var steps := HALVING_TWICE;
    var s0 := Init(2);
    assert Exec(s0, steps[..0]) == s0;
    var s1 := ThreePackets();
    ExecStep(s0, steps, 0);
    var s2 := DropAt(s1, 0);
    ExecStep(s0, steps, 1);
    var s3 := DeliverAt(s2, 1);
    ExecStep(s0, steps, 2);
    var s4 := SecondWindow(s3);
    ExecStep(s0, steps, 3);
    var s5 := DropAt(s4, 0);
    ExecStep(s0, steps, 4);
    assert steps[..5] == steps;
  }

  lemma ThreePackets() returns (s: System)
    ensures s == Next(Init(2), Write([[7], [8], [9, 10]], {})) && Up(s)
    ensures s.net == [DataPacket(0, [7]), DataPacket(1, [8]), DataPacket(2, [9, 10])] && s.acks == []
    ensures s.snd.cwnd == 4 && s.snd.mss == 2 && s.snd.inFlight == 4 && s.snd.lastDrop == 0
    ensures s.snd.outstanding == map[0 := 1, 1 := 1, 2 := 2] && s.snd.outgoing == [] && s.snd.hist.cuts == []
  {
    hide EmitOne;
    hide EmitMany;
    hide Next;
    var s0 := Init(2);
    var segs: seq<seq<Byte>> := [[7], [8], [9, 10]];
    s := Next(s0, Write(segs, {}));
    WholeWrite(2, segs);
    var s1 := EmitSegmentOpen(s0, [7]);
    EmitManyStep(s0, segs);
    var tail: seq<seq<Byte>> := [[9, 10]];
    assert segs[1..] == [[8]] + tail && segs[1..][1..] == tail;
    var s2 := EmitSegmentOpen(s1, [8]);
    EmitManyStep(s1, segs[1..]);
    var s3 := EmitSegmentOpen(s2, [9, 10]);
    EmitManyStep(s2, tail);
    assert !s3.snd.Writable();
  }

  lemma SecondWindow(s3: System) returns (s: System)
    requires Up(s3) && s3.net == [DataPacket(1, [8])] && s3.acks == [2]
    requires s3.snd.cwnd == 2 && s3.snd.mss == 2 && s3.snd.inFlight == 4 && s3.snd.outgoing != []
    requires |s3.snd.outgoing[0].buffer| == 1 && s3.snd.outstanding == map[0 := 1, 1 := 1, 2 := 2]
    ensures s == Next(s3, AckArrives(0, {})) && Up(s)
    ensures s.net == s3.net && s.snd.cwnd == 4 && s.snd.mss == 2
    ensures s.snd.lastDrop == s3.snd.lastDrop && s.snd.hist.cuts == s3.snd.hist.cuts
  {
    s := AckFirst(s3);
    var t := TakeAck(s3.snd, 2);
    assert !MayResend(t);
    assert ResendLoop(t) == Written(t, []);
  }

  const ALL_ACKED := [Write([[1], [2], [3], [4]], {}), Drop(0), Drop(0), Deliver(0), Deliver(0),
                      AckArrives(0, {}), AckArrives(0, {}), Deliver(0), Deliver(0),
                      AckArrives(0, {}), AckArrives(0, {})]

  /** An idle connection that accepts nothing more: of four bytes two were re-sent,
      all were delivered and acked, and the two still fill the window. */
  lemma IdleAcceptsNothing()
    ensures var s := Exec(Init(3), ALL_ACKED);
            && Quiet(s) && Up(s) && s.snd.outgoing == []
            && s.snd.hist.resent == 2 && s.snd.inFlight == 2 && s.snd.cwnd == 4 && !s.snd.Writable()
  {
    hide Next;
    var steps := ALL_ACKED;
    var s0 := Init(3);
    assert Exec(s0, steps[..0]) == s0;
    var s1 := FourPackets();
    ExecStep(s0, steps, 0);
    var s2 := DropAt(s1, 0);
    ExecStep(s0, steps, 1);
    var s3 := DropAt(s2, 0);
    ExecStep(s0, steps, 2);
    var s4 := DeliverAt(s3, 0);
    ExecStep(s0, steps, 3);
    var s5 := DeliverAt(s4, 0);
    ExecStep(s0, steps, 4);
    var s6 := NoRoomYet(s5);
    ExecStep(s0, steps, 5);
    var s7 := BothResent(s6);
    ExecStep(s0, steps, 6);
    ResentAreAcked(s7, steps);
  }

  lemma FourPackets() returns (s: System)
    ensures s == Next(Init(3), Write([[1], [2], [3], [4]], {})) && Up(s)
    ensures s.net == [DataPacket(0, [1]), DataPacket(1, [2]), DataPacket(2, [3]), DataPacket(3, [4])] && s.acks == []
    ensures s.snd.cwnd == 6 && s.snd.mss == 3 && s.snd.inFlight == 4 && s.snd.lastDrop == 0
    ensures s.snd.outstanding == map[0 := 1, 1 := 1, 2 := 1, 3 := 1] && s.snd.outgoing == [] && s.snd.hist.resent == 0
  {
    hide EmitOne;
    hide EmitMany;
    hide Next;
    var s0 := Init(3);
    var segs: seq<seq<Byte>> := [[1], [2], [3], [4]];
    s := Next(s0, Write(segs, {}));
    WholeWrite(3, segs);
    var s1 := EmitSegmentOpen(s0, [1]);
    EmitManyStep(s0, segs);
    var last: seq<seq<Byte>> := [[4]];
    var tail := [[3]] + last;
    assert segs[1..] == [[2]] + tail && segs[1..][1..] == tail && tail[1..] == last;
    var s2 := EmitSegmentOpen(s1, [2]);
    EmitManyStep(s1, segs[1..]);
    var s3 := EmitSegmentOpen(s2, [3]);
    EmitManyStep(s2, tail);
    var s4 := EmitSegmentOpen(s3, [4]);
    EmitManyStep(s3, last);
    assert !s4.snd.Writable();
  }

  /** The two dropped packets, without their callbacks. */
  const WAITING := [DataPacket(0, [1]).(returnable := false), DataPacket(1, [2]).(returnable := false)]

  lemma NoRoomYet(s5: System) returns (s: System)
    requires Up(s5) && s5.net == [] && s5.acks == [2, 3]
    requires s5.snd.cwnd == 3 && s5.snd.mss == 3 && s5.snd.inFlight == 4 && s5.snd.outgoing == WAITING
    requires s5.snd.outstanding == map[0 := 1, 1 := 1, 2 := 1, 3 := 1] && s5.snd.hist.resent == 0
    ensures s == Next(s5, AckArrives(0, {})) && Up(s) && s.net == [] && s.acks == [3]
    ensures s.snd.cwnd == 4 && s.snd.mss == 3 && s.snd.inFlight == 3 && s.snd.outgoing == WAITING
    ensures s.snd.outstanding == map[0 := 1, 1 := 1, 3 := 1] && s.snd.hist.resent == 0
  {
    s := AckFirst(s5);
    var t := TakeAck(s5.snd, 2);
    assert !MayResend(t);
    assert ResendLoop(t) == Written(t, []);
  }

  lemma BothResent(s6: System) returns (s: System)
    requires Up(s6) && s6.net == [] && s6.acks == [3]
    requires s6.snd.cwnd == 4 && s6.snd.mss == 3 && s6.snd.inFlight == 3 && s6.snd.outgoing == WAITING
    requires s6.snd.outstanding == map[0 := 1, 1 := 1, 3 := 1] && s6.snd.hist.resent == 0
    ensures s == Next(s6, AckArrives(0, {})) && Up(s) && s.net == WAITING && s.acks == []
    ensures s.snd.cwnd == 4 && s.snd.mss == 3 && s.snd.inFlight == 4 && s.snd.outgoing == []
    ensures s.snd.outstanding == map[0 := 1, 1 := 1] && s.snd.hist.resent == 2
  {
    hide ResendLoop;
    s := AckFirst(s6);
    var w := TwoResent(TakeAck(s6.snd, 3));
    assert [] + WAITING == WAITING;
  }

  lemma TwoResent(t: Sock) returns (w: Written)
    requires t.cwnd == 4 && t.inFlight == 2 && t.outgoing == WAITING && t.hist.resent == 0
    ensures w == ResendLoop(t) && w.sent == WAITING
    ensures w.st == t.(inFlight := 4, outgoing := [], hist := w.st.hist, outstanding := t.outstanding[0 := 1][1 := 1])
    ensures w.st.hist.resent == 2
  {
    w := ResendLoop(t);
    var u := ResendOne(t);
    assert u.outgoing == [WAITING[1]];
    var v := ResendOne(u);
    assert v.outgoing == [];
    assert ResendLoop(v) == Written(v, []);
    assert ResendLoop(u) == Written(v, [WAITING[1]]);
    assert [WAITING[0]] + [WAITING[1]] == WAITING;
  }

  lemma ResentAreAcked(s7: System, steps: seq<Step>)
    requires steps == ALL_ACKED && s7 == Exec(Init(3), steps[..7])
    requires Up(s7) && s7.net == WAITING && s7.acks == []
    requires s7.snd.cwnd == 4 && s7.snd.mss == 3 && s7.snd.inFlight == 4 && s7.snd.outgoing == []
    requires s7.snd.outstanding == map[0 := 1, 1 := 1] && s7.snd.hist.resent == 2
    ensures var s := Exec(Init(3), steps);
            && Quiet(s) && Up(s) && s.snd.outgoing == []
            && s.snd.hist.resent == 2 && s.snd.inFlight == 2 && s.snd.cwnd == 4 && !s.snd.Writable()
  {
    hide Next;
    var s0 := Init(3);
    var s8 := DeliverAt(s7, 0);
    ExecStep(s0, steps, 7);
    var s9 := DeliverAt(s8, 0);
    ExecStep(s0, steps, 8);
    var s10 := NothingToResend(s9);
    ExecStep(s0, steps, 9);
    var s11 := NothingToResend(s10);
    ExecStep(s0, steps, 10);
    assert steps[..11] == steps;
  }

  /** An ack of one byte with an empty list: no growth at this window. */
  lemma NothingToResend(s1: System) returns (s: System)
    requires Up(s1) && s1.net == [] && s1.acks != [] && s1.acks[0] in s1.snd.outstanding
    requires s1.snd.outstanding[s1.acks[0]] == 1 <= s1.snd.inFlight
    requires s1.snd.cwnd == 4 && s1.snd.mss == 3 && s1.snd.outgoing == []
    ensures s == Next(s1, AckArrives(0, {})) && Up(s) && s.net == [] && s.acks == s1.acks[1..]
    ensures s.snd == s1.snd.(inFlight := s1.snd.inFlight - 1, outstanding := s1.snd.outstanding - {s1.acks[0]},
                             hist := s.snd.hist)
    ensures s.snd.hist.resent == s1.snd.hist.resent
  {
    s := AckFirst(s1);
    var t := TakeAck(s1.snd, s1.acks[0]);
    assert ResendLoop(t) == Written(t, []);
  }
}
