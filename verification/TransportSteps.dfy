/** Every step of the transport keeps its invariant. */
module TransportSteps {
  import opened Sequences
  import opened Packets
  import opened TcpSpec
  import opened WriteFacts
  import opened ReadFacts
  import opened Transport
  import opened MicroSteps
  import opened TransportInv

  // ---------------------------------------------------------------------------
  // Sending a fresh packet

  /** A packet is numbered and enters the network. */
  function SendFresh(s: System, p: Packet): (r: System)
  {
    s.(snd := SendPacket(s.snd.(nextOut := s.snd.nextOut + 1), p), log := s.log + [p], net := s.net + [p])
  }

  lemma FreshConserved(s: System, p: Packet)
    requires p.seqNr == |s.log|
    requires Conserved(s.net, s.snd.outgoing, s.rcv.reorder.Keys, s.rcv.nextIn, s.lost, |s.log|)
    ensures Conserved(s.net + [p], s.snd.outgoing, s.rcv.reorder.Keys, s.rcv.nextIn, s.lost, |s.log + [p]|)
  {
    SeqsSnoc(s.net, p);
    BelowSnoc(|s.log|);
  }

  lemma FreshUnacked(s: System, p: Packet)
    requires p.seqNr == |s.log|
    requires Unacked(s.net, s.snd.outgoing, s.lost, s.acks, s.snd.outstanding.Keys)
    requires Sizes(s.snd.outstanding, s.log)
    ensures Unacked(s.net + [p], s.snd.outgoing, s.lost, s.acks, s.snd.outstanding[p.seqNr := |p.buffer|].Keys)
    ensures Sizes(s.snd.outstanding[p.seqNr := |p.buffer|], s.log + [p])
  {
    SeqsSnoc(s.net, p);
    AddKey(s.snd.outstanding.Keys, p.seqNr);
    assert s.snd.outstanding[p.seqNr := |p.buffer|].Keys == s.snd.outstanding.Keys + {p.seqNr};
  }

  lemma FreshFlight(s: System, p: Packet)
    requires p.seqNr == |s.log|
    requires Sizes(s.snd.outstanding, s.log)
    requires Flight(s.snd.inFlight, s.snd.outstanding, s.snd.hist.resent, |s.log|)
    ensures Flight(s.snd.inFlight + |p.buffer|, s.snd.outstanding[p.seqNr := |p.buffer|],
                   s.snd.hist.resent, |s.log + [p]|)
  {
    SumAdd(s.snd.outstanding, |s.log|, |p.buffer|);
  }

  lemma LostGrow(lost: seq<nat>, log: seq<Packet>, p: Packet)
    requires LostPayload(lost, log)
    ensures LostPayload(lost, log + [p])
  {
  }

  lemma LostSnoc(lost: seq<nat>, log: seq<Packet>, p: Packet)
    requires LostPayload(lost, log) && IsCopy(p, log) && p.kind == Payload
    ensures LostPayload(lost + [p.seqNr], log)
  {
  }

  lemma FreshContent(s: System, p: Packet)
    requires Content(s.log, s.snd.channel, s.net, s.snd.outgoing, s.rcv.reorder)
    requires s.snd.channel && p.seqNr == |s.log|
    requires p.kind == Payload && p.buffer != []
    ensures Content(s.log + [p], true, s.net + [p], s.snd.outgoing, s.rcv.reorder)
  {
    LogSnoc(s.log, true, p);
    CopiesGrow(s.net, s.log, p);
    CopiesSnoc(s.net, p, s.log + [p]);
    CopiesGrow(s.snd.outgoing, s.log, p);
    HeldGrow(s.rcv.reorder, s.log, p);
  }

  lemma WindowSnoc(sends: seq<Sent>, e: Sent)
    requires WithinWindow(sends) && (e.size > 0 ==> e.inFlight + e.size <= e.cwnd)
    ensures WithinWindow(sends + [e])
  {
  }

  lemma SendFreshKeeps(s: System, p: Packet, mss: Pos)
    requires Inv(s, mss) && s.snd.channel
    requires p == DataPacket(s.snd.nextOut, p.buffer) && 0 < |p.buffer| <= mss && s.snd.Writable()
    ensures var r := SendFresh(s, p).(accepted := s.accepted + p.buffer);
            Inv(r, mss) && r.snd.channel && r.snd.mss == mss
  {
    FreshContent(s, p);
    FreshConserved(s, p);
    FreshUnacked(s, p);
    FreshFlight(s, p);
    WindowSnoc(s.snd.hist.sends, Sent(p.seqNr, |p.buffer|, s.snd.inFlight, s.snd.cwnd));
    ReceivedGrow(s.rcv, s.log, p, s.delivered, true, s.eofRead);
    PayloadSnoc(s.log, p);
    LostGrow(s.lost, s.log, p);
    hide LostPayload;
    hide Received;
    hide Conserved;
    hide Unacked;
    hide Flight;
    hide WithinWindow;
    hide Spaced;
    hide LogOk;
    hide Copies;
    hide HeldCopies;
    hide Sizes;
  }

  // ---------------------------------------------------------------------------
  // A drop

  lemma DropConserved(s: System, i: nat, q: Packet)
    requires i < |s.net| && q.seqNr == s.net[i].seqNr
    requires Conserved(s.net, s.snd.outgoing, s.rcv.reorder.Keys, s.rcv.nextIn, s.lost, |s.log|)
    ensures Conserved(RemoveAt(s.net, i), s.snd.outgoing + [q], s.rcv.reorder.Keys, s.rcv.nextIn, s.lost, |s.log|)
    ensures Conserved(RemoveAt(s.net, i), s.snd.outgoing, s.rcv.reorder.Keys, s.rcv.nextIn, s.lost + [q.seqNr], |s.log|)
  {
    SeqsRemoveAt(s.net, i);
    SeqsSnoc(s.snd.outgoing, q);
  }

  lemma DropUnacked(s: System, i: nat, q: Packet)
    requires i < |s.net| && q.seqNr == s.net[i].seqNr
    requires Unacked(s.net, s.snd.outgoing, s.lost, s.acks, s.snd.outstanding.Keys)
    ensures Unacked(RemoveAt(s.net, i), s.snd.outgoing + [q], s.lost, s.acks, s.snd.outstanding.Keys)
    ensures Unacked(RemoveAt(s.net, i), s.snd.outgoing, s.lost + [q.seqNr], s.acks, s.snd.outstanding.Keys)
  {
    SeqsRemoveAt(s.net, i);
    SeqsSnoc(s.snd.outgoing, q);
  }

  lemma CutSpacing(s: Sock, p: Packet)
    requires Spaced(s.hist.cuts, s.mss) && LastCut(s.hist.cuts, s.lastDrop) && s.cwnd >= s.mss
    ensures var r := PacketDropped(s, p);
            Spaced(r.hist.cuts, s.mss) && LastCut(r.hist.cuts, r.lastDrop) && r.cwnd >= s.mss
  {
  }

  /** What can be dropped is payload, and keeps being a copy without its callback. */
  lemma DroppableCopy(net: seq<Packet>, i: nat, log: seq<Packet>, live: bool)
    requires i < |net| && net[i].OkToDrop() && Copies(net, log) && LogOk(log, live)
    ensures IsCopy(net[i].(returnable := false), log) && net[i].kind == Payload
  {
    assert IsCopy(net[i], log);
  }

  lemma NextDropKeeps(s: System, i: nat, mss: Pos)
    requires Inv(s, mss)
    ensures Inv(NextDrop(s, i), mss)
    ensures NextDrop(s, i).snd.channel == s.snd.channel
  {
    hide LostPayload;
    hide Received;
    hide Conserved;
    hide Unacked;
    hide Flight;
    hide WithinWindow;
    hide Spaced;
    hide LastCut;
    hide LogOk;
    hide Copies;
    hide IsCopy;
    hide HeldCopies;
    hide Sizes;
    hide WaitingOk;
    if i < |s.net| && s.net[i].OkToDrop() && (s.snd.channel || !s.net[i].returnable) {
      var p := s.net[i];
      var q := p.(returnable := false);
      CopiesRemove(s.net, i, s.log);
      DroppableCopy(s.net, i, s.log, s.snd.channel);
      CopiesSnoc(s.snd.outgoing, q, s.log);
      DropConserved(s, i, q);
      if s.snd.channel {
        DropUnacked(s, i, q);
        CutSpacing(s.snd, q);
      }
      WaitingSnoc(s.snd.outgoing, q);
      LostSnoc(s.lost, s.log, q);
    }
  }

  lemma WaitingSnoc(outgoing: seq<Packet>, q: Packet)
    requires WaitingOk(outgoing) && q.kind == Payload && !q.returnable
    ensures WaitingOk(outgoing + [q])
  {
  }

  // ---------------------------------------------------------------------------
  // A write

  /** A segment that is dropped while it is handed over is one that enters the
      network and is dropped right away. */
  lemma EmitOneIsSendThenDrop(s: System, seg: seq<Byte>, drops: set<nat>)
    requires s.snd.channel
    ensures var p := DataPacket(s.snd.nextOut, seg);
            var sent := SendFresh(s, p).(accepted := s.accepted + seg);
            EmitOne(s, seg, drops) == if p.seqNr in drops then NextDrop(sent, |s.net|) else sent
  {
    var p := DataPacket(s.snd.nextOut, seg);
    assert RemoveAt(s.net + [p], |s.net|) == s.net;
    assert s.net + [] == s.net;
  }

  lemma EmitOneKeeps(s: System, seg: seq<Byte>, drops: set<nat>, mss: Pos)
    requires Inv(s, mss) && s.snd.channel && 0 < |seg| <= mss && s.snd.Writable()
    ensures var r := EmitOne(s, seg, drops);
            Inv(r, mss) && r.snd.channel
  {
    hide Inv;
    hide NextDrop;
    hide EmitOne;
    var p := DataPacket(s.snd.nextOut, seg);
    SendFreshKeeps(s, p, mss);
    EmitOneIsSendThenDrop(s, seg, drops);
    NextDropKeeps(SendFresh(s, p).(accepted := s.accepted + seg), |s.net|, mss);
  }

  lemma {:induction false} EmitManyKeeps(s: System, segs: seq<seq<Byte>>, drops: set<nat>, mss: Pos)
    requires Inv(s, mss) && s.snd.channel && FitMss(segs, mss) && s.snd.Writable()
    ensures Inv(EmitMany(s, segs, drops), mss)
    decreases |segs|
  {
    hide Inv;
    hide EmitOne;
    if segs != [] {
      EmitOneKeeps(s, segs[0], drops, mss);
      var s1 := EmitOne(s, segs[0], drops);
      if s1.snd.Writable() {
        EmitManyKeeps(s1, segs[1..], drops, mss);
      }
    }
  }

  lemma NextWriteIsEmitMany(s: System, bufs: seq<seq<Byte>>, drops: set<nat>)
    ensures var r := WriteSome(s.snd, bufs, drops);
            NextWrite(s, bufs, drops) ==
            if r.ec == NoError then EmitMany(s, SplitAll(bufs, s.snd.mss), drops) else s
  {
    hide WriteLoop;
    hide SplitAll;
    hide EmitMany;
    var r := WriteSome(s.snd, bufs, drops);
    WriteSomeSegments(s.snd, bufs, drops);
    EmitManyIsWriteLoop(s, SplitAll(bufs, s.snd.mss), drops);
    if r.ec != NoError {
      assert s.log + [] == s.log && s.net + [] == s.net && s.accepted + [] == s.accepted;
    }
  }

  lemma NextWriteKeeps(s: System, bufs: seq<seq<Byte>>, drops: set<nat>, mss: Pos)
    requires Inv(s, mss)
    ensures Inv(NextWrite(s, bufs, drops), mss)
  {
    hide Content;
    hide Received;
    NextWriteIsEmitMany(s, bufs, drops);
    WriteSomeSegments(s.snd, bufs, drops);
    if WriteSome(s.snd, bufs, drops).ec == NoError {
      SplitAllSegments(bufs, mss);
      EmitManyKeeps(s, SplitAll(bufs, mss), drops, mss);
    }
  }

  // ---------------------------------------------------------------------------
  // Close

  lemma CloseContent(s: System)
    requires Content(s.log, s.snd.channel, s.net, s.snd.outgoing, s.rcv.reorder)
    requires s.snd.channel
    ensures var p := EofPacket(|s.log|);
            && LogOk(s.log + [p], false)
            && Copies(s.net + [p], s.log + [p])
            && Copies(s.snd.outgoing, s.log + [p])
            && HeldCopies(s.rcv.reorder, s.log + [p])
  {
    var p := EofPacket(|s.log|);
    LogSnoc(s.log, false, p);
    CopiesGrow(s.net, s.log, p);
    CopiesSnoc(s.net, p, s.log + [p]);
    CopiesGrow(s.snd.outgoing, s.log, p);
    HeldGrow(s.rcv.reorder, s.log, p);
  }

  lemma NextCloseKeeps(s: System, mss: Pos)
    requires Inv(s, mss)
    ensures Inv(NextClose(s), mss)
  {
    if s.snd.channel {
      var p := EofPacket(|s.log|);
      CloseContent(s);
      FreshConserved(s, p);
      WindowSnoc(s.snd.hist.sends, Sent(p.seqNr, 0, s.snd.inFlight, s.snd.cwnd));
      ReceivedGrow(s.rcv, s.log, p, s.delivered, false, s.eofRead);
      PayloadSnoc(s.log, p);
      LostGrow(s.lost, s.log, p);
      hide LostPayload;
      assert s.accepted + [] == s.accepted;
      hide Received;
      hide Conserved;
      hide WithinWindow;
      hide Spaced;
      hide LogOk;
      hide Copies;
      hide HeldCopies;
      hide Live;
    }
  }

  // ---------------------------------------------------------------------------
  // An ack

  lemma InKeysFromAck(s: System, i: nat)
    requires i < |s.acks| && Unacked(s.net, s.snd.outgoing, s.lost, s.acks, s.snd.outstanding.Keys)
    ensures s.acks[i] in s.snd.outstanding
    ensures Unacked(s.net, s.snd.outgoing, s.lost, RemoveAt(s.acks, i), s.snd.outstanding.Keys - {s.acks[i]})
  {
    RemoveAtMultiset(s.acks, i);
    assert s.acks[i] in multiset(s.snd.outstanding.Keys);
    RemoveKey(s.snd.outstanding.Keys, s.acks[i]);
    var others := multiset(Seqs(s.net)) + multiset(Seqs(s.snd.outgoing)) + multiset(s.lost);
    CancelOne(others + multiset(RemoveAt(s.acks, i)), multiset(s.snd.outstanding.Keys - {s.acks[i]}), s.acks[i]);
  }

  /** The asserts on the ack path cannot fail. */
  lemma AckFindsEntry(s: System, i: nat, mss: Pos)
    requires Inv(s, mss) && s.snd.channel && i < |s.acks|
    ensures s.acks[i] in s.snd.outstanding
    ensures s.snd.inFlight >= s.snd.outstanding[s.acks[i]]
    ensures s.snd.cwnd > 0
  {
    InKeysFromAck(s, i);
    SumRemove(s.snd.outstanding, s.acks[i], |s.log|);
  }

  function TakeOne(s: System, i: nat): (r: System)
    requires i < |s.acks| && s.acks[i] in s.snd.outstanding
  {
    s.(snd := TakeAck(s.snd, s.acks[i]), acks := RemoveAt(s.acks, i))
  }

  lemma TakeOneKeeps(s: System, i: nat, mss: Pos)
    requires Inv(s, mss) && s.snd.channel && i < |s.acks| && s.acks[i] in s.snd.outstanding
    ensures Inv(TakeOne(s, i), mss) && TakeOne(s, i).snd.channel
  {
    var k := s.acks[i];
    InKeysFromAck(s, i);
    SumRemove(s.snd.outstanding, k, |s.log|);
    assert (s.snd.outstanding - {k}).Keys == s.snd.outstanding.Keys - {k};
    hide Received;
    hide Conserved;
    hide Unacked;
    hide WithinWindow;
    hide Spaced;
    hide LogOk;
    hide Copies;
    hide HeldCopies;
    hide WaitingOk;
    hide SumUpTo;
  }

  lemma ResendConserved(s: System, lostToo: bool)
    requires s.snd.outgoing != []
    requires Conserved(s.net, s.snd.outgoing, s.rcv.reorder.Keys, s.rcv.nextIn, s.lost, |s.log|)
    ensures var p := s.snd.outgoing[0];
            Conserved(s.net + (if lostToo then [] else [p]), s.snd.outgoing[1..], s.rcv.reorder.Keys, s.rcv.nextIn,
                      s.lost + (if lostToo then [p.seqNr] else []), |s.log|)
  {
    SeqsTail(s.snd.outgoing);
    SeqsSnoc(s.net, s.snd.outgoing[0]);
    assert s.net + [] == s.net && s.lost + [] == s.lost;
  }

  lemma ResendUnacked(s: System, lostToo: bool)
    requires s.snd.outgoing != []
    requires Unacked(s.net, s.snd.outgoing, s.lost, s.acks, s.snd.outstanding.Keys)
    ensures var p := s.snd.outgoing[0];
            && p.seqNr in s.snd.outstanding
            && Unacked(s.net + (if lostToo then [] else [p]), s.snd.outgoing[1..],
                       s.lost + (if lostToo then [p.seqNr] else []), s.acks, s.snd.outstanding.Keys)
  {
    SeqsTail(s.snd.outgoing);
    SeqsSnoc(s.net, s.snd.outgoing[0]);
    assert s.net + [] == s.net && s.lost + [] == s.lost;
    assert s.snd.outgoing[0].seqNr in multiset(s.snd.outstanding.Keys);
  }

  lemma ResendParts(s: System, lostToo: bool)
    requires s.snd.outgoing != [] && LostPayload(s.lost, s.log)
    requires Content(s.log, s.snd.channel, s.net, s.snd.outgoing, s.rcv.reorder)
    ensures var p := s.snd.outgoing[0];
            && IsCopy(p, s.log)
            && Content(s.log, s.snd.channel, s.net + (if lostToo then [] else [p]), s.snd.outgoing[1..], s.rcv.reorder)
            && LostPayload(s.lost + (if lostToo then [p.seqNr] else []), s.log)
  {
    CopiesSnoc(s.net, s.snd.outgoing[0], s.log);
    LostSnoc(s.lost, s.log, s.snd.outgoing[0]);
    assert s.net + [] == s.net && s.lost + [] == s.lost;
  }

  lemma ResendLive(s: System, lostToo: bool)
    requires Live(s.snd, s.net, s.acks, s.lost, s.log) && s.snd.outgoing != [] && IsCopy(s.snd.outgoing[0], s.log)
    ensures var p := s.snd.outgoing[0];
            Live(ResendOne(s.snd), s.net + (if lostToo then [] else [p]), s.acks,
                 s.lost + (if lostToo then [p.seqNr] else []), s.log)
  {
    var p := s.snd.outgoing[0];
    ResendUnacked(s, lostToo);
    assert s.snd.outstanding[p.seqNr := |p.buffer|] == s.snd.outstanding;
    hide Unacked;
    hide SumUpTo;
    hide Sizes;
  }

  lemma ResendStepKeeps(s: System, drops: set<nat>, mss: Pos)
    requires Inv(s, mss) && s.snd.channel && MayResend(s.snd)
    ensures Inv(ResendStep(s, drops), mss) && ResendStep(s, drops).snd.channel
  {
    hide Live;
    hide Received;
    hide Conserved;
    hide Content;
    hide WithinWindow;
    hide Spaced;
    hide LostPayload;
    var p := s.snd.outgoing[0];
    var lostToo := p.seqNr in drops;
    ResendParts(s, lostToo);
    ResendConserved(s, lostToo);
    ResendLive(s, lostToo);
    WindowSnoc(s.snd.hist.sends, Sent(p.seqNr, |p.buffer|, s.snd.inFlight, s.snd.cwnd));
  }

  lemma {:induction false} ResendManyKeeps(s: System, drops: set<nat>, mss: Pos)
    requires Inv(s, mss) && s.snd.channel
    ensures Inv(ResendMany(s, drops), mss) && ResendMany(s, drops).snd.channel
    decreases |s.snd.outgoing|
  {
    hide Inv;
    if MayResend(s.snd) {
      ResendStepKeeps(s, drops, mss);
      ResendManyKeeps(ResendStep(s, drops), drops, mss);
    }
  }

  lemma GrowKeeps(s: System, acked: nat, mss: Pos)
    requires Inv(s, mss) && s.snd.channel
    ensures Inv(s.(snd := Grow(s.snd, acked)), mss)
  {
    assert s.snd.mss * acked / s.snd.cwnd >= 0;
    hide Received;
    hide Content;
  }

  lemma NextAckIsMicroSteps(s: System, i: nat, drops: set<nat>)
    requires i < |s.acks| && s.snd.channel && s.acks[i] in s.snd.outstanding
    requires s.snd.inFlight >= s.snd.outstanding[s.acks[i]] && s.snd.cwnd > 0
    ensures var r := ResendMany(TakeOne(s, i), drops);
            r.snd.cwnd > 0 && NextAck(s, i, drops) == r.(snd := Grow(r.snd, s.snd.outstanding[s.acks[i]]))
  {
    hide ResendMany;
    hide ResendLoop;
    ResendManyIsResendLoop(TakeOne(s, i), drops);
  }

  lemma NextAckKeeps(s: System, i: nat, drops: set<nat>, mss: Pos)
    requires Inv(s, mss)
    ensures Inv(NextAck(s, i, drops), mss)
    ensures NextAck(s, i, drops).fault == s.fault
  {
    hide ResendMany;
    hide Grow;
    hide Content;
    hide Received;
    if i < |s.acks| && s.snd.channel {
      AckFindsEntry(s, i, mss);
      TakeOneKeeps(s, i, mss);
      var r := ResendMany(TakeOne(s, i), drops);
      ResendManyKeeps(TakeOne(s, i), drops, mss);
      NextAckIsMicroSteps(s, i, drops);
      GrowKeeps(r, s.snd.outstanding[s.acks[i]], mss);
    }
  }

  // ---------------------------------------------------------------------------
  // Arrival at the receiver

  /** A packet in the network is nowhere else. */
  lemma InNetworkOnly(net: seq<Packet>, outgoing: seq<Packet>, held: set<nat>, nextIn: nat, lost: seq<nat>, n: nat, i: nat)
    requires Conserved(net, outgoing, held, nextIn, lost, n) && i < |net|
    ensures nextIn <= net[i].seqNr < n && net[i].seqNr !in held
  {
    SeqsRemoveAt(net, i);
    assert multiset(Below(n))[net[i].seqNr] <= 1;
    assert net[i].seqNr !in Below(nextIn);
    assert net[i].seqNr in multiset(Below(n));
  }

  lemma ArriveConserved(s: System, i: nat)
    requires i < |s.net|
    requires Conserved(s.net, s.snd.outgoing, s.rcv.reorder.Keys, s.rcv.nextIn, s.lost, |s.log|)
    ensures var n := s.net[i].seqNr;
            && Conserved(RemoveAt(s.net, i), s.snd.outgoing, s.rcv.reorder.Keys + {n}, s.rcv.nextIn, s.lost, |s.log|)
            && (n == s.rcv.nextIn ==>
                  Conserved(RemoveAt(s.net, i), s.snd.outgoing, s.rcv.reorder.Keys, n + 1, s.lost, |s.log|))
  {
    SeqsRemoveAt(s.net, i);
    InNetworkOnly(s.net, s.snd.outgoing, s.rcv.reorder.Keys, s.rcv.nextIn, s.lost, |s.log|, i);
    AddKey(s.rcv.reorder.Keys, s.net[i].seqNr);
    BelowSnoc(s.rcv.nextIn);
  }

  lemma ArriveUnacked(s: System, i: nat)
    requires i < |s.net|
    requires Unacked(s.net, s.snd.outgoing, s.lost, s.acks, s.snd.outstanding.Keys)
    ensures Unacked(RemoveAt(s.net, i), s.snd.outgoing, s.lost, s.acks + [s.net[i].seqNr], s.snd.outstanding.Keys)
  {
    SeqsRemoveAt(s.net, i);
  }

  /** Appending the next packet of the log to the incoming queue. */
  lemma AppendReceived(rcv: Sock, p: Packet, held: map<nat, Packet>, log: seq<Packet>, delivered: seq<Byte>, live: bool)
    requires Received(rcv, log, delivered, live, false) && LogOk(log, live)
    requires IsCopy(p, log) && p.seqNr == rcv.nextIn
    ensures rcv.channel
    ensures Received(rcv.(incoming := rcv.incoming + [p], nextIn := rcv.nextIn + 1, reorder := held),
                     log, delivered, live, false)
  {
    var n := rcv.nextIn;
    assert log[..n + 1] == log[..n] + [log[n]];
    PayloadSnoc(log[..n], log[n]);
    PayloadSnoc(rcv.incoming, p);
    AlignedSnoc(rcv.incoming, log, n, live, p);
  }

  lemma AlignedSnoc(q: seq<Packet>, log: seq<Packet>, n: nat, live: bool, p: Packet)
    requires Aligned(q, log, n) && LogOk(log, live) && IsCopy(p, log) && p.seqNr == n
    ensures Aligned(q + [p], log, n + 1)
  {
    var q' := q + [p];
    forall i | 0 <= i < |q'|
      ensures Queueable(q'[i]) && q'[i].kind == log[n + 1 - |q'| + i].kind && q'[i].ec == log[n + 1 - |q'| + i].ec
      ensures q'[i].kind == Error ==> q'[i].buffer == []
    {
      if i < |q| { assert q'[i] == q[i]; }
    }
  }

  /** A packet arrives ahead of its turn and is held back. */
  function Hold(s: System, i: nat): (r: System)
    requires i < |s.net|
  {
    var p := s.net[i];
    s.(net := RemoveAt(s.net, i), acks := s.acks + [p.seqNr], rcv := s.rcv.(reorder := s.rcv.reorder[p.seqNr := p]))
  }

  /** The next packet arrives and is queued for the reader. */
  function Accept(s: System, i: nat): (r: System)
    requires i < |s.net|
  {
    var p := s.net[i];
    s.(net := RemoveAt(s.net, i), acks := s.acks + [p.seqNr],
       rcv := s.rcv.(nextIn := s.rcv.nextIn + 1, incoming := s.rcv.incoming + [p]))
  }

  lemma ArriveLive(s: System, i: nat)
    requires i < |s.net| && Live(s.snd, s.net, s.acks, s.lost, s.log)
    ensures Live(s.snd, RemoveAt(s.net, i), s.acks + [s.net[i].seqNr], s.lost, s.log)
  {
    ArriveUnacked(s, i);
    hide Unacked;
  }

  lemma HoldReceived(rcv: Sock, p: Packet, log: seq<Packet>, delivered: seq<Byte>, live: bool, eofRead: bool)
    requires Received(rcv, log, delivered, live, eofRead)
    ensures Received(rcv.(reorder := rcv.reorder[p.seqNr := p]), log, delivered, live, eofRead)
  {
  }

  lemma HoldKeeps(s: System, i: nat, mss: Pos)
    requires Inv(s, mss) && i < |s.net| && s.rcv.channel && s.net[i].seqNr != s.rcv.nextIn
    ensures Inv(Hold(s, i), mss)
  {
    hide Live;
    hide Received;
    hide Conserved;
    hide WithinWindow;
    hide Spaced;
    hide LogOk;
    hide HeldCopies;
    hide WaitingOk;
    var p := s.net[i];
    ArriveConserved(s, i);
    if s.snd.channel {
      ArriveLive(s, i);
    }
    CopiesRemove(s.net, i, s.log);
    HeldSnoc(s.rcv.reorder, p, s.log);
    assert s.rcv.reorder[p.seqNr := p].Keys == s.rcv.reorder.Keys + {p.seqNr};
    HoldReceived(s.rcv, p, s.log, s.delivered, s.snd.channel, s.eofRead);
  }

  lemma AcceptParts(s: System, i: nat)
    requires i < |s.net| && s.net[i].seqNr == s.rcv.nextIn && s.rcv.channel
    requires Content(s.log, s.snd.channel, s.net, s.snd.outgoing, s.rcv.reorder)
    requires Received(s.rcv, s.log, s.delivered, s.snd.channel, s.eofRead)
    ensures Content(s.log, s.snd.channel, RemoveAt(s.net, i), s.snd.outgoing, s.rcv.reorder)
    ensures Received(Accept(s, i).rcv, s.log, s.delivered, s.snd.channel, s.eofRead)
  {
    CopiesRemove(s.net, i, s.log);
    assert IsCopy(s.net[i], s.log);
    AppendReceived(s.rcv, s.net[i], s.rcv.reorder, s.log, s.delivered, s.snd.channel);
  }

  lemma AcceptKeeps(s: System, i: nat, mss: Pos)
    requires Inv(s, mss) && i < |s.net| && s.rcv.channel && s.net[i].seqNr == s.rcv.nextIn
    ensures Inv(Accept(s, i), mss)
  {
    hide Live;
    hide Received;
    hide Conserved;
    hide Content;
    hide WithinWindow;
    hide Spaced;
    ArriveConserved(s, i);
    if s.snd.channel {
      ArriveLive(s, i);
    }
    AcceptParts(s, i);
  }

  lemma HeldSnoc(m: map<nat, Packet>, p: Packet, log: seq<Packet>)
    requires HeldCopies(m, log) && IsCopy(p, log)
    ensures HeldCopies(m[p.seqNr := p], log)
  {
  }

  lemma DrainConserved(s: System)
    requires s.rcv.nextIn in s.rcv.reorder
    requires Conserved(s.net, s.snd.outgoing, s.rcv.reorder.Keys, s.rcv.nextIn, s.lost, |s.log|)
    ensures Conserved(s.net, s.snd.outgoing, (s.rcv.reorder - {s.rcv.nextIn}).Keys, s.rcv.nextIn + 1, s.lost, |s.log|)
  {
    var n := s.rcv.nextIn;
    RemoveKey(s.rcv.reorder.Keys, n);
    BelowSnoc(n);
    assert (s.rcv.reorder - {n}).Keys == s.rcv.reorder.Keys - {n};
  }

  function DrainOne(s: System): (r: System)
    requires s.rcv.nextIn in s.rcv.reorder
  {
    var n := s.rcv.nextIn;
    s.(rcv := s.rcv.(reorder := s.rcv.reorder - {n}, incoming := s.rcv.incoming + [s.rcv.reorder[n]], nextIn := n + 1))
  }

  lemma DrainParts(s: System)
    requires s.rcv.nextIn in s.rcv.reorder && s.rcv.channel
    requires Content(s.log, s.snd.channel, s.net, s.snd.outgoing, s.rcv.reorder)
    requires Received(s.rcv, s.log, s.delivered, s.snd.channel, s.eofRead)
    ensures Content(s.log, s.snd.channel, s.net, s.snd.outgoing, s.rcv.reorder - {s.rcv.nextIn})
    ensures Received(DrainOne(s).rcv, s.log, s.delivered, s.snd.channel, s.eofRead)
  {
    var n := s.rcv.nextIn;
    assert HeldCopies(s.rcv.reorder - {n}, s.log);
    assert IsCopy(s.rcv.reorder[n], s.log);
    AppendReceived(s.rcv, s.rcv.reorder[n], s.rcv.reorder - {n}, s.log, s.delivered, s.snd.channel);
  }

  lemma DrainOneKeeps(s: System, mss: Pos)
    requires Inv(s, mss) && s.rcv.channel && s.rcv.nextIn in s.rcv.reorder
    ensures Inv(DrainOne(s), mss)
  {
    hide Live;
    hide Received;
    hide Conserved;
    hide Content;
    hide WithinWindow;
    hide Spaced;
    DrainConserved(s);
    DrainParts(s);
  }

  lemma {:induction false} DrainKeeps(s: System, mss: Pos)
    requires Inv(s, mss) && s.rcv.channel
    ensures Inv(s.(rcv := Drain(s.rcv)), mss)
    decreases |s.rcv.reorder|
  {
    hide Inv;
    if s.rcv.nextIn in s.rcv.reorder {
      DrainOneKeeps(s, mss);
      var n := s.rcv.nextIn;
      assert (s.rcv.reorder - {n}).Keys == s.rcv.reorder.Keys - {n};
      assert |s.rcv.reorder - {n}| < |s.rcv.reorder|;
      DrainKeeps(DrainOne(s), mss);
    }
  }

  /** Once the eof has been read nothing of the sender's is left anywhere. */
  lemma NothingLeft(s: System)
    requires Conserved(s.net, s.snd.outgoing, s.rcv.reorder.Keys, s.rcv.nextIn, s.lost, |s.log|)
    requires s.rcv.nextIn == |s.log|
    ensures s.net == [] && s.snd.outgoing == [] && s.rcv.reorder == map[] && s.lost == []
  {
    var b := multiset(Below(|s.log|));
    var rest := multiset(Seqs(s.net)) + multiset(Seqs(s.snd.outgoing)) + multiset(s.rcv.reorder.Keys) + multiset(s.lost);
    assert rest + b == b;
    assert |rest + b| == |rest| + |b|;
    assert |rest| == |Seqs(s.net)| + |Seqs(s.snd.outgoing)| + |s.rcv.reorder.Keys| + |s.lost|;
  }

  /** While packets are in the network, the receiver has not read the eof. */
  lemma ReceiverLive(s: System, i: nat, mss: Pos)
    requires Inv(s, mss) && i < |s.net|
    ensures s.rcv.channel
    ensures s.rcv.nextIn <= s.net[i].seqNr && s.net[i].seqNr !in s.rcv.reorder
  {
    if !s.rcv.channel {
      NothingLeft(s);
    }
    InNetworkOnly(s.net, s.snd.outgoing, s.rcv.reorder.Keys, s.rcv.nextIn, s.lost, |s.log|, i);
  }

  lemma NextDeliverKeeps(s: System, i: nat, mss: Pos)
    requires Inv(s, mss)
    ensures Inv(NextDeliver(s, i), mss)
    ensures NextDeliver(s, i).fault == s.fault
  {
    hide Inv;
    hide Drain;
    if i < |s.net| {
      ReceiverLive(s, i, mss);
      NotStale(s, mss);
      if s.net[i].seqNr == s.rcv.nextIn {
        AcceptKeeps(s, i, mss);
        DrainKeeps(Accept(s, i), mss);
      } else {
        HoldKeeps(s, i, mss);
      }
    }
  }

  lemma NotStale(s: System, mss: Pos)
    requires Inv(s, mss)
    ensures !s.stale
  {
  }

  // ---------------------------------------------------------------------------
  // A read

  /** Reading moves bytes; what is left queued is the rest. */
  lemma {:induction false} ConsumePayload(q: seq<Packet>, n: nat)
    requires NonEmptyPayloads(q) && n <= |Readable(q)|
    ensures PayloadOf(q) == Readable(q)[..n] + PayloadOf(Consume(q, n))
  {
    if n > 0 {
      var b, m := q[0].buffer, |q[0].buffer|;
      if m <= n {
        ConsumePayload(q[1..], n - m);
        TakePast(b, Readable(q[1..]), n, PayloadOf(Consume(q[1..], n - m)));
      } else {
        assert ([q[0].(buffer := b[n..])] + q[1..])[1..] == q[1..];
        TakeWithin(b, Readable(q[1..]), n, PayloadOf(q[1..]));
      }
    }
  }

  lemma TakePast<T>(b: seq<T>, r: seq<T>, n: nat, tail: seq<T>)
    requires |b| <= n <= |b| + |r|
    ensures b + (r[..n - |b|] + tail) == (b + r)[..n] + tail
  {
  }

  lemma TakeWithin<T>(b: seq<T>, r: seq<T>, n: nat, tail: seq<T>)
    requires n <= |b|
    ensures b + tail == (b + r)[..n] + (b[n..] + tail)
  {
  }

  lemma {:induction false} ConsumeAligned(q: seq<Packet>, n: nat, log: seq<Packet>, nextIn: nat)
    requires NonEmptyPayloads(q) && n <= |Readable(q)| && Aligned(q, log, nextIn)
    ensures Aligned(Consume(q, n), log, nextIn)
  {
    if n == 0 {
    } else if |q[0].buffer| <= n {
      AlignedTail(q, log, nextIn);
      ConsumeAligned(q[1..], n - |q[0].buffer|, log, nextIn);
    } else {
      var c := [q[0].(buffer := q[0].buffer[n..])] + q[1..];
      forall i | 0 <= i < |c|
        ensures Queueable(c[i]) && c[i].kind == log[nextIn - |c| + i].kind && c[i].ec == log[nextIn - |c| + i].ec
        ensures c[i].kind == Error ==> c[i].buffer == []
      {
        if i > 0 { assert c[i] == q[i]; }
      }
    }
  }

  lemma AlignedTail(q: seq<Packet>, log: seq<Packet>, nextIn: nat)
    requires Aligned(q, log, nextIn) && q != []
    ensures Aligned(q[1..], log, nextIn)
  {
  }

  /** Reading an error: it is the sender's eof, and everything else was read. */
  lemma ReadEof(rcv: Sock, log: seq<Packet>, delivered: seq<Byte>, live: bool)
    requires LogOk(log, live) && Received(rcv, log, delivered, live, false)
    requires rcv.channel && rcv.incoming != [] && rcv.incoming[0].kind == Error
    ensures rcv.incoming[0].ec == Eof
    ensures Received(rcv.(incoming := rcv.incoming[1..], channel := false), log, delivered, live, true)
  {
    var j := rcv.nextIn - |rcv.incoming|;
    assert log[j].kind == Error;
    assert j == |log| - 1 && |rcv.incoming| == 1 && log[..rcv.nextIn] == log;
    assert rcv.incoming[1..] == [];
    assert PayloadOf(rcv.incoming) == rcv.incoming[0].buffer + PayloadOf(rcv.incoming[1..]);
  }

  lemma ReadPayload(rcv: Sock, log: seq<Packet>, delivered: seq<Byte>, live: bool, n: nat)
    requires Received(rcv, log, delivered, live, false) && rcv.channel
    requires NonEmptyPayloads(rcv.incoming) && n <= |Readable(rcv.incoming)|
    ensures Received(rcv.(incoming := Consume(rcv.incoming, n)),
                     log, delivered + Readable(rcv.incoming)[..n], live, false)
  {
    ConsumePayload(rcv.incoming, n);
    ConsumeAligned(rcv.incoming, n, log, rcv.nextIn);
    assert delivered + (Readable(rcv.incoming)[..n] + PayloadOf(Consume(rcv.incoming, n))) ==
           (delivered + Readable(rcv.incoming)[..n]) + PayloadOf(Consume(rcv.incoming, n));
  }

  /** What a read does to the receiver and to the bytes delivered; it gives at
      least one byte or an error unless there was no room for any. */
  lemma ReadReceived(rcv: Sock, log: seq<Packet>, delivered: seq<Byte>, live: bool, eofRead: bool, bufs: seq<seq<Byte>>)
    requires LogOk(log, live) && Received(rcv, log, delivered, live, eofRead) && rcv.open && !rcv.connecting
    ensures var r := ReadSome(rcv, bufs);
            && !(|Flatten(bufs)| > 0 && r.ec == NoError && r.ret == 0)
            && r.st == rcv.(incoming := r.st.incoming, channel := r.st.channel)
            && r.ret <= |Flatten(r.bufs)|
            && Received(r.st, log, delivered + Flatten(r.bufs)[..r.ret], live, eofRead || r.ec == Eof)
  {
    hide LogOk;
    var q := rcv.incoming;
    var r := ReadSome(rcv, bufs);
    assert delivered + Flatten(bufs)[..0] == delivered;
    if |Flatten(bufs)| > 0 && rcv.channel && q != [] {
      if q[0].kind == Error {
        ReadEof(rcv, log, delivered, live);
      } else {
        assert NonEmptyPayloads(q);
        ReadSomeFlattens(rcv, bufs);
        ReadPayload(rcv, log, delivered, live, r.ret);
        assert Flatten(r.bufs)[..r.ret] == Readable(q)[..r.ret];
      }
    }
  }

  lemma NextReadReceived(s: System, bufs: seq<seq<Byte>>, mss: Pos)
    requires Inv(s, mss)
    ensures var r := NextRead(s, bufs);
            && r.fault == s.fault
            && r == s.(rcv := r.rcv, delivered := r.delivered, eofRead := r.eofRead)
            && r.rcv == s.rcv.(incoming := r.rcv.incoming, channel := r.rcv.channel)
            && Received(r.rcv, s.log, r.delivered, s.snd.channel, r.eofRead)
  {
    hide ReadSome;
    hide Received;
    ReadReceived(s.rcv, s.log, s.delivered, s.snd.channel, s.eofRead, bufs);
  }

  lemma NextReadKeeps(s: System, bufs: seq<seq<Byte>>, mss: Pos)
    requires Inv(s, mss)
    ensures Inv(NextRead(s, bufs), mss)
    ensures NextRead(s, bufs).fault == s.fault
  {
    NextReadReceived(s, bufs, mss);
    hide NextRead;
    hide Received;
    hide Content;
    hide Conserved;
  }

  // ---------------------------------------------------------------------------
  // All steps

  /** Every step keeps the invariant, and faults only when a hop returns a
      packet to a sender that has closed. */
  lemma NextKeeps(s: System, step: Step, mss: Pos)
    requires Inv(s, mss)
    ensures Inv(Next(s, step), mss)
    ensures Next(s, step).fault <==> s.fault || ReturnsAfterClose(s, step)
  {
    hide Inv;
    hide NextWrite;
    hide NextClose;
    hide NextAck;
    hide NextDeliver;
    hide NextRead;
    match step
    case Write(bufs, drops) =>
      NextWriteKeeps(s, bufs, drops, mss);
      WriteKeepsFault(s, bufs, drops);
    case CloseSender =>
      NextCloseKeeps(s, mss);
      CloseKeepsFault(s);
    case Drop(i) => NextDropKeeps(s, i, mss);
                    FaultKeeps(s, mss);
    case Deliver(i) => NextDeliverKeeps(s, i, mss);
    case AckArrives(i, drops) => NextAckKeeps(s, i, drops, mss);
    case Read(bufs) => NextReadKeeps(s, bufs, mss);
  }

  lemma WriteKeepsFault(s: System, bufs: seq<seq<Byte>>, drops: set<nat>)
    ensures NextWrite(s, bufs, drops).fault == s.fault
  {
  }

  lemma CloseKeepsFault(s: System)
    ensures NextClose(s).fault == s.fault
  {
  }

  lemma FaultKeeps(s: System, mss: Pos)
    requires Inv(s, mss)
    ensures Inv(s.(fault := true), mss)
  {
    hide Content;
    hide Conserved;
    hide Received;
  }

  lemma {:induction false} ExecKeeps(mss: Pos, steps: seq<Step>)
    ensures Inv(Exec(Init(mss), steps), mss)
  {
    hide Inv;
    hide Next;
    if steps == [] {
      InitInv(mss);
    } else {
      ExecKeeps(mss, steps[..|steps| - 1]);
      NextKeeps(Exec(Init(mss), steps[..|steps| - 1]), steps[|steps| - 1], mss);
    }
  }
}
