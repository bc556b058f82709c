/** How the sender's window and lists move at each event, told by the source's
    rules and not by its functions: a drop halves, an ack grows, re-sending goes
    on while it fits, and closing starts the socket over. */
module TransportReactions {
  import opened Sequences
  import opened Packets
  import opened TcpSpec
  import opened Transport
  import opened MicroSteps
  import opened TransportSteps
  import opened WriteFacts

  // ---------------------------------------------------------------------------
  // Drops

  /** The window and the number of the last packet that halved it. */
  datatype Window = Window(cwnd: int, lastDrop: nat)

  function WindowOf(s: Sock): (w: Window)
  {
    Window(s.cwnd, s.lastDrop)
  }

  /** The drop of packet `n` halves the window: none did before, or the last that
      did is at least a window of packets back. */
  predicate Halves(w: Window, mss: Pos, n: nat)
  {
    w.lastDrop == 0 || n >= w.lastDrop + w.cwnd / mss
  }

  /** Half the window, but at least one segment. */
  function AfterDrop(w: Window, mss: Pos, n: nat): (r: Window)
  {
    if Halves(w, mss, n) then Window(if w.cwnd / 2 < mss then mss else w.cwnd / 2, n) else w
  }

  function AfterDrops(w: Window, mss: Pos, ns: seq<nat>): (r: Window)
    decreases |ns|
  {
    if ns == [] then w else AfterDrops(AfterDrop(w, mss, ns[0]), mss, ns[1..])
  }

  /** A hop drops a packet that can be returned: the window is halved exactly when
      the last halving is far enough back, the packet waits to be re-sent without
      its callback, and nothing else of the sender changes. */
  lemma DropHalvesExactly(s: System, i: nat)
    requires !s.fault && s.snd.channel && i < |s.net| && s.net[i].OkToDrop() && s.net[i].returnable
    ensures var r := Next(s, Drop(i));
            var n := s.net[i].seqNr;
            var halved := s.snd.lastDrop == 0 || n >= s.snd.lastDrop + s.snd.cwnd / s.snd.mss;
            && r.snd.cwnd == (if halved then Max(s.snd.cwnd / 2, s.snd.mss) else s.snd.cwnd)
            && r.snd.lastDrop == (if halved then n else s.snd.lastDrop)
            && r.snd.hist.cuts == s.snd.hist.cuts + (if halved then [Cut(n, s.snd.cwnd)] else [])
            && r.snd.outgoing == s.snd.outgoing + [s.net[i].(returnable := false)]
            && r.snd == s.snd.(cwnd := r.snd.cwnd, lastDrop := r.snd.lastDrop, outgoing := r.snd.outgoing,
                               hist := r.snd.hist)
            && r == s.(snd := r.snd, net := RemoveAt(s.net, i))
  {
    assert s.snd.hist.cuts + [] == s.snd.hist.cuts;
  }

  lemma {:induction false} WriteLoopDrops(s: Sock, segs: seq<seq<Byte>>, drops: set<nat>)
    ensures var w := WriteLoop(s, segs, drops);
            WindowOf(w.st) == AfterDrops(WindowOf(s), s.mss, DroppedSeqs(w.sent, drops))
    decreases |segs|
  {
    if segs != [] {
      var p := DataPacket(s.nextOut, segs[0]);
      var s1 := EmitSegment(s, segs[0], drops);
      EmitDrops(s, segs[0], drops);
      hide EmitSegment;
      if s1.Writable() {
        WriteLoopDrops(s1, segs[1..], drops);
        var sent := WriteLoop(s1, segs[1..], drops).sent;
        HeadOf(p, sent, drops);
        AfterDropsHead(WindowOf(s), s.mss, p.seqNr, DroppedSeqs(sent, drops));
      } else {
        HeadOf(p, [], drops);
        AfterDropsHead(WindowOf(s), s.mss, p.seqNr, []);
        assert [p] + [] == [p];
      }
    }
  }

  lemma EmitDrops(s: Sock, seg: seq<Byte>, drops: set<nat>)
    ensures WindowOf(EmitSegment(s, seg, drops)) ==
            if s.nextOut in drops then AfterDrop(WindowOf(s), s.mss, s.nextOut) else WindowOf(s)
  {
  }

  lemma AfterDropsHead(w: Window, mss: Pos, n: nat, ns: seq<nat>)
    ensures AfterDrops(w, mss, [n] + ns) == AfterDrops(AfterDrop(w, mss, n), mss, ns)
    ensures [] + ns == ns
  {
    assert ([n] + ns)[1..] == ns;
  }

  /** A write during which hops drop segments synchronously: the window reacts to
      exactly the dropped numbers, in order. */
  lemma WriteHalvesExactly(s: System, bufs: seq<seq<Byte>>, drops: set<nat>)
    requires !s.fault
    ensures var r := Next(s, Write(bufs, drops));
            && s.log <= r.log
            && WindowOf(r.snd) == AfterDrops(WindowOf(s.snd), s.snd.mss, DroppedSeqs(r.log[|s.log|..], drops))
  {
    hide WriteLoop;
    hide SplitAll;
    WriteLoopDrops(s.snd, SplitAll(bufs, s.snd.mss), drops);
    var w := WriteSome(s.snd, bufs, drops);
    assert (s.log + w.sent)[|s.log|..] == w.sent;
  }

  /** One segment that is dropped while it is handed over. */
  lemma SegmentDropHalves(s: System, seg: seq<Byte>)
    requires !s.fault && s.snd.open && s.snd.channel && !s.snd.connecting && s.snd.hops > 0 && s.snd.Writable()
    requires 0 < |seg| <= s.snd.mss
    ensures var r := Next(s, Write([seg], {s.snd.nextOut}));
            var n := s.snd.nextOut;
            var halved := s.snd.lastDrop == 0 || n >= s.snd.lastDrop + s.snd.cwnd / s.snd.mss;
            && r.snd.cwnd == (if halved then Max(s.snd.cwnd / 2, s.snd.mss) else s.snd.cwnd)
            && r.snd.lastDrop == (if halved then n else s.snd.lastDrop)
            && r.snd.outgoing == s.snd.outgoing + [Packet(Payload, n, seg, 40, NoError, false)]
            && r.net == s.net
  {
    var mss := s.snd.mss;
    assert seg[..|seg|] == seg && seg[|seg|..] == [];
    assert Split([], mss) == [] && Split(seg, mss) == [seg];
    assert [seg][1..] == [];
    assert SplitAll([], mss) == [] && SplitAll([seg], mss) == [seg];
    NextWriteIsEmitMany(s, [seg], {s.snd.nextOut});
    hide SplitAll;
    hide Split;
    var s1 := EmitOne(s, seg, {s.snd.nextOut});
    assert EmitMany(s1, [], {s.snd.nextOut}) == s1;
    assert s.net + [] == s.net;
  }

  /** The window of that moment for packet `i` of a write: after the drops of the
      packets before it. */
  function WindowAt(s: Sock, sent: seq<Packet>, drops: set<nat>, i: nat): (r: int)
    requires i <= |sent|
  {
    AfterDrops(WindowOf(s), s.mss, DroppedSeqs(sent[..i], drops)).cwnd
  }

  lemma {:induction false} WriteLoopWithin(s: Sock, segs: seq<seq<Byte>>, drops: set<nat>, i: nat)
    requires s.Writable() && FitMss(segs, s.mss)
    ensures var sent := WriteLoop(s, segs, drops).sent;
            i < |sent| ==> s.inFlight + |PayloadOf(sent[..i + 1])| <= WindowAt(s, sent, drops, i)
    decreases |segs|
  {
    var sent := WriteLoop(s, segs, drops).sent;
    if i < |sent| {
      var p := DataPacket(s.nextOut, segs[0]);
      var s1 := EmitSegment(s, segs[0], drops);
      EmitDrops(s, segs[0], drops);
      assert s1.inFlight == s.inFlight + |segs[0]|;
      hide EmitSegment;
      if i == 0 {
        assert sent[..1] == [p] && sent[..0] == [];
        HeadOf(p, [], drops);
        assert [p] + [] == [p];
      } else {
        assert FitMss(segs[1..], s.mss);
        WriteLoopWithin(s1, segs[1..], drops, i - 1);
        WithinStep(s, s1, p, WriteLoop(s1, segs[1..], drops).sent, drops, i);
      }
    }
  }

  lemma WithinStep(s: Sock, s1: Sock, p: Packet, rest: seq<Packet>, drops: set<nat>, i: nat)
    requires 0 < i <= |rest| && s1.mss == s.mss && s1.inFlight == s.inFlight + |p.buffer|
    requires WindowOf(s1) == if p.seqNr in drops then AfterDrop(WindowOf(s), s.mss, p.seqNr) else WindowOf(s)
    requires s1.inFlight + |PayloadOf(rest[..i])| <= WindowAt(s1, rest, drops, i - 1)
    ensures s.inFlight + |PayloadOf(([p] + rest)[..i + 1])| <= WindowAt(s, [p] + rest, drops, i)
  {
    hide AfterDrop;
    hide AfterDrops;
    assert ([p] + rest)[..i + 1] == [p] + rest[..i];
    assert ([p] + rest)[..i] == [p] + rest[..i - 1];
    HeadOf(p, rest[..i], drops);
    HeadOf(p, rest[..i - 1], drops);
    AfterDropsHead(WindowOf(s), s.mss, p.seqNr, DroppedSeqs(rest[..i - 1], drops));
  }

  /** A write never sends a packet beyond the window of that moment, also when the
      drop of an earlier packet of the same write has just halved it. */
  lemma WritesWithinWindow(s: System, bufs: seq<seq<Byte>>, drops: set<nat>, i: nat)
    requires !s.fault
    ensures var r := Next(s, Write(bufs, drops));
            && s.log <= r.log
            && (var sent := r.log[|s.log|..];
                i < |sent| ==> s.snd.inFlight + |PayloadOf(sent[..i + 1])| <= WindowAt(s.snd, sent, drops, i))
  {
    hide WriteLoop;
    hide SplitAll;
    hide WindowAt;
    hide PayloadOf;
    var w := WriteSome(s.snd, bufs, drops);
    assert (s.log + w.sent)[|s.log|..] == w.sent;
    if w.ec == NoError {
      SplitAllSegments(bufs, s.snd.mss);
      WriteLoopWithin(s.snd, SplitAll(bufs, s.snd.mss), drops, i);
    }
  }

  // ---------------------------------------------------------------------------
  // Acks

  /** Re-sending takes packets from the front and stops when none is left or the
      next one does not fit. */
  lemma {:induction false} ResendsWhatFits(s: Sock)
    ensures var w := ResendLoop(s);
            && w.sent <= s.outgoing && w.st.outgoing == s.outgoing[|w.sent|..]
            && w.st.inFlight == s.inFlight + |PayloadOf(w.sent)|
            && (w.st.outgoing == [] || w.st.inFlight + |w.st.outgoing[0].buffer| > s.cwnd)
            && w.st.cwnd == s.cwnd && w.st.mss == s.mss && w.st.hist.acked == s.hist.acked
    decreases |s.outgoing|
  {
    if MayResend(s) {
      var p := s.outgoing[0];
      ResendsWhatFits(ResendOne(s));
      var sent := ResendLoop(ResendOne(s)).sent;
      assert s.outgoing == [p] + s.outgoing[1..];
      assert ([p] + sent)[1..] == sent;
    }
  }

  lemma {:induction false} ResendsWithin(s: Sock, i: nat)
    ensures var sent := ResendLoop(s).sent;
            i < |sent| ==> s.inFlight + |PayloadOf(sent[..i + 1])| <= s.cwnd
    decreases |s.outgoing|
  {
    var sent := ResendLoop(s).sent;
    if i < |sent| {
      var p := s.outgoing[0];
      var rest := ResendLoop(ResendOne(s)).sent;
      assert sent[..i + 1] == [p] + rest[..i];
      assert ([p] + rest[..i])[1..] == rest[..i];
      if i == 0 {
        assert PayloadOf(rest[..0]) == [];
      } else {
        ResendsWithin(ResendOne(s), i - 1);
        assert rest[..i - 1 + 1] == rest[..i];
      }
    }
  }

  /** Nor does an ack re-send a packet beyond the window. */
  lemma ResendsWithinWindow(s: System, n: nat, i: nat)
    requires n in s.snd.outstanding && s.snd.cwnd > 0
    ensures var sent := IncomingAck(s.snd, n).sent;
            i < |sent| ==>
              s.snd.inFlight - s.snd.outstanding[n] + |PayloadOf(sent[..i + 1])| <= s.snd.cwnd
  {
    hide ResendLoop;
    ResendsWithin(TakeAck(s.snd, n), i);
  }

  /** The floor of one segment times the acked bytes over the window. */
  predicate GrownBy(grown: int, cwnd: int, mss: Pos, acked: nat)
  {
    grown * cwnd <= mss * acked < (grown + 1) * cwnd
  }

  lemma AckReaction(s: Sock, n: nat)
    requires n in s.outstanding && s.cwnd > 0
    ensures var w := IncomingAck(s, n);
            var acked := s.outstanding[n];
            && GrownBy(w.st.cwnd - s.cwnd, s.cwnd, s.mss, acked)
            && w.st.hist.acked == s.hist.acked + acked
            && w.sent <= s.outgoing && w.st.outgoing == s.outgoing[|w.sent|..]
            && w.st.inFlight == s.inFlight - acked + |PayloadOf(w.sent)|
            && (w.st.outgoing == [] || w.st.inFlight + |w.st.outgoing[0].buffer| > s.cwnd)
  {
    hide ResendLoop;
    ResendsWhatFits(TakeAck(s, n));
    FloorBounds(s.mss * s.outstanding[n], s.cwnd);
  }

  /** What an ack does to a live sender: its size leaves the accounting, packets
      from the front of the list are re-sent as long as they fit the window, and
      then the window grows. */
  lemma AckGrowsExactly(s: System, i: nat, drops: set<nat>)
    requires !s.fault && s.snd.channel && i < |s.acks| && !Next(s, AckArrives(i, drops)).fault
    ensures s.acks[i] in s.snd.outstanding && s.snd.cwnd > 0
    ensures var r := Next(s, AckArrives(i, drops)).snd;
            var acked := s.snd.outstanding[s.acks[i]];
            && GrownBy(r.cwnd - s.snd.cwnd, s.snd.cwnd, s.snd.mss, acked)
            && r.hist.acked == s.snd.hist.acked + acked
            && |r.outgoing| <= |s.snd.outgoing|
            && (var k := |s.snd.outgoing| - |r.outgoing|;
                && r.outgoing == s.snd.outgoing[k..]
                && r.inFlight == s.snd.inFlight - acked + |PayloadOf(s.snd.outgoing[..k])|)
            && (r.outgoing == [] || r.inFlight + |r.outgoing[0].buffer| > s.snd.cwnd)
  {
    hide IncomingAck;
    hide GrownBy;
    var n := s.acks[i];
    assert n in s.snd.outstanding && s.snd.cwnd > 0;
    AckReaction(s.snd, n);
    var sent := IncomingAck(s.snd, n).sent;
    assert s.snd.outgoing[..|sent|] == sent;
  }

  // ---------------------------------------------------------------------------
  // Close

  /** Closing sends one eof if and only if the connection is established, and
      leaves the socket like a new one that is not open, but for what waits to be
      re-sent and what was received. */
  lemma CloseStartsOver(s: System)
    requires !s.fault && s.snd.channel
    ensures var r := Next(s, CloseSender);
            && r.snd == Established(1475).(open := false, channel := false, hops := s.snd.hops,
                                           reorder := s.snd.reorder, incoming := s.snd.incoming,
                                           outgoing := s.snd.outgoing, hist := r.snd.hist)
            && (var eofs := if s.snd.hops > 0 && !s.snd.connecting
                            then [Packet(Error, s.snd.nextOut, [], 40, Eof, false)] else [];
                r == s.(snd := r.snd, log := s.log + eofs, net := s.net + eofs))
  {
    assert s.log + [] == s.log && s.net + [] == s.net;
  }
}
