/** What the transport guarantees in every run: for every segment size and every
    sequence of writes, drops, deliveries, acks, re-sends, reads and closes. */
module TransportTheorems {
  import opened Sequences
  import opened Packets
  import opened TcpSpec
  import opened Transport
  import opened TransportInv
  import opened TransportSteps

  // ---------------------------------------------------------------------------
  // Safety of the byte stream

  lemma {:induction false} PayloadPrefix(log: seq<Packet>, n: nat)
    requires n <= |log|
    ensures PayloadOf(log[..n]) <= PayloadOf(log)
  {
    assert log == log[..n] + log[n..];
    PayloadConcat(log[..n], log[n..]);
  }

  /** The reader sees a prefix of what the writer was told was accepted, and it
      is told of the end only after it has seen all of it. */
  lemma StreamSafety(mss: Pos, steps: seq<Step>)
    ensures var s := Exec(Init(mss), steps);
            && s.delivered <= s.accepted
            && (s.eofRead ==> s.delivered == s.accepted && !s.snd.channel)
  {
    ExecKeeps(mss, steps);
    var s := Exec(Init(mss), steps);
    if s.rcv.channel {
      PayloadPrefix(s.log, s.rcv.nextIn);
      assert s.delivered <= s.delivered + PayloadOf(s.rcv.incoming);
    }
  }

  // ---------------------------------------------------------------------------
  // Nothing is duplicated

  /** Every sequence number that was allocated is in exactly one place and no
      other number is anywhere; so no number below the expected one arrives. */
  lemma ExactlyOnePlace(mss: Pos, steps: seq<Step>, n: nat)
    ensures var s := Exec(Init(mss), steps);
            && Places(s.net, s.snd.outgoing, s.rcv.reorder.Keys, s.rcv.nextIn, s.lost)[n] ==
               (if n < |s.log| then 1 else 0)
            && !s.stale
            && (s.snd.channel ==> s.snd.nextOut == |s.log|)
  {
    ExecKeeps(mss, steps);
    var s := Exec(Init(mss), steps);
    assert multiset(Below(|s.log|))[n] == if n < |s.log| then 1 else 0;
  }

  /** Once the reader has seen the eof nothing of the sender's is left in the
      network, waiting, held back or lost. */
  lemma NothingAfterEof(mss: Pos, steps: seq<Step>)
    ensures var s := Exec(Init(mss), steps);
            s.eofRead ==>
              && s.net == [] && s.snd.outgoing == [] && s.lost == []
              && s.rcv.reorder == map[] && s.rcv.incoming == []
  {
    ExecKeeps(mss, steps);
    var s := Exec(Init(mss), steps);
    if s.eofRead {
      NothingLeft(s);
    }
  }

  // ---------------------------------------------------------------------------
  // Assertions

  /** At step `k` of the run a hop returns a packet to a sender that has closed. */
  ghost predicate LateReturnAt(mss: Pos, steps: seq<Step>, k: nat)
    requires k < |steps|
  {
    ReturnsAfterClose(Exec(Init(mss), steps[..k]), steps[k])
  }

  lemma LateReturnPrefix(mss: Pos, steps: seq<Step>, k: nat)
    requires k < |steps| - 1
    ensures LateReturnAt(mss, steps, k) == LateReturnAt(mss, steps[..|steps| - 1], k)
  {
    assert steps[..|steps| - 1][..k] == steps[..k];
  }

  /** No assertion fails and no null pointer is followed in any run, except
      exactly when a hop returns a dropped packet to a sender that has closed. */
  lemma {:induction false} FaultsExactlyOnLateReturn(mss: Pos, steps: seq<Step>)
    ensures Exec(Init(mss), steps).fault <==> exists k: nat :: k < |steps| && LateReturnAt(mss, steps, k)
  {
    hide Inv;
    hide Next;
    hide LateReturnAt;
    if steps != [] {
      var m := |steps| - 1;
      var before := steps[..m];
      FaultsExactlyOnLateReturn(mss, before);
      ExecKeeps(mss, before);
      NextKeeps(Exec(Init(mss), before), steps[m], mss);
      LastLateReturn(mss, steps);
      forall k: nat | k < m ensures LateReturnAt(mss, steps, k) == LateReturnAt(mss, before, k) {
        LateReturnPrefix(mss, steps, k);
      }
    }
  }

  lemma LastLateReturn(mss: Pos, steps: seq<Step>)
    requires steps != []
    ensures var m := |steps| - 1;
            LateReturnAt(mss, steps, m) == ReturnsAfterClose(Exec(Init(mss), steps[..m]), steps[m])
  {
  }

  /** Whenever a fresh payload packet is in transit, closing the sender and then
      dropping the packet is such a fault. */
  lemma CloseThenDropFaults(s: System, i: nat)
    requires !s.fault && s.snd.channel && i < |s.net| && s.net[i].OkToDrop() && s.net[i].returnable
    ensures Next(Next(s, CloseSender), Drop(i)).fault
  {
    var c := Next(s, CloseSender);
    assert c.net[i] == s.net[i];
  }

  // ---------------------------------------------------------------------------
  // Bytes in flight

  /** While the connection is up, the in-flight counter is the sum of the
      outstanding packet sizes plus everything re-sent so far, and everything
      accepted is either acked or outstanding.  So the counter equals the sum
      exactly when nothing was re-sent, in particular without drops. */
  lemma InFlightExact(mss: Pos, steps: seq<Step>)
    ensures var s := Exec(Init(mss), steps);
            s.snd.channel ==>
              && s.snd.inFlight == SumUpTo(s.snd.outstanding, |s.log|) + s.snd.hist.resent
              && |s.accepted| == s.snd.hist.acked + SumUpTo(s.snd.outstanding, |s.log|)
              && (forall k :: k in s.snd.outstanding ==> k < |s.log| && s.snd.outstanding[k] == |s.log[k].buffer|)
              && (s.snd.inFlight == SumUpTo(s.snd.outstanding, |s.log|) <==> s.snd.hist.resent == 0)
              && (s.snd.hist.drops == 0 ==> s.snd.hist.resent == 0)
  {
    ExecKeeps(mss, steps);
    hide Received;
    hide Conserved;
    hide Content;
    hide SumUpTo;
  }

  // ---------------------------------------------------------------------------
  // The congestion window

  /** The window never falls below one segment; no payload is ever sent or
      re-sent beyond it; and after a halving at sequence number s > 0 the next
      one is at least a window of packets later. */
  lemma WindowSafety(mss: Pos, steps: seq<Step>)
    ensures var s := Exec(Init(mss), steps);
            && (s.snd.channel ==> s.snd.cwnd >= s.snd.mss > 0)
            && (forall i :: 0 <= i < |s.snd.hist.sends| && s.snd.hist.sends[i].size > 0 ==>
                  s.snd.hist.sends[i].inFlight + s.snd.hist.sends[i].size <= s.snd.hist.sends[i].cwnd)
            && (forall i :: 0 <= i < |s.snd.hist.cuts| - 1 && s.snd.hist.cuts[i].seqNr > 0 ==>
                  s.snd.hist.cuts[i + 1].seqNr >= s.snd.hist.cuts[i].seqNr + s.snd.hist.cuts[i + 1].cwnd / mss)
  {
    ExecKeeps(mss, steps);
    hide Received;
    hide Conserved;
    hide Content;
  }

  /** How a step can move the window of a live sender when no packet is returned:
      not at all, or by the growth for the bytes it acks. */
  ghost predicate GrowsBy(s: Sock, r: Sock)
  {
    && r.hist.drops >= s.hist.drops
    && (r.channel && r.hist.drops == s.hist.drops ==>
          && s.channel
          && r.mss == s.mss
          && r.hist.acked >= s.hist.acked
          && (s.cwnd > 0 ==> r.cwnd == s.cwnd + s.mss * (r.hist.acked - s.hist.acked) / s.cwnd))
  }

  lemma SameWindow(s: Sock, r: Sock)
    requires r.hist.drops == s.hist.drops && r.hist.acked == s.hist.acked
    requires r.channel ==> s.channel && r.mss == s.mss && r.cwnd == s.cwnd
    ensures GrowsBy(s, r)
  {
  }

  lemma EmitWindow(s: Sock, seg: seq<Byte>, drops: set<nat>)
    ensures var r := EmitSegment(s, seg, drops);
            && r.channel == s.channel && r.mss == s.mss && r.hist.acked == s.hist.acked
            && r.hist.drops >= s.hist.drops && (r.hist.drops == s.hist.drops ==> r.cwnd == s.cwnd)
  {
  }

  lemma {:induction false} WriteLoopWindow(s: Sock, segs: seq<seq<Byte>>, drops: set<nat>)
    ensures var r := WriteLoop(s, segs, drops).st;
            && r.channel == s.channel && r.mss == s.mss && r.hist.acked == s.hist.acked
            && r.hist.drops >= s.hist.drops && (r.hist.drops == s.hist.drops ==> r.cwnd == s.cwnd)
    decreases |segs|
  {
    hide EmitSegment;
    if segs != [] {
      EmitWindow(s, segs[0], drops);
      WriteLoopWindow(EmitSegment(s, segs[0], drops), segs[1..], drops);
    }
  }

  lemma {:induction false} ResendLoopWindow(s: Sock)
    ensures var r := ResendLoop(s).st;
            && r.channel == s.channel && r.mss == s.mss && r.hist.acked == s.hist.acked
            && r.hist.drops == s.hist.drops && r.cwnd == s.cwnd
    decreases |s.outgoing|
  {
    if MayResend(s) {
      ResendLoopWindow(ResendOne(s));
    }
  }

  lemma AckWindow(s: System, i: nat, drops: set<nat>)
    ensures GrowsBy(s.snd, NextAck(s, i, drops).snd)
  {
    var r := NextAck(s, i, drops);
    if i < |s.acks| && s.snd.channel && s.acks[i] in s.snd.outstanding && r.fault == s.fault {
      var k := s.acks[i];
      var t := TakeAck(s.snd, k);
      ResendLoopWindow(t);
      hide ResendLoop;
      assert r.snd == s.snd || r.snd == Grow(ResendLoop(t).st, s.snd.outstanding[k]);
      if r.snd == s.snd { SameWindow(s.snd, r.snd); }
    } else {
      SameWindow(s.snd, r.snd);
    }
  }

  lemma WriteWindow(s: System, bufs: seq<seq<Byte>>, drops: set<nat>)
    ensures GrowsBy(s.snd, NextWrite(s, bufs, drops).snd)
  {
    hide WriteLoop;
    hide SplitAll;
    WriteLoopWindow(s.snd, SplitAll(bufs, s.snd.mss), drops);
    var r := NextWrite(s, bufs, drops);
    if r.snd.hist.drops == s.snd.hist.drops {
      SameWindow(s.snd, r.snd);
    }
  }

  lemma StepWindow(s: System, step: Step)
    ensures GrowsBy(s.snd, Next(s, step).snd)
  {
    hide NextWrite;
    hide NextAck;
    hide GrowsBy;
    match step
    case Write(bufs, drops) => WriteWindow(s, bufs, drops); SameWindow(s.snd, s.snd);
    case AckArrives(i, drops) => AckWindow(s, i, drops); SameWindow(s.snd, s.snd);
    case CloseSender => CloseWindow(s); SameWindow(s.snd, s.snd);
    case Drop(i) => DropWindow(s, i); SameWindow(s.snd, s.snd);
    case Deliver(i) => SameWindow(s.snd, s.snd);
    case Read(bufs) => SameWindow(s.snd, s.snd);
  }

  lemma CloseWindow(s: System)
    ensures GrowsBy(s.snd, NextClose(s).snd)
  {
    if !s.snd.channel { SameWindow(s.snd, s.snd); }
  }

  lemma DropWindow(s: System, i: nat)
    ensures GrowsBy(s.snd, NextDrop(s, i).snd)
  {
    SameWindow(s.snd, s.snd);
  }

  lemma MulMonotone(a: int, b: int, c: nat)
    requires a <= b
    ensures a * c <= b * c
  {
  }

  lemma Distribute(a: int, b: int, c: int)
    ensures (a + b) * c == a * c + b * c
    ensures c * (a + b) == c * a + c * b
  {
  }

  lemma DivBounds(a: nat, c: int)
    requires c > 0
    ensures 0 <= a / c && (a / c) * c <= a
  {
  }

  /** One growth step, scaled by the window at the start. */
  lemma GrowthBound(c0: int, c: int, mss: Pos, a: nat, sum: nat)
    requires 0 < c0 <= c && (c - c0) * c0 <= mss * sum
    ensures var c' := c + mss * a / c;
            c0 <= c' && (c' - c0) * c0 <= mss * (sum + a)
  {
    var x := mss * a;
    var g := x / c;
    DivBounds(x, c);
    MulMonotone(c0, c, g);
    Distribute(c - c0, g, c0);
    Distribute(sum, a, mss);
  }

  lemma {:induction false} GrowthInv(s: System, more: seq<Step>, mss: Pos)
    requires s.snd.cwnd > 0 && s.snd.mss == mss
    ensures var r := Exec(s, more);
            && r.snd.hist.drops >= s.snd.hist.drops
            && (r.snd.channel && r.snd.hist.drops == s.snd.hist.drops ==>
                  && r.snd.mss == mss && s.snd.cwnd <= r.snd.cwnd
                  && r.snd.hist.acked >= s.snd.hist.acked
                  && (r.snd.cwnd - s.snd.cwnd) * s.snd.cwnd <= mss * (r.snd.hist.acked - s.snd.hist.acked))
    decreases |more|
  {
    hide Next;
    if more != [] {
      var m := |more| - 1;
      GrowthInv(s, more[..m], mss);
      var q := Exec(s, more[..m]);
      var r := Next(q, more[m]);
      StepWindow(q, more[m]);
      if r.snd.channel && r.snd.hist.drops == s.snd.hist.drops {
        GrowthBound(s.snd.cwnd, q.snd.cwnd, mss,
                    r.snd.hist.acked - q.snd.hist.acked, q.snd.hist.acked - s.snd.hist.acked);
      }
    }
  }

  lemma AtMostOneSegment(c0: nat, d: int, mss: Pos, acked: nat)
    requires 0 < c0 && d * c0 <= mss * acked && acked <= c0
    ensures d <= mss
  {
    MulMonotone(acked, c0, mss);
    if d > mss {
      MulMonotone(mss + 1, d, c0);
    }
  }

  /** Additive increase: in any stretch of a run in which no packet is returned
      and at most one window of bytes is acked, the window grows by at most one
      segment, and never shrinks. */
  lemma AdditiveIncrease(mss: Pos, steps: seq<Step>, more: seq<Step>)
    ensures var s := Exec(Init(mss), steps);
            var r := Exec(s, more);
            s.snd.channel && r.snd.channel && r.snd.hist.drops == s.snd.hist.drops
            && r.snd.hist.acked - s.snd.hist.acked <= s.snd.cwnd
            ==> s.snd.cwnd <= r.snd.cwnd <= s.snd.cwnd + mss
  {
    var s := Exec(Init(mss), steps);
    var r := Exec(s, more);
    ExecKeeps(mss, steps);
    hide Content;
    hide Received;
    hide Conserved;
    hide Exec;
    hide Sizes;
    hide Flight;
    hide Unacked;
    hide WithinWindow;
    hide Spaced;
    hide LostPayload;
    if s.snd.channel {
      GrowthInv(s, more, mss);
      if r.snd.channel && r.snd.hist.drops == s.snd.hist.drops && r.snd.hist.acked - s.snd.hist.acked <= s.snd.cwnd {
        AtMostOneSegment(s.snd.cwnd, r.snd.cwnd - s.snd.cwnd, mss, r.snd.hist.acked - s.snd.hist.acked);
      }
    }
  }
}
