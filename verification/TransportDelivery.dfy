/** When the byte stream arrives completely, and what keeps it from doing so. */
module TransportDelivery {
  import opened Sequences
  import opened Packets
  import opened TcpSpec
  import opened WriteFacts
  import opened ReceiveFacts
  import opened Transport
  import opened MicroSteps
  import opened TransportInv
  import opened TransportSteps
  import opened TransportTheorems

  lemma IncomingDrained(s: Sock, p: Packet)
    requires s.nextIn !in s.reorder
    ensures IncomingData(s, p).nextIn !in IncomingData(s, p).reorder
  {
    DrainDrains(s.(nextIn := s.nextIn + 1, incoming := s.incoming + [p]));
  }

  lemma NextDrained(s: System, step: Step)
    requires s.rcv.nextIn !in s.rcv.reorder
    ensures Next(s, step).rcv.nextIn !in Next(s, step).rcv.reorder
  {
    hide IncomingData;
    if step.Deliver? && step.i < |s.net| {
      IncomingDrained(s.rcv, s.net[step.i]);
    }
    hide WriteLoop;
    hide ResendLoop;
  }

  lemma {:induction false} ExecDrained(mss: Pos, steps: seq<Step>)
    ensures var s := Exec(Init(mss), steps); s.rcv.nextIn !in s.rcv.reorder
  {
    hide Next;
    if steps != [] {
      ExecDrained(mss, steps[..|steps| - 1]);
      NextDrained(Exec(Init(mss), steps[..|steps| - 1]), steps[|steps| - 1]);
    }
  }

  /** When the network is empty, the receiver has every numbered packet, and
      every accepted byte, exactly if none was dropped a second time and none
      still waits to be re-sent (after a close it waits for ever). */
  lemma CompleteExactlyWithoutLoss(mss: Pos, steps: seq<Step>)
    ensures var s := Exec(Init(mss), steps);
            s.net == [] ==>
              && (s.rcv.nextIn == |s.log| <==> s.lost == [] && s.snd.outgoing == [])
              && (s.delivered + PayloadOf(s.rcv.incoming) == s.accepted <==> s.lost == [] && s.snd.outgoing == [])
  {
    ExecKeeps(mss, steps);
    ExecDrained(mss, steps);
    var s := Exec(Init(mss), steps);
    if s.net == [] {
      CompleteNumbers(s);
      CompleteBytes(s, mss);
    }
  }

  /** With an empty network the number that the receiver expects is missing
      because it waits to be re-sent or is lost. */
  lemma ExpectedIsMissing(s: System)
    requires s.net == [] && s.rcv.nextIn !in s.rcv.reorder && s.rcv.nextIn < |s.log|
    requires Conserved(s.net, s.snd.outgoing, s.rcv.reorder.Keys, s.rcv.nextIn, s.lost, |s.log|)
    ensures s.rcv.nextIn in Seqs(s.snd.outgoing) || s.rcv.nextIn in s.lost
  {
    assert Seqs(s.net) == [];
    assert s.rcv.nextIn in multiset(Below(|s.log|));
  }

  /** What waits or is lost was never handed over. */
  lemma MissingAbove(s: System, n: nat)
    requires n in Seqs(s.snd.outgoing) || n in s.lost
    requires Conserved(s.net, s.snd.outgoing, s.rcv.reorder.Keys, s.rcv.nextIn, s.lost, |s.log|)
    ensures s.rcv.nextIn <= n < |s.log|
  {
    assert n in multiset(Seqs(s.snd.outgoing)) || n in multiset(s.lost);
    assert multiset(Below(|s.log|))[n] <= 1;
    assert n !in Below(s.rcv.nextIn);
    assert n in multiset(Below(|s.log|));
  }

  lemma CompleteNumbers(s: System)
    requires s.net == [] && s.rcv.nextIn !in s.rcv.reorder && s.rcv.nextIn <= |s.log|
    requires Conserved(s.net, s.snd.outgoing, s.rcv.reorder.Keys, s.rcv.nextIn, s.lost, |s.log|)
    ensures s.rcv.nextIn == |s.log| <==> s.lost == [] && s.snd.outgoing == []
  {
    hide Conserved;
    if s.rcv.nextIn == |s.log| {
      NothingLeft(s);
    } else {
      ExpectedIsMissing(s);
    }
  }

  /** What waits or is lost is payload, and there is some. */
  lemma MissingPayload(s: System, n: nat)
    requires n in Seqs(s.snd.outgoing) || n in s.lost
    requires Copies(s.snd.outgoing, s.log) && WaitingOk(s.snd.outgoing) && LostPayload(s.lost, s.log)
    ensures n < |s.log| && s.log[n].kind == Payload
  {
    if n in s.lost {
      var i :| 0 <= i < |s.lost| && s.lost[i] == n;
    } else {
      var i :| 0 <= i < |s.snd.outgoing| && Seqs(s.snd.outgoing)[i] == n;
      assert IsCopy(s.snd.outgoing[i], s.log);
    }
  }

  lemma CompleteBytes(s: System, mss: Pos)
    requires Inv(s, mss) && s.net == [] && s.rcv.nextIn !in s.rcv.reorder
    requires s.rcv.nextIn == |s.log| <==> s.lost == [] && s.snd.outgoing == []
    ensures s.delivered + PayloadOf(s.rcv.incoming) == s.accepted <==> s.lost == [] && s.snd.outgoing == []
  {
    hide Conserved;
    hide Live;
    if s.rcv.nextIn == |s.log| {
      assert s.log[..s.rcv.nextIn] == s.log;
      assert PayloadOf([]) == [];
      assert PayloadOf(s.log) + [] == PayloadOf(s.log);
    } else {
      var n := s.rcv.nextIn;
      ExpectedIsMissing(s);
      MissingPayload(s, n);
      assert s.log == s.log[..n] + s.log[n..];
      PayloadConcat(s.log[..n], s.log[n..]);
      assert PayloadOf(s.log[n..]) == s.log[n].buffer + PayloadOf(s.log[n..][1..]);
    }
  }

  lemma NextExtends(s: System, step: Step)
    ensures s.lost <= Next(s, step).lost && s.log <= Next(s, step).log
  {
    hide WriteLoop;
    hide ResendLoop;
    hide IncomingData;
    hide SplitAll;
    hide ReadSome;
  }

  lemma {:induction false} ExecExtends(s: System, more: seq<Step>)
    ensures s.lost <= Exec(s, more).lost && s.log <= Exec(s, more).log
  {
    hide Next;
    if more != [] {
      ExecExtends(s, more[..|more| - 1]);
      NextExtends(Exec(s, more[..|more| - 1]), more[|more| - 1]);
    }
  }

  lemma {:induction false} ExecConcat(s: System, steps: seq<Step>, more: seq<Step>)
    ensures Exec(s, steps + more) == Exec(Exec(s, steps), more)
  {
    hide Next;
    if more == [] {
      assert steps + more == steps;
    } else {
      var m := |more| - 1;
      assert (steps + more)[..|steps + more| - 1] == steps + more[..m];
      ExecConcat(s, steps, more[..m]);
    }
  }

  /** In `r`, a later state than `s`, the reader has nothing from packet `n` on
      and was not told of the end. */
  ghost predicate NeverPast(s: System, r: System, n: nat)
  {
    && n < |s.log| && s.log[n].kind == Payload
    && r.rcv.nextIn <= n
    && r.delivered <= PayloadOf(s.log[..n])
    && !r.eofRead
  }

  /** A loss is final: whatever happens afterwards, the reader gets no byte from
      the lost packet on and is never told of the end. */
  lemma LossIsFinal(mss: Pos, steps: seq<Step>, more: seq<Step>)
    ensures var s := Exec(Init(mss), steps);
            var r := Exec(s, more);
            forall n :: n in s.lost ==> NeverPast(s, r, n)
  {
    var s := Exec(Init(mss), steps);
    var r := Exec(s, more);
    ExecKeeps(mss, steps);
    ExecConcat(Init(mss), steps, more);
    ExecKeeps(mss, steps + more);
    ExecExtends(s, more);
    hide Exec;
    hide Inv;
    hide NeverPast;
    forall n | n in s.lost ensures NeverPast(s, r, n) {
      MissingBounds(s, r, n, mss);
    }
  }

  lemma MissingBounds(s: System, r: System, n: nat, mss: Pos)
    requires Inv(s, mss) && Inv(r, mss) && s.log <= r.log
    requires n in s.lost || n in Seqs(s.snd.outgoing)
    requires n in r.lost || n in Seqs(r.snd.outgoing)
    ensures NeverPast(s, r, n)
  {
    hide Conserved;
    hide Live;
    MissingPayload(s, n);
    MissingAbove(r, n);
    var head := r.log[..n];
    assert s.log[..n] == head;
    PayloadPrefix(head, r.rcv.nextIn);
    assert head[..r.rcv.nextIn] == r.log[..r.rcv.nextIn];
    assert r.delivered <= r.delivered + PayloadOf(r.rcv.incoming);
  }

  // ---------------------------------------------------------------------------
  // Stalls

  /** Nothing is on its way to either end. */
  predicate Quiet(s: System)
  {
    s.net == [] && s.acks == []
  }

  /** The sender has closed, or it is waiting for an ack that cannot come and
      its window has no room for a full segment. */
  predicate Stuck(s: System)
  {
    !s.snd.channel || (Quiet(s) && !s.snd.Writable())
  }

  lemma NextStuck(s: System, step: Step)
    requires Stuck(s)
    ensures var r := Next(s, step);
            && Stuck(r) && r.snd.outgoing == s.snd.outgoing
            && r.snd.hist.resent == s.snd.hist.resent && r.accepted == s.accepted
  {
    hide IncomingData;
    hide ReadSome;
    hide WriteLoop;
    hide ResendLoop;
  }

  lemma {:induction false} ExecStuck(s: System, more: seq<Step>)
    requires Stuck(s)
    ensures var r := Exec(s, more);
            && Stuck(r) && r.snd.outgoing == s.snd.outgoing
            && r.snd.hist.resent == s.snd.hist.resent && r.accepted == s.accepted
  {
    hide Next;
    hide Stuck;
    if more != [] {
      ExecStuck(s, more[..|more| - 1]);
      NextStuck(Exec(s, more[..|more| - 1]), more[|more| - 1]);
    }
  }

  /** What waits to be re-sent in a stuck sender is as final as a loss: the list
      never changes again, and the reader gets no byte from any packet in it on,
      and is never told of the end. */
  lemma StuckIsFinal(mss: Pos, steps: seq<Step>, more: seq<Step>)
    ensures var s := Exec(Init(mss), steps);
            var r := Exec(s, more);
            Stuck(s) ==>
              && r.snd.outgoing == s.snd.outgoing
              && (forall n :: n in Seqs(s.snd.outgoing) ==> NeverPast(s, r, n))
  {
    var s := Exec(Init(mss), steps);
    var r := Exec(s, more);
    ExecKeeps(mss, steps);
    ExecConcat(Init(mss), steps, more);
    ExecKeeps(mss, steps + more);
    ExecExtends(s, more);
    hide Exec;
    hide Inv;
    hide NeverPast;
    hide Stuck;
    if Stuck(s) {
      ExecStuck(s, more);
      forall n | n in Seqs(s.snd.outgoing) ensures NeverPast(s, r, n) {
        MissingBounds(s, r, n, mss);
      }
    }
  }

  /** No packet carries more than one segment. */
  ghost predicate SegmentSized(log: seq<Packet>, mss: Pos)
  {
    forall n :: 0 <= n < |log| ==> |log[n].buffer| <= mss
  }

  lemma NextSegmentSized(s: System, step: Step, mss: Pos)
    requires SegmentSized(s.log, mss) && (s.snd.channel ==> s.snd.mss == mss)
    ensures SegmentSized(Next(s, step).log, mss)
  {
    hide WriteSome;
    hide IncomingAck;
    hide IncomingData;
    hide ReadSome;
    if step.Write? {
      WriteSomeSegments(s.snd, step.wbufs, step.wdrops);
    }
  }

  lemma {:induction false} ExecSegmentSized(mss: Pos, steps: seq<Step>)
    ensures SegmentSized(Exec(Init(mss), steps).log, mss)
  {
    hide Next;
    hide SegmentSized;
    if steps == [] {
      assert SegmentSized([], mss) by { NoSegments(mss); }
    } else {
      var before := steps[..|steps| - 1];
      ExecSegmentSized(mss, before);
      ExecKeeps(mss, before);
      NextSegmentSized(Exec(Init(mss), before), steps[|steps| - 1], mss);
    }
  }

  lemma NoSegments(mss: Pos)
    ensures SegmentSized([], mss)
  {
  }

  lemma {:induction false} ResendGrows(s: Sock)
    ensures ResendLoop(s).st.hist.resent >= s.hist.resent
    ensures MayResend(s) ==> ResendLoop(s).st.hist.resent >= s.hist.resent + |s.outgoing[0].buffer|
    decreases |s.outgoing|
  {
    if MayResend(s) {
      ResendGrows(ResendOne(s));
    }
  }

  lemma WaitingNotEmpty(outgoing: seq<Packet>, log: seq<Packet>, live: bool, mss: Pos)
    requires LogOk(log, live) && Copies(outgoing, log) && WaitingOk(outgoing) && SegmentSized(log, mss)
    requires outgoing != []
    ensures 0 < |outgoing[0].buffer| <= mss
  {
    assert IsCopy(outgoing[0], log);
  }

  /** A quiet sender with room in its window gets the first waiting packet out
      again by writing one byte: the ack of that byte triggers the re-sending. */
  lemma OneByteRecovers(s: System, mss: Pos)
    requires Inv(s, mss) && SegmentSized(s.log, mss) && !s.fault
    requires s.snd.channel && Quiet(s) && s.snd.outgoing != [] && s.snd.Writable()
    ensures Exec(s, [Write([[0]], {}), Deliver(0), AckArrives(0, {})]).snd.hist.resent > s.snd.hist.resent
  {
    hide Next;
    var steps := [Write([[0]], {}), Deliver(0), AckArrives(0, {})];
    assert steps[..2] == [steps[0], steps[1]] && steps[..2][..1] == [steps[0]] && [steps[0]][..0] == [];
    assert Exec(s, []) == s;
    var s1 := WriteOne(s, mss);
    var s2 := DeliverOne(s1);
    var s3 := AckOne(s, s2, mss);
    assert Exec(s, [steps[0]]) == s1;
    assert Exec(s, steps[..2]) == s2;
  }

  lemma WriteOne(s: System, mss: Pos) returns (r: System)
    requires Inv(s, mss) && !s.fault && s.snd.channel && Quiet(s) && s.snd.Writable()
    ensures r == Next(s, Write([[0]], {}))
    ensures !r.fault && r.net == [DataPacket(|s.log|, [0])] && r.acks == [] && r.rcv.channel
    ensures r.accepted == s.accepted + [0]
    ensures r.snd == SendPacket(s.snd.(nextOut := |s.log| + 1), DataPacket(|s.log|, [0]))
  {
    hide Content;
    hide Conserved;
    r := Next(s, Write([[0]], {}));
    assert [0 as Byte][..1] == [0] && [0 as Byte][1..] == [];
    assert Split([], mss) == [] && Split([0], mss) == [[0]];
    assert [[0 as Byte]][1..] == [];
    assert SplitAll([], mss) == [] && SplitAll([[0]], mss) == [[0]];
    NextWriteIsEmitMany(s, [[0]], {});
    assert EmitMany(s, [[0]], {}) == EmitOne(s, [0], {}) by {
      assert EmitMany(EmitOne(s, [0], {}), [], {}) == EmitOne(s, [0], {});
    }
  }

  lemma DeliverOne(s: System) returns (r: System)
    requires !s.fault && |s.net| == 1 && s.acks == [] && s.rcv.channel
    ensures r == Next(s, Deliver(0))
    ensures !r.fault && r.acks == [s.net[0].seqNr] && r.snd == s.snd
  {
    hide IncomingData;
    r := Next(s, Deliver(0));
  }

  lemma AckOne(s: System, s2: System, mss: Pos) returns (r: System)
    requires Inv(s, mss) && SegmentSized(s.log, mss) && s.snd.channel && s.snd.outgoing != [] && s.snd.Writable()
    requires !s2.fault && s2.acks == [|s.log|]
    requires s2.snd == SendPacket(s.snd.(nextOut := |s.log| + 1), DataPacket(|s.log|, [0]))
    ensures r == Next(s2, AckArrives(0, {}))
    ensures r.snd.hist.resent > s.snd.hist.resent
  {
    hide Conserved;
    hide Received;
    hide ResendLoop;
    hide SumUpTo;
    hide SegmentSized;
    hide LogOk;
    hide Copies;
    hide WaitingOk;
    r := Next(s2, AckArrives(0, {}));
    var t := TakeAck(s2.snd, |s.log|);
    WaitingNotEmpty(s.snd.outgoing, s.log, s.snd.channel, mss);
    assert t.inFlight == s.snd.inFlight && t.cwnd == s.snd.cwnd && t.outgoing == s.snd.outgoing;
    assert MayResend(t);
    ResendGrows(t);
  }

  /** Only an ack triggers re-sending.  So when nothing is in transit and packets
      wait, some byte is ever re-sent if and only if the window has room for a
      full segment, so that the writer can still send something that is acked. */
  lemma StalledExactly(mss: Pos, steps: seq<Step>)
    ensures var s := Exec(Init(mss), steps);
            !s.fault && s.snd.channel && Quiet(s) && s.snd.outgoing != [] ==>
              ((exists more :: Exec(s, more).snd.hist.resent > s.snd.hist.resent) <==> s.snd.Writable())
  {
    var s := Exec(Init(mss), steps);
    ExecKeeps(mss, steps);
    ExecSegmentSized(mss, steps);
    hide Exec;
    hide Inv;
    hide SegmentSized;
    if !s.fault && s.snd.channel && Quiet(s) && s.snd.outgoing != [] {
      if s.snd.Writable() {
        OneByteRecovers(s, mss);
      } else {
        forall more ensures Exec(s, more).snd.hist.resent == s.snd.hist.resent {
          ExecStuck(s, more);
        }
      }
    }
  }

  // ---------------------------------------------------------------------------
  // What counting re-sent bytes twice leads to

  lemma {:induction false} SumOfNothing(m: map<nat, nat>, n: nat)
    requires m == map[]
    ensures SumUpTo(m, n) == 0
  {
    if n > 0 { SumOfNothing(m, n - 1); }
  }

  /** With nothing in transit, waiting or lost, all that is in flight are the
      bytes that were re-sent. */
  lemma OnlyResentInFlight(s: System)
    requires Live(s.snd, s.net, s.acks, s.lost, s.log)
    requires Quiet(s) && s.lost == [] && s.snd.outgoing == []
    ensures s.snd.inFlight == s.snd.hist.resent
  {
    hide SumUpTo;
    assert Seqs(s.net) == [] && Seqs(s.snd.outgoing) == [];
    assert |multiset(s.snd.outstanding.Keys)| == |s.snd.outstanding.Keys| == 0;
    assert s.snd.outstanding == map[];
    SumOfNothing(s.snd.outstanding, |s.log|);
  }

  lemma OneByteAccepted(s: System, mss: Pos)
    requires Inv(s, mss) && !s.fault && s.snd.channel && Quiet(s) && s.snd.Writable()
    ensures |Exec(s, [Write([[0]], {})]).accepted| > |s.accepted|
  {
    hide Inv;
    hide Next;
    var r := WriteOne(s, mss);
    assert [Write([[0]], {})][..0] == [];
  }

  /** Re-sent bytes stay in flight for ever.  So when everything was delivered and
      acked, another byte is ever accepted if and only if the bytes re-sent so far
      and one segment fit the window: an idle connection without a loss can be
      closed to its writer for good. */
  lemma IdleAcceptsExactly(mss: Pos, steps: seq<Step>)
    ensures var s := Exec(Init(mss), steps);
            !s.fault && s.snd.channel && Quiet(s) && s.lost == [] && s.snd.outgoing == [] ==>
              && s.delivered + PayloadOf(s.rcv.incoming) == s.accepted
              && s.snd.inFlight == s.snd.hist.resent
              && ((exists more :: |Exec(s, more).accepted| > |s.accepted|) <==> s.snd.hist.resent + mss <= s.snd.cwnd)
  {
    var s := Exec(Init(mss), steps);
    ExecKeeps(mss, steps);
    CompleteExactlyWithoutLoss(mss, steps);
    hide Exec;
    if !s.fault && s.snd.channel && Quiet(s) && s.lost == [] && s.snd.outgoing == [] {
      IdleAccepts(s, mss);
    }
  }

  lemma IdleAccepts(s: System, mss: Pos)
    requires Inv(s, mss) && !s.fault && s.snd.channel && Quiet(s) && s.lost == [] && s.snd.outgoing == []
    ensures s.snd.inFlight == s.snd.hist.resent
    ensures (exists more :: |Exec(s, more).accepted| > |s.accepted|) <==> s.snd.hist.resent + mss <= s.snd.cwnd
  {
    hide Content;
    hide Conserved;
    hide Received;
    hide Live;
    hide Exec;
    OnlyResentInFlight(s);
    if s.snd.Writable() {
      OneByteAccepted(s, mss);
    } else {
      forall more ensures Exec(s, more).accepted == s.accepted {
        ExecStuck(s, more);
      }
    }
  }
}
