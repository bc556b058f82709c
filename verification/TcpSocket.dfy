/** The TCP socket object (src/tcp_socket.cpp), method by method, proved
    against TcpSpec. */
module TcpSocket {
  import opened Sequences
  import opened Packets
  import TcpSpec
  import opened WriteFacts
  import opened ReadFacts
  import opened ReceiveFacts

  class Socket {
    var open: bool
    var channel: bool
    var connecting: bool
    var hops: nat
    var mss: Pos
    var cwnd: int
    var bytesInFlight: int
    var nextOutgoingSeq: nat
    var nextIncomingSeq: nat
    var lastDropSeq: nat
    var outstanding: map<nat, nat>
    var reorder: map<nat, Packet>
    var incoming: seq<Packet>
    var outgoing: seq<Packet>
    ghost var hist: TcpSpec.History

    ghost function View(): (s: TcpSpec.Sock)
      reads this
    {
      TcpSpec.Sock(open, channel, connecting, hops, mss, cwnd, bytesInFlight, nextOutgoingSeq,
                   nextIncomingSeq, lastDropSeq, outstanding, reorder, incoming, outgoing, hist)
    }

    /** A socket whose connection has just been established. */
    constructor (pathMtu: Pos)
      ensures View() == TcpSpec.Established(pathMtu)
    {
      open, channel, connecting, hops := true, true, false, 1;
      mss, cwnd, bytesInFlight := pathMtu, pathMtu * 2, 0;
      nextOutgoingSeq, nextIncomingSeq, lastDropSeq := 0, 0, 0;
      outstanding, reorder, incoming, outgoing := map[], map[], [], [];
      hist := TcpSpec.NO_HISTORY;
    }

    method SendPacket(p: Packet)
      modifies this
      ensures View() == TcpSpec.SendPacket(old(View()), p)
    {
      hist := hist.(sends := hist.sends + [TcpSpec.Sent(p.seqNr, |p.buffer|, bytesInFlight, cwnd)]);
      bytesInFlight := bytesInFlight + |p.buffer|;
      outstanding := outstanding[p.seqNr := |p.buffer|];
    }

    method PacketDropped(p: Packet)
      modifies this
      ensures View() == TcpSpec.PacketDropped(old(View()), p)
    {
      outgoing := outgoing + [p];
      hist := hist.(drops := hist.drops + 1);
      var packetsInCwnd := cwnd / mss;
      if lastDropSeq > 0 && p.seqNr < lastDropSeq + packetsInCwnd {
        return;
      }
      hist := hist.(cuts := hist.cuts + [TcpSpec.Cut(p.seqNr, cwnd)]);
      cwnd := cwnd / 2;
      lastDropSeq := p.seqNr;
      if cwnd < mss {
        cwnd := mss;
      }
    }

    /** Number one segment and hand it to the first hop.  A hop that drops it
        at once calls `PacketDropped` before `SendPacket` returns. */
    method SendSegment(data: seq<Byte>, drops: set<nat>) returns (p: Packet)
      modifies this
      ensures p == TcpSpec.DataPacket(old(nextOutgoingSeq), data)
      ensures View() == TcpSpec.EmitSegment(old(View()), data, drops)
    {
      p := TcpSpec.DataPacket(nextOutgoingSeq, data);
      nextOutgoingSeq := nextOutgoingSeq + 1;
      SendPacket(p);
      if p.seqNr in drops {
        PacketDropped(p.(returnable := false));
      }
    }

    /** `write_some_impl`: nested loops over the buffers and the segments of
        each, until the window is full. */
    method WriteSome(bufs: seq<seq<Byte>>, drops: set<nat>)
      returns (ret: nat, ec: ErrorCode, sent: seq<Packet>)
      modifies this
      ensures TcpSpec.WriteResult(View(), sent, ret, ec) == TcpSpec.WriteSome(old(View()), bufs, drops)
    {
      if !open { return 0, BadDescriptor, []; }
      if !channel { return 0, NotConnected, []; }
      if connecting { return 0, WouldBlock, []; }
      if hops == 0 { return 0, NotConnected, []; }
      if bytesInFlight + mss > cwnd { return 0, WouldBlock, []; }
      ret, sent := WriteBuffers(bufs, drops);
      ec := NoError;
    }

    /** The outer loop. */
    method WriteBuffers(bufs: seq<seq<Byte>>, drops: set<nat>) returns (ret: nat, sent: seq<Packet>)
      requires View().Writable()
      modifies this
      ensures TcpSpec.Written(View(), sent) == TcpSpec.WriteLoop(old(View()), TcpSpec.SplitAll(bufs, old(mss)), drops)
      ensures ret == |PayloadOf(sent)|
    {
      hide TcpSpec.WriteLoop;
      hide TcpSpec.SplitAll;
      hide Rest;
      ret, sent := 0, [];
      ghost var size: Pos := mss;
      ghost var goal := TcpSpec.WriteLoop(View(), TcpSpec.SplitAll(bufs, size), drops);
      assert bufs[0..] == bufs;
      assert [] + goal.sent == goal.sent;
      for i := 0 to |bufs|
        invariant mss == size && View().Writable()
        invariant goal == Then(sent, TcpSpec.WriteLoop(View(), TcpSpec.SplitAll(bufs[i..], size), drops))
        invariant ret == |PayloadOf(sent)|
      {
        NextBuffer(bufs, i, size);
        var n, packets, full := WriteBuffer(bufs[i], drops, bufs[i + 1..], sent, goal);
        PayloadConcat(sent, packets);
        ret := ret + n;
        sent := sent + packets;
        if full {
          return;
        }
      }
      ThenNone(sent, View(), bufs[|bufs|..], size, drops);
    }

    /** The inner loop: the segments of one buffer.  `prior` was sent before
        it and `later` are the buffers after it. */
    method WriteBuffer(data: seq<Byte>, drops: set<nat>,
                       ghost later: seq<seq<Byte>>, ghost prior: seq<Packet>, ghost goal: TcpSpec.Written)
      returns (ret: nat, sent: seq<Packet>, full: bool)
      requires View().Writable()
      requires goal == Then(prior, TcpSpec.WriteLoop(View(), Rest(data, later, mss), drops))
      modifies this
      ensures mss == old(mss)
      ensures full ==> goal == TcpSpec.Written(View(), prior + sent)
      ensures !full ==> View().Writable()
      ensures !full ==> goal == Then(prior + sent, TcpSpec.WriteLoop(View(), TcpSpec.SplitAll(later, mss), drops))
      ensures ret == |PayloadOf(sent)|
    {
      hide TcpSpec.EmitSegment;
      hide TcpSpec.WriteLoop;
      hide TcpSpec.SplitAll;
      hide TcpSpec.Split;
      hide Rest;
      var buf := data;
      ret, sent, full := 0, [], false;
      assert prior + [] == prior;
      while |buf| > 0
        invariant mss == old(mss) && View().Writable()
        invariant goal == Then(prior + sent, TcpSpec.WriteLoop(View(), Rest(buf, later, mss), drops))
        invariant ret == |PayloadOf(sent)|
        decreases |buf|
      {
        ghost var before, tail := View(), Rest(buf, later, mss);
        RestStep(buf, later, mss);
        var packetSize := if |buf| < mss then |buf| else mss;
        ThenStep(prior + sent, before, tail, drops);
        var p := SendSegment(buf[..packetSize], drops);
        PayloadSnoc(sent, p);
        assert tail[1..] == Rest(buf[packetSize..], later, mss);
        assert prior + sent + [p] == prior + (sent + [p]);
        buf := buf[packetSize..];
        ret := ret + packetSize;
        sent := sent + [p];
        if bytesInFlight + mss > cwnd {
          full := true;
          return;
        }
      }
      RestNone(later, mss);
    }

    /** The part of `incoming_packet` that handles an ack. */
    method IncomingAck(seqNr: nat) returns (sent: seq<Packet>)
      requires seqNr in outstanding && cwnd > 0
      modifies this
      ensures TcpSpec.Written(View(), sent) == TcpSpec.IncomingAck(old(View()), seqNr)
    {
      hide TcpSpec.ResendLoop;
      var acked := outstanding[seqNr];
      outstanding := outstanding - {seqNr};
      bytesInFlight := bytesInFlight - acked;
      hist := hist.(acked := hist.acked + acked);
      assert View() == TcpSpec.TakeAck(old(View()), seqNr);
      sent := Resend();
      cwnd := cwnd + mss * acked / cwnd;
    }

    /** Its loop: re-send dropped packets while they fit the window. */
    method Resend() returns (sent: seq<Packet>)
      modifies this
      ensures cwnd == old(cwnd) && mss == old(mss)
      ensures TcpSpec.Written(View(), sent) == TcpSpec.ResendLoop(old(View()))
    {
      hide TcpSpec.ResendOne;
      sent := [];
      ghost var goal := TcpSpec.ResendLoop(View());
      assert [] + goal.sent == goal.sent;
      while outgoing != [] && bytesInFlight + |outgoing[0].buffer| <= cwnd
        invariant goal == Then(sent, TcpSpec.ResendLoop(View()))
        invariant cwnd == old(cwnd) && mss == old(mss)
        decreases |outgoing|
      {
        ghost var rest := TcpSpec.ResendLoop(TcpSpec.ResendOne(View()));
        var p := ResendFirst();
        assert sent + ([p] + rest.sent) == (sent + [p]) + rest.sent;
        sent := sent + [p];
      }
      assert sent + [] == sent;
    }

    method ResendFirst() returns (p: Packet)
      requires outgoing != []
      modifies this
      ensures p == old(outgoing[0]) && outgoing == old(outgoing)[1..]
      ensures View() == TcpSpec.ResendOne(old(View()))
      ensures cwnd == old(cwnd) && mss == old(mss)
    {
      p := outgoing[0];
      outgoing := outgoing[1..];
      SendPacket(p);
      hist := hist.(resent := hist.resent + |p.buffer|);
    }

    /** The part of `incoming_packet` that handles payload and error packets:
        the ack is returned, the packet is queued or held back. */
    method IncomingData(p: Packet) returns (ack: Packet)
      modifies this
      ensures View() == TcpSpec.IncomingData(old(View()), p)
      ensures ack.kind == Ack && ack.seqNr == p.seqNr && !ack.OkToDrop()
    {
      hide TcpSpec.Drain;
      ack := Packet(Ack, p.seqNr, [], 20, NoError, false);
      if p.seqNr != nextIncomingSeq {
        if p.seqNr !in reorder {
          reorder := reorder[p.seqNr := p];
        }
        return;
      }
      nextIncomingSeq := nextIncomingSeq + 1;
      incoming := incoming + [p];
      DrainReorder();
    }

    /** The loop that moves what has become in-order out of the reorder buffer. */
    method DrainReorder()
      modifies this`nextIncomingSeq, this`reorder, this`incoming
      ensures View() == TcpSpec.Drain(old(View()))
    {
      hide TcpSpec.Drain;
      ghost var goal := TcpSpec.Drain(View());
      while nextIncomingSeq in reorder
        invariant goal == TcpSpec.Drain(View())
        decreases |reorder|
      {
        DrainStep(View());
        incoming := incoming + [reorder[nextIncomingSeq]];
        reorder := reorder - {nextIncomingSeq};
        nextIncomingSeq := nextIncomingSeq + 1;
      }
      DrainEnds(View());
    }

    /** `read_some_impl`.  `out` is what the caller's buffers hold afterwards. */
    method ReadSome(bufs: seq<seq<Byte>>) returns (ret: nat, ec: ErrorCode, out: seq<seq<Byte>>)
      requires NonEmptyPayloads(incoming)
      modifies this`incoming, this`channel
      ensures TcpSpec.ReadResult(View(), out, ret, ec) == TcpSpec.ReadSome(old(View()), bufs)
    {
      hide TcpSpec.Scatter;
      hide TcpSpec.Consume;
      if |Flatten(bufs)| == 0 { return 0, NoError, bufs; }
      if !open { return 0, BadDescriptor, bufs; }
      if !channel { return 0, NotConnected, bufs; }
      if connecting { return 0, WouldBlock, bufs; }
      if incoming == [] { return 0, WouldBlock, bufs; }
      ret, ec, out := ReadPackets(bufs);
    }

    /** Its outer loop, over the queued packets. */
    method ReadPackets(bufs: seq<seq<Byte>>) returns (ret: nat, ec: ErrorCode, out: seq<seq<Byte>>)
      requires NonEmptyPayloads(incoming) && incoming != [] && |Flatten(bufs)| > 0
      modifies this`incoming, this`channel
      ensures old(incoming[0]).kind == Error ==>
                ret == 0 && ec == old(incoming[0]).ec && out == bufs && incoming == old(incoming)[1..] && !channel
      ensures old(incoming[0]).kind != Error ==>
                && channel == old(channel) && ec == NoError
                && ret == Min(|Flatten(bufs)|, |TcpSpec.Readable(old(incoming))|)
                && incoming == TcpSpec.Consume(old(incoming), ret)
                && out == TcpSpec.Scatter(bufs, TcpSpec.Readable(old(incoming))[..ret])
    {
      hide TcpSpec.Scatter;
      hide TcpSpec.Consume;
      hide TcpSpec.Readable;
      ghost var q0 := incoming;
      var i: nat, offset: nat := 0, 0;
      ret, ec, out := 0, NoError, bufs;
      ReadStart(bufs, q0);
      while incoming != []
        invariant Reading(bufs, q0, out, i, offset, incoming, ret)
        invariant ret == 0 ==> incoming == q0
        invariant q0[0].kind == Error ==> ret == 0 && out == bufs
        invariant channel == old(channel)
        invariant i < |bufs|
        decreases |incoming|
      {
        if incoming[0].kind == Error {
          if ret > 0 {
            break;
          }
          ec := incoming[0].ec;
          incoming := incoming[1..];
          channel := false;
          return;
        }
        ghost var q := incoming;
        ConsumeReadable(q0, ret);
        var p;
        out, i, offset, ret, p := CopyPacket(bufs, out, i, offset, ret, incoming[0], q0, incoming[1..]);
        incoming := (if p == [] then [] else [incoming[0].(buffer := p)]) + incoming[1..];
        if i == |bufs| {
          break;
        }
      }
      ReadDone(bufs, q0, out, i, offset, incoming, ret);
    }

    /** Its inner loop: copy one packet into the buffers from position
        (`i`, `offset`) on; `p` is what did not fit. */
    method CopyPacket(bufs: seq<seq<Byte>>, out0: seq<seq<Byte>>, i0: nat, offset0: nat, ret0: nat, pkt: Packet,
                      ghost q0: seq<Packet>, ghost rest: seq<Packet>)
      returns (out: seq<seq<Byte>>, i: nat, offset: nat, ret: nat, p: seq<Byte>)
      requires Reading(bufs, q0, out0, i0, offset0, [pkt] + rest, ret0)
      requires i0 < |bufs| && pkt.kind != Error && pkt.buffer != []
      ensures Reading(bufs, q0, out, i, offset, (if p == [] then [] else [pkt.(buffer := p)]) + rest, ret)
      ensures p == [] || i == |bufs|
      ensures p == [] ==> ret > 0
    {
      hide Reading;
      out, i, offset, ret, p := out0, i0, offset0, ret0, pkt.buffer;
      assert pkt.(buffer := p) == pkt;
      while i < |bufs|
        invariant Reading(bufs, q0, out, i, offset, [pkt.(buffer := p)] + rest, ret)
        invariant p != [] && i <= |bufs|
        decreases |bufs| - i
      {
        ReadingBounds(bufs, q0, out, i, offset, [pkt.(buffer := p)] + rest, ret);
        var copySize := if |p| < |bufs[i]| - offset then |p| else |bufs[i]| - offset;
        ReadCopy(bufs, q0, out, i, offset, pkt.(buffer := p), rest, ret, copySize);
        out := out[i := out[i][..offset] + p[..copySize] + out[i][offset + copySize..]];
        p := p[copySize..];
        offset := offset + copySize;
        ret := ret + copySize;
        if offset == |bufs[i]| {
          i, offset := i + 1, 0;
        }
        if p == [] {
          assert [] + rest == rest;
          break;
        }
      }
    }

    /** `close`: announce the end of the stream, then reset the fields. */
    method Close() returns (sent: seq<Packet>)
      modifies this
      ensures (View(), sent) == TcpSpec.Close(old(View()))
    {
      hide TcpSpec.Reset;
      hide TcpSpec.SendPacket;
      sent := [];
      if channel && hops > 0 && !connecting {
        var p := TcpSpec.EofPacket(nextOutgoingSeq);
        nextOutgoingSeq := nextOutgoingSeq + 1;
        SendPacket(p);
        sent := [p];
      }
      Reset();
    }

    method Reset()
      modifies this
      ensures View() == TcpSpec.Reset(old(View()))
    {
      Detach();
      mss := TcpSpec.DEFAULT_MSS;
      cwnd, bytesInFlight, outstanding, lastDropSeq := TcpSpec.DEFAULT_MSS * 2, 0, map[], 0;
    }

    method Detach()
      modifies this
      ensures View() == TcpSpec.Detach(old(View()))
    {
      open, channel, connecting := false, false, false;
      nextIncomingSeq, nextOutgoingSeq := 0, 0;
    }

    /** `available`: the payload queued before the first error. */
    method GetAvailable() returns (ret: nat, ec: ErrorCode)
      ensures (ret, ec) == TcpSpec.Available(View())
    {
      if !open { return 0, BadDescriptor; }
      if !channel { return 0, NotConnected; }
      ret, ec := 0, NoError;
      if incoming == [] { return; }
      assert incoming[0..] == incoming;
      for i := 0 to |incoming|
        invariant ret + |TcpSpec.Readable(incoming[i..])| == |TcpSpec.Readable(incoming)|
        invariant ret == 0 ==> TcpSpec.FirstError(incoming[i..]) == TcpSpec.FirstError(incoming)
      {
        assert incoming[i..][1..] == incoming[i + 1..];
        if incoming[i].kind == Error {
          if ret > 0 { return; }
          return 0, incoming[i].ec;
        }
        ret := ret + |incoming[i].buffer|;
      }
    }
  }
}
