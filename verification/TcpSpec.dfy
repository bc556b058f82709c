/** What each entry point of the TCP socket (src/tcp_socket.cpp) does to the
    socket, as functions on a snapshot of its fields.  The class in
    TcpSocket.dfy is proved to compute these; Transport.dfy proves what they
    guarantee over whole runs. */
module TcpSpec {
  import opened Sequences
  import opened Packets

  /** One halving of the congestion window: the sequence number that was
      dropped and the window just before. */
  datatype Cut = Cut(seqNr: nat, cwnd: int)

  /** One packet handed to the network: its size, and the bytes in flight and
      the congestion window at that moment. */
  datatype Sent = Sent(seqNr: nat, size: nat, inFlight: int, cwnd: int)

  /** What has happened on a socket so far; no code reads it. */
  datatype History = History(cuts: seq<Cut>, sends: seq<Sent>, resent: nat, acked: nat, drops: nat)

  datatype Sock = Sock(
    open: bool,
    channel: bool,
    connecting: bool,
    hops: nat,
    mss: Pos,
    cwnd: int,
    inFlight: int,
    nextOut: nat,
    nextIn: nat,
    lastDrop: nat,
    outstanding: map<nat, nat>,
    reorder: map<nat, Packet>,
    incoming: seq<Packet>,
    outgoing: seq<Packet>,
    hist: History)
  {
    /** The test that decides whether one more full segment fits the window. */
    predicate Writable()
    {
      inFlight + mss <= cwnd
    }
  }

  const TCP_OVERHEAD := 40
  const DEFAULT_MSS: Pos := 1475

  const NO_HISTORY := History([], [], 0, 0, 0)

  /** An end of a connection that has just been established. */
  function Established(mss: Pos): (s: Sock)
  {
    Sock(true, true, false, 1, mss, mss * 2, 0, 0, 0, 0, map[], map[], [], [], NO_HISTORY)
  }

  // ---------------------------------------------------------------------------
  // Sending

  function DataPacket(seqNr: nat, data: seq<Byte>): (p: Packet)
  {
    Packet(Payload, seqNr, data, TCP_OVERHEAD, NoError, true)
  }

  function EofPacket(seqNr: nat): (p: Packet)
  {
    Packet(Error, seqNr, [], TCP_OVERHEAD, Eof, false)
  }

  /** Accounting for a packet that is handed to the first hop. */
  function SendPacket(s: Sock, p: Packet): (r: Sock)
  {
    s.(inFlight := s.inFlight + |p.buffer|,
       outstanding := s.outstanding[p.seqNr := |p.buffer|],
       hist := s.hist.(sends := s.hist.sends + [Sent(p.seqNr, |p.buffer|, s.inFlight, s.cwnd)]))
  }

  /** A hop returned a dropped packet: keep it for re-sending, and halve the
      window unless that was done less than a window of packets ago. */
  function PacketDropped(s: Sock, p: Packet): (r: Sock)
  {
    var kept := s.(outgoing := s.outgoing + [p], hist := s.hist.(drops := s.hist.drops + 1));
    if s.lastDrop > 0 && p.seqNr < s.lastDrop + s.cwnd / s.mss then
      kept
    else
      kept.(cwnd := Max(s.cwnd / 2, s.mss),
            lastDrop := p.seqNr,
            hist := kept.hist.(cuts := s.hist.cuts + [Cut(p.seqNr, s.cwnd)]))
  }

  /** Hand a fresh packet to the network, which may drop it synchronously. */
  function Emit(s: Sock, p: Packet, dropped: bool): (r: Sock)
    ensures r.mss == s.mss && r.nextOut == s.nextOut
  {
    var sent := SendPacket(s, p);
    if dropped && p.returnable then PacketDropped(sent, p.(returnable := false)) else sent
  }

  /** Number one segment of payload and hand it to the network; `drops` is the
      set of sequence numbers that a hop drops while the call is running. */
  function EmitSegment(s: Sock, data: seq<Byte>, drops: set<nat>): (r: Sock)
    ensures r.mss == s.mss && r.nextOut == s.nextOut + 1
  {
    Emit(s.(nextOut := s.nextOut + 1), DataPacket(s.nextOut, data), s.nextOut in drops)
  }

  /** One buffer cut into segments of at most `mss` bytes. */
  function Split(buf: seq<Byte>, mss: Pos): (r: seq<seq<Byte>>)
    decreases |buf|
  {
    if buf == [] then []
    else
      var n := Min(|buf|, mss);
      [buf[..n]] + Split(buf[n..], mss)
  }

  function SplitAll(bufs: seq<seq<Byte>>, mss: Pos): (r: seq<seq<Byte>>)
  {
    if bufs == [] then [] else Split(bufs[0], mss) + SplitAll(bufs[1..], mss)
  }

  datatype Written = Written(st: Sock, sent: seq<Packet>)

  /** Emit segments in order until the congestion window is full. */
  function WriteLoop(s: Sock, segs: seq<seq<Byte>>, drops: set<nat>): (w: Written)
    ensures w.st.mss == s.mss
    decreases |segs|
  {
    if segs == [] then Written(s, [])
    else
      var p := DataPacket(s.nextOut, segs[0]);
      var s1 := EmitSegment(s, segs[0], drops);
      if !s1.Writable() then Written(s1, [p])
      else
        var w := WriteLoop(s1, segs[1..], drops);
        Written(w.st, [p] + w.sent)
  }

  datatype WriteResult = WriteResult(st: Sock, sent: seq<Packet>, ret: nat, ec: ErrorCode)

  function WriteSome(s: Sock, bufs: seq<seq<Byte>>, drops: set<nat>): (r: WriteResult)
  {
    if !s.open then WriteResult(s, [], 0, BadDescriptor)
    else if !s.channel then WriteResult(s, [], 0, NotConnected)
    else if s.connecting then WriteResult(s, [], 0, WouldBlock)
    else if s.hops == 0 then WriteResult(s, [], 0, NotConnected)
    else if !s.Writable() then WriteResult(s, [], 0, WouldBlock)
    else
      var w := WriteLoop(s, SplitAll(bufs, s.mss), drops);
      WriteResult(w.st, w.sent, |PayloadOf(w.sent)|, NoError)
  }

  function Detach(s: Sock): (r: Sock)
  {
    s.(open := false, channel := false, connecting := false, nextIn := 0, nextOut := 0)
  }

  /** The reset that `close` ends with.  The reorder buffer, the incoming queue
      and the resend list are not cleared. */
  function Reset(s: Sock): (r: Sock)
  {
    Detach(s).(mss := DEFAULT_MSS, cwnd := DEFAULT_MSS * 2, inFlight := 0, outstanding := map[], lastDrop := 0)
  }

  /** An established connection announces the end of its stream first. */
  function Close(s: Sock): (r: (Sock, seq<Packet>))
  {
    if s.channel && s.hops > 0 && !s.connecting then
      var p := EofPacket(s.nextOut);
      (Reset(SendPacket(s.(nextOut := s.nextOut + 1), p)), [p])
    else
      (Reset(s), [])
  }

  // ---------------------------------------------------------------------------
  // Acknowledgements and re-sending

  function ResendOne(s: Sock): (r: Sock)
    requires s.outgoing != []
  {
    var p := s.outgoing[0];
    var s1 := SendPacket(s.(outgoing := s.outgoing[1..]), p);
    s1.(hist := s1.hist.(resent := s1.hist.resent + |p.buffer|))
  }

  predicate MayResend(s: Sock)
  {
    s.outgoing != [] && s.inFlight + |s.outgoing[0].buffer| <= s.cwnd
  }

  /** Re-send from the front of the list while the window has room. */
  function ResendLoop(s: Sock): (w: Written)
    ensures w.st.mss == s.mss && w.st.cwnd == s.cwnd
    decreases |s.outgoing|
  {
    if !MayResend(s) then Written(s, [])
    else
      var w := ResendLoop(ResendOne(s));
      Written(w.st, [s.outgoing[0]] + w.sent)
  }

  function TakeAck(s: Sock, seqNr: nat): (r: Sock)
    requires seqNr in s.outstanding
  {
    var acked := s.outstanding[seqNr];
    s.(outstanding := s.outstanding - {seqNr},
       inFlight := s.inFlight - acked,
       hist := s.hist.(acked := s.hist.acked + acked))
  }

  function Grow(s: Sock, acked: nat): (r: Sock)
    requires s.cwnd > 0
  {
    s.(cwnd := s.cwnd + s.mss * acked / s.cwnd)
  }

  function IncomingAck(s: Sock, seqNr: nat): (w: Written)
    requires seqNr in s.outstanding && s.cwnd > 0
  {
    var w := ResendLoop(TakeAck(s, seqNr));
    Written(Grow(w.st, s.outstanding[seqNr]), w.sent)
  }

  // ---------------------------------------------------------------------------
  // Receiving

  /** Move every packet that has become in-order out of the reorder buffer. */
  function Drain(s: Sock): (r: Sock)
    decreases |s.reorder|
  {
    if s.nextIn !in s.reorder then s
    else
      assert |s.reorder - {s.nextIn}| < |s.reorder| by {
        assert (s.reorder - {s.nextIn}).Keys == s.reorder.Keys - {s.nextIn};
        assert |s.reorder.Keys - {s.nextIn}| < |s.reorder.Keys|;
      }
      Drain(s.(reorder := s.reorder - {s.nextIn},
               incoming := s.incoming + [s.reorder[s.nextIn]],
               nextIn := s.nextIn + 1))
  }

  /** A payload or error packet arrives; its ack is sent in every case. */
  function IncomingData(s: Sock, p: Packet): (r: Sock)
  {
    if p.seqNr != s.nextIn then
      s.(reorder := if p.seqNr in s.reorder then s.reorder else s.reorder[p.seqNr := p])
    else
      Drain(s.(nextIn := s.nextIn + 1, incoming := s.incoming + [p]))
  }

  // ---------------------------------------------------------------------------
  // Reading

  /** The bytes that can be read before the first error packet. */
  function Readable(q: seq<Packet>): (r: seq<Byte>)
  {
    if q == [] || q[0].kind == Error then [] else q[0].buffer + Readable(q[1..])
  }

  /** The error that the first error packet reports, if there is one. */
  function FirstError(q: seq<Packet>): (r: ErrorCode)
  {
    if q == [] then NoError else if q[0].kind == Error then q[0].ec else FirstError(q[1..])
  }

  /** The queue that is left when its first `n` payload bytes are consumed. */
  function Consume(q: seq<Packet>, n: nat): (r: seq<Packet>)
    requires n <= |Readable(q)|
  {
    if n == 0 then q
    else if |q[0].buffer| <= n then Consume(q[1..], n - |q[0].buffer|)
    else [q[0].(buffer := q[0].buffer[n..])] + q[1..]
  }

  /** `bufs`, with the first bytes of their concatenation overwritten by `data`. */
  function Scatter(bufs: seq<seq<Byte>>, data: seq<Byte>): (r: seq<seq<Byte>>)
  {
    if bufs == [] then []
    else
      var n := Min(|bufs[0]|, |data|);
      [data[..n] + bufs[0][n..]] + Scatter(bufs[1..], data[n..])
  }

  datatype ReadResult = ReadResult(st: Sock, bufs: seq<seq<Byte>>, ret: nat, ec: ErrorCode)

  function ReadSome(s: Sock, bufs: seq<seq<Byte>>): (r: ReadResult)
  {
    if |Flatten(bufs)| == 0 then ReadResult(s, bufs, 0, NoError)
    else if !s.open then ReadResult(s, bufs, 0, BadDescriptor)
    else if !s.channel then ReadResult(s, bufs, 0, NotConnected)
    else if s.connecting then ReadResult(s, bufs, 0, WouldBlock)
    else if s.incoming == [] then ReadResult(s, bufs, 0, WouldBlock)
    else if s.incoming[0].kind == Error then
      ReadResult(s.(incoming := s.incoming[1..], channel := false), bufs, 0, s.incoming[0].ec)
    else
      var n := Min(|Flatten(bufs)|, |Readable(s.incoming)|);
      ReadResult(s.(incoming := Consume(s.incoming, n)),
                 Scatter(bufs, Readable(s.incoming)[..n]), n, NoError)
  }

  function Available(s: Sock): (r: (nat, ErrorCode))
  {
    if !s.open then (0, BadDescriptor)
    else if !s.channel then (0, NotConnected)
    else if Readable(s.incoming) == [] then (0, FirstError(s.incoming))
    else (|Readable(s.incoming)|, NoError)
  }
}
