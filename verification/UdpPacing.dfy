/** Pacing of outgoing datagrams (src/udp_socket.cpp:365-454). */
module UdpSpec {
  import opened Sequences
  import opened Packets

  const NIC_BANDWIDTH := 100_000_000
  const MAX_DATAGRAM := 65535
  const UDP_OVERHEAD := 28

  /** The nanoseconds the network card needs for `size` bytes. */
  function SendTime(size: nat): (r: nat)
  {
    1_000_000_000 / NIC_BANDWIDTH * size
  }

  datatype Sock = Sock(nextSend: int, queueTime: nat, dontFragment: bool)

  /** `forwarded` is the size on the wire of the datagram that was forwarded. */
  datatype Result = Result(s: Sock, ret: nat, ec: ErrorCode, forwarded: seq<nat>)

  /** `routed` says whether a route to the destination exists. */
  function SendTo(s: Sock, bufs: seq<seq<Byte>>, now: int, mtu: int, routed: bool): (r: Result)
  {
    var n := |Flatten(bufs)|;
    if n == 0 then Result(s, 0, InvalidArgument, [])
    else if n > MAX_DATAGRAM then Result(s, 0, MessageSize, [])
    else if s.dontFragment && n > mtu then Result(s, n, NoError, [])
    else if s.nextSend - now > s.queueTime then Result(s, 0, WouldBlock, [])
    else if !routed then Result(s, n, NoError, [])
    else
      var size := n + UDP_OVERHEAD;
      Result(s.(nextSend := Max(now, s.nextSend) + SendTime(size)), n, NoError, [size])
  }
}

module UdpPacing {
  import opened Sequences
  import opened Packets
  import opened UdpSpec

  class Socket {
    var nextSend: int
    var sendQueueTime: nat
    var dontFragment: bool

    ghost function View(): (s: Sock)
      reads this
    {
      Sock(nextSend, sendQueueTime, dontFragment)
    }

    constructor (queueTime: nat)
      ensures View() == Sock(0, queueTime, false)
    {
      nextSend, sendQueueTime, dontFragment := 0, queueTime, false;
    }

    /** `send_to_impl` of a bound socket. */
    method SendTo(bufs: seq<seq<Byte>>, now: int, mtu: int, routed: bool)
      returns (ret: nat, ec: ErrorCode, forwarded: seq<Packet>)
      modifies this`nextSend
      ensures UdpSpec.SendTo(old(View()), bufs, now, mtu, routed) ==
              Result(View(), ret, ec, seq(|forwarded|, i requires 0 <= i < |forwarded| => forwarded[i].Size()))
      ensures forwarded != [] ==> |forwarded| == 1 && forwarded[0].buffer == Flatten(bufs)
    {
      ret, ec, forwarded := 0, NoError, [];
      ret := TotalSize(bufs);
      if ret == 0 { return 0, InvalidArgument, []; }
      if ret > MAX_DATAGRAM { return 0, MessageSize, []; }
      if dontFragment && ret > mtu { return; }
      if nextSend - now > sendQueueTime { return 0, WouldBlock, []; }
      if !routed { return; }
      nextSend := if now < nextSend then nextSend else now;
      var data := Gather(bufs);
      var p := Packet(Payload, 0, data, UDP_OVERHEAD, NoError, false);
      forwarded := [p];
      nextSend := nextSend + SendTime(p.Size());
    }

    static method TotalSize(bufs: seq<seq<Byte>>) returns (n: nat)
      ensures n == |Flatten(bufs)|
    {
      n := 0;
      assert bufs[..0] == [];
      for i := 0 to |bufs|
        invariant n == |Flatten(bufs[..i])|
      {
        assert bufs[..i + 1] == bufs[..i] + [bufs[i]];
        FlattenSnoc(bufs[..i], bufs[i]);
        n := n + |bufs[i]|;
      }
      assert bufs[..|bufs|] == bufs;
    }

    static method Gather(bufs: seq<seq<Byte>>) returns (data: seq<Byte>)
      ensures data == Flatten(bufs)
    {
      data := [];
      assert bufs[..0] == [];
      for i := 0 to |bufs|
        invariant data == Flatten(bufs[..i])
      {
        assert bufs[..i + 1] == bufs[..i] + [bufs[i]];
        FlattenSnoc(bufs[..i], bufs[i]);
        data := data + bufs[i];
      }
      assert bufs[..|bufs|] == bufs;
    }
  }

  /** What a call returns, and when a datagram is forwarded: exactly when it has a
      size that fits, is not stopped by the do-not-fragment flag, the backlog of
      the network card is within the queue time, and there is a route. */
  lemma SendsExactly(s: Sock, bufs: seq<seq<Byte>>, now: int, mtu: int, routed: bool)
    ensures var r := UdpSpec.SendTo(s, bufs, now, mtu, routed);
            var n := |Flatten(bufs)|;
            var stopped := s.dontFragment && n > mtu;
            var blocked := s.nextSend > now + s.queueTime;
            && (r.ec == InvalidArgument <==> n == 0)
            && (r.ec == MessageSize <==> n > 65535)
            && (r.ec == WouldBlock <==> 0 < n <= 65535 && !stopped && blocked)
            && (r.ec == NoError <==> 0 < n <= 65535 && (stopped || !blocked))
            && r.ret == (if r.ec == NoError then n else 0)
            && (r.forwarded != [] <==> 0 < n <= 65535 && !stopped && !blocked && routed)
            && (r.forwarded != [] ==> r.forwarded == [n + 28])
  {
  }

  /** The network card sends ten nanoseconds per byte, from now or from when it is
      free; a call that forwards nothing does not use it. */
  lemma CardIsUsed(s: Sock, bufs: seq<seq<Byte>>, now: int, mtu: int, routed: bool)
    ensures var r := UdpSpec.SendTo(s, bufs, now, mtu, routed);
            if r.forwarded == [] then r.s == s
            else
              var busy := 10 * (|Flatten(bufs)| + 28);
              r.s == s.(nextSend := if s.nextSend < now then now + busy else s.nextSend + busy)
  {
  }

  // ---------------------------------------------------------------------------
  // Runs

  /** One call of `send_to`. */
  datatype Call = Call(bufs: seq<seq<Byte>>, now: int, mtu: int, routed: bool)

  datatype Forwarded = Forwarded(at: int, size: nat)

  datatype Run = Run(s: Sock, forwarded: seq<Forwarded>)

  /** The clock never goes back between calls. */
  predicate InTime(calls: seq<Call>)
  {
    forall i, j :: 0 <= i < j < |calls| ==> calls[i].now <= calls[j].now
  }

  function Calls(s: Sock, calls: seq<Call>): (r: Run)
  {
    if calls == [] then Run(s, [])
    else
      var c := calls[|calls| - 1];
      var before := Calls(s, calls[..|calls| - 1]);
      var r := SendTo(before.s, c.bufs, c.now, c.mtu, c.routed);
      Run(r.s, before.forwarded + (if r.forwarded == [] then [] else [Forwarded(c.now, r.forwarded[0])]))
  }

  /** The bytes of the datagrams from `i` up to but not including `j`. */
  function BytesBetween(fs: seq<Forwarded>, i: nat, j: nat): (r: nat)
    requires i <= j <= |fs|
  {
    if i == j then 0 else BytesBetween(fs, i, j - 1) + fs[j - 1].size
  }

  lemma {:induction false} BytesPrefix(fs: seq<Forwarded>, more: seq<Forwarded>, i: nat, j: nat)
    requires i <= j <= |fs|
    ensures BytesBetween(fs + more, i, j) == BytesBetween(fs, i, j)
  {
    if i < j { BytesPrefix(fs, more, i, j - 1); }
  }

  /** The next opportunity to send is at least the sending time of everything
      since any forwarded datagram after it. */
  ghost predicate Backlogged(r: Run)
  {
    forall i :: 0 <= i < |r.forwarded| ==>
      r.s.nextSend >= r.forwarded[i].at + SendTime(BytesBetween(r.forwarded, i, |r.forwarded|))
  }

  ghost predicate Paced(fs: seq<Forwarded>, queueTime: nat)
  {
    forall i, j :: 0 <= i <= j < |fs| ==>
      SendTime(BytesBetween(fs, i, j)) <= fs[j].at - fs[i].at + queueTime
  }

  lemma ForwardKeeps(r: Run, now: int, size: nat)
    requires Backlogged(r) && Paced(r.forwarded, r.s.queueTime)
    requires r.s.nextSend - now <= r.s.queueTime
    requires forall i :: 0 <= i < |r.forwarded| ==> r.forwarded[i].at <= now
    ensures var r' := Run(r.s.(nextSend := Max(now, r.s.nextSend) + SendTime(size)), r.forwarded + [Forwarded(now, size)]);
            Backlogged(r') && Paced(r'.forwarded, r.s.queueTime)
  {
    var f := Forwarded(now, size);
    var fs := r.forwarded + [f];
    forall i: nat, j: nat | i <= j <= |r.forwarded| ensures BytesBetween(fs, i, j) == BytesBetween(r.forwarded, i, j) {
      BytesPrefix(r.forwarded, [f], i, j);
    }
  }

  ghost predicate CallAt(calls: seq<Call>, at: int)
  {
    exists k :: 0 <= k < |calls| && calls[k].now == at
  }

  lemma CallBefore(calls: seq<Call>, at: int)
    requires calls != [] && InTime(calls) && CallAt(calls[..|calls| - 1], at)
    ensures CallAt(calls, at) && at <= calls[|calls| - 1].now
  {
    var front := calls[..|calls| - 1];
    var k :| 0 <= k < |front| && front[k].now == at;
    assert calls[k].now == at;
  }

  /** Every datagram was forwarded at the time of some call. */
  ghost predicate FromCalls(fs: seq<Forwarded>, calls: seq<Call>)
  {
    forall i :: 0 <= i < |fs| ==> CallAt(calls, fs[i].at)
  }

  lemma FromCallsGrow(fs: seq<Forwarded>, calls: seq<Call>, f: Forwarded)
    requires calls != [] && InTime(calls) && FromCalls(fs, calls[..|calls| - 1])
    requires f.at == calls[|calls| - 1].now
    ensures FromCalls(fs, calls) && FromCalls(fs + [f], calls)
    ensures forall i :: 0 <= i < |fs| ==> fs[i].at <= f.at
  {
    forall i | 0 <= i < |fs| ensures CallAt(calls, fs[i].at) && fs[i].at <= f.at {
      CallBefore(calls, fs[i].at);
    }
    assert CallAt(calls, calls[|calls| - 1].now);
  }

  /** One call, from a state that is paced. */
  lemma CallKeeps(before: Run, c: Call)
    requires Backlogged(before) && Paced(before.forwarded, before.s.queueTime)
    requires forall i :: 0 <= i < |before.forwarded| ==> before.forwarded[i].at <= c.now
    ensures var r := SendTo(before.s, c.bufs, c.now, c.mtu, c.routed);
            var fs := before.forwarded + (if r.forwarded == [] then [] else [Forwarded(c.now, r.forwarded[0])]);
            r.s.queueTime == before.s.queueTime && Backlogged(Run(r.s, fs)) && Paced(fs, r.s.queueTime)
  {
    hide Backlogged;
    hide Paced;
    var r := SendTo(before.s, c.bufs, c.now, c.mtu, c.routed);
    if r.forwarded == [] {
      assert before.forwarded + [] == before.forwarded;
    } else {
      ForwardKeeps(before, c.now, r.forwarded[0]);
    }
  }

  lemma {:induction false} CallsKeep(s: Sock, calls: seq<Call>)
    requires InTime(calls)
    ensures var r := Calls(s, calls);
            && r.s.queueTime == s.queueTime
            && Backlogged(r) && Paced(r.forwarded, s.queueTime)
            && FromCalls(r.forwarded, calls)
  {
    if calls != [] {
      hide Backlogged;
      hide Paced;
      hide FromCalls;
      hide SendTo;
      var front, c := calls[..|calls| - 1], calls[|calls| - 1];
      CallsKeep(s, front);
      var before := Calls(s, front);
      var r := SendTo(before.s, c.bufs, c.now, c.mtu, c.routed);
      var size := if r.forwarded == [] then 0 else r.forwarded[0];
      FromCallsGrow(before.forwarded, calls, Forwarded(c.now, size));
      CallKeeps(before, c);
      assert before.forwarded + [] == before.forwarded;
    }
  }

  /** Pacing is a leaky bucket: for a socket in any state, with a clock that does
      not go back and a fixed queue time, the datagrams forwarded from `i` to `j`
      take the network card no longer than the time between them plus the queue
      time plus the time for the last one. */
  lemma LeakyBucket(s: Sock, calls: seq<Call>, i: nat, j: nat)
    requires InTime(calls)
    ensures var fs := Calls(s, calls).forwarded;
            i <= j < |fs| ==>
              10 * BytesBetween(fs, i, j + 1) <= (fs[j].at - fs[i].at) + s.queueTime + 10 * fs[j].size
  {
    CallsKeep(s, calls);
    hide Calls;
  }
}
