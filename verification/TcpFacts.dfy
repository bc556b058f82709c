/** Segmentation, scattering and consumption: the facts that tie the nested
    loops of `write_some_impl` and `read_some_impl` to plain concatenation. */
module WriteFacts {
  import opened Sequences
  import opened Packets
  import opened TcpSpec

  /** What is left to send: the rest of the current buffer and the buffers after it. */
  function Rest(buf: seq<Byte>, bufs: seq<seq<Byte>>, mss: Pos): (r: seq<seq<Byte>>)
  {
    Split(buf, mss) + SplitAll(bufs, mss)
  }

  lemma RestStep(buf: seq<Byte>, bufs: seq<seq<Byte>>, mss: Pos)
    requires buf != []
    ensures var n := Min(|buf|, mss);
            Rest(buf, bufs, mss) == [buf[..n]] + Rest(buf[n..], bufs, mss)
  {
  }

  lemma RestNone(bufs: seq<seq<Byte>>, mss: Pos)
    ensures Rest([], bufs, mss) == SplitAll(bufs, mss)
  {
    assert Split([], mss) == [];
  }

  lemma NextBuffer(bufs: seq<seq<Byte>>, i: nat, mss: Pos)
    requires i < |bufs|
    ensures SplitAll(bufs[i..], mss) == Rest(bufs[i], bufs[i + 1..], mss)
  {
    assert bufs[i..][1..] == bufs[i + 1..];
  }

  /** `w`, preceded by packets that were sent before. */
  function Then(sent: seq<Packet>, w: Written): (r: Written)
  {
    Written(w.st, sent + w.sent)
  }

  lemma ThenStep(sent: seq<Packet>, s: Sock, segs: seq<seq<Byte>>, drops: set<nat>)
    requires segs != []
    ensures var p := DataPacket(s.nextOut, segs[0]);
            var s1 := EmitSegment(s, segs[0], drops);
            Then(sent, WriteLoop(s, segs, drops)) ==
            if s1.Writable() then Then(sent + [p], WriteLoop(s1, segs[1..], drops))
            else Written(s1, sent + [p])
  {
    hide EmitSegment;
    var p := DataPacket(s.nextOut, segs[0]);
    var s1 := EmitSegment(s, segs[0], drops);
    if s1.Writable() {
      var w := WriteLoop(s1, segs[1..], drops);
      assert sent + ([p] + w.sent) == (sent + [p]) + w.sent;
    }
  }

  lemma ThenNone(sent: seq<Packet>, s: Sock, none: seq<seq<Byte>>, mss: Pos, drops: set<nat>)
    requires none == []
    ensures Then(sent, WriteLoop(s, SplitAll(none, mss), drops)) == Written(s, sent)
  {
    assert sent + [] == sent;
  }

  /** Every segment has at least one and at most `mss` bytes. */
  ghost predicate FitMss(segs: seq<seq<Byte>>, mss: Pos)
  {
    forall i :: 0 <= i < |segs| ==> 0 < |segs[i]| <= mss
  }

  /** Segments are non-empty, at most `mss` long, and concatenate to the buffer. */
  lemma {:induction false} SplitSegments(buf: seq<Byte>, mss: Pos)
    ensures Flatten(Split(buf, mss)) == buf
    ensures FitMss(Split(buf, mss), mss)
    decreases |buf|
  {
    if buf != [] {
      var n := Min(|buf|, mss);
      var rest := Split(buf[n..], mss);
      SplitSegments(buf[n..], mss);
      assert Split(buf, mss) == [buf[..n]] + rest;
      assert Flatten([buf[..n]] + rest) == buf[..n] + buf[n..] by {
        assert ([buf[..n]] + rest)[1..] == rest;
      }
      assert FitMss([buf[..n]] + rest, mss);
    }
  }

  lemma {:induction false} SplitAllSegments(bufs: seq<seq<Byte>>, mss: Pos)
    ensures Flatten(SplitAll(bufs, mss)) == Flatten(bufs)
    ensures FitMss(SplitAll(bufs, mss), mss)
  {
    if bufs != [] {
      SplitSegments(bufs[0], mss);
      SplitAllSegments(bufs[1..], mss);
      FlattenConcat(Split(bufs[0], mss), SplitAll(bufs[1..], mss));
    }
  }

  /** Packet `i` carries segment `i` under sequence number `base + i`. */
  ghost predicate Carries(sent: seq<Packet>, base: nat, segs: seq<seq<Byte>>)
  {
    |sent| <= |segs| && forall i :: 0 <= i < |sent| ==> sent[i] == DataPacket(base + i, segs[i])
  }

  lemma {:induction false} CarriesPayload(sent: seq<Packet>, base: nat, segs: seq<seq<Byte>>)
    requires Carries(sent, base, segs)
    ensures PayloadOf(sent) == Flatten(segs[..|sent|])
  {
    if sent != [] {
      CarriesPayload(sent[1..], base + 1, segs[1..]);
      assert segs[..|sent|][1..] == segs[1..][..|sent| - 1];
    }
  }

  lemma CarriesStep(p: Packet, sent: seq<Packet>, base: nat, segs: seq<seq<Byte>>)
    requires segs != [] && p == DataPacket(base, segs[0]) && Carries(sent, base + 1, segs[1..])
    ensures Carries([p] + sent, base, segs)
  {
    var all := [p] + sent;
    forall i | 0 <= i < |all| ensures all[i] == DataPacket(base + i, segs[i]) {
      if i > 0 { assert all[i] == sent[i - 1]; }
    }
  }

  /** What `WriteLoop` sends: consecutive sequence numbers carrying the leading
      segments, all of them unless the window became full. */
  lemma {:induction false} WriteLoopSends(s: Sock, segs: seq<seq<Byte>>, drops: set<nat>)
    ensures var w := WriteLoop(s, segs, drops);
            && Carries(w.sent, s.nextOut, segs)
            && w.st.nextOut == s.nextOut + |w.sent|
            && (|w.sent| < |segs| ==> !w.st.Writable())
    decreases |segs|
  {
    hide EmitSegment;
    hide Carries;
    if segs != [] {
      var p := DataPacket(s.nextOut, segs[0]);
      var s1 := EmitSegment(s, segs[0], drops);
      CarriesNone(s.nextOut + 1, segs[1..]);
      if s1.Writable() {
        WriteLoopSends(s1, segs[1..], drops);
        CarriesStep(p, WriteLoop(s1, segs[1..], drops).sent, s.nextOut, segs);
      } else {
        CarriesStep(p, [], s.nextOut, segs);
        assert [p] + [] == [p];
      }
    } else {
      CarriesNone(s.nextOut, segs);
    }
  }

  lemma CarriesNone(base: nat, segs: seq<seq<Byte>>)
    ensures Carries([], base, segs)
  {
  }

  /** `write_some` cuts the caller's buffers into non-empty segments of at most
      one MSS with consecutive sequence numbers, which concatenate to exactly
      the first `ret` bytes of the buffers; it accepts less than everything only
      when the congestion window is full, and it fails without sending anything. */
  lemma WriteSomeSegments(s: Sock, bufs: seq<seq<Byte>>, drops: set<nat>)
    ensures var r := WriteSome(s, bufs, drops);
            && r.ret <= |Flatten(bufs)|
            && PayloadOf(r.sent) == Flatten(bufs)[..r.ret]
            && (forall i :: 0 <= i < |r.sent| ==>
                  && r.sent[i].seqNr == s.nextOut + i
                  && r.sent[i].kind == Payload && r.sent[i].returnable
                  && 0 < |r.sent[i].buffer| <= s.mss)
            && (r.ec == NoError && r.ret < |Flatten(bufs)| ==> !r.st.Writable())
            && (r.ec != NoError ==> r.st == s && r.sent == [] && r.ret == 0)
            && (r.ec == NoError ==> r.st.nextOut == s.nextOut + |r.sent|)
            && (r.ec == NoError <==> s.open && s.channel && !s.connecting && s.hops > 0 && s.Writable())
  {
    hide WriteLoop;
    hide SplitAll;
    var r := WriteSome(s, bufs, drops);
    if r.ec == NoError {
      var segs := SplitAll(bufs, s.mss);
      SplitAllSegments(bufs, s.mss);
      WriteLoopSends(s, segs, drops);
      CarriesPayload(r.sent, s.nextOut, segs);
      var k := |r.sent|;
      assert segs == segs[..k] + segs[k..];
      FlattenConcat(segs[..k], segs[k..]);
      if k == |segs| {
        assert segs[..k] == segs;
      }
    }
  }

  /** Which error a write gives, and when. */
  lemma WriteErrorsExactly(s: Sock, bufs: seq<seq<Byte>>, drops: set<nat>)
    ensures var ec := WriteSome(s, bufs, drops).ec;
            && (ec == BadDescriptor <==> !s.open)
            && (ec == NotConnected <==> s.open && (!s.channel || (!s.connecting && s.hops == 0)))
            && (ec == WouldBlock <==>
                  s.open && s.channel && (s.connecting || (s.hops > 0 && s.inFlight + s.mss > s.cwnd)))
            && (ec == NoError <==>
                  s.open && s.channel && !s.connecting && s.hops > 0 && s.inFlight + s.mss <= s.cwnd)
  {
    hide WriteLoop;
    hide SplitAll;
  }

  /** Every segment is full, or ends where a buffer ends. */
  ghost predicate FullOrLast(segs: seq<seq<Byte>>, bufs: seq<seq<Byte>>, mss: Pos)
  {
    forall i :: 0 <= i < |segs| ==> |segs[i]| == mss || EndsBuffer(segs, i, bufs)
  }

  ghost predicate EndsBuffer(segs: seq<seq<Byte>>, i: nat, bufs: seq<seq<Byte>>)
    requires i < |segs|
  {
    exists k :: 0 <= k <= |bufs| && |Flatten(segs[..i + 1])| == |Flatten(bufs[..k])|
  }

  lemma {:induction false} SplitFull(buf: seq<Byte>, mss: Pos, i: nat)
    requires i < |Split(buf, mss)|
    ensures |Split(buf, mss)[i]| == mss || i == |Split(buf, mss)| - 1
    decreases |buf|
  {
    var n := Min(|buf|, mss);
    var rest := Split(buf[n..], mss);
    assert Split(buf, mss) == [buf[..n]] + rest;
    if i > 0 {
      SplitFull(buf[n..], mss, i - 1);
    } else if n < mss {
      assert buf[n..] == [];
    }
  }

  lemma {:induction false} SplitAllFull(bufs: seq<seq<Byte>>, mss: Pos)
    ensures FullOrLast(SplitAll(bufs, mss), bufs, mss)
  {
    if bufs != [] {
      var a, b := Split(bufs[0], mss), SplitAll(bufs[1..], mss);
      SplitSegments(bufs[0], mss);
      SplitAllFull(bufs[1..], mss);
      forall i | 0 <= i < |a + b| ensures |(a + b)[i]| == mss || EndsBuffer(a + b, i, bufs) {
        if i < |a| {
          SplitFull(bufs[0], mss, i);
          FirstBufferEnds(a, b, i, bufs, mss);
        } else if |b[i - |a|]| != mss {
          LaterBufferEnds(a, b, i - |a|, bufs);
        }
      }
    }
  }

  lemma FirstBufferEnds(a: seq<seq<Byte>>, b: seq<seq<Byte>>, i: nat, bufs: seq<seq<Byte>>, mss: Pos)
    requires bufs != [] && Flatten(a) == bufs[0] && i < |a|
    requires |a[i]| == mss || i == |a| - 1
    ensures |(a + b)[i]| == mss || EndsBuffer(a + b, i, bufs)
  {
    if i == |a| - 1 {
      assert (a + b)[..i + 1] == a;
      HeadSum(bufs, 0);
      assert |Flatten((a + b)[..i + 1])| == |Flatten(bufs[..1])|;
    }
  }

  lemma LaterBufferEnds(a: seq<seq<Byte>>, b: seq<seq<Byte>>, j: nat, bufs: seq<seq<Byte>>)
    requires bufs != [] && Flatten(a) == bufs[0] && j < |b| && EndsBuffer(b, j, bufs[1..])
    ensures EndsBuffer(a + b, |a| + j, bufs)
  {
    hide Flatten;
    var k :| 0 <= k <= |bufs[1..]| && |Flatten(b[..j + 1])| == |Flatten(bufs[1..][..k])|;
    PrefixSum(a, b, j + 1);
    HeadSum(bufs, k);
    assert |Flatten((a + b)[..|a| + j + 1])| == |Flatten(bufs[..k + 1])|;
  }

  lemma PrefixSum(a: seq<seq<Byte>>, b: seq<seq<Byte>>, n: nat)
    requires n <= |b|
    ensures |Flatten((a + b)[..|a| + n])| == |Flatten(a)| + |Flatten(b[..n])|
  {
    hide Flatten;
    FlattenConcat(a, b[..n]);
    assert (a + b)[..|a| + n] == a + b[..n];
  }

  lemma HeadSum(bufs: seq<seq<Byte>>, k: nat)
    requires bufs != [] && k < |bufs|
    ensures |Flatten(bufs[..k + 1])| == |bufs[0]| + |Flatten(bufs[1..][..k])|
  {
    assert bufs[..k + 1][1..] == bufs[1..][..k];
  }

  /** Segments are as large as they can be: every packet that a write sends
      carries a full segment, unless its last byte is the last of a buffer. */
  lemma WriteFillsSegments(s: Sock, bufs: seq<seq<Byte>>, drops: set<nat>, i: nat)
    ensures var sent := WriteSome(s, bufs, drops).sent;
            i < |sent| ==>
              || |sent[i].buffer| == s.mss
              || exists k :: 0 <= k <= |bufs| && |PayloadOf(sent[..i + 1])| == |Flatten(bufs[..k])|
  {
    hide WriteLoop;
    hide SplitAll;
    hide Flatten;
    var r := WriteSome(s, bufs, drops);
    if r.ec == NoError && i < |r.sent| {
      var segs := SplitAll(bufs, s.mss);
      WriteLoopSends(s, segs, drops);
      SplitAllFull(bufs, s.mss);
      CarriesPayload(r.sent[..i + 1], s.nextOut, segs);
      assert r.sent[i].buffer == segs[i];
    }
  }
}

module ReadFacts {
  import opened Sequences
  import opened Packets
  import opened TcpSpec

  /** A packet that may be queued for the reader: it reports an error or
      carries at least one byte. */
  predicate Queueable(p: Packet)
  {
    (p.kind == Error && p.ec != NoError) || (p.kind == Payload && p.buffer != [])
  }

  ghost predicate NonEmptyPayloads(q: seq<Packet>)
  {
    forall i :: 0 <= i < |q| ==> Queueable(q[i])
  }

  /** Consuming is dropping bytes: what stays readable is the rest. */
  lemma {:induction false} ConsumeReadable(q: seq<Packet>, n: nat)
    requires NonEmptyPayloads(q) && n <= |Readable(q)|
    ensures Readable(Consume(q, n)) == Readable(q)[n..]
    ensures NonEmptyPayloads(Consume(q, n))
  {
    if n == 0 {
    } else if |q[0].buffer| <= n {
      ConsumeReadable(q[1..], n - |q[0].buffer|);
    } else {
      var rest := [q[0].(buffer := q[0].buffer[n..])] + q[1..];
      assert rest[1..] == q[1..];
      forall i | 0 <= i < |rest| ensures Queueable(rest[i]) {
        if i > 0 { assert rest[i] == q[i]; }
      }
    }
  }

  lemma {:induction false} ConsumeTwice(q: seq<Packet>, n: nat, m: nat)
    requires NonEmptyPayloads(q) && n + m <= |Readable(q)|
    ensures m <= |Readable(Consume(q, n))|
    ensures Consume(q, n + m) == Consume(Consume(q, n), m)
  {
    ConsumeReadable(q, n);
    if n == 0 {
    } else if |q[0].buffer| <= n {
      ConsumeTwice(q[1..], n - |q[0].buffer|, m);
    } else if m > 0 {
      var c := Consume(q, n);
      assert c[0].buffer == q[0].buffer[n..] && c[1..] == q[1..];
      if |q[0].buffer| <= n + m {
      } else {
        assert q[0].buffer[n..][m..] == q[0].buffer[n + m..];
      }
    }
  }

  lemma {:induction false} ScatterNothing(bufs: seq<seq<Byte>>)
    ensures Scatter(bufs, []) == bufs
  {
    if bufs != [] {
      ScatterNothing(bufs[1..]);
      assert [] + bufs[0][0..] == bufs[0];
    }
  }

  /** Scattering keeps every buffer's size. */
  lemma {:induction false} ScatterSizes(bufs: seq<seq<Byte>>, data: seq<Byte>)
    ensures |Scatter(bufs, data)| == |bufs|
    ensures forall i :: 0 <= i < |bufs| ==> |Scatter(bufs, data)[i]| == |bufs[i]|
  {
    if bufs != [] {
      var n := Min(|bufs[0]|, |data|);
      ScatterSizes(bufs[1..], data[n..]);
      var rest := Scatter(bufs[1..], data[n..]);
      forall i | 0 <= i < |bufs| ensures |Scatter(bufs, data)[i]| == |bufs[i]| {
        if i > 0 { assert Scatter(bufs, data)[i] == rest[i - 1] && bufs[i] == bufs[1..][i - 1]; }
      }
    }
  }

  lemma FlattenHead<T>(ss: seq<seq<T>>)
    requires ss != []
    ensures Flatten(ss) == ss[0] + Flatten(ss[1..])
  {
  }

  lemma ScatterHead(bufs: seq<seq<Byte>>, data: seq<Byte>)
    requires bufs != []
    ensures var n := Min(|bufs[0]|, |data|);
            Flatten(Scatter(bufs, data)) == data[..n] + bufs[0][n..] + Flatten(Scatter(bufs[1..], data[n..]))
  {
    var n := Min(|bufs[0]|, |data|);
    var rest := Scatter(bufs[1..], data[n..]);
    assert ([data[..n] + bufs[0][n..]] + rest)[1..] == rest;
  }

  /** Scattering overwrites a prefix of the concatenation. */
  lemma {:induction false} ScatterFlatten(bufs: seq<seq<Byte>>, data: seq<Byte>)
    requires |data| <= |Flatten(bufs)|
    ensures Flatten(Scatter(bufs, data)) == data + Flatten(bufs)[|data|..]
  {
    if bufs != [] {
      hide Scatter;
      hide Flatten;
      var n := Min(|bufs[0]|, |data|);
      var tail := Flatten(bufs[1..]);
      FlattenHead(bufs);
      ScatterFlatten(bufs[1..], data[n..]);
      ScatterHead(bufs, data);
      OverwritePrefix(bufs[0], tail, data);
    }
  }

  lemma OverwritePrefix(head: seq<Byte>, tail: seq<Byte>, data: seq<Byte>)
    requires |data| <= |head| + |tail|
    ensures var n := Min(|head|, |data|);
            (data[..n] + head[n..]) + (data[n..] + tail[|data| - n..]) == data + (head + tail)[|data|..]
  {
    var n := Min(|head|, |data|);
    assert data == data[..n] + data[n..];
    if n == |data| {
      assert data[n..] == [];
    } else {
      assert head[n..] == [];
    }
  }

  lemma ScatterInto(bufs: seq<seq<Byte>>, data: seq<Byte>)
    requires bufs != [] && |data| <= |bufs[0]|
    ensures Scatter(bufs, data) == [data + bufs[0][|data|..]] + bufs[1..]
  {
    ScatterNothing(bufs[1..]);
    assert data[..|data|] == data && data[|data|..] == [];
  }

  lemma ScatterPast(bufs: seq<seq<Byte>>, data: seq<Byte>)
    requires bufs != [] && |bufs[0]| <= |data|
    ensures var n := |bufs[0]|; Scatter(bufs, data) == [data[..n]] + Scatter(bufs[1..], data[n..])
  {
    var n := |bufs[0]|;
    assert Min(|bufs[0]|, |data|) == n && bufs[0][n..] == [];
    assert data[..n] + [] == data[..n];
  }

  lemma ScatterMoreHere(bufs: seq<seq<Byte>>, data: seq<Byte>, extra: seq<Byte>)
    requires bufs != [] && |data| + |extra| <= |bufs[0]|
    ensures var s := Scatter(bufs, data);
            && |s| == |bufs| && |s[0]| == |bufs[0]|
            && Scatter(bufs, data + extra) == s[0 := s[0][..|data|] + extra + s[0][|data| + |extra|..]]
  {
    hide Scatter;
    ScatterInto(bufs, data);
    ScatterInto(bufs, data + extra);
    var first := data + bufs[0][|data|..];
    assert first[..|data|] == data && first[|data| + |extra|..] == bufs[0][|data| + |extra|..];
  }

  /** Copying `extra` at the write position is scattering that much more. */
  lemma {:induction false} ScatterMore(bufs: seq<seq<Byte>>, data: seq<Byte>, extra: seq<Byte>, i: nat, offset: nat)
    requires i < |bufs|
    requires |data| == |Flatten(bufs[..i])| + offset && offset + |extra| <= |bufs[i]|
    ensures var s := Scatter(bufs, data);
            && |s| == |bufs| && |s[i]| == |bufs[i]|
            && Scatter(bufs, data + extra) == s[i := s[i][..offset] + extra + s[i][offset + |extra|..]]
  {
    hide Scatter;
    if i == 0 {
      assert bufs[..0] == [];
      ScatterMoreHere(bufs, data, extra);
    } else {
      var both := data + extra;
      var n := |bufs[0]|;
      assert bufs[..i][1..] == bufs[1..][..i - 1];
      ScatterMore(bufs[1..], data[n..], extra, i - 1, offset);
      ScatterPast(bufs, data);
      ScatterPast(bufs, both);
      assert both[n..] == data[n..] + extra && both[..n] == data[..n];
    }
  }

  /** The state of the read loop: `ret` bytes have moved from the front of the
      original queue `q0` to the buffers, up to `offset` in buffer `i`. */
  ghost predicate Reading(bufs: seq<seq<Byte>>, q0: seq<Packet>, out: seq<seq<Byte>>,
                          i: nat, offset: nat, q: seq<Packet>, ret: nat)
  {
    && NonEmptyPayloads(q0)
    && i <= |bufs|
    && offset <= (if i < |bufs| then |bufs[i]| else 0)
    && ret == |Flatten(bufs[..i])| + offset
    && ret <= |Readable(q0)|
    && q == Consume(q0, ret)
    && out == Scatter(bufs, Readable(q0)[..ret])
  }

  lemma ReadingBounds(bufs: seq<seq<Byte>>, q0: seq<Packet>, out: seq<seq<Byte>>,
                      i: nat, offset: nat, q: seq<Packet>, ret: nat)
    requires Reading(bufs, q0, out, i, offset, q, ret) && i < |bufs|
    ensures offset <= |bufs[i]|
  {
  }

  lemma ReadStart(bufs: seq<seq<Byte>>, q0: seq<Packet>)
    requires NonEmptyPayloads(q0)
    ensures Reading(bufs, q0, bufs, 0, 0, q0, 0)
  {
    ScatterNothing(bufs);
    assert Readable(q0)[..0] == [] && bufs[..0] == [];
  }

  /** One copy in the inner loop of `read_some_impl`. */
  lemma ReadCopy(bufs: seq<seq<Byte>>, q0: seq<Packet>, out: seq<seq<Byte>>,
                 i: nat, offset: nat, p: Packet, rest: seq<Packet>, ret: nat, n: nat)
    requires Reading(bufs, q0, out, i, offset, [p] + rest, ret) && i < |bufs|
    requires p.kind != Error && p.buffer != [] && n == Min(|p.buffer|, |bufs[i]| - offset)
    ensures |out| == |bufs| && |out[i]| == |bufs[i]|
    ensures var out1 := out[i := out[i][..offset] + p.buffer[..n] + out[i][offset + n..]];
            var q1 := if n == |p.buffer| then rest else [p.(buffer := p.buffer[n..])] + rest;
            var full := offset + n == |bufs[i]|;
            Reading(bufs, q0, out1, if full then i + 1 else i, if full then 0 else offset + n, q1, ret + n)
  {
    var q := [p] + rest;
    ConsumeReadable(q0, ret);
    assert q[1..] == rest;
    assert Readable(q) == p.buffer + Readable(rest);
    assert Readable(q0)[..ret + n] == Readable(q0)[..ret] + p.buffer[..n];
    ScatterMore(bufs, Readable(q0)[..ret], p.buffer[..n], i, offset);
    ConsumeTwice(q0, ret, n);
    if n > 0 && n == |p.buffer| {
      assert Consume(q, n) == Consume(rest, 0);
    } else if n == 0 {
      assert p.(buffer := p.buffer[0..]) == p;
    }
    if offset + n == |bufs[i]| {
      assert bufs[..i + 1] == bufs[..i] + [bufs[i]];
      FlattenSnoc(bufs[..i], bufs[i]);
    }
  }

  /** When the loop stops, everything that fits has been read. */
  lemma ReadDone(bufs: seq<seq<Byte>>, q0: seq<Packet>, out: seq<seq<Byte>>,
                 i: nat, offset: nat, q: seq<Packet>, ret: nat)
    requires Reading(bufs, q0, out, i, offset, q, ret)
    requires q == [] || i == |bufs| || q[0].kind == Error
    ensures ret == Min(|Flatten(bufs)|, |Readable(q0)|)
  {
    ConsumeReadable(q0, ret);
    if i == |bufs| {
      assert bufs[..i] == bufs;
    } else {
      assert bufs == bufs[..i] + [bufs[i]] + bufs[i + 1..];
      FlattenSnoc(bufs[..i], bufs[i]);
      FlattenConcat(bufs[..i] + [bufs[i]], bufs[i + 1..]);
    }
  }

  /** `read_some` refines flattening: it returns the first
      min(buffer space, available()) bytes, in order, at the front of the
      buffers, keeps every byte beyond them both in the buffers and in the
      queue, and reports an error only when no byte precedes it. */
  lemma ReadSomeFlattens(s: Sock, bufs: seq<seq<Byte>>)
    requires NonEmptyPayloads(s.incoming) && s.open && s.channel && !s.connecting
    requires |Flatten(bufs)| > 0
    ensures var r := ReadSome(s, bufs);
            && r.ret == Min(|Flatten(bufs)|, Available(s).0)
            && |r.bufs| == |bufs|
            && (forall i :: 0 <= i < |bufs| ==> |r.bufs[i]| == |bufs[i]|)
            && Flatten(r.bufs) == Readable(s.incoming)[..r.ret] + Flatten(bufs)[r.ret..]
            && (r.ec == NoError ==> Readable(r.st.incoming) == Readable(s.incoming)[r.ret..])
            && NonEmptyPayloads(r.st.incoming)
            && (r.ec == NoError <==> r.ret > 0)
            && (r.ec == WouldBlock <== s.incoming == [])
            && (s.incoming != [] && r.ec != NoError ==>
                  s.incoming[0].kind == Error && r.ec == s.incoming[0].ec && Available(s) == (0, r.ec))
  {
    var r := ReadSome(s, bufs);
    ScatterNothing(bufs);
    if s.incoming != [] && s.incoming[0].kind != Error {
      ConsumeReadable(s.incoming, r.ret);
      ScatterFlatten(bufs, Readable(s.incoming)[..r.ret]);
      ScatterSizes(bufs, Readable(s.incoming)[..r.ret]);
    } else if s.incoming != [] {
      forall i | 0 <= i < |r.st.incoming|
        ensures Queueable(r.st.incoming[i]) {
        assert r.st.incoming[i] == s.incoming[i + 1];
      }
    }
  }

  /** The first `k` packets carry payload, and the next one, if there is one,
      reports an error. */
  ghost predicate FirstErrorAt(q: seq<Packet>, k: nat)
  {
    && k <= |q|
    && (forall i :: 0 <= i < k ==> q[i].kind != Error)
    && (k < |q| ==> q[k].kind == Error)
  }

  lemma {:induction false} ReadableIsPayload(q: seq<Packet>, k: nat)
    requires FirstErrorAt(q, k)
    ensures Readable(q) == PayloadOf(q[..k])
    ensures FirstError(q) == if k < |q| then q[k].ec else NoError
  {
    if k > 0 {
      assert FirstErrorAt(q[1..], k - 1);
      ReadableIsPayload(q[1..], k - 1);
      assert q[..k][1..] == q[1..][..k - 1];
    }
  }

  /** What a read and `available` report, in terms of the payload before the
      first error: the checks in their order, then the payload, then the error. */
  lemma ReadOutcomeExactly(s: Sock, bufs: seq<seq<Byte>>, k: nat)
    requires NonEmptyPayloads(s.incoming) && FirstErrorAt(s.incoming, k)
    ensures var r := ReadSome(s, bufs);
            var room, data := |Flatten(bufs)|, PayloadOf(s.incoming[..k]);
            && (r.ec == BadDescriptor <== room > 0 && !s.open)
            && (r.ec == NotConnected <== room > 0 && s.open && !s.channel)
            && (r.ec == WouldBlock <== room > 0 && s.open && s.channel && (s.connecting || s.incoming == []))
            && (room > 0 && s.open && s.channel && !s.connecting && s.incoming != [] ==>
                  if k == 0 then
                    r.ec == s.incoming[0].ec && r.st == s.(incoming := s.incoming[1..], channel := false)
                  else r.ec == NoError && r.ret == Min(room, |data|) && r.st.channel)
            && (r.ec == NoError <==> (room == 0 || (s.open && s.channel && !s.connecting && k > 0)))
            && (r.ec != NoError || room == 0 ==> r.ret == 0 && r.bufs == bufs)
    ensures Available(s) ==
            if !s.open then (0, BadDescriptor)
            else if !s.channel then (0, NotConnected)
            else if k > 0 then (|PayloadOf(s.incoming[..k])|, NoError)
            else (0, if s.incoming == [] then NoError else s.incoming[0].ec)
  {
    ReadableIsPayload(s.incoming, k);
    if k > 0 {
      assert Queueable(s.incoming[0]);
      assert s.incoming[..k][0] == s.incoming[0];
      assert PayloadOf(s.incoming[..k]) == s.incoming[0].buffer + PayloadOf(s.incoming[..k][1..]);
    }
    hide Scatter;
    hide Consume;
  }
}

/** The receiver's loop over the reorder buffer. */
module ReceiveFacts {
  import opened TcpSpec

  lemma DrainStep(s: Sock)
    requires s.nextIn in s.reorder
    ensures |s.reorder - {s.nextIn}| < |s.reorder|
    ensures var r := s.(reorder := s.reorder - {s.nextIn}, nextIn := s.nextIn + 1);
            Drain(s) == Drain(r.(incoming := s.incoming + [s.reorder[s.nextIn]]))
  {
    assert (s.reorder - {s.nextIn}).Keys == s.reorder.Keys - {s.nextIn};
  }

  lemma DrainEnds(s: Sock)
    requires s.nextIn !in s.reorder
    ensures Drain(s) == s
  {
  }

  /** Draining ends only when the expected packet is not held. */
  lemma {:induction false} DrainDrains(s: Sock)
    ensures Drain(s).nextIn !in Drain(s).reorder
    decreases |s.reorder|
  {
    if s.nextIn in s.reorder {
      DrainStep(s);
      var r := s.(reorder := s.reorder - {s.nextIn}, nextIn := s.nextIn + 1);
      DrainDrains(r.(incoming := s.incoming + [s.reorder[s.nextIn]]));
    }
  }
}
