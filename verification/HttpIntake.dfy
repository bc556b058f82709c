/** How requests are taken out of the bytes that arrive (src/http_proxy.cpp:86-127,
    src/http_server.cpp:216-226 and 293-315). */
module IntakeSpec {
  import opened Sequences
  import opened HttpText
  import opened HttpParse
  import opened HttpPrint

  const CAPACITY := 65536

  /** A request that is not parsed, or has no absolute target, closes the connection. */
  predicate Forwardable(text: string)
  {
    ParseRequest(text).Some? && Absolute(ParseRequest(text).value)
  }

  /** The requests taken from a connection, the bytes kept, and whether the
      connection was closed. */
  datatype Intake = Intake(requests: seq<string>, kept: string, closed: bool)

  function Prepend(requests: seq<string>, i: Intake): (r: Intake)
  {
    i.(requests := requests + i.requests)
  }

  function Extract(buf: string): (r: Intake)
    decreases |buf|
  {
    var n := RequestLen(buf);
    if n < 0 then Intake([], buf, false)
    else if !Forwardable(buf[..n]) then Intake([], [], true)
    else Prepend([buf[..n]], Extract(buf[n..]))
  }

  /** One completed read. */
  function OnRead(i: Intake, chunk: string): (r: Intake)
  {
    if i.closed then i else Prepend(i.requests, Extract(i.kept + chunk))
  }

  function Feed(i: Intake, chunks: seq<string>): (r: Intake)
  {
    if chunks == [] then i
    else OnRead(Feed(i, chunks[..|chunks| - 1]), chunks[|chunks| - 1])
  }

  const NOTHING := Intake([], [], false)

  // ---------------------------------------------------------------------------

  /** More bytes do not change the first request. */
  lemma RequestLenGrows(a: string, b: string)
    requires RequestLen(a) >= 0
    ensures RequestLen(a + b) == RequestLen(a)
    ensures (a + b)[..RequestLen(a)] == a[..RequestLen(a)]
    ensures (a + b)[RequestLen(a)..] == a[RequestLen(a)..] + b
  {
    var end := Find(a, CRLF2, 0);
    forall i | 0 <= i && i + 4 <= |a| ensures At(a + b, i, CRLF2) <==> At(a, i, CRLF2) {
      assert (a + b)[i..i + 4] == a[i..i + 4];
    }
    FindIs(a + b, CRLF2, 0, end);
  }

  /** Taking requests out of `a + b` is taking them out of `a`, then going on
      with what was kept and `b`. */
  lemma {:induction false} ExtractConcat(a: string, b: string)
    ensures var e := Extract(a);
            if e.closed then Extract(a + b) == e
            else Extract(a + b) == Prepend(e.requests, Extract(e.kept + b))
    decreases |a|
  {
    hide RequestLen;
    hide Forwardable;
    var n := RequestLen(a);
    if n >= 0 {
      RequestLenGrows(a, b);
      if Forwardable(a[..n]) {
        ExtractConcat(a[n..], b);
        var e := Extract(a[n..]);
        assert [a[..n]] + (e.requests + Extract(e.kept + b).requests) ==
               ([a[..n]] + e.requests) + Extract(e.kept + b).requests;
      }
    } else {
      assert [] + Extract(a + b).requests == Extract(a + b).requests;
    }
  }

  /** What is taken and kept depends only on the bytes received, not on how the
      reads cut them up. */
  lemma {:induction false} ChunkingIrrelevant(chunks: seq<string>)
    ensures Feed(NOTHING, chunks) == Extract(Flatten(chunks))
  {
    hide Extract;
    if chunks == [] {
      ExtractNothing();
    } else {
      var m := |chunks| - 1;
      var front := chunks[..m];
      ChunkingIrrelevant(front);
      assert chunks == front + [chunks[m]];
      FlattenSnoc(front, chunks[m]);
      ExtractConcat(Flatten(front), chunks[m]);
    }
  }

  lemma ExtractNothing()
    ensures Extract([]) == NOTHING
  {
  }

  /** Two ways of cutting the same bytes end in the same requests, the same kept
      bytes, and the same decision to close. */
  lemma SameBytesSameRequests(chunks: seq<string>, others: seq<string>)
    requires Flatten(chunks) == Flatten(others)
    ensures Feed(NOTHING, chunks) == Feed(NOTHING, others)
  {
    ChunkingIrrelevant(chunks);
    ChunkingIrrelevant(others);
  }

  lemma {:induction false} ExtractAccounts(buf: string)
    ensures var e := Extract(buf);
            && (!e.closed ==> Flatten(e.requests) + e.kept == buf && RequestLen(e.kept) < 0)
            && Flatten(e.requests) <= buf
            && (forall i :: 0 <= i < |e.requests| ==>
                  RequestLen(e.requests[i]) == |e.requests[i]| && Forwardable(e.requests[i]))
    decreases |buf|
  {
    hide RequestLen;
    hide Forwardable;
    var n := RequestLen(buf);
    if n < 0 {
      assert [] + buf == buf;
    } else if Forwardable(buf[..n]) {
      ExtractAccounts(buf[n..]);
      var e := Extract(buf[n..]);
      assert ([buf[..n]] + e.requests)[1..] == e.requests;
      assert buf == buf[..n] + buf[n..];
      assert buf[..n] + (Flatten(e.requests) + e.kept) == (buf[..n] + Flatten(e.requests)) + e.kept;
      WholeRequest(buf);
    }
  }

  lemma WholeRequest(buf: string)
    requires RequestLen(buf) >= 0
    ensures var t := buf[..RequestLen(buf)]; RequestLen(t) == |t|
  {
    var n := RequestLen(buf);
    var t := buf[..n];
    forall i | 0 <= i && i + 4 <= n ensures At(t, i, CRLF2) <==> At(buf, i, CRLF2) {
      assert t[i..i + 4] == buf[i..i + 4];
    }
    FindIs(t, CRLF2, 0, n - 4);
  }

  /** While the connection is open, the requests taken followed by the bytes kept
      are exactly the bytes received, and no full request is kept; every request
      taken is one frame that can be forwarded. */
  lemma NothingLostOrInvented(chunks: seq<string>)
    ensures var i := Feed(NOTHING, chunks);
            && (!i.closed ==> Flatten(i.requests) + i.kept == Flatten(chunks) && RequestLen(i.kept) < 0)
            && Flatten(i.requests) <= Flatten(chunks)
            && (forall k :: 0 <= k < |i.requests| ==>
                  RequestLen(i.requests[k]) == |i.requests[k]| && Forwardable(i.requests[k]))
  {
    ChunkingIrrelevant(chunks);
    ExtractAccounts(Flatten(chunks));
    hide Extract;
    hide Feed;
  }

  /** A read never delivers more than the free part of the buffer. */
  predicate Fits(i: Intake, chunks: seq<string>)
  {
    chunks == [] ||
    (Fits(i, chunks[..|chunks| - 1]) && |Feed(i, chunks[..|chunks| - 1]).kept| + |chunks[|chunks| - 1]| <= CAPACITY)
  }

  /** A request that does not fit the buffer stops the proxy for good: once the
      buffer is full without a full request, no read changes anything. */
  lemma {:induction false} FullBufferStalls(i: Intake, chunks: seq<string>)
    requires !i.closed && |i.kept| == CAPACITY && RequestLen(i.kept) < 0 && Fits(i, chunks)
    ensures Feed(i, chunks) == i
  {
    hide RequestLen;
    if chunks != [] {
      FullBufferStalls(i, chunks[..|chunks| - 1]);
      assert i.kept + chunks[|chunks| - 1] == i.kept;
      assert i.requests + [] == i.requests;
    }
  }

  /** Progress: a request was taken or the connection was closed. */
  predicate Progress(i: Intake, r: Intake)
  {
    r.closed || r.requests != i.requests
  }

  lemma FrameInPrefix(a: string, b: string)
    requires a <= b && RequestLen(a) >= 0
    ensures RequestLen(b) == RequestLen(a)
  {
    assert b == a + b[|a|..];
    RequestLenGrows(a, b[|a|..]);
  }

  lemma ExtractNone(text: string)
    requires RequestLen(text) < 0
    ensures Extract(text) == Intake([], text, false)
  {
  }

  /** A read that does not complete a frame is kept. */
  lemma OnReadKeeps(i: Intake, chunk: string)
    requires !i.closed && RequestLen(i.kept + chunk) < 0
    ensures OnRead(i, chunk) == i.(kept := i.kept + chunk)
  {
    hide RequestLen;
    hide Extract;
    ExtractNone(i.kept + chunk);
    assert i.requests + [] == i.requests;
  }

  lemma LastChunk(chunks: seq<string>, stream: string)
    requires chunks != [] && Flatten(chunks) <= stream
    ensures var m := |chunks| - 1;
            Flatten(chunks) == Flatten(chunks[..m]) + chunks[m] && Flatten(chunks[..m]) <= stream
  {
    hide Flatten;
    var m := |chunks| - 1;
    FlattenSnoc(chunks[..m], chunks[m]);
    assert chunks == chunks[..m] + [chunks[m]];
  }

  lemma NoFrameYet(text: string, kept: string, stream: string, read: string)
    requires text == kept + read && read <= stream && |text| <= CAPACITY
    requires !(0 <= RequestLen(kept + stream) <= CAPACITY)
    ensures RequestLen(text) < 0
  {
    if RequestLen(text) >= 0 {
      assert kept + stream == text + stream[|read|..];
      FrameInPrefix(text, kept + stream);
      assert false;
    }
  }

  /** As long as no frame fits the buffer, everything read is kept. */
  lemma {:induction false} NoProgress(i: Intake, stream: string, chunks: seq<string>)
    requires !i.closed && !(0 <= RequestLen(i.kept + stream) <= CAPACITY)
    requires Fits(i, chunks) && Flatten(chunks) <= stream
    ensures Feed(i, chunks) == i.(kept := i.kept + Flatten(chunks))
    decreases chunks, 1
  {
    hide RequestLen;
    hide OnRead;
    if chunks == [] {
      assert i.kept + [] == i.kept;
    } else {
      NoProgressStep(i, stream, chunks);
    }
  }

  lemma NoProgressStep(i: Intake, stream: string, chunks: seq<string>)
    requires !i.closed && !(0 <= RequestLen(i.kept + stream) <= CAPACITY)
    requires chunks != [] && Fits(i, chunks) && Flatten(chunks) <= stream
    ensures Feed(i, chunks) == i.(kept := i.kept + Flatten(chunks))
    decreases chunks, 0
  {
    hide RequestLen;
    hide OnRead;
    hide Flatten;
    var m := |chunks| - 1;
    var front, last := chunks[..m], chunks[m];
    LastChunk(chunks, stream);
    NoProgress(i, stream, front);
    var read := Flatten(front);
    assert i.kept + read + last == i.kept + (read + last);
    NoFrameYet(i.kept + Flatten(chunks), i.kept, stream, Flatten(chunks));
    OnReadKeeps(i.(kept := i.kept + read), last);
  }

  /** The next frame does not end within what is held already. */
  lemma FrameBeyondKept(kept: string, stream: string)
    requires RequestLen(kept) < 0 && RequestLen(kept + stream) >= 0
    ensures RequestLen(kept + stream) >= |kept|
    ensures var n := RequestLen(kept + stream);
            kept + stream[..n - |kept|] == (kept + stream)[..n] && RequestLen((kept + stream)[..n]) == n
  {
    hide RequestLen;
    var n := RequestLen(kept + stream);
    WholeRequest(kept + stream);
    if n < |kept| {
      assert (kept + stream)[..n] == kept[..n];
      FrameInPrefix(kept[..n], kept);
      assert false;
    }
  }

  lemma OneChunk(i: Intake, chunk: string)
    ensures Feed(i, [chunk]) == OnRead(i, chunk) && Flatten([chunk]) == chunk
    ensures Fits(i, [chunk]) <==> |i.kept| + |chunk| <= CAPACITY
  {
    hide OnRead;
    assert [chunk][..0] == [] && Feed(i, []) == i && Fits(i, []);
    assert [chunk][1..] == [] && chunk + [] == chunk;
  }

  lemma OneChunkTakes(i: Intake, stream: string)
    requires !i.closed && RequestLen(i.kept) < 0 && 0 <= RequestLen(i.kept + stream) <= CAPACITY
    ensures RequestLen(i.kept + stream) >= |i.kept|
    ensures var chunk := stream[..RequestLen(i.kept + stream) - |i.kept|];
            Fits(i, [chunk]) && Flatten([chunk]) <= stream && Progress(i, Feed(i, [chunk]))
  {
    hide RequestLen;
    hide Feed;
    hide Fits;
    hide Flatten;
    hide OnRead;
    hide Progress;
    FrameBeyondKept(i.kept, stream);
    var chunk := stream[..RequestLen(i.kept + stream) - |i.kept|];
    OneChunk(i, chunk);
    TakesFirst(i, chunk);
  }

  lemma TakesFirst(i: Intake, chunk: string)
    requires !i.closed && RequestLen(i.kept + chunk) >= 0
    ensures Progress(i, OnRead(i, chunk))
  {
    hide RequestLen;
    hide Forwardable;
    var e := Extract(i.kept + chunk);
    assert e.closed || |e.requests| > 0;
  }

  /** The exact condition: with more bytes to come, some way of reading them makes
      progress if and only if the next frame ends within the buffer.  A longer
      request stops the proxy for good, however it is cut. */
  lemma TakesNextExactly(i: Intake, stream: string)
    requires !i.closed && RequestLen(i.kept) < 0
    ensures (exists chunks :: Fits(i, chunks) && Flatten(chunks) <= stream && Progress(i, Feed(i, chunks)))
            <==> 0 <= RequestLen(i.kept + stream) <= 65536
  {
    hide RequestLen;
    hide Feed;
    hide Fits;
    if 0 <= RequestLen(i.kept + stream) <= CAPACITY {
      OneChunkTakes(i, stream);
    } else {
      forall chunks | Fits(i, chunks) && Flatten(chunks) <= stream ensures !Progress(i, Feed(i, chunks)) {
        NoProgress(i, stream, chunks);
      }
    }
  }

  const FILLER := seq(CAPACITY, _ => 'a')

  /** It happens: one read fills the buffer without a frame. */
  lemma BufferFills()
    ensures Fits(NOTHING, [FILLER])
    ensures var i := Feed(NOTHING, [FILLER]);
            !i.closed && i.requests == [] && |i.kept| == CAPACITY && RequestLen(i.kept) < 0
  {
    assert [FILLER][..0] == [] && Feed(NOTHING, []) == NOTHING;
    assert NOTHING.kept + FILLER == FILLER;
    forall i | 0 <= i && i + 4 <= |FILLER| ensures !At(FILLER, i, CRLF2) {
      assert FILLER[i..i + 4][0] == 'a';
    }
    FindNone(FILLER, CRLF2, 0);
  }
}

module HttpIntake {
  import opened Sequences
  import opened HttpText
  import opened HttpParse
  import opened HttpPrint
  import opened IntakeSpec

  /** The client side of the proxy: a fixed buffer and the bytes used in it. */
  class ProxyBuffer {
    const buffer: array<char>
    var used: nat

    ghost predicate Valid()
      reads this
    {
      buffer.Length == CAPACITY && used <= CAPACITY
    }

    ghost function Contents(): (s: string)
      requires Valid()
      reads this, buffer
    {
      buffer[..used]
    }

    constructor ()
      ensures Valid() && fresh(buffer) && Contents() == []
    {
      buffer := new char[CAPACITY];
      used := 0;
    }

    /** `on_read_request`, after a read that delivered `chunk`: take out full
        requests until none is left, or one of them cannot be forwarded. */
    method OnReadRequest(chunk: string) returns (requests: seq<string>, closed: bool)
      requires Valid() && used + |chunk| <= CAPACITY
      modifies this`used, buffer
      ensures Valid()
      ensures Intake(requests, Contents(), closed) == Extract(old(Contents()) + chunk)
    {
      hide Extract;
      hide Find;
      hide At;
      hide Forwardable;
      Store(chunk);
      ghost var goal := Extract(Contents());
      requests, closed := [], false;
      assert [] + goal.requests == goal.requests;
      var text := buffer[..used];
      var n := FindFirst(text, CRLF2, 0);
      while n >= 0
        invariant Valid() && text == Contents() && n == Find(text, CRLF2, 0)
        invariant goal == Prepend(requests, Extract(Contents()))
        decreases used
      {
        ghost var before := Contents();
        ExtractStep(before, requests);
        var request := text[..n + 4];
        var accepted := Accepts(request);
        if !accepted {
          Clear();
          assert requests + [] == requests;
          return requests, true;
        }
        requests := requests + [request];
        Shift(n + 4);
        text := buffer[..used];
        n := FindFirst(text, CRLF2, 0);
      }
      ExtractStep(Contents(), requests);
    }

    /** Parsing and the check of the target. */
    static method Accepts(request: string) returns (ok: bool)
      ensures ok == Forwardable(request)
    {
      var r := Parse(request);
      ok := r.Some? && |r.value.req| >= 7 && r.value.req[..7] == SCHEME;
      assert r.Some? && |r.value.req| >= 7 ==> r.value.req[0..7] == r.value.req[..7];
    }

    /** What the read put behind the used part. */
    method Store(chunk: string)
      requires Valid() && used + |chunk| <= CAPACITY
      modifies this`used, buffer
      ensures Valid() && Contents() == old(Contents()) + chunk
    {
      forall i | 0 <= i < |chunk| {
        buffer[used + i] := chunk[i];
      }
      used := used + |chunk|;
    }

    /** `memmove` of the bytes behind the first `n` to the front. */
    method Shift(n: nat)
      requires Valid() && n <= used
      modifies this`used, buffer
      ensures Valid() && Contents() == old(Contents())[n..]
    {
      forall i | 0 <= i < used - n {
        buffer[i] := buffer[i + n];
      }
      used := used - n;
    }

    method Clear()
      requires Valid()
      modifies this`used
      ensures Valid() && Contents() == []
    {
      used := 0;
    }
  }

  lemma ExtractStep(buf: string, requests: seq<string>)
    ensures var n := RequestLen(buf);
            Prepend(requests, Extract(buf)) ==
            if n < 0 then Intake(requests, buf, false)
            else if !Forwardable(buf[..n]) then Intake(requests, [], true)
            else Prepend(requests + [buf[..n]], Extract(buf[n..]))
  {
    hide RequestLen;
    hide Forwardable;
    var n := RequestLen(buf);
    assert requests + [] == requests;
    if n >= 0 && Forwardable(buf[..n]) {
      var rest := Extract(buf[n..]).requests;
      assert requests + ([buf[..n]] + rest) == (requests + [buf[..n]]) + rest;
    }
  }

  datatype Served = Incomplete | Served(req: Request) | Closed

  /** What the server takes from the bytes it holds, and what it keeps. */
  function Serve(text: string): (r: (Served, string))
  {
    var n := RequestLen(text);
    if n < 0 then (Incomplete, text)
    else
      match ParseRequest(text[..n])
      case None => (Closed, [])
      case Some(req) => (Served(req), text[n..])
  }

  /** The server's receive buffer, a vector that grows and is cut. */
  class ServerBuffer {
    var buffer: seq<char>
    var used: nat

    ghost predicate Valid()
      reads this
    {
      used <= |buffer|
    }

    ghost function Contents(): (s: string)
      requires Valid()
      reads this
    {
      buffer[..used]
    }

    constructor ()
      ensures Valid() && Contents() == []
    {
      buffer, used := [], 0;
    }

    /** `read`: there is always room for more than zero bytes afterwards. */
    method Reserve()
      requires Valid()
      modifies this`buffer
      ensures Valid() && Contents() == old(Contents())
      ensures |buffer| > used
      ensures |buffer| == if used < old(|buffer|) / 2 then old(|buffer|) else Max(500, 2 * used)
    {
      if used >= |buffer| / 2 {
        var size := if used * 2 < 500 then 500 else used * 2;
        buffer := Resize(buffer, size);
      }
    }

    static function Resize(s: seq<char>, n: nat): (r: seq<char>)
      ensures |r| == n
      ensures forall i :: 0 <= i < n && i < |s| ==> r[i] == s[i]
    {
      if n <= |s| then s[..n] else s + seq(n - |s|, _ => '\0')
    }

    /** `on_read` up to the answer: at most one request is taken, and one that does
        not parse closes the connection. */
    method OnRead(chunk: string) returns (r: Served)
      requires Valid() && used + |chunk| <= |buffer|
      modifies this
      ensures Valid()
      ensures var text := old(Contents()) + chunk;
              (r, Contents()) == Serve(text)
    {
      hide Find;
      hide ParseRequest;
      ghost var text := old(Contents()) + chunk;
      buffer := buffer[..used] + chunk + buffer[used + |chunk|..];
      used := used + |chunk|;
      assert buffer[..used] == text;
      var end := FindFirst(buffer[..used], CRLF2, 0);
      if end < 0 { return Incomplete; }
      var n := end + 4;
      assert RequestLen(text) == n;
      assert buffer[..n] == text[..n];
      var req := Parse(buffer[..n]);
      if req.None? {
        buffer, used := [], 0;
        return Closed;
      }
      r := Served(req.value);
      Drop(n);
    }

    method Drop(n: nat)
      requires Valid() && n <= used
      modifies this
      ensures Valid() && Contents() == old(Contents())[n..]
    {
      buffer := buffer[n..];
      used := used - n;
    }
  }
}
