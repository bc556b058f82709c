/** Printing a parsed request and parsing it again. */
module HttpRoundTrip {
  import opened HttpText
  import opened HttpParse
  import opened HttpPrint
  import opened HttpLines
  import opened HttpTarget
  import opened Options

  /** The lines, each after a line break, and the two that end the request. */
  function Block(lines: seq<string>): (r: string)
    ensures |r| >= 4 && At(r, 0, CRLF)
  {
    if lines == [] then CRLF2 else CRLF + lines[0] + Block(lines[1..])
  }

  /** A line that cannot be taken for the end of the request. */
  predicate SolidLine(l: string)
  {
    l != [] && l[0] != '\r'
  }

  ghost predicate Solid(lines: seq<string>)
  {
    forall i :: 0 <= i < |lines| ==> SolidLine(lines[i]) && NoBreak(lines[i])
  }

  lemma {:induction false} BlockIsText(lines: seq<string>)
    ensures CRLF + TextOf(lines) + CRLF == Block(lines)
  {
    if lines == [] {
      assert CRLF + [] + CRLF == CRLF2;
    } else {
      BlockIsText(lines[1..]);
      var l, t := lines[0], TextOf(lines[1..]);
      assert CRLF + (l + CRLF + t) + CRLF == CRLF + l + (CRLF + t + CRLF);
    }
  }

  lemma {:induction false} TextConcat(a: seq<string>, b: seq<string>)
    ensures TextOf(a + b) == TextOf(a) + TextOf(b)
  {
    if a == [] {
      assert a + b == b;
    } else {
      assert (a + b)[1..] == a[1..] + b;
      TextConcat(a[1..], b);
    }
  }

  function Head(verb: string, target: string): (r: string)
  {
    verb + " " + target + " HTTP/1.1"
  }

  function AllLines(req: Request, order: seq<string>): (r: seq<string>)
    requires Absolute(req) && forall i :: 0 <= i < |order| ==> order[i] in req.headers
  {
    HeaderLines(order, req.headers) + HostLines(req)
  }

  lemma PrintIsBlock(req: Request, order: seq<string>)
    requires Absolute(req) && forall i :: 0 <= i < |order| ==> order[i] in req.headers
    ensures Print(req, order) == Head(req.verb, Target(req)) + Block(AllLines(req, order))
  {
    var a, b := HeaderLines(order, req.headers), HostLines(req);
    TextConcat(a, b);
    BlockIsText(a + b);
    Regroup(Head(req.verb, Target(req)), CRLF, TextOf(a), TextOf(b));
    hide TextOf;
    hide Target;
    hide Block;
    hide HostLines;
    hide HeaderLines;
  }

  lemma Regroup(h: string, c: string, a: string, b: string)
    ensures h + c + a + b + c == h + (c + (a + b) + c)
  {
  }

  // ---------------------------------------------------------------------------
  // Framing

  lemma {:induction false} BlockFrame(lines: seq<string>)
    requires Solid(lines)
    ensures var b := Block(lines);
            FrameAt(b, |b| - 4) && forall i :: i < |b| - 4 ==> !FrameAt(b, i)
  {
    if lines != [] {
      BlockFrame(lines[1..]);
      LineFrame(lines[0], Block(lines[1..]));
    }
  }

  lemma LineFrame(l: string, more: string)
    requires SolidLine(l) && NoBreak(l) && At(more, 0, CRLF) && |more| >= 4
    requires FrameAt(more, |more| - 4) && forall i :: i < |more| - 4 ==> !FrameAt(more, i)
    ensures var b := CRLF + l + more;
            FrameAt(b, |b| - 4) && forall i :: i < |b| - 4 ==> !FrameAt(b, i)
  {
    var b := CRLF + l + more;
    var n := 2 + |l|;
    assert forall i :: n <= i < |b| ==> b[i] == more[i - n];
    assert forall i :: 2 <= i < n ==> b[i] == l[i - 2];
    BreakChars(more, 0);
    forall i | i < |b| - 4 ensures !FrameAt(b, i) {
      if i >= n {
        assert !FrameAt(more, i - n);
      } else if i >= 2 {
        assert !BreakAt(l, i - 2);
      }
    }
    assert FrameAt(more, |more| - 4);
  }

  lemma HeadFrame(verb: string, target: string, block: string)
    requires NoFrame(verb) && NoFrame(target)
    ensures forall i :: 0 <= i < |Head(verb, target)| ==> !FrameAt(Head(verb, target) + block, i)
  {
    var h := Head(verb, target);
    var s := h + block;
    var m, t := |verb|, |verb| + 1 + |target|;
    assert forall i :: 0 <= i < m ==> s[i] == verb[i];
    assert forall i :: m < i < t ==> s[i] == target[i - m - 1];
    assert s[m] == ' ' && s[t] == ' ';
    assert s[t + 1..t + 9] == "HTTP/1.1";
    assert forall i :: t < i < |h| ==> s[i] == "HTTP/1.1"[i - t - 1];
    forall i | 0 <= i < |h| ensures !FrameAt(s, i) {
      if i + 4 <= m {
        assert !FrameAt(verb, i);
      } else if m < i && i + 4 <= t {
        assert !FrameAt(target, i - m - 1);
      }
    }
  }

  /** The printed request is framed as a whole. */
  lemma PrintedFrame(verb: string, target: string, lines: seq<string>)
    requires NoFrame(verb) && NoFrame(target) && Solid(lines)
    ensures var out := Head(verb, target) + Block(lines); RequestLen(out) == |out|
  {
    var h, b := Head(verb, target), Block(lines);
    var out := h + b;
    BlockFrame(lines);
    HeadFrame(verb, target, b);
    assert forall i :: |h| <= i < |out| ==> out[i] == b[i - |h|];
    assert FrameAt(b, |b| - 4);
    assert FrameAt(out, |out| - 4);
    FrameChars(out, |out| - 4);
    forall i | 0 <= i < |out| - 4 ensures !At(out, i, CRLF2) {
      FrameChars(out, i);
      assert i >= |h| ==> !FrameAt(b, i - |h|);
    }
    FindIs(out, CRLF2, 0, |out| - 4);
  }

  // ---------------------------------------------------------------------------
  // The request line

  lemma FirstSpace(a: string, b: string, tail: string)
    requires ' ' !in a
    ensures Find(a + " " + b + tail, " ", 0) == |a|
  {
    assert a + " " + b + tail == a + [' '] + (b + tail);
    FindCharAfter(a, ' ', b + tail);
  }

  lemma DropPrefix(p: string, rest: string)
    ensures (p + rest)[|p|..] == rest && (p + rest)[..|p|] == p
  {
  }

  lemma SpaceAfter(p: string, b: string, rest: string)
    requires ' ' !in b
    ensures Find(p + (b + [' '] + rest), " ", |p|) == |p| + |b|
  {
    hide Find;
    DropPrefix(p, b + [' '] + rest);
    FindCharAfter(b, ' ', rest);
    FindSuffix(p + (b + [' '] + rest), " ", |p|);
  }

  lemma LineBreakAfter(p: string, line: string, block: string)
    requires '\r' !in line && At(block, 0, CRLF)
    ensures Find(p + (line + block), CRLF, |p|) == |p| + |line|
  {
    hide Find;
    DropPrefix(p, line + block);
    FirstBreakAfter(line, block);
    FindSuffix(p + (line + block), CRLF, |p|);
  }

  lemma HeadSlices(a: string, b: string, line: string, block: string)
    ensures var out := a + " " + b + (line + block);
            && out == (a + " " + b + line) + block
            && out[..|a|] == a
            && out[|a| + 1..|a| + 1 + |b|] == b
            && out[|a + " " + b + line|..] == block
  {
  }

  lemma HeadSpaces(a: string, b: string, block: string)
    ensures a + " " + b + (" HTTP/1.1" + block) == (a + " ") + (b + [' '] + ("HTTP/1.1" + block))
  {
    assert " HTTP/1.1" == [' '] + "HTTP/1.1";
  }

  lemma HeadParses(verb: string, target: string, block: string)
    requires ' ' !in verb && ' ' !in target && At(block, 0, CRLF)
    ensures var out := Head(verb, target) + block;
            && Find(out, " ", 0) == |verb|
            && Find(out, " ", |verb| + 1) == |verb| + 1 + |target|
            && Find(out, CRLF, |verb| + 1 + |target|) == |Head(verb, target)|
            && out[..|verb|] == verb
            && out[|verb| + 1..|verb| + 1 + |target|] == target
            && out[|Head(verb, target)|..] == block
  {
    hide Find;
    hide At;
    var line := " HTTP/1.1";
    HeadSlices(verb, target, line, block);
    FirstSpace(verb, target, line + block);
    HeadSpaces(verb, target, block);
    SpaceAfter(verb + " ", target, "HTTP/1.1" + block);
    LineBreakAfter(verb + " " + target, line, block);
  }

  lemma FirstBreakAfter(line: string, block: string)
    requires '\r' !in line && At(block, 0, CRLF)
    ensures Find(line + block, CRLF, 0) == |line|
  {
    var s := line + block;
    BreakChars(block, 0);
    assert s[|line|] == block[0] && s[|line| + 1] == block[1];
    forall i | 0 <= i < |line| ensures !BreakAt(s, i) {
      assert s[i] == line[i];
    }
    FindBreak(s, 0, |line|);
  }

  /** Parsing the printed text is parsing its lines. */
  lemma PrintedParses(verb: string, target: string, lines: seq<string>)
    requires ' ' !in verb && ' ' !in target
    ensures var headers := ParseHeaders(Block(lines), map[]);
            ParseRequest(Head(verb, target) + Block(lines)) ==
            if headers.None? then None
            else Some(Request(verb, target, PathOf(verb, target), headers.value))
  {
    hide Find;
    hide At;
    hide PathOf;
    hide Block;
    hide ParseHeaders;
    HeadParses(verb, target, Block(lines));
  }

  // ---------------------------------------------------------------------------
  // The header lines

  lemma LineSolid(k: string, v: string)
    requires GoodKey(k) && NoBreak(v)
    ensures SolidLine(Line(k, v)) && NoBreak(Line(k, v))
  {
    var l := Line(k, v);
    forall i ensures !BreakAt(l, i) {
      if 0 <= i && i + 2 <= |l| {
        if i + 1 < |k| {
          assert !BreakAt(k, i);
        } else if i >= |k| + 2 {
          assert l[i] == v[i - |k| - 2] && l[i + 1] == v[i - |k| - 1];
          assert !BreakAt(v, i - |k| - 2);
        }
      }
    }
  }

  lemma {:induction false} HeaderLinesSolid(order: seq<string>, headers: map<string, string>)
    requires GoodHeaders(headers) && forall i :: 0 <= i < |order| ==> order[i] in headers
    ensures Solid(HeaderLines(order, headers))
  {
    if order != [] {
      HeaderLinesSolid(order[1..], headers);
      LineSolid(order[0], headers[order[0]]);
      assert order[0] in headers;
    }
  }

  /** `acc` with the fields of `order` added. */
  function Added(acc: map<string, string>, order: seq<string>, headers: map<string, string>): (r: map<string, string>)
    requires forall i :: 0 <= i < |order| ==> order[i] in headers
    decreases |order|
  {
    if order == [] then acc else Added(acc[order[0] := headers[order[0]]], order[1..], headers)
  }

  lemma {:induction false} AddedKeys(acc: map<string, string>, order: seq<string>, headers: map<string, string>, k: string)
    requires forall i :: 0 <= i < |order| ==> order[i] in headers
    ensures var r := Added(acc, order, headers);
            && (k in r <==> k in acc || k in order)
            && (k in order ==> r[k] == headers[k])
            && (k in acc && k !in order ==> r[k] == acc[k])
    decreases |order|
  {
    if order != [] {
      AddedKeys(acc[order[0] := headers[order[0]]], order[1..], headers, k);
    }
  }

  lemma AddedAll(order: seq<string>, headers: map<string, string>)
    requires Enumerates(order, headers)
    ensures Added(map[], order, headers) == headers
  {
    var r := Added(map[], order, headers);
    forall k ensures k in r <==> k in headers
             ensures k in r ==> r[k] == headers[k] {
      AddedKeys(map[], order, headers, k);
    }
  }

  /** Parsing printed fields, with more text after them. */
  lemma {:induction false} HeaderLinesParse(order: seq<string>, headers: map<string, string>,
                                            more: seq<string>, acc: map<string, string>)
    requires GoodHeaders(headers) && forall i :: 0 <= i < |order| ==> order[i] in headers
    ensures ParseHeaders(Block(HeaderLines(order, headers) + more), acc) ==
            ParseHeaders(Block(more), Added(acc, order, headers))
    decreases |order|
  {
    hide ParseHeaders;
    hide Line;
    hide At;
    hide GoodKey;
    hide GoodValue;
    if order == [] {
      assert HeaderLines(order, headers) + more == more;
    } else {
      var k := order[0];
      var v := headers[k];
      assert k in headers;
      var rest := HeaderLines(order[1..], headers);
      assert (HeaderLines(order, headers) + more)[1..] == rest + more;
      GoodLineParses(k, v, Block(rest + more), acc);
      HeaderLinesParse(order[1..], headers, more, acc[k := v]);
    }
  }

  lemma GoodLineParses(k: string, v: string, more: string, acc: map<string, string>)
    requires GoodKey(k) && GoodValue(v) && At(more, 0, CRLF) && |more| >= 4
    ensures At(CRLF + Line(k, v) + more, 0, CRLF)
    ensures ParseHeaders(CRLF + Line(k, v) + more, acc) == ParseHeaders(more, acc[k := v])
  {
    LineSolid(k, v);
    LineParses(k, v, more, acc);
    TrimTrimmed(k);
    TrimTrimmed(v);
    hide ParseHeaders;
    hide Trim;
  }

  // ---------------------------------------------------------------------------
  // The host

  /** The header map a reader of the printed request should get. */
  function Expected(req: Request): (r: map<string, string>)
    requires Absolute(req)
  {
    if "host" in req.headers then req.headers else req.headers["host" := Trim(Host(req))]
  }

  lemma HostKey()
    ensures GoodKey("host") && Trim("host") == "host" && Lower("host") == "host"
  {
    var k := "host";
    forall i ensures !BreakAt(k, i) {
    }
    TrimTrimmed(k);
  }

  lemma HostLineNoBreak(w: string)
    requires NoBreak(w)
    ensures NoBreak("host" + ": " + w)
  {
    HostKey();
    LineSolid("host", w);
  }

  /** A host without a line break is read back. */
  lemma HostParses(host: string, acc: map<string, string>)
    requires NoBreak(host)
    ensures ParseHeaders(Block([Line("host", host)]), acc) == Some(acc["host" := Trim(host)])
    ensures Solid([Line("host", host)])
  {
    HostKey();
    LineSolid("host", host);
    HostLineNoBreak(host);
    LineParses("host", host, CRLF2, acc);
    assert [Line("host", host)][1..] == [];
    assert Block([Line("host", host)]) == CRLF + Line("host", host) + CRLF2;
    assert ParseHeaders(CRLF2, acc["host" := Trim(host)]) == Some(acc["host" := Trim(host)]);
    hide Trim;
    hide Lower;
  }

  /** The parser takes the part of the host before its first line break. */
  lemma BrokenHostSplit(host: string, acc: map<string, string>) returns (w: string, x: string)
    requires !NoBreak(host)
    ensures host == w + x && |x| >= 2 && At(x + CRLF2, 0, CRLF)
    ensures ParseHeaders(Block([Line("host", host)]), acc) == ParseHeaders(x + CRLF2, acc["host" := Trim(w)])
  {
    hide Trim;
    hide Lower;
    hide ParseHeaders;
    hide Find;
    hide Block;
    var p := Find(host, CRLF, 0);
    FoundBreak(host, 0);
    assert p >= 0 by { var i :| BreakAt(host, i); }
    w, x := host[..p], host[p..];
    SliceNoBreak(host, 0, p);
    assert host[0..p] == w;
    HostLineNoBreak(w);
    HostKey();
    BreakChars(x + CRLF2, 0);
    LineParses("host", w, x + CRLF2, acc);
    HostBlock(host, w, x);
  }

  lemma HostBlock(host: string, w: string, x: string)
    requires host == w + x
    ensures Block([Line("host", host)]) == CRLF + ("host" + ": " + w) + (x + CRLF2)
  {
    assert [Line("host", host)][1..] == [];
    assert "host" + ": " + (w + x) == ("host" + ": " + w) + x;
    Associate(CRLF, "host" + ": " + w, x, CRLF2);
  }

  lemma Associate(a: string, b: string, c: string, d: string)
    ensures a + (b + c) + d == a + b + (c + d)
  {
  }

  /** A host with a line break is never read back. */
  lemma BrokenHostNeverParses(host: string, acc: map<string, string>)
    requires !NoBreak(host)
    ensures var r := ParseHeaders(Block([Line("host", host)]), acc);
            r.Some? ==> "host" !in r.value || r.value["host"] != Trim(host)
  {
    hide Trim;
    hide NonSpace;
    hide ParseHeaders;
    hide Block;
    hide NoBreak;
    hide At;
    var w, x := BrokenHostSplit(host, acc);
    ParsedValuesShorter(x + CRLF2, acc["host" := Trim(w)], "host");
    HostNonSpace(host, w, x);
    assert |x + CRLF2| == |x| + 4;
  }

  lemma HostNonSpace(host: string, w: string, x: string)
    requires host == w + x
    ensures NonSpace(Trim(host)) == NonSpace(w) + NonSpace(x + CRLF2)
    ensures NonSpace(Trim(w)) == NonSpace(w)
  {
    NonSpaceTrim(host);
    NonSpaceTrim(w);
    NonSpaceConcat(w, x);
    NonSpaceConcat(x, CRLF2);
    NonSpaceBlank(CRLF2);
  }

  // ---------------------------------------------------------------------------
  // The round trip

  /** What parsing a framed request guarantees about its parts. */
  ghost predicate WellFormed(req: Request)
  {
    && ' ' !in req.verb && ' ' !in req.req
    && NoFrame(req.verb) && NoFrame(req.req)
    && GoodHeaders(req.headers)
  }

  lemma SliceNoFrame(s: string, a: nat, b: nat)
    requires a <= b <= |s| && forall i :: a <= i && i + 4 <= b ==> !FrameAt(s, i)
    ensures NoFrame(s[a..b])
  {
    forall i ensures !FrameAt(s[a..b], i) {
      if 0 <= i && i + 4 <= b - a {
        assert !FrameAt(s, a + i);
      }
    }
  }

  lemma FramedOnlyAtEnd(text: string)
    requires RequestLen(text) == |text|
    ensures forall i :: 0 <= i < |text| - 4 ==> !FrameAt(text, i)
  {
    forall i | 0 <= i < |text| - 4 ensures !FrameAt(text, i) {
      FrameChars(text, i);
    }
  }

  lemma NoCharIn(s: string, a: nat, b: nat, c: char)
    requires a <= b <= |s| && forall i :: a <= i < b ==> s[i] != c
    ensures c !in s[a..b]
  {
  }

  lemma FramedIsWellFormed(text: string)
    requires RequestLen(text) == |text| && ParseRequest(text).Some?
    ensures WellFormed(ParseRequest(text).value)
  {
    var space := Find(text, " ", 0);
    FoundChar(text, ' ', 0);
    var space2 := Find(text, " ", space + 1);
    FoundChar(text, ' ', space + 1);
    FramedOnlyAtEnd(text);
    NoCharIn(text, 0, space, ' ');
    NoCharIn(text, space + 1, space2, ' ');
    SliceNoFrame(text, 0, space);
    SliceNoFrame(text, space + 1, space2);
    assert text[0..space] == text[..space];
    var header := Find(text, CRLF, space2);
    AtSuffix(text, header, 0, CRLF);
    assert GoodHeaders(map[]);
    ParsedHeadersGood(text[header..], map[]);
    hide Find;
    hide PathOf;
    hide ParseHeaders;
    hide GoodHeaders;
    hide FrameAt;
  }

  lemma TargetWellFormed(req: Request)
    requires WellFormed(req) && Absolute(req)
    ensures ' ' !in Target(req) && NoFrame(Target(req))
  {
    var p := PathStart(req);
    if p == |req.req| {
      forall i ensures !FrameAt("/", i) {
      }
    } else {
      forall i | p <= i ensures !FrameAt(req.req, i) {
      }
      SliceNoFrame(req.req, p, |req.req|);
      assert req.req[p..|req.req|] == req.req[p..];
    }
  }

  /** The printed text is one whole request that parses to the same method, the
      given target, and the same header map with the host added. */
  predicate ReadsBack(req: Request, target: string, out: string)
    requires Absolute(req)
  {
    && RequestLen(out) == |out|
    && ParseRequest(out) == Some(Request(req.verb, target, PathOf(req.verb, target), Expected(req)))
  }

  lemma LinesReadBack(req: Request, order: seq<string>)
    requires WellFormed(req) && Absolute(req) && Enumerates(order, req.headers)
    requires "host" in req.headers || NoBreak(Host(req))
    ensures Solid(AllLines(req, order))
    ensures ParseHeaders(Block(AllLines(req, order)), map[]) == Some(Expected(req))
  {
    hide ParseHeaders;
    hide Host;
    hide Trim;
    hide NoBreak;
    hide SolidLine;
    hide Block;
    hide HeaderLines;
    var lines, host := HeaderLines(order, req.headers), HostLines(req);
    HeaderLinesSolid(order, req.headers);
    HeaderLinesParse(order, req.headers, host, map[]);
    AddedAll(order, req.headers);
    if "host" in req.headers {
      assert lines + host == lines;
      EndParses(req.headers);
    } else {
      HostParses(Host(req), req.headers);
    }
  }

  lemma EndParses(headers: map<string, string>)
    ensures ParseHeaders(Block([]), headers) == Some(headers)
  {
  }

  lemma LinesNeverReadBack(req: Request, order: seq<string>)
    requires WellFormed(req) && Absolute(req) && Enumerates(order, req.headers)
    requires "host" !in req.headers && !NoBreak(Host(req))
    ensures ParseHeaders(Block(AllLines(req, order)), map[]) != Some(Expected(req))
  {
    HeaderLinesParse(order, req.headers, HostLines(req), map[]);
    AddedAll(order, req.headers);
    BrokenHostNeverParses(Host(req), req.headers);
    hide ParseHeaders;
    hide Host;
    hide Trim;
  }

  /** The printer and the parser are inverse on every request with an absolute
      target that a frame can hold, for every order of the header fields, exactly
      when the request has a host field or the host in its target holds no line
      break; what is read back has the path of the target as its target. */
  lemma RoundTripExact(text: string, order: seq<string>, authority: string, path: string)
    requires RequestLen(text) == |text| && ParseRequest(text).Some?
    requires Parts(ParseRequest(text).value.req, authority, path)
    requires Enumerates(order, ParseRequest(text).value.headers)
    ensures var req := ParseRequest(text).value;
            && Absolute(req)
            && (ReadsBack(req, if path == [] then "/" else path, Print(req, order)) <==>
                  "host" in req.headers || NoBreak(Host(req)))
  {
    var req := ParseRequest(text).value;
    FramedIsWellFormed(text);
    hide ParseRequest;
    TargetIsPath(req, authority, path);
    TargetWellFormed(req);
    PrintIsBlock(req, order);
    var lines := AllLines(req, order);
    PrintedParses(req.verb, Target(req), lines);
    if "host" in req.headers || NoBreak(Host(req)) {
      LinesReadBack(req, order);
      PrintedFrame(req.verb, Target(req), lines);
    } else {
      LinesNeverReadBack(req, order);
    }
    hide ParseHeaders;
    hide Block;
    hide Host;
    hide Target;
    hide PathOf;
    hide RequestLen;
  }

  /** In particular, a request whose target has no carriage return or no line
      feed always reads back. */
  lemma CleanTargetReadsBack(text: string, order: seq<string>, authority: string, path: string)
    requires RequestLen(text) == |text| && ParseRequest(text).Some?
    requires Parts(ParseRequest(text).value.req, authority, path)
    requires Enumerates(order, ParseRequest(text).value.headers)
    requires var req := ParseRequest(text).value; '\r' !in req.req || '\n' !in req.req
    ensures var req := ParseRequest(text).value;
            Absolute(req) && ReadsBack(req, if path == [] then "/" else path, Print(req, order))
  {
    var req := ParseRequest(text).value;
    hide ParseRequest;
    RoundTripExact(text, order, authority, path);
    HostNoBreak(req);
    hide Host;
    hide Print;
  }

  /** A clean request without a host field for `host` and `port`: what the server
      reads has the path as its target and the host, without brackets around it,
      as its host field. */
  lemma ServerReads(text: string, order: seq<string>, host: string, port: string, path: string)
    requires RequestLen(text) == |text| && ParseRequest(text).Some?
    requires var req := ParseRequest(text).value;
             && Parts(req.req, host + ":" + port, path) && host != [] && ':' !in port
             && Enumerates(order, req.headers)
             && "host" !in req.headers && ('\r' !in req.req || '\n' !in req.req)
    ensures var req := ParseRequest(text).value;
            && Absolute(req)
            && (var target := if path == [] then "/" else path;
                ParseRequest(Print(req, order)) ==
                Some(Request(req.verb, target, PathOf(req.verb, target),
                             req.headers["host" := Trim(StripBrackets(host))])))
  {
    var req := ParseRequest(text).value;
    hide ParseRequest;
    hide RequestLen;
    hide Print;
    hide PathOf;
    hide StripBrackets;
    CleanTargetReadsBack(text, order, host + ":" + port, path);
    HostBeforePort(req, host, port, path);
    hide Host;
  }

  /** A framed request whose host holds a line break and that has no host field:
      its printed form is not read back. */
  lemma BrokenHostExample()
    ensures var text := Head("GET", "http://\r\nx/") + Block([]);
            && RequestLen(text) == |text| && ParseRequest(text).Some? && Absolute(ParseRequest(text).value)
            && Enumerates([], ParseRequest(text).value.headers)
            && !ReadsBack(ParseRequest(text).value, "/", Print(ParseRequest(text).value, []))
  {
    hide Block;
    hide PathOf;
    hide Print;
    hide Host;
    hide RequestLen;
    hide ParseRequest;
    hide ReadsBack;
    var verb, target := "GET", "http://\r\nx/";
    var text := Head(verb, target) + Block([]);
    PrintedFrame(verb, target, []);
    PrintedParses(verb, target, []);
    EndParses(map[]);
    assert target[0..7] == SCHEME;
    BrokenHost(ParseRequest(text).value);
    assert Parts(target, "\r\nx", "/");
    RoundTripExact(text, [], "\r\nx", "/");
  }

  lemma BrokenHost(req: Request)
    requires Absolute(req) && req.req == "http://\r\nx/"
    ensures !NoBreak(Host(req))
  {
    var s := req.req;
    assert s[7..8] == "\r" && s[8..9] == "\n" && s[9..10] == "x" && s[10..11] == "/";
    FindIs(s, "/", 7, 10);
    var authority := s[..10];
    assert authority == "http://\r\nx";
    assert FindLast(authority, ':') <= 7 by { NoColonAfterScheme(authority); }
    assert Host(req) == StripBrackets("\r\nx") by { assert s[7..10] == "\r\nx"; }
    assert BreakAt(Host(req), 0);
  }

  lemma NoColonAfterScheme(s: string)
    requires s == "http://\r\nx"
    ensures FindLast(s, ':') <= 7
  {
    assert s[..9] == "http://\r\n";
    assert s[..9][..8] == "http://\r";
    assert s[9] == 'x' && s[..9][8] == '\n' && s[..9][..8][7] == '\r';
    assert FindLast(s, ':') == FindLast(s[..9], ':') == FindLast(s[..9][..8], ':');
  }

  lemma SliceChars(s: string, a: nat, b: nat, c: char)
    requires a <= b <= |s| && c in s[a..b]
    ensures c in s
  {
  }

  lemma StripChars(host: string, c: char)
    requires c in StripBrackets(host)
    ensures c in host
  {
  }

  lemma HostChars(req: Request, c: char)
    requires Absolute(req) && c in Host(req)
    ensures c in req.req
  {
    var p := PathStart(req);
    var hostEnd := FindLast(req.req[..p], ':');
    StripChars(if hostEnd > 7 then req.req[7..hostEnd] else req.req[7..p], c);
    SliceChars(req.req, 7, if hostEnd > 7 then hostEnd else p, c);
  }

  lemma HostNoBreak(req: Request)
    requires Absolute(req) && ('\r' !in req.req || '\n' !in req.req)
    ensures NoBreak(Host(req))
  {
    var h := Host(req);
    if '\r' in h { HostChars(req, '\r'); }
    if '\n' in h { HostChars(req, '\n'); }
    hide Host;
    forall i ensures !BreakAt(h, i) {
      if 0 <= i && i + 2 <= |h| {
        assert h[i] in h && h[i + 1] in h;
      }
    }
  }
}
