/** The request that the proxy forwards (src/http_proxy.cpp:129-176). */
module HttpPrint {
  import opened HttpText
  import opened HttpParse

  const SCHEME := "http://"

  /** The request target has an absolute form. */
  predicate Absolute(req: Request)
  {
    At(req.req, 0, SCHEME)
  }

  /** Where the path starts in the target, or its end. */
  function PathStart(req: Request): (r: nat)
    requires Absolute(req)
    ensures 7 <= r <= |req.req|
  {
    var slash := Find(req.req, "/", 7);
    if slash < 0 then |req.req| else slash
  }

  /** The origin form of the target. */
  function Target(req: Request): (r: string)
    requires Absolute(req)
  {
    if PathStart(req) == |req.req| then "/" else req.req[PathStart(req)..]
  }

  /** The last occurrence of `c`, or -1. */
  function FindLast(s: string, c: char): (r: int)
    ensures -1 <= r < |s|
  {
    if s == [] then -1 else if s[|s| - 1] == c then |s| - 1 else FindLast(s[..|s| - 1], c)
  }

  function StripBrackets(host: string): (r: string)
  {
    if |host| >= 2 && host[0] == '[' && host[|host| - 1] == ']' then host[1..|host| - 1] else host
  }

  /** The host part of the target, without port and IPv6 brackets. */
  function Host(req: Request): (r: string)
    requires Absolute(req)
  {
    var hostEnd := FindLast(req.req[..PathStart(req)], ':');
    StripBrackets(if hostEnd > 7 then req.req[7..hostEnd] else req.req[7..PathStart(req)])
  }

  function Line(k: string, v: string): (r: string)
  {
    k + ": " + v
  }

  /** The header lines, in the order of `order`. */
  function HeaderLines(order: seq<string>, headers: map<string, string>): (r: seq<string>)
    requires forall i :: 0 <= i < |order| ==> order[i] in headers
  {
    if order == [] then [] else [Line(order[0], headers[order[0]])] + HeaderLines(order[1..], headers)
  }

  function TextOf(lines: seq<string>): (r: string)
  {
    if lines == [] then [] else lines[0] + CRLF + TextOf(lines[1..])
  }

  /** `order` enumerates the keys of `headers`, each once. */
  ghost predicate Enumerates(order: seq<string>, headers: map<string, string>)
  {
    && (forall i :: 0 <= i < |order| ==> order[i] in headers)
    && (forall k :: k in headers ==> k in order)
    && (forall i, j :: 0 <= i < j < |order| ==> order[i] != order[j])
  }

  function HostLines(req: Request): (r: seq<string>)
    requires Absolute(req)
  {
    if "host" in req.headers then [] else [Line("host", Host(req))]
  }

  function Print(req: Request, order: seq<string>): (r: string)
    requires Absolute(req)
    requires forall i :: 0 <= i < |order| ==> order[i] in req.headers
  {
    req.verb + " " + Target(req) + " HTTP/1.1" + CRLF
      + TextOf(HeaderLines(order, req.headers)) + TextOf(HostLines(req)) + CRLF
  }

  lemma TextOfOne(l: string)
    ensures TextOf([l]) == l + CRLF
  {
    assert [l][1..] == [];
    assert l + CRLF + TextOf([]) == l + CRLF;
  }

  /** The part of `forward_request` that builds the text. */
  method PrintRequest(req: Request, order: seq<string>) returns (text: string)
    requires Absolute(req) && Enumerates(order, req.headers)
    ensures text == Print(req, order)
  {
    text := req.verb + " " + Target(req) + " HTTP/1.1" + CRLF;
    var lines := PrintHeaders(order, req.headers);
    text := text + lines;
    if "host" !in req.headers {
      TextOfOne(Line("host", Host(req)));
      text := text + (Line("host", Host(req)) + CRLF);
    } else {
      assert text + TextOf([]) == text;
    }
    text := text + CRLF;
  }

  method PrintHeaders(order: seq<string>, headers: map<string, string>) returns (out: string)
    requires Enumerates(order, headers)
    ensures out == TextOf(HeaderLines(order, headers))
  {
    out := [];
    assert order[0..] == order;
    for i := 0 to |order|
      invariant out + TextOf(HeaderLines(order[i..], headers)) == TextOf(HeaderLines(order, headers))
    {
      var l := Line(order[i], headers[order[i]]);
      PrintStep(order, headers, i, out);
      out := out + l + CRLF;
    }
    assert out + [] == out;
  }

  lemma PrintStep(order: seq<string>, headers: map<string, string>, i: nat, out: string)
    requires i < |order| && forall j :: 0 <= j < |order| ==> order[j] in headers
    ensures out + TextOf(HeaderLines(order[i..], headers)) ==
            (out + Line(order[i], headers[order[i]]) + CRLF) + TextOf(HeaderLines(order[i + 1..], headers))
  {
    assert order[i..][1..] == order[i + 1..];
    var l := Line(order[i], headers[order[i]]);
    var rest := HeaderLines(order[i + 1..], headers);
    assert ([l] + rest)[1..] == rest;
  }
}

/** Line breaks in requests, character by character. */
module HttpLines {
  import opened HttpText
  import opened HttpParse

  predicate BreakAt(s: string, i: int)
  {
    0 <= i && i + 2 <= |s| && s[i] == '\r' && s[i + 1] == '\n'
  }

  predicate FrameAt(s: string, i: int)
  {
    0 <= i && i + 4 <= |s| && s[i] == '\r' && s[i + 1] == '\n' && s[i + 2] == '\r' && s[i + 3] == '\n'
  }

  lemma BreakChars(s: string, i: int)
    ensures BreakAt(s, i) <==> At(s, i, CRLF)
  {
    if 0 <= i && i + 2 <= |s| {
      assert s[i..i + 2] == [s[i], s[i + 1]];
    }
  }

  lemma FrameChars(s: string, i: int)
    ensures FrameAt(s, i) <==> At(s, i, CRLF2)
  {
    if 0 <= i && i + 4 <= |s| {
      assert s[i..i + 4] == [s[i], s[i + 1], s[i + 2], s[i + 3]];
    }
  }

  lemma CharChars(s: string, i: int, c: char)
    ensures At(s, i, [c]) <==> 0 <= i < |s| && s[i] == c
  {
    if 0 <= i < |s| {
      assert s[i..i + 1] == [s[i]];
    }
  }

  ghost predicate NoBreak(s: string)
  {
    forall i :: !BreakAt(s, i)
  }

  ghost predicate NoFrame(s: string)
  {
    forall i :: !FrameAt(s, i)
  }

  /** A character search on a text whose first part does not have it. */
  lemma FindCharAfter(a: string, c: char, b: string)
    requires c !in a
    ensures Find(a + [c] + b, [c], 0) == |a|
  {
    var s := a + [c] + b;
    CharChars(s, |a|, c);
    forall i | 0 <= i < |a| ensures !At(s, i, [c]) {
      CharChars(s, i, c);
      assert s[i] == a[i];
    }
    FindIs(s, [c], 0, |a|);
  }

  /** The first line break from `from` on, when there is none before `k`. */
  lemma FindBreak(s: string, from: nat, k: nat)
    requires from <= k && BreakAt(s, k)
    requires forall i :: from <= i < k ==> !BreakAt(s, i)
    ensures Find(s, CRLF, from) == k
  {
    BreakChars(s, k);
    forall i | from <= i < k ensures !At(s, i, CRLF) {
      BreakChars(s, i);
    }
    FindIs(s, CRLF, from, k);
  }

  /** What a search for a line break means in characters. */
  lemma FoundBreak(s: string, from: nat)
    ensures var k := Find(s, CRLF, from);
            if k < 0 then forall i :: from <= i ==> !BreakAt(s, i)
            else from <= k && BreakAt(s, k) && forall i :: from <= i < k ==> !BreakAt(s, i)
  {
    forall i: int ensures BreakAt(s, i) <==> At(s, i, CRLF) {
      BreakChars(s, i);
    }
  }

  lemma FoundChar(s: string, c: char, from: nat)
    ensures var k := Find(s, [c], from);
            if k < 0 then forall i :: from <= i < |s| ==> s[i] != c
            else from <= k < |s| && s[k] == c && forall i :: from <= i < k ==> s[i] != c
  {
    forall i: int ensures At(s, i, [c]) <==> 0 <= i < |s| && s[i] == c {
      CharChars(s, i, c);
    }
  }

  lemma SliceNoBreak(s: string, a: nat, b: nat)
    requires a <= b <= |s| && forall i :: a <= i && i + 2 <= b ==> !BreakAt(s, i)
    ensures NoBreak(s[a..b])
  {
    forall i ensures !BreakAt(s[a..b], i) {
      if 0 <= i && i + 2 <= b - a {
        assert s[a..b][i] == s[a + i] && s[a..b][i + 1] == s[a + i + 1];
        assert !BreakAt(s, a + i);
      }
    }
  }

  // ---------------------------------------------------------------------------
  // Header fields

  /** What parsing puts into the map: trimmed, keys in lower case and without a
      colon, no line break. */
  ghost predicate GoodKey(k: string)
  {
    Trimmed(k) && Lower(k) == k && ':' !in k && NoBreak(k)
  }

  ghost predicate GoodValue(v: string)
  {
    Trimmed(v) && NoBreak(v)
  }

  ghost predicate GoodHeaders(headers: map<string, string>)
  {
    forall k :: k in headers ==> GoodKey(k) && GoodValue(headers[k])
  }

  lemma TrimNoBreak(s: string)
    requires NoBreak(s)
    ensures NoBreak(Trim(s)) && Trimmed(Trim(s))
  {
    var a, b := TrimSlice(s);
    SliceNoBreak(s, a, b);
  }

  lemma LowerGood(s: string)
    requires Trimmed(s) && NoBreak(s) && ':' !in s
    ensures GoodKey(Lower(s))
  {
    hide Lower;
    hide Trimmed;
    LowerTwice(s);
    LowerTrimmed(s);
    LowerNoBreak(s);
    assert forall i :: 0 <= i < |s| ==> Lower(s)[i] != ':';
  }

  lemma LowerTrimmed(s: string)
    requires Trimmed(s)
    ensures Trimmed(Lower(s))
  {
    hide Lower;
  }

  lemma LowerNoBreak(s: string)
    requires NoBreak(s)
    ensures NoBreak(Lower(s))
  {
    hide Lower;
    forall i ensures !BreakAt(Lower(s), i) {
      assert !BreakAt(s, i);
    }
  }

  /** `rest` starts with a line break; the raw key is what precedes the colon. */
  lemma KeyGood(rest: string, value: nat, next: nat)
    requires BreakAt(rest, 0) && 2 <= value <= next <= |rest|
    requires forall i :: 0 <= i < value ==> rest[i] != ':'
    requires forall i :: 2 <= i < next ==> !BreakAt(rest, i)
    ensures GoodKey(Lower(Trim(rest[..value])))
  {
    var x := rest[2..value];
    assert rest[..value] == CRLF + x;
    TrimLeading(CRLF, x);
    SliceNoBreak(rest, 2, value);
    TrimNoBreak(x);
    var a, b := TrimSlice(x);
    LowerGood(Trim(x));
  }

  lemma ValueGood(rest: string, value: nat, next: nat)
    requires 2 <= value < next <= |rest|
    requires forall i :: 2 <= i < next ==> !BreakAt(rest, i)
    ensures GoodValue(Trim(rest[value + 1..next]))
  {
    SliceNoBreak(rest, value + 1, next);
    TrimNoBreak(rest[value + 1..next]);
  }

  /** One line of a request, as the parser sees it. */
  lemma LineFacts(rest: string)
    requires At(rest, 0, CRLF)
    ensures var next, value := Find(rest, CRLF, 2), Find(rest, ":", 0);
            next >= 0 && 0 <= value <= next ==>
              && 2 <= value < next && next + 2 <= |rest|
              && BreakAt(rest, next) && rest[value] == ':'
              && GoodKey(Lower(Trim(rest[..value]))) && GoodValue(Trim(rest[value + 1..next]))
              && At(rest[next..], 0, CRLF)
  {
    hide Find;
    hide Trim;
    hide Lower;
    hide GoodKey;
    hide GoodValue;
    hide At;
    var next, value := Find(rest, CRLF, 2), Find(rest, ":", 0);
    BreakChars(rest, 0);
    FoundBreak(rest, 2);
    FoundChar(rest, ':', 0);
    if next >= 0 && 0 <= value <= next {
      KeyGood(rest, value, next);
      ValueGood(rest, value, next);
      BreakChars(rest[next..], 0);
    }
  }

  /** Whatever the parser accepts is well-formed. */
  lemma {:induction false} ParsedHeadersGood(rest: string, headers: map<string, string>)
    requires At(rest, 0, CRLF) && GoodHeaders(headers)
    ensures var r := ParseHeaders(rest, headers); r.Some? ==> GoodHeaders(r.value)
    decreases |rest|
  {
    hide Find;
    hide At;
    hide GoodKey;
    hide GoodValue;
    LineFacts(rest);
    if |rest| != 4 {
      var next, value := Find(rest, CRLF, 2), Find(rest, ":", 0);
      if next >= 0 && 0 <= value <= next {
        ParsedHeadersGood(rest[next..], headers[Lower(Trim(rest[..value])) := Trim(rest[value + 1..next])]);
      }
    }
  }

  /** Values added by parsing have fewer non-space characters than the text
      they come from, which has some unless it is the end. */
  lemma {:induction false} ParsedValuesShorter(rest: string, headers: map<string, string>, k: string)
    requires At(rest, 0, CRLF)
    ensures var r := ParseHeaders(rest, headers);
            r.Some? ==>
              && (k in r.value ==> (k in headers && r.value[k] == headers[k]) || NonSpace(r.value[k]) < NonSpace(rest))
              && (|rest| == 4 || NonSpace(rest) > 0)
    decreases |rest|
  {
    hide Find;
    hide At;
    hide Trim;
    hide Lower;
    hide NonSpace;
    hide GoodKey;
    hide GoodValue;
    LineFacts(rest);
    if |rest| != 4 {
      var next, value := Find(rest, CRLF, 2), Find(rest, ":", 0);
      if next >= 0 && 0 <= value <= next {
        var key, v := Lower(Trim(rest[..value])), Trim(rest[value + 1..next]);
        var r := ParseHeaders(rest[next..], headers[key := v]);
        ParsedValuesShorter(rest[next..], headers[key := v], k);
        LineNonSpace(rest, value, next);
        if r.Some? {
          AddedShorter(headers, key, v, r.value, k, NonSpace(rest[next..]), NonSpace(rest));
        }
      }
    }
  }

  lemma AddedShorter(acc: map<string, string>, key: string, v: string, m: map<string, string>, k: string, n: nat, bound: nat)
    requires k in m ==> (k in acc[key := v] && m[k] == acc[key := v][k]) || NonSpace(m[k]) < n
    requires NonSpace(v) < bound && n <= bound
    ensures k in m ==> (k in acc && m[k] == acc[k]) || NonSpace(m[k]) < bound
  {
  }

  lemma LineNonSpace(rest: string, value: nat, next: nat)
    requires value < next <= |rest| && rest[value] == ':'
    ensures NonSpace(Trim(rest[value + 1..next])) < NonSpace(rest)
    ensures NonSpace(rest[next..]) <= NonSpace(rest)
  {
    var v := rest[value + 1..next];
    NonSpaceTrim(v);
    assert rest == rest[..value] + ([':'] + (v + rest[next..]));
    NonSpaceConcat(rest[..value], [':'] + (v + rest[next..]));
    NonSpaceConcat([':'], v + rest[next..]);
    NonSpaceConcat(v, rest[next..]);
    NonSpaceHas([':'], 0);
  }

  /** Parsing one printed line and what follows it. */
  lemma LineParses(k: string, w: string, more: string, headers: map<string, string>)
    requires ':' !in k && NoBreak(k + ": " + w) && At(more, 0, CRLF) && |more| >= 2
    ensures var rest := CRLF + (k + ": " + w) + more;
            At(rest, 0, CRLF) && ParseHeaders(rest, headers) == ParseHeaders(more, headers[Lower(Trim(k)) := Trim(w)])
  {
    var l := k + ": " + w;
    var rest := CRLF + l + more;
    LinePositions(k, w, more);
    var next, value := 2 + |l|, 2 + |k|;
    assert rest[next..] == more;
    assert rest[..value] == CRLF + k;
    assert rest[value + 1..next] == " " + w;
    TrimLeading(CRLF, k);
    TrimLeading(" ", w);
    hide Find;
    hide Trim;
    hide Lower;
  }

  lemma LinePositions(k: string, w: string, more: string)
    requires ':' !in k && NoBreak(k + ": " + w) && At(more, 0, CRLF) && |more| >= 2
    ensures var l := k + ": " + w;
            var rest := CRLF + l + more;
            && At(rest, 0, CRLF)
            && Find(rest, CRLF, 2) == 2 + |l|
            && Find(rest, ":", 0) == 2 + |k|
  {
    var l := k + ": " + w;
    var rest := CRLF + l + more;
    BreakChars(rest, 0);
    BreakChars(more, 0);
    assert rest[2 + |l|] == more[0] && rest[2 + |l| + 1] == more[1];
    forall i | 2 <= i < 2 + |l| ensures !BreakAt(rest, i) {
      assert rest[i] == l[i - 2];
      assert !BreakAt(l, i - 2);
      if i + 1 < 2 + |l| { assert rest[i + 1] == l[i - 1]; } else { assert rest[i + 1] == more[0]; }
    }
    FindBreak(rest, 2, 2 + |l|);
    assert rest == (CRLF + k) + [':'] + (" " + w + more);
    FindCharAfter(CRLF + k, ':', " " + w + more);
  }
}
