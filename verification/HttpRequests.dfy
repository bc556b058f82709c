/** Requests line by line: what the parser, the proxy and the server make of a
    request line and a list of header lines. */
module HttpRequests {
  import opened HttpIntake
  import opened HttpLines
  import opened HttpParse
  import opened HttpRoundTrip
  import opened HttpText
  import opened IntakeSpec
  import opened Options

  /** The index of the first colon. */
  function Colon(l: string): (r: nat)
    requires ':' in l
    ensures r < |l| && l[r] == ':' && ':' !in l[..r]
  {
    if l[0] == ':' then 0 else 1 + Colon(l[1..])
  }

  /** Every line is a field. */
  predicate AllFields(lines: seq<string>)
  {
    forall i :: 0 <= i < |lines| ==> ':' in lines[i]
  }

  /** The fields of some lines: the name in lower case, name and value trimmed; a
      later line of the same name wins. */
  function Fields(lines: seq<string>, acc: map<string, string>): (r: map<string, string>)
    requires AllFields(lines)
    decreases |lines|
  {
    if lines == [] then acc
    else
      var l := lines[0];
      var c := Colon(l);
      Fields(lines[1..], acc[Lower(Trim(l[..c])) := Trim(l[c + 1..])])
  }

  lemma LineBreakEnds(l: string, more: string)
    requires NoBreak(l) && At(more, 0, CRLF)
    ensures var rest := CRLF + l + more; At(rest, 0, CRLF) && Find(rest, CRLF, 2) == 2 + |l|
  {
    var rest := CRLF + l + more;
    BreakChars(rest, 0);
    BreakChars(more, 0);
    assert rest[2 + |l|] == more[0] && rest[2 + |l| + 1] == more[1];
    forall i | 2 <= i < 2 + |l| ensures !BreakAt(rest, i) {
      assert rest[i] == l[i - 2];
      assert !BreakAt(l, i - 2);
      if i + 1 < 2 + |l| { assert rest[i + 1] == l[i - 1]; } else { assert rest[i + 1] == more[0]; }
    }
    FindBreak(rest, 2, 2 + |l|);
  }

  /** A line without a colon is refused, whatever follows. */
  lemma LineRefused(l: string, more: string, acc: map<string, string>)
    requires NoBreak(l) && At(more, 0, CRLF) && |more| >= 4 && ':' !in l
    ensures At(CRLF + l + more, 0, CRLF) && ParseHeaders(CRLF + l + more, acc) == None
  {
    var rest := CRLF + l + more;
    LineBreakEnds(l, more);
    FoundChar(rest, ':', 0);
    BreakChars(more, 0);
    assert forall i :: 2 <= i < 2 + |l| ==> rest[i] == l[i - 2];
    assert rest[2 + |l|] == more[0];
    hide Find;
    hide Trim;
    hide Lower;
  }

  lemma LineTaken(l: string, more: string, acc: map<string, string>)
    requires NoBreak(l) && At(more, 0, CRLF) && |more| >= 4 && ':' in l
    ensures var c := Colon(l);
            && At(CRLF + l + more, 0, CRLF)
            && ParseHeaders(CRLF + l + more, acc) == ParseHeaders(more, acc[Lower(Trim(l[..c])) := Trim(l[c + 1..])])
  {
    hide Find;
    hide Trim;
    hide Lower;
    hide Colon;
    var c := Colon(l);
    var rest := CRLF + l + more;
    LineBreakEnds(l, more);
    ColonFound(l, more);
    TrimLeading(CRLF, l[..c]);
    LineSlices(l, more, c);
  }

  lemma LineSlices(l: string, more: string, c: nat)
    requires c < |l|
    ensures var rest := CRLF + l + more;
            && rest[..2 + c] == CRLF + l[..c]
            && rest[2 + c + 1..2 + |l|] == l[c + 1..]
            && rest[2 + |l|..] == more
  {
  }

  lemma ColonFound(l: string, more: string)
    requires ':' in l
    ensures Find(CRLF + l + more, ":", 0) == 2 + Colon(l)
  {
    var c := Colon(l);
    assert l == l[..c] + [':'] + l[c + 1..];
    assert CRLF + l + more == (CRLF + l[..c]) + [':'] + (l[c + 1..] + more);
    FindCharAfter(CRLF + l[..c], ':', l[c + 1..] + more);
  }

  ghost predicate Unbroken(lines: seq<string>)
  {
    forall i :: 0 <= i < |lines| ==> NoBreak(lines[i])
  }

  lemma {:induction false} LinesParse(lines: seq<string>, acc: map<string, string>)
    requires Unbroken(lines)
    ensures ParseHeaders(Block(lines), acc) == if AllFields(lines) then Some(Fields(lines, acc)) else None
    decreases |lines|
  {
    hide ParseHeaders;
    hide NoBreak;
    hide At;
    hide Trim;
    hide Lower;
    hide Colon;
    if lines == [] {
      EndParses(acc);
    } else {
      var l, more := lines[0], Block(lines[1..]);
      if ':' in l {
        var c := Colon(l);
        LineTaken(l, more, acc);
        LinesParse(lines[1..], acc[Lower(Trim(l[..c])) := Trim(l[c + 1..])]);
        assert AllFields(lines) <==> AllFields(lines[1..]);
      } else {
        LineRefused(l, more, acc);
      }
    }
  }

  /** The parser is a reading by lines: for any method, target and lines it accepts
      a request if and only if every line has a colon, and gives its fields. */
  lemma ParsesByLines(verb: string, target: string, lines: seq<string>)
    requires ' ' !in verb && ' ' !in target && Unbroken(lines)
    ensures ParseRequest(Head(verb, target) + Block(lines)) ==
            if AllFields(lines) then Some(Request(verb, target, PathOf(verb, target), Fields(lines, map[]))) else None
  {
    hide ParseRequest;
    hide ParseHeaders;
    hide Block;
    hide PathOf;
    hide NoBreak;
    PrintedParses(verb, target, lines);
    LinesParse(lines, map[]);
  }

  /** A request line and header lines that make one frame. */
  ghost predicate Framed(verb: string, target: string, lines: seq<string>)
  {
    && ' ' !in verb && ' ' !in target
    && NoFrame(verb) && NoFrame(target) && Solid(lines)
  }

  lemma FrameOf(verb: string, target: string, lines: seq<string>, rest: string)
    requires Framed(verb, target, lines)
    ensures var text := Head(verb, target) + Block(lines);
            && RequestLen(text) == |text| == RequestLen(text + rest)
            && (text + rest)[..|text|] == text && (text + rest)[|text|..] == rest
  {
    hide RequestLen;
    hide Solid;
    hide NoFrame;
    var text := Head(verb, target) + Block(lines);
    PrintedFrame(verb, target, lines);
    RequestLenGrows(text, rest);
  }

  /** What the proxy takes first: a request whose lines are fields and whose target
      starts with the scheme is taken, whatever follows it; any other closes the
      connection. */
  lemma ProxyTakesExactly(verb: string, target: string, lines: seq<string>, rest: string)
    requires Framed(verb, target, lines)
    ensures var text := Head(verb, target) + Block(lines);
            Extract(text + rest) ==
            if AllFields(lines) && |target| >= 7 && target[..7] == "http://" then Prepend([text], Extract(rest))
            else Intake([], [], true)
  {
    hide RequestLen;
    hide ParseRequest;
    hide PathOf;
    hide Fields;
    hide Solid;
    hide NoFrame;
    hide Block;
    var text := Head(verb, target) + Block(lines);
    FrameOf(verb, target, lines, rest);
    SolidUnbroken(lines);
    ParsesByLines(verb, target, lines);
    assert |target| >= 7 ==> target[0..7] == target[..7];
  }

  lemma SolidUnbroken(lines: seq<string>)
    requires Solid(lines)
    ensures Unbroken(lines)
  {
    hide NoBreak;
  }

  /** What the server takes: a request whose lines are fields, whatever follows it;
      any other closes the connection. */
  lemma ServerTakesExactly(verb: string, target: string, lines: seq<string>, rest: string)
    requires Framed(verb, target, lines)
    ensures var text := Head(verb, target) + Block(lines);
            Serve(text + rest) ==
            if AllFields(lines) then
              (Served(Request(verb, target, PathOf(verb, target), Fields(lines, map[]))), rest)
            else (Closed, [])
  {
    hide RequestLen;
    hide ParseRequest;
    hide PathOf;
    hide Fields;
    hide Solid;
    hide NoFrame;
    hide Block;
    FrameOf(verb, target, lines, rest);
    SolidUnbroken(lines);
    ParsesByLines(verb, target, lines);
  }

  /** Without the end of a frame the server keeps everything. */
  lemma ServerWaits(text: string)
    requires forall i :: !FrameAt(text, i)
    ensures Serve(text) == (Incomplete, text)
  {
    forall i | 0 <= i ensures !At(text, i, CRLF2) {
      FrameChars(text, i);
    }
    FindNone(text, CRLF2, 0);
  }

  /** A frame ends with the first pair of line breaks. */
  lemma FrameEnds(text: string, n: nat)
    ensures RequestLen(text) == n <==> 4 <= n && FrameAt(text, n - 4) && forall i :: i < n - 4 ==> !FrameAt(text, i)
  {
    var end := Find(text, CRLF2, 0);
    forall i: int ensures FrameAt(text, i) <==> At(text, i, CRLF2) {
      FrameChars(text, i);
    }
    if n >= 4 && FrameAt(text, n - 4) && (forall i :: i < n - 4 ==> !FrameAt(text, i)) {
      FindIs(text, CRLF2, 0, n - 4);
    }
    hide Find;
    hide At;
  }

  /** A request as a browser sends it. */
  lemma BrowserRequest()
    ensures var lines := ["Host: a.b", "X:1", "x: 2 "];
            ParseRequest(Head("GET", "/p") + Block(lines)) ==
            Some(Request("GET", "/p", PathOf("GET", "/p"), map["host" := "a.b", "x" := "2"]))
  {
    var lines := ["Host: a.b", "X:1", "x: 2 "];
    hide ParseRequest;
    hide PathOf;
    hide Block;
    hide Fields;
    forall i | 0 <= i < |lines| ensures NoBreak(lines[i]) {
      assert '\r' !in lines[i];
      NoReturnNoBreak(lines[i]);
    }
    BrowserFields();
    ParsesByLines("GET", "/p", lines);
  }

  lemma NoReturnNoBreak(s: string)
    requires '\r' !in s
    ensures NoBreak(s)
  {
  }

  lemma BrowserFields()
    ensures var lines := ["Host: a.b", "X:1", "x: 2 "];
            AllFields(lines) && Fields(lines, map[]) == map["host" := "a.b", "x" := "2"]
  {
    hide Fields;
    hide Trim;
    hide Lower;
    var lines := ["Host: a.b", "X:1", "x: 2 "];
    TrimmedWords();
    var one := map["host" := "a.b"];
    var two := one["x" := "1"];
    var three := two["x" := "2"];
    assert lines[1..][1..] == lines[2..] && lines[2..][1..] == [];
    FieldStep("x", " 2 ", lines[2..], two);
    FieldStep("X", "1", lines[1..], one);
    FieldStep("Host", " a.b", lines, map[]);
    NoFields(three);
    assert map[]["host" := "a.b"] == one && three == map["host" := "a.b", "x" := "2"];
  }

  lemma NoFields(acc: map<string, string>)
    ensures Fields([], acc) == acc
  {
  }

  lemma FieldStep(k: string, v: string, lines: seq<string>, acc: map<string, string>)
    requires lines != [] && lines[0] == k + ":" + v && ':' !in k && AllFields(lines[1..])
    ensures AllFields(lines) && Fields(lines, acc) == Fields(lines[1..], acc[Lower(Trim(k)) := Trim(v)])
  {
    var l := lines[0];
    assert l[|k|] == ':';
    var c := Colon(l);
    assert c == |k|;
    assert l[..c] == k && l[c + 1..] == v;
    hide Trim;
    hide Lower;
  }

  lemma TrimmedWords()
    ensures Trim("Host") == "Host" && Trim("X") == "X" && Trim("x") == "x"
    ensures Trim(" a.b") == "a.b" && Trim("1") == "1" && Trim(" 2 ") == "2"
    ensures Lower("Host") == "host" && Lower("X") == "x" && Lower("x") == "x"
  {
    TrimTrimmed("Host");
    TrimTrimmed("X");
    TrimTrimmed("x");
    TrimTrimmed("1");
    TrimTrimmed("2");
    TrimTrimmed("a.b");
    TrimLeading(" ", "a.b");
    assert " " + "a.b" == " a.b" && " " + "2 " == " 2 ";
    TrimLeading(" ", "2 ");
    TrimTwo();
    LowerIs("Host", "host");
    LowerIs("X", "x");
    LowerIs("x", "x");
  }

  /** Lower case, letter by letter. */
  lemma LowerIs(s: string, l: string)
    requires |s| == |l|
    requires forall i :: 0 <= i < |s| ==>
               if 'A' <= s[i] <= 'Z' then l[i] as int == s[i] as int + 32 else l[i] == s[i]
    ensures Lower(s) == l
  {
    assert 'a' as int == 'A' as int + 32;
    forall i | 0 <= i < |s| ensures Lower(s)[i] == l[i] {
      assert Lower(s)[i] == LowerChar(s[i]);
    }
  }

  lemma TrimTwo()
    ensures Trim("2 ") == "2"
  {
    assert "2 "[..1] == "2";
  }
}
