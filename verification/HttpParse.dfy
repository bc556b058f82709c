/** Parsing a framed request (src/http_server.cpp:228-291) and normalizing its path. */
module HttpParse {
  import opened HttpText
  import opened Options

  datatype Request = Request(verb: string, req: string, path: string, headers: map<string, string>)

  // ---------------------------------------------------------------------------
  // The path

  /** A C string ends at its first zero. */
  function CStr(s: string): (r: string)
  {
    if s == [] || s[0] == '\0' then [] else [s[0]] + CStr(s[1..])
  }

  /** One segment after others: `..` removes the one before it. */
  function Kept(elements: seq<string>, element: string): (r: seq<string>)
  {
    if element != ".." then elements + [element]
    else if elements != [] then elements[..|elements| - 1]
    else elements
  }

  /** Walk the segments of a path; the last one is taken as it is. */
  function Segments(rest: string, elements: seq<string>): (r: seq<string>)
    decreases |rest|
  {
    var slash := Find(rest, "/", 0);
    if slash < 0 then elements + [rest]
    else Segments(rest[slash + 1..], Kept(elements, rest[..slash]))
  }

  function Join(elements: seq<string>): (r: string)
  {
    if elements == [] then [] else "/" + elements[0] + Join(elements[1..])
  }

  function DropSlash(s: string): (r: string)
  {
    if s != [] && s[0] == '/' then s[1..] else s
  }

  function Normalize(s: string): (r: string)
  {
    Join(Segments(DropSlash(CStr(s)), []))
  }

  /** `normalize`: split at the slashes, then join. */
  method NormalizePath(s: string) returns (r: string)
    ensures r == Normalize(s)
  {
    var elements := SplitPath(DropSlash(CStr(s)));
    r := JoinPath(elements);
  }

  method SplitPath(path: string) returns (elements: seq<string>)
    ensures elements == Segments(path, [])
  {
    var rest := path;
    elements := [];
    var slash := FindFirst(rest, "/", 0);
    while slash >= 0
      invariant slash == Find(rest, "/", 0)
      invariant Segments(rest, elements) == Segments(path, [])
      decreases |rest|
    {
      var element := rest[..slash];
      if element != ".." {
        elements := elements + [element];
      } else if elements != [] {
        elements := elements[..|elements| - 1];
      }
      rest := rest[slash + 1..];
      slash := FindFirst(rest, "/", 0);
    }
    elements := elements + [rest];
  }

  method JoinPath(elements: seq<string>) returns (r: string)
    ensures r == Join(elements)
  {
    r := [];
    assert elements[0..] == elements;
    for i := 0 to |elements|
      invariant r + Join(elements[i..]) == Join(elements)
    {
      JoinStep(elements, i, r);
      r := r + "/" + elements[i];
    }
    assert r + [] == r;
  }

  lemma JoinStep(elements: seq<string>, i: nat, r: string)
    requires i < |elements|
    ensures r + Join(elements[i..]) == (r + "/" + elements[i]) + Join(elements[i + 1..])
  {
    assert elements[i..][1..] == elements[i + 1..];
  }

  // ---------------------------------------------------------------------------
  // The request

  /** The header lines; `rest` starts at the line break before the next line and
      ends with the end of the request. */
  function ParseHeaders(rest: string, headers: map<string, string>): (r: Option<map<string, string>>)
    requires At(rest, 0, CRLF)
    decreases |rest|
  {
    if |rest| == 4 then Some(headers)
    else
      var next := Find(rest, CRLF, 2);
      var value := Find(rest, ":", 0);
      if value < 0 || next < 0 || value > next then None
      else
        assert rest[value] == ':' by { assert rest[value..value + 1] == ":"; }
        assert rest[next] == '\r' by { assert rest[next..next + 2] == CRLF; }
        AtSuffix(rest, next, 0, CRLF);
        ParseHeaders(rest[next..], headers[Lower(Trim(rest[..value])) := Trim(rest[value + 1..next])])
  }

  /** The path of a request target: without the query, except for CONNECT. */
  function PathOf(verb: string, req: string): (r: string)
  {
    if verb == "CONNECT" then req
    else
      var query := Find(req, "?", 0);
      Normalize(if query < 0 then req else req[..query])
  }

  /** The request in `text`, or None for the exception. */
  function ParseRequest(text: string): (r: Option<Request>)
  {
    var space := Find(text, " ", 0);
    if space < 0 then None
    else
      var space2 := Find(text, " ", space + 1);
      if space2 < 0 then None
      else
        var header := Find(text, CRLF, space2);
        if header < 0 then None
        else
          AtSuffix(text, header, 0, CRLF);
          var headers := ParseHeaders(text[header..], map[]);
          if headers.None? then None
          else
            var verb, req := text[..space], text[space + 1..space2];
            Some(Request(verb, req, PathOf(verb, req), headers.value))
  }

  /** `parse_request` with its loop over the header lines. */
  method Parse(text: string) returns (r: Option<Request>)
    ensures r == ParseRequest(text)
  {
    hide PathOf;
    var space := FindFirst(text, " ", 0);
    if space < 0 { return None; }
    var space2 := FindFirst(text, " ", space + 1);
    if space2 < 0 { return None; }
    var verb, req := text[..space], text[space + 1..space2];
    var path := Path(verb, req);
    var header := FindFirst(text, CRLF, space2);
    if header < 0 { return None; }
    var headers := ParseLines(text, header);
    if headers.None? { return None; }
    r := Some(Request(verb, req, path, headers.value));
  }

  method Path(verb: string, req: string) returns (path: string)
    ensures path == PathOf(verb, req)
  {
    if verb == "CONNECT" { return req; }
    var query := FindFirst(req, "?", 0);
    path := NormalizePath(if query < 0 then req else req[..query]);
  }

  method ParseLines(text: string, start: nat) returns (r: Option<map<string, string>>)
    requires At(text, start, CRLF)
    ensures At(text[start..], 0, CRLF) && r == ParseHeaders(text[start..], map[])
  {
    hide Find;
    hide Trim;
    hide Lower;
    var header := start;
    var headers := map[];
    AtSuffix(text, start, 0, CRLF);
    ghost var goal := ParseHeaders(text[start..], map[]);
    while header != |text| - 4
      invariant start <= header && At(text, header, CRLF) && At(text[header..], 0, CRLF)
      invariant ParseHeaders(text[header..], headers) == goal
      decreases |text| - header
    {
      ghost var rest := text[header..];
      assert |rest| != 4;
      var next := FindFirst(text, CRLF, header + 2);
      var value := FindFirst(text, ":", header);
      LineStep(text, header, next, value);
      if value < 0 || next < 0 || value > next { return None; }
      var k := TrimText(text[header..value]);
      k := LowerCase(k);
      var v := TrimText(text[value + 1..next]);
      headers := headers[k := v];
      header := next;
    }
    assert |text[header..]| == 4;
    r := Some(headers);
  }

  /** Positions in the text and in what is left of it. */
  lemma LineStep(text: string, header: nat, next: int, value: int)
    requires At(text, header, CRLF)
    requires next == Find(text, CRLF, header + 2) && value == Find(text, ":", header)
    ensures var rest := text[header..];
            && Find(rest, CRLF, 2) == (if next < 0 then -1 else next - header)
            && Find(rest, ":", 0) == (if value < 0 then -1 else value - header)
            && (next >= 0 ==> At(text, next, CRLF) && At(text[next..], 0, CRLF))
            && (next >= 0 && 0 <= value <= next ==>
                  && header <= value < next && next <= |text|
                  && rest[..value - header] == text[header..value]
                  && rest[value - header + 1..next - header] == text[value + 1..next]
                  && rest[next - header..] == text[next..])
  {
    assert header + 2 <= |text|;
    hide Find;
    hide At;
    var rest := text[header..];
    FindSuffix(text, ":", header);
    FindSuffix(text, CRLF, header + 2);
    FindSuffix(rest, CRLF, 2);
    assert rest[2..] == text[header + 2..];
    if next >= 0 {
      CharAt(text, next, CRLF);
      AtSuffix(text, next, 0, CRLF);
      if 0 <= value <= next {
        CharAt(text, value, ":");
      }
    }
  }

  lemma CharAt(text: string, i: int, needle: string)
    requires At(text, i, needle) && needle != []
    ensures 0 <= i < |text| && text[i] == needle[0]
  {
    assert text[i..i + |needle|][0] == text[i];
  }
}
