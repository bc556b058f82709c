/** Forwarding requests to the server (src/http_proxy.cpp:129-213): the port in
    the target, and the buffer towards the server with its single write in
    flight. */
module ForwardSpec {
  import opened HttpParse
  import opened HttpPrint
  import opened HttpTarget
  import opened Sequences

  const OUT_CAPACITY := 65536
  const DEFAULT_PORT := 80

  // ---------------------------------------------------------------------------
  // The port

  predicate IsDigit(c: char)
  {
    '0' <= c <= '9'
  }

  function DigitValue(c: char): (r: nat)
    requires IsDigit(c)
  {
    c as int - '0' as int
  }

  /** The digits at the start of `s`, read after `value`. */
  function Digits(s: string, value: nat): (r: nat)
  {
    if s == [] || !IsDigit(s[0]) then value else Digits(s[1..], 10 * value + DigitValue(s[0]))
  }

  predicate IsBlank(c: char)
  {
    c == ' ' || '\t' <= c <= '\r'
  }

  /** C's `atoi`: white space, a sign, digits; anything after them is ignored. */
  function Atoi(s: string): (r: int)
  {
    if s == [] then 0
    else if IsBlank(s[0]) then Atoi(s[1..])
    else if s[0] == '-' then -(Digits(s[1..], 0) as int)
    else if s[0] == '+' then Digits(s[1..], 0)
    else Digits(s, 0)
  }

  /** The port after the last colon before the path, or the default. */
  function Port(req: Request): (r: int)
    requires Absolute(req)
  {
    var hostEnd := FindLast(req.req[..PathStart(req)], ':');
    if hostEnd <= 7 then DEFAULT_PORT
    else Atoi(req.req[hostEnd + 1..Min(hostEnd + 1 + PathStart(req), |req.req|)])
  }

  predicate PortOk(port: int)
  {
    0 <= port < 0xffff
  }

  /** Decimal digits of `n`. */
  function Decimal(n: nat): (r: string)
  {
    if n < 10 then [('0' as int + n) as char] else Decimal(n / 10) + [('0' as int + n % 10) as char]
  }

  lemma {:induction false} DigitsOfDecimal(n: nat, rest: string)
    ensures Decimal(n) != [] && IsDigit(Decimal(n)[0])
    ensures Digits(Decimal(n) + rest, 0) == Digits(rest, n)
  {
    if n < 10 {
      assert (Decimal(n) + rest)[1..] == rest;
    } else {
      var d := [('0' as int + n % 10) as char];
      DigitsOfDecimal(n / 10, d + rest);
      assert Decimal(n) + rest == Decimal(n / 10) + (d + rest);
      assert (d + rest)[1..] == rest;
    }
  }

  lemma {:induction false} DecimalPlain(n: nat)
    ensures forall i :: 0 <= i < |Decimal(n)| ==> IsDigit(Decimal(n)[i])
  {
    if n >= 10 { DecimalPlain(n / 10); }
  }

  lemma AtoiDecimal(n: nat, rest: string)
    requires rest == [] || !IsDigit(rest[0])
    ensures Atoi(Decimal(n) + rest) == n
  {
    hide Decimal;
    DigitsOfDecimal(n, rest);
  }

  /** A sign before the digits. */
  lemma AtoiSigned(n: nat, rest: string)
    requires rest == [] || !IsDigit(rest[0])
    ensures Atoi(['-'] + (Decimal(n) + rest)) == 0 - n && Atoi(['+'] + (Decimal(n) + rest)) == n
  {
    hide Decimal;
    hide Digits;
    hide Atoi;
    DigitsOfDecimal(n, rest);
    NoMoreDigits(rest, n);
    AtoiSign(Decimal(n) + rest);
  }

  lemma AtoiSign(s: string)
    ensures Atoi(['-'] + s) == 0 - Digits(s, 0) && Atoi(['+'] + s) == Digits(s, 0)
  {
    hide Digits;
    assert (['-'] + s)[1..] == s && (['+'] + s)[1..] == s;
  }

  lemma NoMoreDigits(rest: string, n: nat)
    requires rest == [] || !IsDigit(rest[0])
    ensures Digits(rest, n) == n
  {
  }

  /** White space before the number, and no number at all. */
  lemma AtoiBlank(c: char, s: string)
    ensures IsBlank(c) <==> c == ' ' || 9 <= c as int <= 13
    ensures IsBlank(c) ==> Atoi([c] + s) == Atoi(s)
    ensures !IsBlank(c) && !IsDigit(c) && c != '-' && c != '+' ==> Atoi([c] + s) == 0
    ensures Atoi([]) == 0
  {
    assert ([c] + s)[1..] == s;
  }

  /** A port written in decimal behind the host is the one that is used, whatever
      path follows; the assertion on it holds for all ports but 65535. */
  lemma PortReadsBack(req: Request, host: string, n: nat, path: string)
    requires req.req == SCHEME + host + ":" + Decimal(n) + path
    requires host != [] && '/' !in host && (path == [] || path[0] == '/')
    ensures Absolute(req) && Port(req) == n
    ensures PortOk(Port(req)) <==> n < 65535
  {
    hide FindLast;
    hide PathStart;
    hide Decimal;
    hide Atoi;
    hide Absolute;
    var d := Decimal(n);
    DecimalPlain(n);
    AuthorityParts(req, host, d, path);
    var end := Min(8 + |host| + PathStart(req), |req.req|);
    Slices(SCHEME, host, d, path, end);
    AtoiDecimal(n, path[..end - (8 + |host| + |d|)]);
  }

  /** Without a port the default is used. */
  lemma DefaultPort(req: Request, host: string, path: string)
    requires req.req == SCHEME + host + path
    requires ':' !in host && '/' !in host && (path == [] || path[0] == '/')
    ensures Absolute(req) && Port(req) == 80
  {
    hide FindLast;
    hide PathStart;
    hide Atoi;
    hide Absolute;
    PlainAuthority(req, host, path);
  }

  /** An IPv6 address without a port is taken apart at its last colon: the port
      is what follows. */
  lemma AddressWithoutPort(req: Request)
    requires req.req == "http://[::1]/"
    ensures Absolute(req) && Host(req) == "[:" && Port(req) == 1
  {
    hide FindLast;
    hide PathStart;
    hide Absolute;
    hide StripBrackets;
    BracketsExactly("", "[:");
    assert req.req == SCHEME + "[:" + ":" + "1]" + "/";
    AuthorityParts(req, "[:", "1]", "/");
    HostBeforePort(req, "[:", "1]", "/");
    assert req.req[10..13] == "1]/";
    hide Host;
    hide Atoi;
    OneDigit();
  }

  lemma OneDigit()
    ensures Atoi("1]/") == 1
  {
    assert "1]/"[1..] == "]/";
    assert Digits("1]/", 0) == Digits("]/", 1) == 1;
  }

  // ---------------------------------------------------------------------------
  // The buffer towards the server

  /** `isOpen` and `connected` are the stages of the connection to the server;
      `writing` says whether a write is in flight, of the first `offered` bytes.
      `printed` (all texts queued) and `sent` (what the server took) are history. */
  datatype Out = Out(
    queued: string,
    isOpen: bool,
    connected: bool,
    writing: bool,
    offered: nat,
    printed: string,
    sent: string)

  /** What becomes of a request; only the first does not end the connection. */
  datatype Outcome = Queued | NotAbsolute | BadPort | TooDeep

  const IDLE := Out([], false, false, false, 0, [], [])

  function StartWrite(o: Out): (r: Out)
  {
    if o.writing then o else o.(writing := true, offered := |o.queued|)
  }

  function Forwarded(o: Out, req: Request, order: seq<string>): (r: Outcome)
    requires Enumerates(order, req.headers)
  {
    if !Absolute(req) then NotAbsolute
    else if !PortOk(Port(req)) then BadPort
    else if |o.queued| + |Print(req, order)| > OUT_CAPACITY then TooDeep
    else Queued
  }

  /** `forward_request`: without a connection one is started. */
  function Forward(o: Out, req: Request, order: seq<string>): (r: Out)
    requires Enumerates(order, req.headers)
  {
    if !Forwarded(o, req, order).Queued? then o
    else
      var text := Print(req, order);
      var q := o.(queued := o.queued + text, printed := o.printed + text);
      if o.isOpen then StartWrite(q) else q
  }

  /** `on_server_write`: the server took the first `n` bytes. */
  function Took(o: Out, n: nat): (r: Out)
    requires n <= |o.queued|
  {
    var t := o.(queued := o.queued[n..], writing := false, sent := o.sent + o.queued[..n]);
    if t.queued != [] then StartWrite(t) else t
  }
}

module HttpForward {
  import opened ForwardSpec
  import opened HttpParse
  import opened HttpPrint

  /** The server side of the proxy. */
  class Upstream {
    const buffer: array<char>
    var used: nat
    var isOpen: bool
    var connected: bool
    var writing: bool
    var offered: nat
    ghost var printed: string
    ghost var sent: string

    ghost predicate Valid()
      reads this
    {
      buffer.Length == OUT_CAPACITY && used <= OUT_CAPACITY
    }

    ghost function View(): (o: Out)
      requires Valid()
      reads this, buffer
    {
      Out(buffer[..used], isOpen, connected, writing, offered, printed, sent)
    }

    constructor ()
      ensures Valid() && fresh(buffer) && View() == IDLE
    {
      buffer := new char[OUT_CAPACITY];
      used, isOpen, connected, writing, offered := 0, false, false, false, 0;
      printed, sent := [], [];
    }

    /** `forward_request`. */
    method Forward(req: Request, order: seq<string>) returns (outcome: Outcome)
      requires Valid() && Enumerates(order, req.headers)
      modifies this, buffer
      ensures Valid()
      ensures outcome == Forwarded(old(View()), req, order)
      ensures View() == ForwardSpec.Forward(old(View()), req, order)
    {
      hide Print;
      hide Port;
      if !(|req.req| >= 7 && req.req[..7] == SCHEME) {
        return NotAbsolute;
      }
      assert req.req[0..7] == req.req[..7];
      if !PortOk(Port(req)) {
        return BadPort;
      }
      var text := PrintRequest(req, order);
      if used + |text| > buffer.Length {
        return TooDeep;
      }
      Append(text);
      if isOpen {
        WriteSendBuffer();
      }
      outcome := Queued;
    }

    method Append(text: string)
      requires Valid() && used + |text| <= buffer.Length
      modifies this`used, this`printed, buffer
      ensures Valid()
      ensures View() == old(View()).(queued := old(View()).queued + text, printed := old(View()).printed + text)
    {
      forall i | 0 <= i < |text| {
        buffer[used + i] := text[i];
      }
      used := used + |text|;
      printed := printed + text;
    }

    /** `open_forward_connection`. */
    method Open()
      requires Valid()
      modifies this`isOpen
      ensures Valid() && View() == old(View()).(isOpen := true)
    {
      isOpen := true;
    }

    /** `on_connected`. */
    method OnConnected()
      requires Valid()
      modifies this`connected, this`writing, this`offered
      ensures Valid() && View() == StartWrite(old(View()).(connected := true))
    {
      connected := true;
      WriteSendBuffer();
    }

    /** `write_server_send_buffer`. */
    method WriteSendBuffer()
      requires Valid()
      modifies this`writing, this`offered
      ensures Valid() && View() == StartWrite(old(View()))
    {
      if writing { return; }
      writing, offered := true, used;
    }

    /** `on_server_write`. */
    method OnServerWrite(n: nat)
      requires Valid() && n <= used
      modifies this`used, this`writing, this`offered, this`sent, buffer
      ensures Valid() && View() == Took(old(View()), n)
    {
      ghost var before := buffer[..used];
      writing := false;
      sent := sent + before[..n];
      forall i | 0 <= i < used - n {
        buffer[i] := buffer[i + n];
      }
      used := used - n;
      assert buffer[..used] == before[n..];
      if used > 0 {
        WriteSendBuffer();
      }
    }
  }
}

/** What holds in every run of the server side of the proxy. */
module ForwardRuns {
  import opened ForwardSpec
  import opened HttpParse
  import opened HttpPrint

  /** `order` enumerates the fields of the request. */
  datatype Event = Request(req: HttpParse.Request, order: seq<string>) | Opened | Connected | ServerTook(n: nat)

  /** An event that cannot happen leaves the state unchanged: the server takes
      bytes only from a write in flight, and a connection is opened before it is
      connected. */
  ghost function Step(o: Out, e: Event): (r: Out)
  {
    match e
    case Request(req, order) => if Enumerates(order, req.headers) then Forward(o, req, order) else o
    case Opened => o.(isOpen := true)
    case Connected => if o.isOpen then StartWrite(o.(connected := true)) else o
    case ServerTook(n) => if o.writing && n <= o.offered && n <= |o.queued| then Took(o, n) else o
  }

  ghost function Steps(events: seq<Event>): (r: Out)
  {
    if events == [] then IDLE else Step(Steps(events[..|events| - 1]), events[|events| - 1])
  }

  /** The texts of the requests that were queued, one after the other. */
  ghost function Texts(events: seq<Event>): (r: string)
  {
    if events == [] then []
    else
      var m := |events| - 1;
      Texts(events[..m]) + TextOfEvent(Steps(events[..m]), events[m])
  }

  ghost function TextOfEvent(o: Out, e: Event): (r: string)
  {
    if e.Request? && Enumerates(e.order, e.req.headers) && Forwarded(o, e.req, e.order).Queued?
    then Print(e.req, e.order) else []
  }

  /** In every run the server has been sent, followed by what is queued, exactly
      the printed requests in order; the buffer is never exceeded, a write in
      flight is always of queued bytes, and once connected there is one in
      flight whenever bytes are queued, so the proxy never stops by itself. */
  lemma {:induction false} ForwardedInOrder(events: seq<Event>)
    ensures var o := Steps(events);
            && o.sent + o.queued == Texts(events)
            && |o.queued| <= OUT_CAPACITY
            && (o.writing ==> o.offered <= |o.queued|)
            && (o.connected && o.queued != [] ==> o.writing)
            && (o.connected ==> o.isOpen)
  {
    hide Print;
    hide Enumerates;
    if events != [] {
      var m := |events| - 1;
      var o, e := Steps(events[..m]), events[m];
      ForwardedInOrder(events[..m]);
      match e
      case Request(req, order) => QueuedText(o, e);
      case Opened =>
      case Connected =>
      case ServerTook(n) =>
        if o.writing && n <= o.offered {
          assert o.sent + o.queued[..n] + o.queued[n..] == o.sent + o.queued;
        }
      assert o.sent + o.queued + [] == o.sent + o.queued;
    }
  }

  lemma QueuedText(o: Out, e: Event)
    requires e.Request?
    ensures var r := Step(o, e); r.sent == o.sent && r.queued == o.queued + TextOfEvent(o, e)
  {
    hide Print;
    assert o.queued + [] == o.queued;
  }

  /** In every run a request is queued, behind what is queued, exactly when its
      target starts with the scheme, its port is below 65535 and not negative, and
      its text fits the 65536 bytes with what is queued; a request that is not
      queued changes nothing. */
  lemma QueuedExactly(events: seq<Event>, req: HttpParse.Request, order: seq<string>)
    requires Enumerates(order, req.headers)
    ensures var o := Steps(events);
            var r := Step(o, Event.Request(req, order));
            if |req.req| >= 7 && req.req[..7] == "http://" then
              Absolute(req) &&
              (if 0 <= Port(req) <= 65534 && |o.queued| + |Print(req, order)| <= 65536
               then r.queued == o.queued + Print(req, order)
               else r == o)
            else r == o
  {
    hide Print;
    hide Port;
    hide Steps;
    assert |req.req| >= 7 ==> req.req[0..7] == req.req[..7];
  }

  /** A write offers everything that is queued when it starts: at once on an open
      connection, when the connection is made, and when the one before is done. */
  lemma WriteOffersAll(events: seq<Event>, e: Event)
    ensures var o := Steps(events);
            var r := Step(o, e);
            && (r.writing && (!o.writing || e.ServerTook?) && r != o ==> r.offered == |r.queued|)
            && (o.writing && !e.ServerTook? ==> r.writing && r.offered == o.offered)
            && (e.Request? && o.isOpen && r.queued != o.queued ==> r.writing)
            && (e.Connected? && o.isOpen ==> r.writing)
  {
    hide Print;
    hide Forwarded;
    ForwardedInOrder(events);
    hide Steps;
  }
}
