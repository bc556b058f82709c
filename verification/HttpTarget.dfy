/** What the proxy forwards as target and host, in terms of the target's parts:
    an authority without a slash and a path that starts with one or is empty. */
module HttpTarget {
  import opened HttpParse
  import opened HttpPrint
  import opened HttpText

  lemma {:induction false} FindLastIs(before: string, c: char, after: string)
    requires c !in after
    ensures FindLast(before + [c] + after, c) == |before|
  {
    var s := before + [c] + after;
    if after == [] {
      assert s[|s| - 1] == c;
    } else {
      var m := |after| - 1;
      assert s[|s| - 1] == after[m];
      assert s[..|s| - 1] == before + [c] + after[..m];
      FindLastIs(before, c, after[..m]);
    }
  }

  lemma Slices(scheme: string, host: string, d: string, path: string, end: nat)
    requires |scheme + host + ":" + d| <= end <= |scheme + host + ":" + d + path|
    ensures var s := scheme + host + ":" + d + path;
            var n := |scheme + host|;
            && s == scheme + (host + ":" + d) + path
            && s[0..|scheme|] == scheme
            && s[..n + 1 + |d|] == scheme + host + [':'] + d
            && s[n + 1..end] == d + path[..end - (n + 1 + |d|)]
  {
  }

  lemma PathStartIs(req: Request, authority: string, path: string)
    requires req.req == SCHEME + authority + path && Absolute(req)
    requires '/' !in authority && (path == [] || path[0] == '/')
    ensures PathStart(req) == 7 + |authority|
  {
    var s := req.req;
    forall i | 7 <= i < 7 + |authority| ensures !At(s, i, "/") {
      assert s[i..i + 1] == [authority[i - 7]];
    }
    if path == [] {
      FindNone(s, "/", 7);
    } else {
      var k := 7 + |authority|;
      assert s[k..k + 1] == [path[0]];
      FindIs(s, "/", 7, k);
    }
  }

  /** Where the path starts and where the host ends. */
  lemma AuthorityParts(req: Request, host: string, d: string, path: string)
    requires req.req == SCHEME + host + ":" + d + path
    requires '/' !in host && '/' !in d && ':' !in d && (path == [] || path[0] == '/')
    ensures Absolute(req) && PathStart(req) == 8 + |host| + |d|
    ensures FindLast(req.req[..PathStart(req)], ':') == 7 + |host|
  {
    hide FindLast;
    hide PathStart;
    Slices(SCHEME, host, d, path, |SCHEME + host + ":" + d|);
    PathStartIs(req, host + ":" + d, path);
    FindLastIs(SCHEME + host, ':', d);
  }

  /** The parts of an absolute target. */
  predicate Parts(target: string, authority: string, path: string)
  {
    && target == SCHEME + authority + path
    && '/' !in authority && (path == [] || path[0] == '/')
  }

  lemma PartsAbsolute(req: Request, authority: string, path: string)
    requires Parts(req.req, authority, path)
    ensures Absolute(req) && PathStart(req) == 7 + |authority|
  {
    hide PathStart;
    assert req.req[0..7] == SCHEME;
    PathStartIs(req, authority, path);
  }

  /** Every absolute target has such parts. */
  lemma AbsoluteHasParts(req: Request) returns (authority: string, path: string)
    requires Absolute(req)
    ensures Parts(req.req, authority, path)
  {
    var s := req.req;
    var p := PathStart(req);
    authority, path := s[7..p], s[p..];
    assert s == s[0..7] + authority + path;
    forall i | 7 <= i < p ensures s[i] != '/' {
      assert !At(s, i, "/");
      assert s[i..i + 1] == [s[i]];
    }
    if p < |s| {
      assert s[p..p + 1] == "/";
      assert path[0] == s[p];
    }
  }

  /** The origin form is the path, or a slash. */
  lemma TargetIsPath(req: Request, authority: string, path: string)
    requires Parts(req.req, authority, path)
    ensures Absolute(req) && Target(req) == if path == [] then "/" else path
  {
    PartsAbsolute(req, authority, path);
    hide PathStart;
    hide Absolute;
    assert req.req[7 + |authority|..] == path;
  }

  // ---------------------------------------------------------------------------
  // The host

  /** Brackets around an IPv6 address are taken off; nothing else is changed. */
  lemma BracketsExactly(x: string, host: string)
    ensures StripBrackets("[" + x + "]") == x
    ensures |host| < 2 || host[0] != '[' || host[|host| - 1] != ']' ==> StripBrackets(host) == host
  {
    assert ("[" + x + "]")[1..|x| + 1] == x;
  }

  /** No colon behind the scheme's. */
  lemma PlainAuthority(req: Request, authority: string, path: string)
    requires Parts(req.req, authority, path) && ':' !in authority
    ensures Absolute(req) && PathStart(req) == 7 + |authority|
    ensures FindLast(req.req[..PathStart(req)], ':') == 4
  {
    hide FindLast;
    hide PathStart;
    PartsAbsolute(req, authority, path);
    var before := "http";
    assert req.req[..7 + |authority|] == before + [':'] + ("//" + authority);
    FindLastIs(before, ':', "//" + authority);
  }

  /** Without a colon the host is the authority, without brackets around it. */
  lemma HostIsAuthority(req: Request, authority: string, path: string)
    requires Parts(req.req, authority, path) && ':' !in authority
    ensures Absolute(req) && Host(req) == StripBrackets(authority)
  {
    hide FindLast;
    hide PathStart;
    hide Absolute;
    hide StripBrackets;
    PlainAuthority(req, authority, path);
    assert req.req[7..7 + |authority|] == authority;
  }

  /** With one, the host is what precedes the last colon, without brackets around
      it; but if nothing precedes it, the host is the whole authority. */
  lemma HostBeforePort(req: Request, host: string, port: string, path: string)
    requires Parts(req.req, host + ":" + port, path) && ':' !in port
    ensures Absolute(req)
    ensures Host(req) == if host == [] then StripBrackets(":" + port) else StripBrackets(host)
  {
    hide FindLast;
    hide PathStart;
    hide Absolute;
    hide StripBrackets;
    var authority := host + ":" + port;
    assert req.req == SCHEME + host + ":" + port + path;
    AuthorityParts(req, host, port, path);
    assert req.req[7..7 + |host|] == host;
    assert req.req[7..7 + |authority|] == authority;
    assert host == [] ==> authority == ":" + port;
  }
}
