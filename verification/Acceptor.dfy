/** The listening socket (src/acceptor.cpp): pairing accept calls with incoming
    connections. */
module AcceptorSpec {
  import opened Options

  /** A connection attempt, by number. */
  type Conn = nat

  /** A posted accept handler: with the connection it was given, or aborted. */
  datatype Completion = Completion(token: nat, conn: Option<Conn>)

  datatype Dealt = Taken(conn: Conn) | Refused(conn: Conn)

  /** `into` says whether the pointer to the socket to accept into is set.
      `fault` stands for following it when it is null; `remote` says whether the
      pointer to the endpoint to fill in is set.  `posts`, `syns`, `dealt`, `waits`
      (handlers registered), `kinds` (how each of them was) and `filled` (those
      whose endpoint was filled in) are history. */
  datatype State = State(
    open: bool,
    handler: Option<nat>,
    handler2: Option<nat>,
    into: bool,
    remote: bool,
    backlog: seq<Conn>,
    posts: seq<Completion>,
    syns: seq<Conn>,
    dealt: seq<Dealt>,
    waits: nat,
    kinds: seq<Kind>,
    filled: seq<nat>,
    fault: bool)

  /** The three overloads of `async_accept`. */
  datatype Kind = IntoPeer | IntoPeerWithEndpoint | NewSocket

  function Closed(): (s: State)
  {
    State(false, None, None, false, false, [], [], [], [], 0, [], [], false)
  }

  function Abort(s: State): (r: State)
  {
    s.(handler := None, handler2 := None,
       posts := s.posts
         + (if s.handler.Some? then [Completion(s.handler.value, None)] else [])
         + (if s.handler2.Some? then [Completion(s.handler2.value, None)] else []))
  }

  function RefuseAll(backlog: seq<Conn>): (r: seq<Dealt>)
    ensures |r| == |backlog|
    ensures forall i :: 0 <= i < |backlog| ==> r[i] == Refused(backlog[i])
  {
    seq(|backlog|, i requires 0 <= i < |backlog| => Refused(backlog[i]))
  }

  /** What a closed acceptor does with what it still holds. */
  function Shed(s: State): (r: State)
  {
    var pending := s.handler.Some? || s.handler2.Some?;
    Abort(s).(backlog := [], dealt := s.dealt + RefuseAll(s.backlog),
              into := s.into && !pending, remote := s.remote && !pending)
  }

  /** The pending handler. */
  function Pending(s: State): (r: seq<nat>)
  {
    if s.handler.Some? then [s.handler.value] else if s.handler2.Some? then [s.handler2.value] else []
  }

  /** Pair the pending handler with the oldest connection attempt. */
  function Take(s: State): (r: State)
    requires s.backlog != []
  {
    var c := s.backlog[0];
    var done := s.(backlog := s.backlog[1..], dealt := s.dealt + [Taken(c)], into := false, remote := false,
                   filled := if s.remote then s.filled + Pending(s) else s.filled, fault := s.fault || !s.into);
    if s.handler.Some? then
      done.(handler := None, posts := s.posts + [Completion(s.handler.value, Some(c))])
    else if s.handler2.Some? then
      done.(handler2 := None, posts := s.posts + [Completion(s.handler2.value, Some(c))])
    else done
  }

  function CheckQueue(s: State): (r: State)
  {
    var s1 := if s.open then s else Shed(s);
    if s1.handler.None? && s1.handler2.None? then s1
    else if s1.backlog == [] then s1
    else Take(s1)
  }

  /** A new accept call aborts a pending one. */
  function AsyncAccept(s: State, kind: Kind): (r: State)
  {
    var a := Abort(s).(into := true, remote := kind.IntoPeerWithEndpoint?, waits := s.waits + 1,
                      kinds := s.kinds + [kind]);
    CheckQueue(if kind.NewSocket? then a.(handler2 := Some(s.waits)) else a.(handler := Some(s.waits)))
  }

  /** A SYN arrives; a closed acceptor is not reached any more. */
  function Syn(s: State, c: Conn): (r: State)
  {
    if !s.open then s
    else CheckQueue(s.(backlog := s.backlog + [c], syns := s.syns + [c]))
  }
}

module Acceptors {
  import opened AcceptorSpec
  import opened Options

  class Acceptor {
    var open: bool
    var handler: Option<nat>
    var handler2: Option<nat>
    var into: bool
    var remote: bool
    var backlog: seq<Conn>
    var waits: nat
    ghost var posts: seq<Completion>
    ghost var syns: seq<Conn>
    ghost var dealt: seq<Dealt>
    ghost var kinds: seq<Kind>
    ghost var filled: seq<nat>
    ghost var fault: bool

    ghost function View(): (s: State)
      reads this
    {
      State(open, handler, handler2, into, remote, backlog, posts, syns, dealt, waits, kinds, filled, fault)
    }

    constructor ()
      ensures View() == Closed()
    {
      open, handler, handler2, into, remote, backlog, waits := false, None, None, false, false, [], 0;
      posts, syns, dealt, kinds, filled, fault := [], [], [], [], [], false;
    }

    method AbortHandlers()
      modifies this`handler, this`handler2, this`posts
      ensures View() == Abort(old(View()))
    {
      if handler.Some? {
        posts := posts + [Completion(handler.value, None)];
        handler := None;
      }
      if handler2.Some? {
        posts := posts + [Completion(handler2.value, None)];
        handler2 := None;
      }
    }

    method Cancel()
      modifies this`handler, this`handler2, this`posts
      ensures View() == Abort(old(View()))
    {
      AbortHandlers();
    }

    /** `close(ec)`; the overload without an argument only aborts handlers, like
        `Cancel`, and leaves the acceptor open. */
    method Close()
      modifies this`open, this`handler, this`handler2, this`posts
      ensures View() == Abort(old(View())).(open := false)
    {
      AbortHandlers();
      open := false;
    }

    method Open()
      modifies this`open
      ensures View() == old(View()).(open := true)
    {
      open := true;
    }

    method AsyncAccept(kind: Kind) returns (token: nat)
      modifies this
      ensures token == old(waits)
      ensures View() == AcceptorSpec.AsyncAccept(old(View()), kind)
    {
      hide CheckQueue;
      AbortHandlers();
      token := waits;
      waits := waits + 1;
      kinds := kinds + [kind];
      if kind.NewSocket? { handler2 := Some(token); } else { handler := Some(token); }
      into, remote := true, kind.IntoPeerWithEndpoint?;
      CheckAcceptQueue();
    }

    method IncomingSyn(c: Conn)
      requires open
      modifies this
      ensures View() == AcceptorSpec.Syn(old(View()), c)
    {
      hide CheckQueue;
      backlog := backlog + [c];
      syns := syns + [c];
      CheckAcceptQueue();
    }

    method CheckAcceptQueue()
      modifies this
      ensures View() == CheckQueue(old(View()))
    {
      if !open {
        ShedBacklog();
      }
      if handler.None? && handler2.None? { return; }
      if backlog == [] { return; }
      TakeFirst();
    }

    method ShedBacklog()
      modifies this
      ensures View() == Shed(old(View()))
    {
      dealt := dealt + RefuseAll(backlog);
      backlog := [];
      if handler.Some? || handler2.Some? {
        into, remote := false, false;
      }
      AbortHandlers();
    }

    method TakeFirst()
      requires backlog != []
      modifies this
      ensures View() == Take(old(View()))
    {
      var c := backlog[0];
      FillEndpoint();
      UnqueueFirst();
      Complete(c);
    }

    /** The endpoint of the peer is stored where the accept call said. */
    method FillEndpoint()
      modifies this`remote, this`filled
      ensures var s := old(View());
              View() == s.(remote := false, filled := if s.remote then s.filled + Pending(s) else s.filled)
    {
      if remote {
        filled := filled + Pending(View());
      }
      remote := false;
    }

    /** The oldest attempt is connected to the socket to accept into. */
    method UnqueueFirst()
      requires backlog != []
      modifies this`backlog, this`dealt, this`into, this`fault
      ensures var s := old(View());
              View() == s.(backlog := s.backlog[1..], dealt := s.dealt + [Taken(s.backlog[0])], into := false,
                           fault := s.fault || !s.into)
    {
      dealt := dealt + [Taken(backlog[0])];
      backlog := backlog[1..];
      fault := fault || !into;
      into := false;
    }

    /** Post the pending handler. */
    method Complete(c: Conn)
      modifies this`handler, this`handler2, this`posts
      ensures var s := old(View());
              View() ==
              if s.handler.Some? then s.(handler := None, posts := s.posts + [Completion(s.handler.value, Some(c))])
              else if s.handler2.Some? then s.(handler2 := None, posts := s.posts + [Completion(s.handler2.value, Some(c))])
              else s
    {
      if handler.Some? {
        posts := posts + [Completion(handler.value, Some(c))];
        handler := None;
      } else if handler2.Some? {
        posts := posts + [Completion(handler2.value, Some(c))];
        handler2 := None;
      }
    }
  }
}

/** What every run of an acceptor guarantees. */
module AcceptorRuns {
  import opened AcceptorSpec
  import opened Options

  datatype Op = Accept(kind: Kind) | SynArrives(conn: Conn) | CancelAccept | CloseAcceptor | AbortingClose | Reopen

  function Apply(s: State, op: Op): (r: State)
  {
    match op
    case Accept(kind) => AsyncAccept(s, kind)
    case SynArrives(c) => Syn(s, c)
    case CancelAccept => Abort(s)
    case CloseAcceptor => Abort(s).(open := false)
    case AbortingClose => Abort(s)
    case Reopen => s.(open := true)
  }

  function Exec(ops: seq<Op>): (r: State)
  {
    if ops == [] then Closed() else Apply(Exec(ops[..|ops| - 1]), ops[|ops| - 1])
  }

  /** The connections given to handlers, in the order the handlers were posted. */
  function Accepted(posts: seq<Completion>): (r: seq<Conn>)
  {
    if posts == [] then []
    else Accepted(posts[..|posts| - 1]) + (if posts[|posts| - 1].conn.Some? then [posts[|posts| - 1].conn.value] else [])
  }

  function TakenOf(dealt: seq<Dealt>): (r: seq<Conn>)
  {
    if dealt == [] then []
    else TakenOf(dealt[..|dealt| - 1]) + (if dealt[|dealt| - 1].Taken? then [dealt[|dealt| - 1].conn] else [])
  }

  function Conns(dealt: seq<Dealt>): (r: seq<Conn>)
    ensures |r| == |dealt|
    ensures forall i :: 0 <= i < |dealt| ==> r[i] == dealt[i].conn
  {
    seq(|dealt|, i requires 0 <= i < |dealt| => dealt[i].conn)
  }

  predicate IsPending(s: State)
  {
    s.handler.Some? || s.handler2.Some?
  }

  /** A pending accept and a waiting connection never coexist. */
  predicate NeverBoth(s: State)
  {
    && !(s.handler.Some? && s.handler2.Some?)
    && (IsPending(s) ==> s.into && s.open && s.backlog == [])
    && !s.fault
  }

  ghost predicate Paired(posts: seq<Completion>, dealt: seq<Dealt>, backlog: seq<Conn>, syns: seq<Conn>)
  {
    && Accepted(posts) == TakenOf(dealt)
    && Conns(dealt) + backlog == syns
  }

  /** Handlers are numbered as they are registered; each was posted exactly once
      or is pending. */
  ghost predicate Once(handler: Option<nat>, handler2: Option<nat>, posts: seq<Completion>, waits: nat)
  {
    && (forall i :: 0 <= i < |posts| ==> posts[i].token < waits)
    && (forall i, j :: 0 <= i < j < |posts| ==> posts[i].token != posts[j].token)
    && (handler.Some? ==> handler.value < waits && forall i :: 0 <= i < |posts| ==> posts[i].token != handler.value)
    && (handler2.Some? ==> handler2.value < waits && forall i :: 0 <= i < |posts| ==> posts[i].token != handler2.value)
    && (forall k: nat :: k < waits ==> handler == Some(k) || handler2 == Some(k) || Posted(posts, k))
  }

  ghost predicate Posted(posts: seq<Completion>, k: nat)
  {
    exists i :: 0 <= i < |posts| && posts[i].token == k
  }

  ghost predicate Inv(s: State)
  {
    && NeverBoth(s)
    && Paired(s.posts, s.dealt, s.backlog, s.syns)
    && Once(s.handler, s.handler2, s.posts, s.waits)
  }

  lemma AcceptedSnoc(posts: seq<Completion>, c: Completion)
    ensures Accepted(posts + [c]) == Accepted(posts) + (if c.conn.Some? then [c.conn.value] else [])
  {
    assert (posts + [c])[..|posts|] == posts;
  }

  lemma {:induction false} TakenRefused(dealt: seq<Dealt>, backlog: seq<Conn>)
    ensures TakenOf(dealt + RefuseAll(backlog)) == TakenOf(dealt)
    ensures Conns(dealt + RefuseAll(backlog)) == Conns(dealt) + backlog
  {
    if backlog == [] {
      assert dealt + RefuseAll(backlog) == dealt;
    } else {
      var m := |backlog| - 1;
      TakenRefused(dealt, backlog[..m]);
      assert (dealt + RefuseAll(backlog))[..|dealt| + m] == dealt + RefuseAll(backlog[..m]);
    }
  }

  lemma PostOnce(handler: Option<nat>, handler2: Option<nat>, posts: seq<Completion>, waits: nat, conn: Option<Conn>)
    requires Once(handler, handler2, posts, waits) && !(handler.Some? && handler2.Some?)
    ensures handler.Some? ==> Once(None, handler2, posts + [Completion(handler.value, conn)], waits)
    ensures handler2.Some? ==> Once(handler, None, posts + [Completion(handler2.value, conn)], waits)
  {
    forall c: Completion, k: nat | Posted(posts, k) ensures Posted(posts + [c], k) {
      var i :| 0 <= i < |posts| && posts[i].token == k;
      assert (posts + [c])[i].token == k;
    }
    forall c: Completion ensures Posted(posts + [c], c.token) {
      assert (posts + [c])[|posts|].token == c.token;
    }
  }

  lemma AbortKeeps(s: State)
    requires Inv(s)
    ensures Inv(Abort(s)) && !IsPending(Abort(s))
  {
    PostOnce(s.handler, s.handler2, s.posts, s.waits, None);
    assert s.posts + [] == s.posts;
    if s.handler.Some? {
      AcceptedSnoc(s.posts, Completion(s.handler.value, None));
      assert s.posts + [Completion(s.handler.value, None)] + [] == s.posts + [Completion(s.handler.value, None)];
    } else if s.handler2.Some? {
      AcceptedSnoc(s.posts, Completion(s.handler2.value, None));
    }
    assert Accepted(s.posts) + [] == Accepted(s.posts);
    hide Once;
    hide Accepted;
  }

  lemma TakePaired(s: State, token: nat)
    requires Paired(s.posts, s.dealt, s.backlog, s.syns) && s.backlog != []
    ensures var c := s.backlog[0];
            Paired(s.posts + [Completion(token, Some(c))], s.dealt + [Taken(c)], s.backlog[1..], s.syns)
  {
    var c := s.backlog[0];
    AcceptedSnoc(s.posts, Completion(token, Some(c)));
    var dealt := s.dealt + [Taken(c)];
    assert dealt[..|s.dealt|] == s.dealt;
    assert Conns(dealt) == Conns(s.dealt) + [c];
    assert Conns(s.dealt) + [c] + s.backlog[1..] == Conns(s.dealt) + s.backlog;
  }

  lemma TakeKeeps(s: State)
    requires Once(s.handler, s.handler2, s.posts, s.waits) && Paired(s.posts, s.dealt, s.backlog, s.syns)
    requires IsPending(s) && !(s.handler.Some? && s.handler2.Some?) && s.into && s.backlog != [] && !s.fault
    ensures Inv(Take(s))
  {
    hide Once;
    hide Paired;
    PostOnce(s.handler, s.handler2, s.posts, s.waits, Some(s.backlog[0]));
    TakePaired(s, if s.handler.Some? then s.handler.value else s.handler2.value);
  }

  lemma RegisterOnce(posts: seq<Completion>, waits: nat)
    requires Once(None, None, posts, waits)
    ensures Once(Some(waits), None, posts, waits + 1) && Once(None, Some(waits), posts, waits + 1)
  {
  }

  lemma ShedKeeps(s: State)
    requires Once(s.handler, s.handler2, s.posts, s.waits) && Paired(s.posts, s.dealt, s.backlog, s.syns)
    requires !(s.handler.Some? && s.handler2.Some?) && !s.fault
    ensures Inv(Shed(s)) && !IsPending(Shed(s))
  {
    TakenRefused(s.dealt, s.backlog);
    assert s.syns + [] == s.syns;
    var t := s.(backlog := [], dealt := s.dealt + RefuseAll(s.backlog), into := true, open := true);
    assert Inv(t);
    AbortKeeps(t);
    hide Once;
    hide Accepted;
    hide TakenOf;
    hide Conns;
  }

  /** The new handler is registered. */
  lemma RegisterKeeps(s: State, kind: Kind)
    requires Inv(s) && !IsPending(s)
    ensures var a := s.(into := true, remote := kind.IntoPeerWithEndpoint?, waits := s.waits + 1,
                  kinds := s.kinds + [kind]);
            var b := if kind.NewSocket? then a.(handler2 := Some(s.waits)) else a.(handler := Some(s.waits));
            Once(b.handler, b.handler2, b.posts, b.waits)
  {
    hide Once;
    hide Paired;
    assert s.handler == None && s.handler2 == None;
    RegisterOnce(s.posts, s.waits);
  }

  lemma AcceptKeeps(s: State, kind: Kind)
    requires Inv(s)
    ensures Inv(AsyncAccept(s, kind))
  {
    hide Once;
    hide Paired;
    AbortKeeps(s);
    RegisterKeeps(Abort(s), kind);
    var a := Abort(s).(into := true, remote := kind.IntoPeerWithEndpoint?, waits := s.waits + 1,
                       kinds := s.kinds + [kind]);
    var b := if kind.NewSocket? then a.(handler2 := Some(s.waits)) else a.(handler := Some(s.waits));
    if !b.open {
      ShedKeeps(b);
    } else if b.backlog != [] {
      TakeKeeps(b);
    }
  }

  lemma SynKeeps(s: State, c: Conn)
    requires Inv(s)
    ensures Inv(Syn(s, c))
  {
    var t := s.(backlog := s.backlog + [c], syns := s.syns + [c]);
    assert Conns(s.dealt) + (s.backlog + [c]) == Conns(s.dealt) + s.backlog + [c];
    assert Paired(t.posts, t.dealt, t.backlog, t.syns);
    hide Once;
    hide Paired;
    if s.open && IsPending(s) {
      TakeKeeps(t);
    }
  }

  lemma {:induction false} ExecKeeps(ops: seq<Op>)
    ensures Inv(Exec(ops))
  {
    hide Inv;
    if ops == [] {
      assert Inv(Closed()) by { ClosedInv(); }
    } else {
      var s := Exec(ops[..|ops| - 1]);
      ExecKeeps(ops[..|ops| - 1]);
      AbortKeeps(s);
      CloseKeeps(Abort(s));
      match ops[|ops| - 1]
      case Accept(kind) => AcceptKeeps(s, kind);
      case SynArrives(c) => SynKeeps(s, c);
      case CancelAccept =>
      case CloseAcceptor =>
      case AbortingClose =>
      case Reopen => ReopenKeeps(s);
    }
  }

  lemma ClosedInv()
    ensures Inv(Closed())
  {
    assert Conns([]) == [];
  }

  lemma CloseKeeps(s: State)
    requires Inv(s)
    ensures !IsPending(s) ==> Inv(s.(open := false))
  {
    hide Once;
    hide Paired;
  }

  lemma ReopenKeeps(s: State)
    requires Inv(s)
    ensures Inv(s.(open := true))
  {
    hide Once;
    hide Paired;
  }

  /** In every run a pending accept and a waiting connection never coexist, at
      most one accept is pending, and the socket to accept into is set whenever
      it is used. */
  lemma PendingExcludesBacklog(ops: seq<Op>)
    ensures var s := Exec(ops);
            && (s.handler.Some? || s.handler2.Some? ==> s.backlog == [] && s.open && s.into)
            && !(s.handler.Some? && s.handler2.Some?)
            && !s.fault
  {
    ExecKeeps(ops);
  }

  predicate NoneRefused(dealt: seq<Dealt>)
  {
    forall i :: 0 <= i < |dealt| ==> dealt[i].Taken?
  }

  lemma {:induction false} TakenCount(dealt: seq<Dealt>)
    ensures |TakenOf(dealt)| <= |dealt|
    ensures |TakenOf(dealt)| == |dealt| <==> NoneRefused(dealt)
    ensures NoneRefused(dealt) ==> TakenOf(dealt) == Conns(dealt)
  {
    if dealt != [] {
      var m := |dealt| - 1;
      TakenCount(dealt[..m]);
      assert NoneRefused(dealt) <==> NoneRefused(dealt[..m]) && dealt[m].Taken? by {
        assert forall i :: 0 <= i < m ==> dealt[..m][i] == dealt[i];
      }
    }
  }

  /** Connection attempts are dealt with in the order of their SYNs: those that
      were taken or refused, then the backlog.  The handlers that got a
      connection got the taken ones in that order.  So the SYNs are the
      connections given to handlers followed by the backlog, and the k-th such
      handler has the k-th SYN, if and only if a closed acceptor refused none. */
  lemma PairsInOrder(ops: seq<Op>)
    ensures var s := Exec(ops);
            && Accepted(s.posts) == TakenOf(s.dealt)
            && Conns(s.dealt) + s.backlog == s.syns
            && (NoneRefused(s.dealt) <==> Accepted(s.posts) + s.backlog == s.syns)
  {
    ExecKeeps(ops);
    var s := Exec(ops);
    TakenCount(s.dealt);
    hide Accepted;
    hide TakenOf;
    hide NoneRefused;
    hide Once;
    if Accepted(s.posts) + s.backlog == s.syns {
      assert |Accepted(s.posts)| + |s.backlog| == |s.syns| == |s.dealt| + |s.backlog|;
    }
  }

  /** Refusals happen: an attempt waits when the acceptor closes, and the next
      accept call refuses it and is aborted itself. */
  lemma ClosedRefuses(c: Conn)
    ensures var s := Exec([Reopen, SynArrives(c), CloseAcceptor, Accept(IntoPeer)]);
            && s.syns == [c] && s.dealt == [Refused(c)] && s.backlog == []
            && s.posts == [Completion(0, None)] && Accepted(s.posts) == []
  {
    var ops := [Reopen, SynArrives(c), CloseAcceptor, Accept(IntoPeer)];
    assert ops[..3] == [ops[0], ops[1], ops[2]] && ops[..3][..2] == [ops[0], ops[1]];
    assert ops[..3][..2][..1] == [ops[0]] && [ops[0]][..0] == [];
    assert Exec([]) == Closed();
    assert Exec([ops[0]]) == Closed().(open := true);
    var waiting := Closed().(open := true, backlog := [c], syns := [c]);
    assert Exec([ops[0], ops[1]]) == waiting;
    assert Exec(ops[..3]) == waiting.(open := false);
    assert RefuseAll([c]) == [Refused(c)];
    AcceptedSnoc([], Completion(0, None));
  }

  /** Every accept handler is posted at most once, and if it was not posted it is
      the pending one. */
  lemma HandlersOnce(ops: seq<Op>)
    ensures var s := Exec(ops);
            && (forall i, j :: 0 <= i < j < |s.posts| ==> s.posts[i].token != s.posts[j].token)
            && (forall k: nat :: k < s.waits ==> s.handler == Some(k) || s.handler2 == Some(k) || Posted(s.posts, k))
            && (s.handler.Some? ==> !Posted(s.posts, s.handler.value))
            && (s.handler2.Some? ==> !Posted(s.posts, s.handler2.value))
  {
    ExecKeeps(ops);
  }

  // ---------------------------------------------------------------------------
  // The endpoint of the peer

  /** The pending handler is in the slot of its kind, and its endpoint pointer is
      set if it gave one. */
  predicate RightSlot(s: State)
  {
    && |s.kinds| == s.waits
    && (s.handler.Some? ==>
          && s.handler.value < s.waits && !s.kinds[s.handler.value].NewSocket?
          && s.remote == s.kinds[s.handler.value].IntoPeerWithEndpoint?)
    && (s.handler2.Some? ==>
          s.handler2.value < s.waits && s.kinds[s.handler2.value].NewSocket? && !s.remote)
  }

  /** The accept was given a connection and had given an endpoint to fill in. */
  ghost predicate Wanted(posts: seq<Completion>, kinds: seq<Kind>, k: nat)
  {
    && k < |kinds| && kinds[k].IntoPeerWithEndpoint?
    && exists i :: 0 <= i < |posts| && posts[i].token == k && posts[i].conn.Some?
  }

  ghost predicate FilledOk(posts: seq<Completion>, kinds: seq<Kind>, filled: seq<nat>)
  {
    forall k: nat :: k in filled <==> Wanted(posts, kinds, k)
  }

  ghost predicate Endpoints(s: State)
  {
    !(s.handler.Some? && s.handler2.Some?) && RightSlot(s) && FilledOk(s.posts, s.kinds, s.filled)
  }

  /** One more post. */
  lemma PostFilled(posts: seq<Completion>, kinds: seq<Kind>, filled: seq<nat>, c: Completion)
    requires FilledOk(posts, kinds, filled) && c.token < |kinds|
    ensures var fill := c.conn.Some? && kinds[c.token].IntoPeerWithEndpoint?;
            FilledOk(posts + [c], kinds, if fill then filled + [c.token] else filled)
  {
    var all := posts + [c];
    forall k: nat
      ensures Wanted(all, kinds, k) <==>
              Wanted(posts, kinds, k) || (k == c.token && c.conn.Some? && kinds[k].IntoPeerWithEndpoint?)
    {
      if Wanted(posts, kinds, k) {
        var i :| 0 <= i < |posts| && posts[i].token == k && posts[i].conn.Some?;
        assert all[i].token == k && all[i].conn.Some?;
      }
      if k == c.token && c.conn.Some? && kinds[k].IntoPeerWithEndpoint? {
        assert all[|posts|].token == k && all[|posts|].conn.Some?;
      }
    }
    hide Wanted;
  }

  lemma KindFilled(posts: seq<Completion>, kinds: seq<Kind>, filled: seq<nat>, kind: Kind)
    requires FilledOk(posts, kinds, filled) && forall i :: 0 <= i < |posts| ==> posts[i].token < |kinds|
    ensures FilledOk(posts, kinds + [kind], filled)
  {
    forall k: nat ensures Wanted(posts, kinds + [kind], k) <==> Wanted(posts, kinds, k) {
    }
    hide Wanted;
  }

  lemma AbortEndpoints(s: State)
    requires Endpoints(s)
    ensures Endpoints(Abort(s)) && !IsPending(Abort(s))
  {
    hide FilledOk;
    assert s.posts + [] == s.posts;
    if s.handler.Some? {
      var c := Completion(s.handler.value, None);
      PostFilled(s.posts, s.kinds, s.filled, c);
      assert s.posts + [c] + [] == s.posts + [c];
    } else if s.handler2.Some? {
      PostFilled(s.posts, s.kinds, s.filled, Completion(s.handler2.value, None));
    }
  }

  lemma TakeEndpoints(s: State)
    requires Endpoints(s) && IsPending(s) && s.backlog != []
    ensures Endpoints(Take(s))
  {
    hide FilledOk;
    var token := if s.handler.Some? then s.handler.value else s.handler2.value;
    PostFilled(s.posts, s.kinds, s.filled, Completion(token, Some(s.backlog[0])));
  }

  lemma ShedEndpoints(s: State)
    requires Endpoints(s)
    ensures Endpoints(Shed(s)) && !IsPending(Shed(s))
  {
    hide FilledOk;
    AbortEndpoints(s);
  }

  lemma CheckEndpoints(s: State)
    requires Endpoints(s)
    ensures Endpoints(CheckQueue(s))
  {
    ShedEndpoints(s);
    if s.open && IsPending(s) && s.backlog != [] {
      TakeEndpoints(s);
    }
    hide Endpoints;
  }

  lemma AcceptEndpoints(s: State, kind: Kind)
    requires Endpoints(s) && forall i :: 0 <= i < |s.posts| ==> s.posts[i].token < s.waits
    ensures Endpoints(AsyncAccept(s, kind))
  {
    hide FilledOk;
    hide CheckQueue;
    AbortEndpoints(s);
    var q := Abort(s);
    KindFilled(q.posts, q.kinds, q.filled, kind);
    var a := q.(into := true, remote := kind.IntoPeerWithEndpoint?, waits := s.waits + 1, kinds := s.kinds + [kind]);
    CheckEndpoints(if kind.NewSocket? then a.(handler2 := Some(s.waits)) else a.(handler := Some(s.waits)));
  }

  lemma {:induction false} ExecEndpoints(ops: seq<Op>)
    ensures Endpoints(Exec(ops))
  {
    hide Endpoints;
    hide Abort;
    if ops == [] {
      assert Endpoints(Closed()) by { NoEndpoints(); }
    } else {
      var s, op := Exec(ops[..|ops| - 1]), ops[|ops| - 1];
      ExecEndpoints(ops[..|ops| - 1]);
      AbortEndpoints(s);
      SameEndpoints(s, s.(open := true));
      SameEndpoints(Abort(s), Abort(s).(open := false));
      match op
      case Accept(kind) =>
        ExecKeeps(ops[..|ops| - 1]);
        AcceptEndpoints(s, kind);
      case SynArrives(c) =>
        var t := s.(backlog := s.backlog + [c], syns := s.syns + [c]);
        SameEndpoints(s, t);
        CheckEndpoints(t);
      case _ =>
    }
  }

  lemma NoEndpoints()
    ensures Endpoints(Closed())
  {
  }

  lemma SameEndpoints(s: State, r: State)
    requires Endpoints(s)
    requires r.handler == s.handler && r.handler2 == s.handler2 && r.remote == s.remote
    requires r.waits == s.waits && r.kinds == s.kinds && r.posts == s.posts && r.filled == s.filled
    ensures Endpoints(r)
  {
    hide FilledOk;
  }

  /** In every run the endpoint of an accept call is filled in if and only if the
      call gave one and its handler was given a connection. */
  lemma EndpointFilledExactly(ops: seq<Op>, k: nat)
    ensures var s := Exec(ops);
            && |s.kinds| == s.waits
            && (k in s.filled <==>
                  && k < s.waits && s.kinds[k].IntoPeerWithEndpoint?
                  && exists i :: 0 <= i < |s.posts| && s.posts[i].token == k && s.posts[i].conn.Some?)
  {
    hide Exec;
    ExecEndpoints(ops);
    var s := Exec(ops);
    assert k in s.filled <==> Wanted(s.posts, s.kinds, k);
  }
}
