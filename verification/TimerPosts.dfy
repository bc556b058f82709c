/** Which handlers the timers post, and with which result. */
module TimerPosts {
  import opened EventLoop
  import opened Options
  import opened Sequences
  import opened TimerFacts
  import opened TimerSpec

  /** The posts for the handlers of some timers, in their order. */
  function HandlerPosts<T>(queue: seq<T>, recs: map<T, Rec>, aborted: bool): (r: seq<Post>)
    requires Known(queue, recs)
  {
    if queue == [] then []
    else
      var h := recs[queue[0]].handler;
      (if h.Some? then [Post(h.value, aborted)] else []) + HandlerPosts(queue[1..], recs, aborted)
  }

  lemma {:induction false} SamePosts<T>(queue: seq<T>, recs: map<T, Rec>, recs': map<T, Rec>, aborted: bool)
    requires Known(queue, recs) && Known(queue, recs')
    requires forall i :: 0 <= i < |queue| ==> recs'[queue[i]].handler == recs[queue[i]].handler
    ensures HandlerPosts(queue, recs', aborted) == HandlerPosts(queue, recs, aborted)
  {
    if queue != [] { SamePosts(queue[1..], recs, recs', aborted); }
  }

  /** One more step: `r` has posted, after `s`, exactly `more`. */
  predicate Posts<T(==)>(s: State<T>, r: State<T>, more: seq<Post>)
  {
    r.posts == s.posts + more && r.ready == s.ready + more
  }

  lemma PostsTwice<T>(s: State<T>, q: State<T>, r: State<T>, a: seq<Post>, b: seq<Post>)
    requires Posts(s, q, a) && Posts(q, r, b)
    ensures Posts(s, r, a + b)
  {
    assert s.posts + a + b == s.posts + (a + b);
    assert s.ready + a + b == s.ready + (a + b);
  }

  // ---------------------------------------------------------------------------
  // Expiry means success

  lemma FireFirstPosts<T>(s: State<T>)
    requires Structure(s) && s.queue != []
    ensures var r := FireFirst(s);
            && Posts(s, r, HandlerPosts(s.queue[..1], s.recs, false))
            && r.queue == s.queue[1..]
            && (forall i :: 1 <= i < |s.queue| ==> s.queue[i] in r.recs && r.recs[s.queue[i]] == s.recs[s.queue[i]])
  {
    FireFirstKeeps(s);
    var t := s.queue[0];
    assert s.queue[..1][0] == t && s.queue[..1][1..] == [];
    assert HandlerPosts<T>([], s.recs, false) == [];
    forall i | 1 <= i < |s.queue| ensures s.queue[i] != t {
      assert s.queue[1..][i - 1] == s.queue[i];
    }
  }

  lemma PostsNone<T>(s: State<T>, r: State<T>)
    requires Known(s.queue, s.recs) && r.posts == s.posts && r.ready == s.ready
    ensures Posts(s, r, HandlerPosts(s.queue[..0], s.recs, false))
  {
    assert s.queue[..0] == [] && HandlerPosts<T>([], s.recs, false) == [];
    assert s.posts + [] == s.posts && s.ready + [] == s.ready;
  }

  lemma {:induction false} FireDuePosts<T>(s: State<T>)
    requires Known(s.queue, s.recs) && Structure(s)
    ensures var r := FireDue(s);
            var k := |r.fired| - |s.fired|;
            k <= |s.queue| && Posts(s, r, HandlerPosts(s.queue[..k], s.recs, false))
    decreases |s.queue|, 1
  {
    hide Structure;
    hide Posts;
    hide HandlerPosts;
    if s.queue == [] || s.recs[s.queue[0]].expiry > s.now {
      PostsNone(s, s);
    } else {
      FireDuePostsStep(s);
    }
  }

  lemma FireDueStep<T>(s: State<T>)
    requires Known(s.queue, s.recs) && s.queue != [] && s.recs[s.queue[0]].expiry <= s.now
    ensures FireDue(s) == FireDue(FireFirst(s))
  {
  }

  lemma FireDuePostsStep<T>(s: State<T>)
    requires Known(s.queue, s.recs) && Structure(s) && s.queue != [] && s.recs[s.queue[0]].expiry <= s.now
    ensures var r := FireDue(s);
            var k := |r.fired| - |s.fired|;
            k <= |s.queue| && Posts(s, r, HandlerPosts(s.queue[..k], s.recs, false))
    decreases |s.queue|, 0
  {
    hide Structure;
    hide Posts;
    hide HandlerPosts;
    hide FireFirst;
    hide FireDue;
    var f, r := FireFirst(s), FireDue(s);
    FireDueStep(s);
    var k := |r.fired| - |s.fired|;
    FireFirstKeeps(s);
    FireFirstPosts(s);
    FireDuePosts(f);
    DuePostsHead(s, f, k);
    PostsTwice(s, f, r, HandlerPosts(s.queue[..1], s.recs, false), HandlerPosts(f.queue[..k - 1], f.recs, false));
  }

  lemma DuePostsHead<T>(s: State<T>, f: State<T>, k: nat)
    requires Known(s.queue, s.recs) && Known(f.queue, f.recs) && s.queue != [] && f.queue == s.queue[1..]
    requires 1 <= k <= |s.queue|
    requires forall i :: 1 <= i < |s.queue| ==> s.queue[i] in f.recs && f.recs[s.queue[i]] == s.recs[s.queue[i]]
    ensures HandlerPosts(s.queue[..k], s.recs, false) ==
            HandlerPosts(s.queue[..1], s.recs, false) + HandlerPosts(f.queue[..k - 1], f.recs, false)
  {
    var rest := s.queue[..k][1..];
    assert rest == f.queue[..k - 1];
    SamePosts(rest, s.recs, f.recs, false);
    assert s.queue[..1][0] == s.queue[0] && s.queue[..1][1..] == [];
    assert HandlerPosts<T>([], s.recs, false) == [];
  }

  /** An advance posts, in queue order, exactly one success for each timer that it
      fires and that has a handler. */
  lemma AdvancePostsSuccess<T>(s: State<T>)
    requires Known(s.queue, s.recs) && Structure(s)
    ensures var r := Advance(s);
            var k := |r.fired| - |s.fired|;
            k <= |s.queue| && Posts(s, r, HandlerPosts(s.queue[..k], s.recs, false))
  {
    if s.queue == [] {
      assert s.queue[..0] == [] && HandlerPosts<T>([], s.recs, false) == [];
      assert s.posts + [] == s.posts && s.ready + [] == s.ready;
    } else {
      hide FireDue;
      var s1 := s.(now := s.recs[s.queue[0]].expiry);
      MovedKeeps(s, s1.now);
      FireDuePosts(s1);
    }
  }

  /** A wait on a timer that has expired posts one success at once; on an armed
      timer it keeps the handler. */
  lemma WaitPostsSuccess<T>(s: State<T>, t: T)
    requires t in s.recs
    ensures var r := AsyncWait(s, t);
            && Posts(s, r, if s.recs[t].expired then [Post(s.waits, false)] else [])
            && r.recs[t].handler == (if s.recs[t].expired then None else Some(s.waits))
            && r.waits == s.waits + 1
  {
    assert s.posts + [] == s.posts && s.ready + [] == s.ready;
  }

  // ---------------------------------------------------------------------------
  // Cancelling means abort

  /** The post that cancelling a timer makes. */
  function AbortOf(rec: Rec): (r: seq<Post>)
  {
    if !rec.expired && rec.handler.Some? then [Post(rec.handler.value, true)] else []
  }

  /** Cancelling posts one abort if the timer is armed and has a handler, and
      otherwise nothing; other timers keep theirs. */
  lemma CancelPostsAbort<T>(s: State<T>, t: T)
    requires Known(s.queue, s.recs) && t in s.recs
    ensures var r := Cancel(s, t);
            && Posts(s, r, AbortOf(s.recs[t]))
            && (forall u :: u in s.recs && u != t ==> u in r.recs && r.recs[u] == s.recs[u])
  {
    hide Remove;
    assert s.posts + [] == s.posts && s.ready + [] == s.ready;
  }

  /** Re-arming posts the abort of what was pending and nothing else, and then the
      timer is queued under exactly the expiry that was asked for. */
  lemma RearmPostsAbort<T>(s: State<T>, t: T, expiry: int)
    requires Known(s.queue, s.recs) && Structure(s) && t in s.recs
    ensures var r := ExpiresAt(s, t, expiry);
            && Posts(s, r, AbortOf(s.recs[t]))
            && t in r.queue && t in r.recs
            && r.recs[t].expiry == expiry && !r.recs[t].expired && r.recs[t].stamp == s.arms
            && (forall u :: u in s.recs && u != t ==> u in r.recs && r.recs[u] == s.recs[u])
  {
    CancelPostsAbort(s, t);
    ExpiresAtKeeps(s, t, expiry);
    hide Cancel;
    hide Structure;
    hide Insert;
  }

  /** Cancelling the first timer of the queue. */
  lemma CancelFirst<T>(s: State<T>)
    requires Known(s.queue, s.recs) && Structure(s) && s.queue != []
    ensures var t := s.queue[0];
            var c := Cancel(s, t);
            && Structure(c) && c.queue == s.queue[1..] && Known(s.queue[1..], s.recs)
            && Posts(s, c, AbortOf(s.recs[t])) && !s.recs[t].expired
            && (forall i :: 0 <= i < |c.queue| ==> c.recs[c.queue[i]] == s.recs[c.queue[i]])
  {
    hide SortedQueue;
    hide Stamped;
    hide Remove;
    hide Cancel;
    hide Posts;
    var t := s.queue[0];
    assert t in s.queue;
    RemoveFinds(s.queue, s.recs, 0);
    assert RemoveAt(s.queue, 0) == s.queue[1..];
    CancelKeeps(s, t);
    CancelQueue(s, t);
    CancelPostsAbort(s, t);
    var c := Cancel(s, t);
    forall i | 0 <= i < |c.queue| ensures c.recs[c.queue[i]] == s.recs[c.queue[i]] {
      assert c.queue[i] in c.queue;
    }
  }

  lemma {:induction false} CancelAllPosts<T>(s: State<T>, copy: seq<T>)
    requires Known(s.queue, s.recs) && Structure(s) && copy == s.queue
    ensures Posts(s, CancelAll(s, copy), HandlerPosts(copy, s.recs, true))
    decreases |copy|
  {
    hide Structure;
    hide Cancel;
    if copy == [] {
      assert s.posts + [] == s.posts && s.ready + [] == s.ready;
    } else {
      hide Posts;
      var t := copy[0];
      var c := Cancel(s, t);
      CancelFirst(s);
      CancelAllPosts(c, copy[1..]);
      SamePosts(copy[1..], s.recs, c.recs, true);
      PostsTwice(s, c, CancelAll(s, copy), AbortOf(s.recs[t]), HandlerPosts(copy[1..], c.recs, true));
    }
  }

  /** The exception path posts, in queue order, exactly one abort for each queued
      timer that has a handler, and stops the simulation. */
  lemma UnwindPostsAborts<T>(s: State<T>)
    requires Known(s.queue, s.recs) && Structure(s)
    ensures Posts(s, Unwind(s), HandlerPosts(s.queue, s.recs, true)) && Unwind(s).stopped
  {
    CancelAllPosts(s, s.queue);
    hide CancelAll;
  }

  // ---------------------------------------------------------------------------
  // Over runs

  /** The result of a posted handler, from the arming that it waited for: none if
      the timer had expired. */
  ghost predicate ResultOk(p: Post, waitedOn: seq<Option<nat>>, fired: seq<Fired>, cancelled: seq<nat>)
  {
    p.token < |waitedOn| &&
    match waitedOn[p.token]
    case None => !p.aborted
    case Some(stamp) => if p.aborted then stamp in cancelled else stamp in FiredStamps(fired)
  }

  ghost predicate Results(posts: seq<Post>, waitedOn: seq<Option<nat>>, fired: seq<Fired>, cancelled: seq<nat>)
  {
    forall i :: 0 <= i < |posts| ==> ResultOk(posts[i], waitedOn, fired, cancelled)
  }

  /** A handler that is held waits for the arming under which its timer is queued. */
  ghost predicate HeldOk(rec: Rec, waitedOn: seq<Option<nat>>)
  {
    rec.handler.Some? ==>
      && !rec.expired
      && rec.handler.value < |waitedOn| && waitedOn[rec.handler.value] == Some(rec.stamp)
  }

  ghost predicate HeldAll<T>(recs: map<T, Rec>, waitedOn: seq<Option<nat>>)
  {
    forall t :: t in recs ==> HeldOk(recs[t], waitedOn)
  }

  ghost predicate Explained<T>(s: State<T>)
  {
    && |s.waitedOn| == s.waits
    && Results(s.posts, s.waitedOn, s.fired, s.cancelled)
    && HeldAll(s.recs, s.waitedOn)
  }

  /** History only grows. */
  lemma ResultsGrow(posts: seq<Post>, waitedOn: seq<Option<nat>>, fired: seq<Fired>, cancelled: seq<nat>,
                    waitedOn': seq<Option<nat>>, fired': seq<Fired>, cancelled': seq<nat>)
    requires Results(posts, waitedOn, fired, cancelled)
    requires waitedOn <= waitedOn' && fired <= fired' && cancelled <= cancelled'
    ensures Results(posts, waitedOn', fired', cancelled')
  {
    forall i | 0 <= i < |posts| ensures ResultOk(posts[i], waitedOn', fired', cancelled') {
      var w := waitedOn[posts[i].token];
      if w.Some? && posts[i].aborted {
        var j :| 0 <= j < |cancelled| && cancelled[j] == w.value;
        assert cancelled'[j] == w.value;
      } else if w.Some? {
        var j :| 0 <= j < |fired| && FiredStamps(fired)[j] == w.value;
        assert FiredStamps(fired')[j] == w.value;
      }
    }
  }

  lemma CancelExplained<T>(s: State<T>, t: T)
    requires Known(s.queue, s.recs) && t in s.recs && Explained(s)
    ensures Explained(Cancel(s, t))
  {
    if !s.recs[t].expired {
      hide Remove;
      hide ResultOk;
      var r := Cancel(s, t);
      ResultsGrow(s.posts, s.waitedOn, s.fired, s.cancelled, r.waitedOn, r.fired, r.cancelled);
      assert r.cancelled[|s.cancelled|] == s.recs[t].stamp;
      if s.recs[t].handler.Some? {
        AbortExplained(s.recs[t], s.waitedOn, r.fired, r.cancelled);
      }
    }
  }

  lemma AbortExplained(rec: Rec, waitedOn: seq<Option<nat>>, fired: seq<Fired>, cancelled: seq<nat>)
    requires HeldOk(rec, waitedOn) && rec.handler.Some? && rec.stamp in cancelled
    ensures ResultOk(Post(rec.handler.value, true), waitedOn, fired, cancelled)
  {
  }

  lemma SuccessExplained(rec: Rec, waitedOn: seq<Option<nat>>, fired: seq<Fired>, cancelled: seq<nat>)
    requires HeldOk(rec, waitedOn) && rec.handler.Some? && rec.stamp in FiredStamps(fired)
    ensures ResultOk(Post(rec.handler.value, false), waitedOn, fired, cancelled)
  {
  }

  lemma ArmExplained<T>(s: State<T>, t: T, expiry: int)
    requires Known(s.queue, s.recs) && t in s.recs && s.recs[t].expired && Explained(s)
    ensures Explained(Arm(s, t, expiry))
  {
    assert HeldOk(s.recs[t], s.waitedOn);
    hide Insert;
    hide Results;
  }

  lemma ExpiresAtExplained<T>(s: State<T>, t: T, expiry: int)
    requires Known(s.queue, s.recs) && Structure(s) && t in s.recs && Explained(s)
    ensures Explained(ExpiresAt(s, t, expiry))
  {
    CancelKeeps(s, t);
    CancelExplained(s, t);
    ArmExplained(Cancel(s, t), t, expiry);
    hide Cancel;
    hide Arm;
    hide Explained;
  }

  lemma AsyncWaitExplained<T>(s: State<T>, t: T)
    requires t in s.recs && s.recs[t].handler.None? && Explained(s)
    ensures Explained(AsyncWait(s, t))
  {
    hide ResultOk;
    var r := AsyncWait(s, t);
    ResultsGrow(s.posts, s.waitedOn, s.fired, s.cancelled, r.waitedOn, r.fired, r.cancelled);
    forall u | u in r.recs ensures HeldOk(r.recs[u], r.waitedOn) {
      if u != t { assert HeldOk(s.recs[u], s.waitedOn); }
    }
    assert s.recs[t].expired ==> ResultOk(Post(s.waits, false), r.waitedOn, r.fired, r.cancelled) by {
      NoneExplained(s.waits, r.waitedOn, r.fired, r.cancelled);
    }
  }

  lemma NoneExplained(token: nat, waitedOn: seq<Option<nat>>, fired: seq<Fired>, cancelled: seq<nat>)
    ensures token < |waitedOn| && waitedOn[token] == None ==> ResultOk(Post(token, false), waitedOn, fired, cancelled)
  {
  }

  lemma FireFirstExplained<T>(s: State<T>)
    requires Known(s.queue, s.recs) && s.queue != [] && Explained(s)
    ensures Explained(FireFirst(s))
  {
    hide ResultOk;
    hide FiredStamps;
    var r := FireFirst(s);
    var rec := s.recs[s.queue[0]];
    assert HeldOk(rec, s.waitedOn);
    ResultsGrow(s.posts, s.waitedOn, s.fired, s.cancelled, r.waitedOn, r.fired, r.cancelled);
    assert FiredStamps(r.fired)[|s.fired|] == rec.stamp;
    if rec.handler.Some? {
      SuccessExplained(rec, s.waitedOn, r.fired, r.cancelled);
    }
  }

  lemma {:induction false} FireDueExplained<T>(s: State<T>)
    requires Known(s.queue, s.recs) && Explained(s)
    ensures Explained(FireDue(s))
    decreases |s.queue|
  {
    hide Explained;
    if s.queue != [] && s.recs[s.queue[0]].expiry <= s.now {
      FireFirstExplained(s);
      FireDueExplained(FireFirst(s));
    }
  }

  /** Changing neither records nor history. */
  lemma SameExplained<T>(s: State<T>, r: State<T>)
    requires Explained(s)
    requires r.recs == s.recs && r.posts == s.posts && r.waits == s.waits && r.waitedOn == s.waitedOn
    requires r.fired == s.fired && r.cancelled == s.cancelled
    ensures Explained(r)
  {
    hide Results;
    hide HeldAll;
  }

  lemma CreateExplained<T>(s: State<T>, t: T)
    requires Explained(s)
    ensures Explained(TimerSpec.Create(s, t))
  {
    hide Results;
  }

  lemma ApplyExplained<T>(s: State<T>, op: Op<T>)
    requires Known(s.queue, s.recs) && Structure(s) && Explained(s)
    ensures Explained(Apply(s, op))
  {
    hide Structure;
    hide Explained;
    hide Cancel;
    hide ExpiresAt;
    hide AsyncWait;
    hide FireDue;
    SameExplained(s, s.(fault := true));
    match op
    case Create(t) => CreateExplained(s, t);
    case CancelTimer(t) => if t in s.recs { CancelExplained(s, t); }
    case SetExpiry(t, expiry) => if t in s.recs { ExpiresAtExplained(s, t, expiry); }
    case SetDelay(t, delay) => if t in s.recs { ExpiresAtExplained(s, t, s.now + delay); }
    case Wait(t) => if t in s.recs && s.recs[t].handler.None? { AsyncWaitExplained(s, t); }
    case RunHandler => if s.ready != [] { SameExplained(s, s.(ready := s.ready[1..])); }
    case Stop => SameExplained(s, s.(stopped := true));
    case Restart => SameExplained(s, s.(stopped := false));
    case AdvanceClock =>
      if s.queue != [] {
        var s1 := s.(now := s.recs[s.queue[0]].expiry);
        SameExplained(s, s1);
        FireDueExplained(s1);
      }
  }

  lemma {:induction false} ExecExplained<T>(ops: seq<Op<T>>)
    ensures Explained(Exec(ops))
  {
    hide Explained;
    hide Structure;
    if ops == [] {
      assert Explained(Begin<T>()) by { NothingToExplain<T>(); }
    } else {
      var s := Exec(ops[..|ops| - 1]);
      ExecExplained(ops[..|ops| - 1]);
      StructureKnown(s);
      ApplyExplained(s, ops[|ops| - 1]);
    }
    hide Apply;
  }

  lemma NothingToExplain<T>()
    ensures Explained(Begin<T>())
  {
  }

  /** No arming was both fired and cancelled. */
  lemma NotBoth<T>(s: State<T>, stamp: nat)
    requires Known(s.queue, s.recs) && Accounted(s)
    ensures !(stamp in s.cancelled && stamp in FiredStamps(s.fired))
  {
    hide FiredStamps;
    assert multiset(Below(s.arms))[stamp] <= 1;
    assert multiset(s.cancelled)[stamp] + multiset(FiredStamps(s.fired))[stamp] <= 1;
    assert stamp in s.cancelled <==> stamp in multiset(s.cancelled);
    assert stamp in FiredStamps(s.fired) <==> stamp in multiset(FiredStamps(s.fired));
  }

  /** In every run a posted handler was aborted if and only if the arming that it
      waited for was cancelled; one with success waited for an arming that fired,
      or on a timer that had expired; one that was not posted is held by a timer
      that is queued under the arming it waits for. */
  lemma AbortedExactly<T>(ops: seq<Op<T>>, i: nat)
    ensures var s := Exec(ops);
            && |s.waitedOn| == s.waits
            && (i < |s.posts| ==>
                  && s.posts[i].token < s.waits
                  && (var w := s.waitedOn[s.posts[i].token];
                      && (s.posts[i].aborted <==> w.Some? && w.value in s.cancelled)
                      && (!s.posts[i].aborted <==> w.None? || w.value in FiredStamps(s.fired))))
            && (forall t :: t in s.recs && s.recs[t].handler.Some? ==>
                  && t in s.queue && s.recs[t].handler.value < s.waits
                  && s.waitedOn[s.recs[t].handler.value] == Some(s.recs[t].stamp))
  {
    hide SortedQueue;
    hide Stamped;
    hide Accounted;
    hide FiredStamps;
    hide Exec;
    var s := Exec(ops);
    ExecExplained(ops);
    ArmingsHaveOneFate(ops, 0);
    forall t | t in s.recs && s.recs[t].handler.Some? ensures HeldOk(s.recs[t], s.waitedOn) {
    }
    if i < |s.posts| {
      assert ResultOk(s.posts[i], s.waitedOn, s.fired, s.cancelled);
      var w := s.waitedOn[s.posts[i].token];
      if w.Some? {
        NotBoth(s, w.value);
      }
    }
  }
}
