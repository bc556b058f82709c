/** Runs of the simulation: any sequence of timer operations, handler
    executions and clock advances. */
module EventLoop {
  import opened Options
  import opened Sequences
  import opened TimerSpec
  import opened TimerFacts

  /** What can happen next.  Operations on a timer that does not exist leave the
      state unchanged. */
  datatype Op<T> =
    | Create(t: T)
    | CancelTimer(t: T)
    | SetExpiry(t: T, expiry: int)
    | SetDelay(t: T, delay: int)
    | Wait(t: T)
    | RunHandler
    | AdvanceClock
    | Stop
    | Restart

  /** Arming for a point in time, absolute or relative to now. */
  function Expiry<T>(s: State<T>, op: Op<T>): (r: int)
    requires op.SetExpiry? || op.SetDelay?
  {
    if op.SetExpiry? then op.expiry else s.now + op.delay
  }

  function Apply<T(==)>(s: State<T>, op: Op<T>): (r: State<T>)
    requires Structure(s)
    ensures Structure(r)
  {
    ApplyKeeps(s, op);
    ApplyRaw(s, op)
  }

  /** The operation fails an assertion: arming while the simulation is stopped,
      or a second wait on a timer that has a handler. */
  predicate Asserts<T(==)>(s: State<T>, op: Op<T>)
  {
    match op
    case SetExpiry(t, _) => t in s.recs && s.stopped
    case SetDelay(t, _) => t in s.recs && s.stopped
    case Wait(t) => t in s.recs && s.recs[t].handler.Some?
    case _ => false
  }

  function ApplyRaw<T(==)>(s: State<T>, op: Op<T>): (r: State<T>)
    requires Known(s.queue, s.recs)
  {
    if s.fault then s
    else if Asserts(s, op) then s.(fault := true)
    else Perform(s, op)
  }

  function Perform<T(==)>(s: State<T>, op: Op<T>): (r: State<T>)
    requires Known(s.queue, s.recs)
  {
    match op
    case Create(t) => if t in s.recs then s else TimerSpec.Create(s, t)
    case CancelTimer(t) => if t in s.recs then Cancel(s, t) else s
    case SetExpiry(t, expiry) => if t in s.recs then ExpiresAt(s, t, expiry) else s
    case SetDelay(t, delay) => if t in s.recs then ExpiresAt(s, t, s.now + delay) else s
    case Wait(t) => if t in s.recs then AsyncWait(s, t) else s
    case RunHandler => if s.ready == [] then s else s.(ready := s.ready[1..])
    case AdvanceClock => if s.ready == [] then Advance(s) else s
    case Stop => s.(stopped := true)
    case Restart => s.(stopped := false)
  }

  lemma ApplyKeeps<T>(s: State<T>, op: Op<T>)
    requires Structure(s)
    ensures Structure(ApplyRaw(s, op))
  {
    hide Structure;
    hide Cancel;
    hide ExpiresAt;
    hide AsyncWait;
    hide Advance;
    StructureKnown(s);
    FlagsKeep(s, s.stopped, true);
    match op
    case Create(t) => if t !in s.recs { CreateKeeps(s, t); }
    case CancelTimer(t) => if t in s.recs { CancelKeeps(s, t); }
    case SetExpiry(t, expiry) => if t in s.recs { ExpiresAtKeeps(s, t, expiry); }
    case SetDelay(t, delay) => if t in s.recs { ExpiresAtKeeps(s, t, s.now + delay); }
    case Wait(t) => if t in s.recs { AsyncWaitKeeps(s, t); }
    case RunHandler => UnreadyKeeps(s);
    case AdvanceClock => AdvanceKeeps(s);
    case Stop => FlagsKeep(s, true, s.fault);
    case Restart => FlagsKeep(s, false, s.fault);
  }

  lemma UnreadyKeeps<T>(s: State<T>)
    requires Structure(s)
    ensures s.ready != [] ==> Structure(s.(ready := s.ready[1..]))
  {
  }

  lemma FlagsKeep<T>(s: State<T>, stopped: bool, fault: bool)
    requires Structure(s)
    ensures Structure(s.(stopped := stopped, fault := fault))
  {
  }

  lemma MovedKeeps<T>(s: State<T>, now: int)
    requires Structure(s)
    ensures Structure(s.(now := now))
  {
  }

  lemma AdvanceKeeps<T>(s: State<T>)
    requires Structure(s)
    ensures Structure(Advance(s))
  {
    if s.queue != [] { FireDueKeeps(s.(now := s.recs[s.queue[0]].expiry)); }
  }

  lemma CreateKeeps<T>(s: State<T>, t: T)
    requires Structure(s) && t !in s.recs
    ensures Structure(TimerSpec.Create(s, t))
  {
    SortedSameKeys(s.queue, s.recs, s.recs[t := Rec(0, true, None, 0)]);
  }

  function Begin<T>(): (s: State<T>)
  {
    State(0, [], map[], [], false, false, [], [], [], 0, [], 0)
  }

  function Exec<T(==)>(ops: seq<Op<T>>): (s: State<T>)
    ensures Structure(s)
  {
    if ops == [] then Begin()
    else Apply(Exec(ops[..|ops| - 1]), ops[|ops| - 1])
  }

  // ---------------------------------------------------------------------------
  // The queue

  /** In every run the vector is sorted by expiry and arming order, holds a timer
      exactly once if it has not expired and not at all otherwise, and cancelling
      a timer takes exactly that timer out of it. */
  lemma QueueStructure<T>(ops: seq<Op<T>>, t: T)
    ensures var s := Exec(ops);
            && SortedQueue(s.queue, s.recs)
            && (forall i, j :: 0 <= i < j < |s.queue| ==> s.queue[i] != s.queue[j])
            && (t in s.queue <==> t in s.recs && !s.recs[t].expired)
            && (t in s.recs ==> forall u :: u in Cancel(s, t).queue <==> u in s.queue && u != t)
  {
    var s := Exec(ops);
    forall i, j | 0 <= i < j < |s.queue| ensures s.queue[i] != s.queue[j] {
      assert s.recs[s.queue[i]].Before(s.recs[s.queue[j]]);
    }
    if t in s.recs {
      CancelKeeps(s, t);
    }
  }

  /** The exception path leaves no timer queued, in any run. */
  lemma ExceptionEmptiesQueue<T>(ops: seq<Op<T>>)
    ensures Unwind(Exec(ops)).queue == []
  {
    var s := Exec(ops);
    CancelAllEmpties(s, s.queue);
  }

  // ---------------------------------------------------------------------------
  // Assertions

  /** The last call of stop or restart was a stop. */
  predicate StoppedBy<T>(ops: seq<Op<T>>)
  {
    ops != [] &&
    (ops[|ops| - 1].Stop? || (!ops[|ops| - 1].Restart? && StoppedBy(ops[..|ops| - 1])))
  }

  /** Operation `k` of the run breaks a rule: it arms a timer, which was created
      before, while the simulation is stopped, or waits on a timer that has a
      handler. */
  ghost predicate AssertsAt<T>(ops: seq<Op<T>>, k: nat)
    requires k < |ops|
  {
    match ops[k]
    case SetExpiry(t, _) => Op.Create(t) in ops[..k] && StoppedBy(ops[..k])
    case SetDelay(t, _) => Op.Create(t) in ops[..k] && StoppedBy(ops[..k])
    case Wait(t) => (var recs := Exec(ops[..k]).recs; t in recs && recs[t].handler.Some?)
    case _ => false
  }

  lemma AssertsPrefix<T>(ops: seq<Op<T>>, k: nat)
    requires k < |ops| - 1
    ensures AssertsAt(ops, k) == AssertsAt(ops[..|ops| - 1], k)
  {
    assert ops[..|ops| - 1][..k] == ops[..k];
  }

  lemma {:induction false} FireDueKeys<T>(s: State<T>)
    requires Known(s.queue, s.recs)
    ensures FireDue(s).recs.Keys == s.recs.Keys && FireDue(s).stopped == s.stopped
    decreases |s.queue|
  {
    if s.queue != [] && s.recs[s.queue[0]].expiry <= s.now {
      assert FireFirst(s).recs.Keys == s.recs.Keys;
      FireDueKeys(FireFirst(s));
    }
  }

  /** What an operation does to the flags and to the set of timers. */
  lemma PerformFlags<T>(s: State<T>, op: Op<T>)
    requires Known(s.queue, s.recs)
    ensures var r := Perform(s, op);
            && r.fault == s.fault
            && r.stopped == (op.Stop? || (!op.Restart? && s.stopped))
            && (forall t :: t in r.recs <==> t in s.recs || op == Op.Create(t))
  {
    if s.queue != [] {
      FireDueNow(s.(now := s.recs[s.queue[0]].expiry));
      FireDueKeys(s.(now := s.recs[s.queue[0]].expiry));
    }
    hide FireDue;
    hide Insert;
    hide Remove;
  }

  lemma InLast<A>(s: seq<A>, x: A)
    requires s != []
    ensures x in s <==> x in s[..|s| - 1] || x == s[|s| - 1]
  {
  }

  /** Until an assertion fails, the flags and the timers are those of the calls. */
  lemma {:induction false} FlagsOfCalls<T>(ops: seq<Op<T>>, t: T)
    ensures var s := Exec(ops);
            !s.fault ==> s.stopped == StoppedBy(ops) && (t in s.recs <==> Op.Create(t) in ops)
  {
    hide Structure;
    hide Perform;
    hide Asserts;
    if ops != [] {
      var m := |ops| - 1;
      var s := Exec(ops[..m]);
      FlagsOfCalls(ops[..m], t);
      StructureKnown(s);
      PerformFlags(s, ops[m]);
      InLast(ops, Op.Create(t));
    }
  }

  lemma LastAsserts<T>(ops: seq<Op<T>>)
    requires ops != []
    ensures var m := |ops| - 1;
            Exec(ops).fault <==> Exec(ops[..m]).fault || AssertsAt(ops, m)
  {
    hide Structure;
    hide StoppedBy;
    var m := |ops| - 1;
    var s := Exec(ops[..m]);
    StructureKnown(s);
    PerformFlags(s, ops[m]);
    hide Perform;
    match ops[m]
    case SetExpiry(t, _) => FlagsOfCalls(ops[..m], t);
    case SetDelay(t, _) => FlagsOfCalls(ops[..m], t);
    case _ =>
  }

  /** A run fails an assertion if and only if some call arms a timer after a stop
      without a restart since, or waits on a timer that has a handler. */
  lemma {:induction false} FaultsExactly<T>(ops: seq<Op<T>>)
    ensures Exec(ops).fault <==> exists k: nat :: k < |ops| && AssertsAt(ops, k)
  {
    hide Exec;
    hide AssertsAt;
    if ops == [] {
      assert !Exec<T>([]).fault by { NoFaultYet<T>(); }
    } else {
      var m := |ops| - 1;
      FaultsExactly(ops[..m]);
      LastAsserts(ops);
      forall k: nat | k < m ensures AssertsAt(ops, k) == AssertsAt(ops[..m], k) {
        AssertsPrefix(ops, k);
      }
    }
  }

  lemma NoFaultYet<T>()
    ensures !Exec<T>([]).fault
  {
  }

  /** It happens: a timer is armed after the simulation was stopped. */
  lemma ArmedWhileStopped(t: nat)
    ensures Exec([Create(t), Stop, SetExpiry(t, 5)]).fault
  {
    var ops := [Create(t), Stop, SetExpiry(t, 5)];
    assert ops[..2] == [ops[0], ops[1]] && ops[..2][..1] == [ops[0]] && [ops[0]][..0] == [];
    assert Exec<nat>([]) == Begin();
    assert Exec([ops[0]]) == TimerSpec.Create(Begin(), t);
    assert Exec(ops[..2]) == TimerSpec.Create(Begin(), t).(stopped := true);
  }

  // ---------------------------------------------------------------------------
  // Handlers

  /** Handlers are numbered as they are registered.  Each one is either still
      held by exactly one timer, or was posted exactly once. */
  ghost predicate Handlers<T>(recs: map<T, Rec>, posts: seq<Post>, waits: nat)
  {
    && (forall i :: 0 <= i < |posts| ==> posts[i].token < waits)
    && (forall i, j :: 0 <= i < j < |posts| ==> posts[i].token != posts[j].token)
    && (forall t :: t in recs && recs[t].handler.Some? ==> recs[t].handler.value < waits)
    && (forall t, i :: t in recs && recs[t].handler.Some? && 0 <= i < |posts| ==>
          posts[i].token != recs[t].handler.value)
    && (forall t, u :: t in recs && u in recs && t != u && recs[t].handler.Some? ==> recs[u].handler != recs[t].handler)
    && (forall k: nat :: k < waits ==> Posted(posts, k) || Held(recs, k))
  }

  ghost predicate Posted(posts: seq<Post>, k: nat)
  {
    exists i :: 0 <= i < |posts| && posts[i].token == k
  }

  ghost predicate Held<T>(recs: map<T, Rec>, k: nat)
  {
    exists t :: t in recs && recs[t].handler == Some(k)
  }

  lemma FireHandlers<T>(s: State<T>, t: T, aborted: bool)
    requires t in s.recs && Handlers(s.recs, s.posts, s.waits)
    ensures var r := Fire(s, t, aborted); Handlers(r.recs, r.posts, r.waits)
  {
    var r := Fire(s, t, aborted);
    forall k: nat | k < s.waits ensures Posted(r.posts, k) || Held(r.recs, k) {
      if Posted(s.posts, k) {
        var i :| 0 <= i < |s.posts| && s.posts[i].token == k;
        assert r.posts[i].token == k;
      } else {
        var u :| u in s.recs && s.recs[u].handler == Some(k);
        if u == t {
          assert r.posts[|s.posts|].token == k;
        } else {
          assert r.recs[u].handler == Some(k);
        }
      }
    }
  }

  /** Changing anything but handlers. */
  lemma SameHandlers<T>(recs: map<T, Rec>, recs': map<T, Rec>, posts: seq<Post>, waits: nat)
    requires Handlers(recs, posts, waits) && recs.Keys <= recs'.Keys
    requires forall t :: t in recs' ==> recs'[t].handler == if t in recs then recs[t].handler else None
    ensures Handlers(recs', posts, waits)
  {
    forall k: nat | k < waits ensures Posted(posts, k) || Held(recs', k) {
      if !Posted(posts, k) {
        var u :| u in recs && recs[u].handler == Some(k);
        assert recs'[u].handler == Some(k);
      }
    }
  }

  lemma CancelHandlers<T>(s: State<T>, t: T)
    requires Known(s.queue, s.recs) && t in s.recs && Handlers(s.recs, s.posts, s.waits)
    ensures var r := Cancel(s, t); Handlers(r.recs, r.posts, r.waits)
  {
    if !s.recs[t].expired {
      FireHandlers(s.(queue := Remove(s.queue, s.recs, t), cancelled := s.cancelled + [s.recs[t].stamp]), t, true);
    }
  }

  lemma ExpiresAtHandlers<T>(s: State<T>, t: T, expiry: int)
    requires Known(s.queue, s.recs) && t in s.recs && Handlers(s.recs, s.posts, s.waits)
    ensures var r := ExpiresAt(s, t, expiry); Handlers(r.recs, r.posts, r.waits)
  {
    CancelHandlers(s, t);
    SameHandlers(Cancel(s, t).recs, ExpiresAt(s, t, expiry).recs, Cancel(s, t).posts, Cancel(s, t).waits);
    hide Cancel;
    hide Handlers;
  }

  lemma RegisterHandlers<T>(s: State<T>, t: T)
    requires t in s.recs && s.recs[t].handler.None? && Handlers(s.recs, s.posts, s.waits)
    ensures Handlers(s.recs[t := s.recs[t].(handler := Some(s.waits))], s.posts, s.waits + 1)
  {
    var recs := s.recs[t := s.recs[t].(handler := Some(s.waits))];
    forall k: nat | k < s.waits + 1 ensures Posted(s.posts, k) || Held(recs, k) {
      if k == s.waits {
        assert recs[t].handler == Some(k);
      } else if !Posted(s.posts, k) {
        var u :| u in s.recs && s.recs[u].handler == Some(k);
        assert recs[u].handler == Some(k);
      }
    }
  }

  lemma AsyncWaitHandlers<T>(s: State<T>, t: T)
    requires t in s.recs && s.recs[t].handler.None? && Handlers(s.recs, s.posts, s.waits)
    ensures var r := AsyncWait(s, t); Handlers(r.recs, r.posts, r.waits)
  {
    RegisterHandlers(s, t);
    var s1 := s.(recs := s.recs[t := s.recs[t].(handler := Some(s.waits))], waits := s.waits + 1,
                 waitedOn := s.waitedOn + [if s.recs[t].expired then None else Some(s.recs[t].stamp)]);
    FireHandlers(s1, t, false);
    hide Handlers;
  }

  lemma {:induction false} FireDueHandlers<T>(s: State<T>)
    requires Structure(s) && Handlers(s.recs, s.posts, s.waits)
    ensures var r := FireDue(s); Handlers(r.recs, r.posts, r.waits)
    decreases |s.queue|
  {
    hide Handlers;
    if s.queue != [] && s.recs[s.queue[0]].expiry <= s.now {
      var t := s.queue[0];
      var f := Fired(s.recs[t].expiry, s.recs[t].stamp, s.now);
      FireHandlers(s.(queue := s.queue[1..], fired := s.fired + [f]), t, false);
      FireFirstKeeps(s);
      FireDueHandlers(FireFirst(s));
    }
  }

  lemma ApplyHandlers<T>(s: State<T>, op: Op<T>)
    requires Structure(s) && Handlers(s.recs, s.posts, s.waits)
    ensures var r := Apply(s, op); Handlers(r.recs, r.posts, r.waits)
  {
    hide Handlers;
    hide Cancel;
    hide ExpiresAt;
    hide AsyncWait;
    hide FireDue;
    match op
    case Create(t) => if t !in s.recs { SameHandlers(s.recs, s.recs[t := Rec(0, true, None, 0)], s.posts, s.waits); }
    case CancelTimer(t) => if t in s.recs { CancelHandlers(s, t); }
    case SetExpiry(t, expiry) => if t in s.recs { ExpiresAtHandlers(s, t, expiry); }
    case SetDelay(t, delay) => if t in s.recs { ExpiresAtHandlers(s, t, s.now + delay); }
    case Wait(t) => if t in s.recs && s.recs[t].handler.None? { AsyncWaitHandlers(s, t); }
    case RunHandler =>
    case Stop =>
    case Restart =>
    case AdvanceClock => if s.queue != [] { FireDueHandlers(s.(now := s.recs[s.queue[0]].expiry)); }
  }

  /** In every run each registered handler is posted at most once, with success
      or with abort but never both; one that was not posted is held by exactly
      one timer. */
  lemma {:induction false} HandlersOnce<T>(ops: seq<Op<T>>)
    ensures var s := Exec(ops);
            && Handlers(s.recs, s.posts, s.waits)
            && (forall i, j :: 0 <= i < j < |s.posts| ==> s.posts[i].token != s.posts[j].token)
            && (forall k: nat :: k < s.waits ==> Posted(s.posts, k) || Held(s.recs, k))
            && (forall t, i :: t in s.recs && s.recs[t].handler.Some? && 0 <= i < |s.posts| ==>
                  s.posts[i].token != s.recs[t].handler.value)
  {
    if ops != [] {
      HandlersOnce(ops[..|ops| - 1]);
      ApplyHandlers(Exec(ops[..|ops| - 1]), ops[|ops| - 1]);
    }
  }

  // ---------------------------------------------------------------------------
  // Time

  /** The operation does not arm a timer for the past. */
  predicate InFuture<T>(s: State<T>, op: Op<T>)
  {
    op.SetExpiry? || op.SetDelay? ==> Expiry(s, op) >= s.now
  }

  /** No operation of the run arms a timer for the past. */
  predicate Punctual<T(==)>(ops: seq<Op<T>>)
  {
    ops == [] || (Punctual(ops[..|ops| - 1]) && InFuture(Exec(ops[..|ops| - 1]), ops[|ops| - 1]))
  }

  ghost predicate Timely<T>(s: State<T>)
  {
    && Known(s.queue, s.recs)
    && (forall i :: 0 <= i < |s.queue| ==> s.recs[s.queue[i]].expiry >= s.now)
    && (forall i :: 0 <= i < |s.fired| ==> s.fired[i].at == s.fired[i].expiry <= s.now && s.fired[i].stamp < s.arms)
    && (forall i, j :: 0 <= i < j < |s.fired| ==> s.fired[i].Before(s.fired[j]))
    && (forall i, j :: 0 <= i < |s.fired| && 0 <= j < |s.queue| ==>
          Earlier(s.fired[i].expiry, s.fired[i].stamp, s.recs[s.queue[j]].expiry, s.recs[s.queue[j]].stamp))
  }

  /** Leaving time, fired timers and the keys of what is queued alone. */
  lemma SameTimes<T>(s: State<T>, r: State<T>)
    requires Known(s.queue, s.recs) && Known(r.queue, r.recs) && Timely(s)
    requires r.now == s.now && r.fired == s.fired && r.arms == s.arms
    requires forall t :: t in r.queue ==>
               t in s.queue && r.recs[t].expiry == s.recs[t].expiry && r.recs[t].stamp == s.recs[t].stamp
    ensures Timely(r)
  {
    forall j | 0 <= j < |r.queue|
      ensures exists k :: 0 <= k < |s.queue| && s.queue[k] == r.queue[j]
    {
      assert r.queue[j] in s.queue;
    }
  }

  lemma ArmTimely<T>(s: State<T>, t: T, expiry: int)
    requires Structure(s) && Timely(s) && t in s.recs && s.recs[t].expired && expiry >= s.now
    ensures Timely(Arm(s, t, expiry))
  {
    var r := Arm(s, t, expiry);
    ArmKeeps(s, t, expiry);
    forall j | 0 <= j < |r.queue|
      ensures r.recs[r.queue[j]].expiry >= r.now
      ensures forall i :: 0 <= i < |r.fired| ==>
                Earlier(r.fired[i].expiry, r.fired[i].stamp, r.recs[r.queue[j]].expiry, r.recs[r.queue[j]].stamp)
    {
      assert r.queue[j] in r.queue;
      if r.queue[j] != t {
        var k :| 0 <= k < |s.queue| && s.queue[k] == r.queue[j];
        assert r.recs[r.queue[j]] == s.recs[s.queue[k]];
      }
    }
  }

  lemma ExpiresAtTimely<T>(s: State<T>, t: T, expiry: int)
    requires Structure(s) && Timely(s) && t in s.recs && expiry >= s.now
    ensures Timely(ExpiresAt(s, t, expiry)) && ExpiresAt(s, t, expiry).now == s.now
  {
    CancelKeeps(s, t);
    SameTimes(s, Cancel(s, t));
    ArmTimely(Cancel(s, t), t, expiry);
    hide Timely;
    hide Structure;
  }

  lemma FireFirstTimely<T>(s: State<T>)
    requires Structure(s) && Timely(s) && s.queue != [] && s.recs[s.queue[0]].expiry == s.now
    ensures Timely(FireFirst(s))
  {
    FireFirstKeeps(s);
    var r := FireFirst(s);
    var f := Fired(s.recs[s.queue[0]].expiry, s.recs[s.queue[0]].stamp, s.now);
    assert f.stamp < s.arms by { assert s.queue[0] in s.queue; }
    forall j | 0 <= j < |r.queue|
      ensures r.recs[r.queue[j]] == s.recs[s.queue[j + 1]] && s.recs[s.queue[0]].Before(s.recs[s.queue[j + 1]])
    {
      assert r.queue[j] in r.queue;
    }
  }

  lemma {:induction false} FireDueTimely<T>(s: State<T>)
    requires Structure(s) && Timely(s)
    ensures Timely(FireDue(s)) && FireDue(s).now == s.now
    decreases |s.queue|
  {
    if s.queue != [] && s.recs[s.queue[0]].expiry <= s.now {
      FireFirstTimely(s);
      FireFirstKeeps(s);
      FireDueTimely(FireFirst(s));
    }
  }

  lemma AdvanceTimely<T>(s: State<T>)
    requires Structure(s) && Timely(s)
    ensures Timely(Advance(s)) && Advance(s).now >= s.now
  {
    if s.queue != [] {
      var s1 := s.(now := s.recs[s.queue[0]].expiry);
      forall j | 0 <= j < |s.queue| ensures s.recs[s.queue[j]].expiry >= s1.now {
        assert j > 0 ==> s.recs[s.queue[0]].Before(s.recs[s.queue[j]]);
      }
      FireDueTimely(s1);
    }
  }

  lemma CancelTimely<T>(s: State<T>, t: T)
    requires Structure(s) && Timely(s) && t in s.recs
    ensures Timely(Cancel(s, t)) && Cancel(s, t).now == s.now
  {
    CancelKeeps(s, t);
    SameTimes(s, Cancel(s, t));
    hide Timely;
  }

  lemma AsyncWaitTimely<T>(s: State<T>, t: T)
    requires Known(s.queue, s.recs) && Timely(s) && t in s.recs
    ensures Known(AsyncWait(s, t).queue, AsyncWait(s, t).recs)
    ensures Timely(AsyncWait(s, t)) && AsyncWait(s, t).now == s.now
  {
    SameTimes(s, AsyncWait(s, t));
    hide Timely;
  }

  lemma CreateTimely<T>(s: State<T>, t: T)
    requires Known(s.queue, s.recs) && Timely(s) && t !in s.recs
    ensures Known(s.queue, TimerSpec.Create(s, t).recs) && Timely(TimerSpec.Create(s, t))
  {
    SameTimes(s, TimerSpec.Create(s, t));
  }

  lemma RunHandlerTimely<T>(s: State<T>)
    requires Known(s.queue, s.recs) && Timely(s) && s.ready != []
    ensures Timely(s.(ready := s.ready[1..]))
  {
    SameTimes(s, s.(ready := s.ready[1..]));
  }

  lemma FlagsTimely<T>(s: State<T>, stopped: bool, fault: bool)
    requires Known(s.queue, s.recs) && Timely(s)
    ensures Timely(s.(stopped := stopped, fault := fault))
  {
    SameTimes(s, s.(stopped := stopped, fault := fault));
  }

  lemma ApplyRawTimely<T>(s: State<T>, op: Op<T>)
    requires Known(s.queue, s.recs) && Structure(s) && Timely(s) && InFuture(s, op)
    ensures Timely(ApplyRaw(s, op)) && ApplyRaw(s, op).now >= s.now
  {
    hide Structure;
    hide Timely;
    hide Cancel;
    hide ExpiresAt;
    hide AsyncWait;
    hide Advance;
    FlagsTimely(s, s.stopped, true);
    match op
    case Create(t) => if t !in s.recs { CreateTimely(s, t); }
    case CancelTimer(t) => if t in s.recs { CancelTimely(s, t); }
    case SetExpiry(t, expiry) => if t in s.recs { ExpiresAtTimely(s, t, expiry); }
    case SetDelay(t, delay) => if t in s.recs { ExpiresAtTimely(s, t, s.now + delay); }
    case Wait(t) => if t in s.recs { AsyncWaitTimely(s, t); }
    case RunHandler => if s.ready != [] { RunHandlerTimely(s); }
    case AdvanceClock => if s.ready == [] { AdvanceTimely(s); }
    case Stop => FlagsTimely(s, true, s.fault);
    case Restart => FlagsTimely(s, false, s.fault);
  }

  lemma ApplyTimely<T>(s: State<T>, op: Op<T>)
    requires Structure(s) && Timely(s) && InFuture(s, op)
    ensures Timely(Apply(s, op)) && Apply(s, op).now >= s.now
  {
    hide ApplyRaw;
    hide Timely;
    ApplyRawTimely(s, op);
  }

  /** If no timer is ever armed for the past, then in every run the clock never
      goes back, every timer fires exactly at its expiry, and timers fire in the
      order of their expiry and, for equal expiries, of their arming. */
  lemma {:induction false} TimersFireInOrder<T>(ops: seq<Op<T>>)
    requires Punctual(ops)
    ensures var s := Exec(ops);
            && Timely(s)
            && (ops != [] ==> Exec(ops[..|ops| - 1]).now <= s.now)
            && (forall i :: 0 <= i < |s.fired| ==> s.fired[i].at == s.fired[i].expiry)
            && (forall i, j :: 0 <= i < j < |s.fired| ==> s.fired[i].Before(s.fired[j]))
            && (forall i :: 0 <= i < |s.queue| ==> s.recs[s.queue[i]].expiry >= s.now)
  {
    if ops != [] {
      TimersFireInOrder(ops[..|ops| - 1]);
      ApplyTimely(Exec(ops[..|ops| - 1]), ops[|ops| - 1]);
    }
  }

  // ---------------------------------------------------------------------------
  // What an advance fires

  /** The queue from `s` on has been fired up to index `k`, and no further. */
  ghost predicate FiredUpTo<T>(s: State<T>, r: State<T>, k: nat)
    requires Known(s.queue, s.recs)
  {
    && k <= |s.queue| && r.queue == s.queue[k..]
    && |r.fired| == |s.fired| + k && r.fired[..|s.fired|] == s.fired
    && (forall i :: 0 <= i < k ==>
          s.recs[s.queue[i]].expiry <= s.now
          && r.fired[|s.fired| + i] == Fired(s.recs[s.queue[i]].expiry, s.recs[s.queue[i]].stamp, s.now))
    && (forall i :: k <= i < |s.queue| ==> s.recs[s.queue[i]].expiry > s.now)
  }

  lemma {:induction false} FireDueTakes<T>(s: State<T>)
    requires Structure(s)
    ensures var r := FireDue(s); FiredUpTo(s, r, |r.fired| - |s.fired|)
    decreases |s.queue|
  {
    hide Structure;
    StructureKnown(s);
    if s.queue == [] || s.recs[s.queue[0]].expiry > s.now {
      NoneFired(s);
    } else {
      hide FireFirst;
      hide FiredUpTo;
      FireFirstKeeps(s);
      FireDueTakes(FireFirst(s));
      FiredOneMore(s, FireDue(s));
    }
  }

  lemma NoneFired<T>(s: State<T>)
    requires Known(s.queue, s.recs) && Structure(s)
    requires s.queue == [] || s.recs[s.queue[0]].expiry > s.now
    ensures FiredUpTo(s, s, 0)
  {
    if s.queue != [] {
      Around(s.queue, s.recs, 0);
    }
  }

  lemma FiredOneMore<T>(s: State<T>, r: State<T>)
    requires Known(s.queue, s.recs) && s.queue != [] && s.recs[s.queue[0]].expiry <= s.now
    requires |r.fired| >= |s.fired| + 1 && FiredUpTo(FireFirst(s), r, |r.fired| - |s.fired| - 1)
    ensures FiredUpTo(s, r, |r.fired| - |s.fired|)
  {
    var f := FireFirst(s);
    var k := |r.fired| - |s.fired|;
    assert r.fired[..|s.fired|] == r.fired[..|f.fired|][..|s.fired|];
    assert r.fired[|s.fired|] == r.fired[..|f.fired|][|s.fired|];
    forall i | 1 <= i < |s.queue|
      ensures f.queue[i - 1] == s.queue[i]
      ensures f.recs[s.queue[i]].expiry == s.recs[s.queue[i]].expiry
      ensures f.recs[s.queue[i]].stamp == s.recs[s.queue[i]].stamp
    {
    }
    forall i | 1 <= i < k
      ensures r.fired[|s.fired| + i] == Fired(s.recs[s.queue[i]].expiry, s.recs[s.queue[i]].stamp, s.now)
      ensures s.recs[s.queue[i]].expiry <= s.now
    {
      assert r.fired[|f.fired| + (i - 1)] == Fired(f.recs[f.queue[i - 1]].expiry, f.recs[f.queue[i - 1]].stamp, f.now);
    }
    forall i | k <= i < |s.queue| ensures s.recs[s.queue[i]].expiry > s.now {
      assert f.recs[f.queue[i - 1]].expiry > f.now;
    }
  }

  lemma AdvanceTakes<T>(s: State<T>)
    requires Known(s.queue, s.recs) && Structure(s) && s.queue != []
    ensures var r := Advance(s);
            && |r.fired| > |s.fired|
            && r.now == s.recs[s.queue[0]].expiry
            && FiredUpTo(s.(now := r.now), r, |r.fired| - |s.fired|)
  {
    hide Structure;
    hide FireDue;
    var s1 := s.(now := s.recs[s.queue[0]].expiry);
    MovedKeeps(s, s1.now);
    FireDueTakes(s1);
    FireDueNow(s1);
  }

  /** In every run an advance with timers queued moves the clock to the first
      expiry and fires, in queue order, exactly the timers that expire no later:
      at least one fires, and what stays queued expires later. */
  lemma AdvanceFiresExactlyDue<T>(ops: seq<Op<T>>)
    ensures var s := Exec(ops);
            var r := Advance(s);
            s.queue != [] ==>
              && |r.fired| > |s.fired|
              && r.now == s.recs[s.queue[0]].expiry
              && FiredUpTo(s.(now := r.now), r, |r.fired| - |s.fired|)
  {
    hide Exec;
    hide Structure;
    hide Advance;
    hide FiredUpTo;
    var s := Exec(ops);
    StructureKnown(s);
    if s.queue != [] {
      AdvanceTakes(s);
    }
  }

  // ---------------------------------------------------------------------------
  // Armings

  function Stamps<T>(queue: seq<T>, recs: map<T, Rec>): (r: seq<nat>)
    requires Known(queue, recs)
    ensures |r| == |queue|
    ensures forall i :: 0 <= i < |queue| ==> r[i] == recs[queue[i]].stamp
  {
    seq(|queue|, i requires 0 <= i < |queue| => recs[queue[i]].stamp)
  }

  function FiredStamps(fired: seq<Fired>): (r: seq<nat>)
    ensures |r| == |fired|
    ensures forall i :: 0 <= i < |fired| ==> r[i] == fired[i].stamp
  {
    seq(|fired|, i requires 0 <= i < |fired| => fired[i].stamp)
  }

  /** What became of the arming calls: still queued, fired, or cancelled. */
  ghost function Fates<T>(queue: seq<T>, recs: map<T, Rec>, fired: seq<Fired>, cancelled: seq<nat>): multiset<nat>
    requires Known(queue, recs)
  {
    multiset(Stamps(queue, recs)) + multiset(FiredStamps(fired)) + multiset(cancelled)
  }

  ghost predicate Accounted<T>(s: State<T>)
    requires Known(s.queue, s.recs)
  {
    Fates(s.queue, s.recs, s.fired, s.cancelled) == multiset(Below(s.arms))
  }

  /** Changing neither the stamps of what is queued nor the history. */
  lemma SameAccounted<T>(s: State<T>, r: State<T>)
    requires Known(s.queue, s.recs) && Known(r.queue, r.recs) && Accounted(s)
    requires r.queue == s.queue && r.fired == s.fired && r.cancelled == s.cancelled && r.arms == s.arms
    requires forall i :: 0 <= i < |s.queue| ==> r.recs[s.queue[i]].stamp == s.recs[s.queue[i]].stamp
    ensures Accounted(r)
  {
    assert Stamps(r.queue, r.recs) == Stamps(s.queue, s.recs);
  }

  lemma StampsRemove<T>(queue: seq<T>, recs: map<T, Rec>, recs': map<T, Rec>, k: nat)
    requires Known(queue, recs) && Known(queue, recs') && k < |queue|
    requires forall i :: 0 <= i < |queue| ==> recs'[queue[i]].stamp == recs[queue[i]].stamp
    ensures Known(RemoveAt(queue, k), recs')
    ensures multiset(Stamps(queue, recs)) ==
            multiset(Stamps(RemoveAt(queue, k), recs')) + multiset{recs[queue[k]].stamp}
  {
    var before := Stamps(queue, recs);
    RemoveAtMultiset(before, k);
    assert Stamps(RemoveAt(queue, k), recs') == RemoveAt(before, k);
  }

  lemma StampsInsert<T>(queue: seq<T>, recs: map<T, Rec>, recs': map<T, Rec>, t: T, i: nat)
    requires Known(queue, recs) && i <= |queue| && t in recs' && Known(queue[..i] + [t] + queue[i..], recs')
    requires forall i :: 0 <= i < |queue| ==> queue[i] in recs' && recs'[queue[i]].stamp == recs[queue[i]].stamp
    ensures multiset(Stamps(queue[..i] + [t] + queue[i..], recs')) ==
            multiset(Stamps(queue, recs)) + multiset{recs'[t].stamp}
  {
    var q := queue[..i] + [t] + queue[i..];
    InsertedAt(queue, t, i);
    assert RemoveAt(q, i) == queue;
    StampsRemove(q, recs', recs', i);
    assert Stamps(queue, recs') == Stamps(queue, recs);
  }

  lemma CancelAccounted<T>(s: State<T>, t: T)
    requires Structure(s) && t in s.recs && Accounted(s)
    ensures Accounted(Cancel(s, t))
  {
    hide Remove;
    hide SortedQueue;
    hide Stamped;
    if !s.recs[t].expired {
      var k :| 0 <= k < |s.queue| && s.queue[k] == t;
      RemoveFinds(s.queue, s.recs, k);
      StampsRemove(s.queue, s.recs, Cancel(s, t).recs, k);
    }
  }

  lemma ArmAccounted<T>(s: State<T>, t: T, expiry: int)
    requires Structure(s) && t in s.recs && s.recs[t].expired && Accounted(s)
    ensures Known(Arm(s, t, expiry).queue, Arm(s, t, expiry).recs) && Accounted(Arm(s, t, expiry))
  {
    hide Upper;
    hide SortedQueue;
    hide Stamped;
    hide Stamps;
    assert t !in s.queue;
    ArmKeeps(s, t, expiry);
    var r := Arm(s, t, expiry);
    var i := Upper(s.queue, r.recs, expiry, 0, |s.queue|);
    StampsInsert(s.queue, s.recs, r.recs, t, i);
    BelowSnoc(s.arms);
  }

  lemma ExpiresAtAccounted<T>(s: State<T>, t: T, expiry: int)
    requires Structure(s) && t in s.recs && Accounted(s)
    ensures Known(ExpiresAt(s, t, expiry).queue, ExpiresAt(s, t, expiry).recs) && Accounted(ExpiresAt(s, t, expiry))
  {
    CancelKeeps(s, t);
    CancelAccounted(s, t);
    ArmAccounted(Cancel(s, t), t, expiry);
    hide Structure;
    hide Accounted;
    hide Cancel;
    hide Arm;
  }

  lemma FiredStampsSnoc(fired: seq<Fired>, f: Fired)
    ensures multiset(FiredStamps(fired + [f])) == multiset(FiredStamps(fired)) + multiset{f.stamp}
  {
    assert FiredStamps(fired + [f]) == FiredStamps(fired) + [f.stamp];
  }

  lemma FireFirstAccounted<T>(s: State<T>)
    requires Structure(s) && s.queue != [] && Accounted(s)
    ensures Accounted(FireFirst(s))
  {
    hide SortedQueue;
    hide QueuedIffArmed;
    hide Stamped;
    hide Stamps;
    var r := FireFirst(s);
    StampsRemove(s.queue, s.recs, r.recs, 0);
    assert RemoveAt(s.queue, 0) == s.queue[1..];
    FiredStampsSnoc(s.fired, Fired(s.recs[s.queue[0]].expiry, s.recs[s.queue[0]].stamp, s.now));
  }

  lemma {:induction false} FireDueAccounted<T>(s: State<T>)
    requires Structure(s) && Accounted(s)
    ensures Accounted(FireDue(s))
    decreases |s.queue|
  {
    hide Accounted;
    if s.queue != [] && s.recs[s.queue[0]].expiry <= s.now {
      FireFirstAccounted(s);
      FireFirstKeeps(s);
      FireDueAccounted(FireFirst(s));
    }
  }

  lemma ApplyAccounted<T>(s: State<T>, op: Op<T>)
    requires Known(s.queue, s.recs) && Structure(s) && Accounted(s)
    ensures Accounted(Apply(s, op))
  {
    hide Structure;
    hide Accounted;
    hide Cancel;
    hide ExpiresAt;
    hide FireDue;
    SameAccounted(s, s.(fault := true));
    match op
    case Create(t) => if t !in s.recs { SameAccounted(s, TimerSpec.Create(s, t)); }
    case CancelTimer(t) => if t in s.recs { CancelAccounted(s, t); }
    case SetExpiry(t, expiry) => if t in s.recs { ExpiresAtAccounted(s, t, expiry); }
    case SetDelay(t, delay) => if t in s.recs { ExpiresAtAccounted(s, t, s.now + delay); }
    case Wait(t) => if t in s.recs { SameAccounted(s, AsyncWait(s, t)); }
    case RunHandler => if s.ready != [] { SameAccounted(s, s.(ready := s.ready[1..])); }
    case Stop => SameAccounted(s, s.(stopped := true));
    case Restart => SameAccounted(s, s.(stopped := false));
    case AdvanceClock =>
      if s.queue != [] {
        var s1 := s.(now := s.recs[s.queue[0]].expiry);
        SameAccounted(s, s1);
        MovedKeeps(s, s1.now);
        FireDueAccounted(s1);
      }
  }

  /** In every run each arming of a timer has exactly one fate: it is queued, it
      has fired, or it was cancelled before it could. */
  lemma {:induction false} ArmingsHaveOneFate<T>(ops: seq<Op<T>>, n: nat)
    ensures var s := Exec(ops);
            && Accounted(s)
            && Fates(s.queue, s.recs, s.fired, s.cancelled)[n] == (if n < s.arms then 1 else 0)
  {
    hide Structure;
    if ops == [] {
      NothingArmed<T>();
    } else {
      var s := Exec(ops[..|ops| - 1]);
      ArmingsHaveOneFate(ops[..|ops| - 1], n);
      StructureKnown(s);
      ApplyAccounted(s, ops[|ops| - 1]);
    }
    hide Apply;
    assert multiset(Below(Exec(ops).arms))[n] == if n < Exec(ops).arms then 1 else 0;
  }

  lemma NothingArmed<T>()
    ensures Known(Begin<T>().queue, Begin<T>().recs) && Accounted(Begin<T>())
  {
    assert Stamps<T>([], map[]) == [] && FiredStamps([]) == [];
  }

  // ---------------------------------------------------------------------------
  // Clocks that go back

  /** Without the premise the clock can go back: an advance does that exactly
      when some queued timer was armed for a time before now. */
  lemma ClockGoesBackExactly<T>(ops: seq<Op<T>>)
    ensures var s := Exec(ops);
            Advance(s).now < s.now <==> exists t :: t in s.queue && s.recs[t].expiry < s.now
  {
    var s := Exec(ops);
    if s.queue != [] {
      FireDueNow(s.(now := s.recs[s.queue[0]].expiry));
      assert s.queue[0] in s.queue;
      forall j | 0 < j < |s.queue| ensures s.recs[s.queue[j]].expiry >= s.recs[s.queue[0]].expiry {
        assert s.recs[s.queue[0]].Before(s.recs[s.queue[j]]);
      }
    }
  }

  /** It happens: a timer armed for five before the start. */
  lemma ClockGoesBackOnce(t: nat)
    ensures Exec([Create(t), SetExpiry(t, -5), AdvanceClock]).now == -5
  {
    var ops := [Create(t), SetExpiry(t, -5), AdvanceClock];
    assert ops[..2] == [ops[0], ops[1]] && ops[..2][..1] == [ops[0]] && [ops[0]][..0] == [];
    var s0: State<nat> := Begin();
    assert Exec<nat>([]) == s0;
    var s1 := s0.(recs := map[t := Rec(0, true, None, 0)]);
    assert Exec([ops[0]]) == s1;
    var s2 := Exec(ops[..2]);
    assert s2 == ExpiresAt(s1, t, -5);
    assert Upper<nat>([], s2.recs, -5, 0, 0) == 0;
    assert s2.queue == [t] && s2.recs[t].expiry == -5 && s2.ready == [];
    FireDueNow(s2.(now := -5));
  }

  lemma {:induction false} FireDueNow<T>(s: State<T>)
    requires Known(s.queue, s.recs)
    ensures FireDue(s).now == s.now && FireDue(s).fault == s.fault
    decreases |s.queue|
  {
    if s.queue != [] && s.recs[s.queue[0]].expiry <= s.now {
      FireDueNow(FireFirst(s));
    }
  }
}
