/** When `run` returns, and what it counts. */
module RunReturns {
  import opened EventLoop
  import opened RunLoop
  import opened TimerFacts
  import opened TimerSpec

  /** The posted handlers that have run: those that are not ready any more. */
  function Handled<T>(s: State<T>): (n: int)
  {
    |s.posts| - |s.ready|
  }

  /** The handlers of other code among some. */
  function Foreign<T>(handlers: seq<Handler<T>>): (n: nat)
  {
    if handlers == [] then 0 else (if handlers[0].timer then 0 else 1) + Foreign(handlers[1..])
  }

  function ForeignIn<T>(script: seq<seq<Handler<T>>>): (n: nat)
  {
    if script == [] then 0 else Foreign(script[0]) + ForeignIn(script[1..])
  }

  // ---------------------------------------------------------------------------
  // Operations

  lemma FireHandled<T>(s: State<T>, t: T, aborted: bool)
    requires t in s.recs
    ensures Handled(Fire(s, t, aborted)) == Handled(s) && Fire(s, t, aborted).fired == s.fired
  {
  }

  /** What a handler does runs no posted handler and fires no timer. */
  lemma OwnHandled<T>(s: State<T>, op: Op<T>)
    requires Structure(s) && !op.RunHandler? && !op.AdvanceClock?
    ensures Handled(Apply(s, op)) == Handled(s) && Apply(s, op).fired == s.fired
    ensures s.fault ==> Apply(s, op) == s
  {
    hide Structure;
    hide Remove;
    hide Insert;
    StructureKnown(s);
  }

  lemma {:induction false} OwnApplied<T>(s: State<T>, ops: seq<Op<T>>)
    requires Structure(s)
    ensures var r := Applied(s, Own(ops)); Handled(r) == Handled(s) && r.fired == s.fired && (s.fault ==> r == s)
    decreases |ops|
  {
    hide Structure;
    hide Apply;
    if ops != [] {
      if ops[0].AdvanceClock? || ops[0].RunHandler? {
        assert Own(ops) == Own(ops[1..]);
        OwnApplied(s, ops[1..]);
      } else {
        assert Own(ops) == [ops[0]] + Own(ops[1..]);
        assert Own(ops)[1..] == Own(ops[1..]);
        OwnHandled(s, ops[0]);
        OwnApplied(Apply(s, ops[0]), ops[1..]);
      }
    }
  }

  lemma RunHandlerHandled<T>(s: State<T>)
    requires Structure(s) && !s.fault && s.ready != []
    ensures var r := Apply(s, RunHandler); Handled(r) == Handled(s) + 1 && r.fired == s.fired && !r.fault
  {
    hide Structure;
  }

  lemma HandlerApplied<T>(s: State<T>, h: Handler<T>)
    requires Structure(s) && !s.fault
    ensures var r := Applied(s, HandlerOps(s, h));
            && Handled(r) == Handled(s) + (if h.timer && s.ready != [] then 1 else 0)
            && r.fired == s.fired
            && (!Runs(s, h) ==> r == s)
  {
    hide Structure;
    hide Apply;
    if Runs(s, h) {
      if h.timer {
        RunHandlerHandled(s);
        var ops: seq<Op<T>> := [RunHandler];
        AppliedConcat(s, ops, Own(h.ops));
        assert ops[1..] == [];
        assert Applied(s, ops) == Apply(s, RunHandler);
        OwnApplied(Apply(s, RunHandler), h.ops);
      } else {
        assert [] + Own(h.ops) == Own(h.ops);
        OwnApplied(s, h.ops);
      }
    }
  }

  // ---------------------------------------------------------------------------
  // Rounds

  lemma {:induction false} PollCounts<T>(s: State<T>, handlers: seq<Handler<T>>)
    requires Structure(s) && !Poll(s, handlers).0.fault
    ensures var (r, ran) := Poll(s, handlers);
            && ran == Handled(r) - Handled(s) + Foreign(handlers)
            && r.fired == s.fired
            && (ran == 0 ==> r == s)
            && (s.ready == [] && Foreign(handlers) == 0 ==> r == s)
    decreases |handlers|
  {
    hide Structure;
    hide Applied;
    hide HandlerOps;
    if s.fault {
    } else if handlers == [] {
    } else {
      HandlerApplied(s, handlers[0]);
      PollCounts(Applied(s, HandlerOps(s, handlers[0])), handlers[1..]);
    }
  }

  lemma {:induction false} FireDueHandled<T>(s: State<T>)
    requires Known(s.queue, s.recs)
    ensures Handled(FireDue(s)) == Handled(s)
    decreases |s.queue|
  {
    if s.queue != [] && s.recs[s.queue[0]].expiry <= s.now {
      FireDueHandled(FireFirst(s));
    }
  }

  lemma AdvanceCounts<T>(s: State<T>)
    requires Known(s.queue, s.recs) && Structure(s)
    ensures var r := Advance(s);
            && Handled(r) == Handled(s)
            && (|r.fired| == |s.fired| <==> s.queue == [])
            && (s.queue == [] ==> r == s)
            && r.fault == s.fault
  {
    hide Structure;
    hide FireDue;
    if s.queue != [] {
      AdvanceTakes(s);
      FireDueHandled(s.(now := s.recs[s.queue[0]].expiry));
      FireDueNow(s.(now := s.recs[s.queue[0]].expiry));
    }
  }

  /** A round executes as many handlers as its history says: the posted ones that
      are not ready any more, those of other code, and the timers that fired.  It
      executes nothing if and only if nothing is ready, no timer is queued, and no
      other code has a handler. */
  lemma RoundCounts<T>(s: State<T>, handlers: seq<Handler<T>>)
    requires Structure(s) && !Round(s, handlers).0.fault
    ensures var (r, n) := Round(s, handlers);
            && n == Handled(r) - Handled(s) + Foreign(handlers) + |r.fired| - |s.fired|
            && (n == 0 <==> s.ready == [] && s.queue == [] && Foreign(handlers) == 0)
            && (n == 0 ==> r == s)
  {
    hide Structure;
    hide Poll;
    hide Advance;
    var (polled, ran) := Poll(s, handlers);
    StructureKnown(polled);
    if !polled.fault {
      PollCounts(s, handlers);
      AdvanceCounts(polled);
      assert ran == 0 ==> polled.ready == s.ready;
    }
  }

  // ---------------------------------------------------------------------------
  // The loop

  lemma {:induction false} CancelAllHandled<T>(s: State<T>, copy: seq<T>)
    requires Known(s.queue, s.recs) && Known(copy, s.recs)
    ensures var r := CancelAll(s, copy); Handled(r) == Handled(s) && r.fired == s.fired
    decreases |copy|
  {
    hide Remove;
    if copy != [] {
      CancelAllHandled(Cancel(s, copy[0]), copy[1..]);
    }
  }

  /** Unless an assertion failed, what `run` counts is the posted handlers that ran,
      the handlers of other code in its rounds, and the timers that fired. */
  lemma {:induction false} RunCountsExactly<T>(s: State<T>, prev: int, stalled: nat, script: seq<seq<Handler<T>>>)
    requires Structure(s)
    ensures var r := Loop(s, prev, stalled, script);
            && |r.times| <= |script|
            && (!r.outcome.Aborted? ==>
                  r.executed == Handled(r.s) - Handled(s) + |r.s.fired| - |s.fired| + ForeignIn(script[..|r.times|]))
    decreases |script|
  {
    hide Structure;
    hide Round;
    hide CancelAll;
    if script == [] {
    } else {
      var (s1, last) := Round(s, script[0]);
      StructureKnown(s1);
      if !s1.fault {
        RoundCounts(s, script[0]);
        CancelAllHandled(s1, s1.queue);
        assert script[..1][0] == script[0] && script[..1][1..] == [];
        if last > 0 && !(s1.now == prev && stalled + 1 > MAX_STALLED) && !s1.stopped {
          var stalled1 := if s1.now == prev then stalled + 1 else 0;
          RunCountsExactly(s1, s1.now, stalled1, script[1..]);
          var n := |Loop(s1, s1.now, stalled1, script[1..]).times|;
          assert script[..n + 1][0] == script[0] && script[..n + 1][1..] == script[1..][..n];
        }
      }
    }
  }

  /** `run` returns only when it was stopped, or nothing is ready and no timer is
      queued; while rounds are left it goes on, each of them executing something,
      and it does not go on once it was stopped. */
  lemma {:induction false} ReturnsOnlyWhenIdle<T>(s: State<T>, prev: int, stalled: nat, script: seq<seq<Handler<T>>>)
    requires Structure(s)
    ensures var r := Loop(s, prev, stalled, script);
            && (r.outcome.Returned? ==> r.s.stopped || (r.s.ready == [] && r.s.queue == []))
            && (r.outcome.Running? ==> |r.times| == |script| && (script != [] ==> !r.s.stopped))
    decreases |script|
  {
    hide Structure;
    hide Round;
    hide Unwind;
    if script != [] {
      var (s1, last) := Round(s, script[0]);
      if !s1.fault {
        RoundCounts(s, script[0]);
        if last > 0 && !(s1.now == prev && stalled + 1 > MAX_STALLED) && !s1.stopped {
          ReturnsOnlyWhenIdle(s1, s1.now, if s1.now == prev then stalled + 1 else 0, script[1..]);
        }
      }
    }
  }

  /** The round in which nothing is left to do is the last one: it changes nothing
      and counts nothing.  In any other round something is executed. */
  lemma IdleRoundReturns<T>(s: State<T>, prev: int, stalled: nat, script: seq<seq<Handler<T>>>)
    requires Structure(s) && script != [] && !Round(s, script[0]).0.fault
    ensures var r := Loop(s, prev, stalled, script);
            var idle := s.ready == [] && s.queue == [] && Foreign(script[0]) == 0;
            && (idle ==> r == Result(s, [], 0, Returned))
            && (!idle ==> r.executed > 0 && |r.times| > 0)
  {
    hide Structure;
    hide Round;
    hide Unwind;
    RoundCounts(s, script[0]);
    var (s1, last) := Round(s, script[0]);
    if last > 0 && !(s1.now == prev && stalled + 1 > MAX_STALLED) && !s1.stopped {
      var rest := Loop(s1, s1.now, if s1.now == prev then stalled + 1 else 0, script[1..]);
      assert [s1.now] + rest.times != [];
    }
  }

  /** Once `run` has ended, further rounds are not looked at. */
  lemma {:induction false} EndedIsEnded<T>(s: State<T>, prev: int, stalled: nat,
                                           script: seq<seq<Handler<T>>>, more: seq<seq<Handler<T>>>)
    requires Structure(s) && !Loop(s, prev, stalled, script).outcome.Running?
    ensures Loop(s, prev, stalled, script + more) == Loop(s, prev, stalled, script)
    decreases |script|
  {
    hide Structure;
    hide Round;
    hide Unwind;
    if script != [] {
      assert (script + more)[1..] == script[1..] + more;
      var (s1, last) := Round(s, script[0]);
      if !s1.fault && last > 0 && !(s1.now == prev && stalled + 1 > MAX_STALLED) && !s1.stopped {
        EndedIsEnded(s1, s1.now, if s1.now == prev then stalled + 1 else 0, script[1..], more);
      }
    }
  }
}
