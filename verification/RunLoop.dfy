/** The loop of `simulation::run` (src/simulation.cpp:49-131) with its detection
    of a clock that does not move. */
module RunLoop {
  import opened TimerSpec
  import opened TimerFacts
  import opened EventLoop

  const MAX_STALLED := 1000

  /** One handler that `poll` runs and the operations it performs: the oldest one
      that a timer posted, or one that other code posted. */
  datatype Handler<T> = Handler(timer: bool, ops: seq<Op<T>>)

  datatype Outcome = Running | Returned | Threw | Aborted

  /** `times` is the clock after each round that executed something; `Running`
      means that the script of rounds ended first, `Aborted` that a handler failed
      an assertion. */
  datatype Result<T> = Result(s: State<T>, times: seq<int>, executed: nat, outcome: Outcome)

  function Applied<T(==)>(s: State<T>, ops: seq<Op<T>>): (r: State<T>)
    requires Structure(s)
    ensures Structure(r)
    decreases |ops|
  {
    if ops == [] then s else Applied(Apply(s, ops[0]), ops[1..])
  }

  /** What a handler can do: it does not move the clock or run other handlers. */
  function Own<T>(ops: seq<Op<T>>): (r: seq<Op<T>>)
  {
    if ops == [] then []
    else (if ops[0].AdvanceClock? || ops[0].RunHandler? then [] else [ops[0]]) + Own(ops[1..])
  }

  /** A timer's handler runs only if one is ready. */
  predicate Runs<T>(s: State<T>, h: Handler<T>)
  {
    h.timer ==> s.ready != []
  }

  function HandlerOps<T>(s: State<T>, h: Handler<T>): (r: seq<Op<T>>)
  {
    if !Runs(s, h) then [] else (if h.timer then [RunHandler] else []) + Own(h.ops)
  }

  function Repeat<T>(op: Op<T>, n: nat): (r: seq<Op<T>>)
    ensures |r| == n
    ensures forall i :: 0 <= i < n ==> r[i] == op
  {
    seq(n, _ => op)
  }

  /** `poll` runs handlers until none is ready; those that the script does not
      mention do nothing to the timers.  A failed assertion ends it.  The result is
      also how many it ran. */
  function Poll<T(==)>(s: State<T>, handlers: seq<Handler<T>>): (r: (State<T>, nat))
    requires Structure(s)
    ensures Structure(r.0) && (r.0.fault || r.0.ready == [])
    decreases |handlers|
  {
    if s.fault then (s, 0)
    else if handlers == [] then
      DrainedKeeps(s);
      (s.(ready := []), |s.ready|)
    else
      var p := Poll(Applied(s, HandlerOps(s, handlers[0])), handlers[1..]);
      (p.0, p.1 + if Runs(s, handlers[0]) then 1 else 0)
  }

  lemma DrainedKeeps<T>(s: State<T>)
    requires Structure(s)
    ensures Structure(s.(ready := []))
  {
  }

  function Round<T(==)>(s: State<T>, handlers: seq<Handler<T>>): (r: (State<T>, nat))
    requires Structure(s)
    ensures Structure(r.0)
  {
    var (polled, ran) := Poll(s, handlers);
    if polled.fault then (polled, ran)
    else
      AdvanceKeeps(polled);
      var advanced := Advance(polled);
      (advanced, ran + (|advanced.fired| - |polled.fired|))
  }

  /** A round that executed nothing, or in which a handler stopped the
      simulation, is the last. */
  function Loop<T(==)>(s: State<T>, prev: int, stalled: nat, script: seq<seq<Handler<T>>>): (r: Result<T>)
    requires Structure(s)
    decreases |script|
  {
    if script == [] then Result(s, [], 0, Running)
    else
      var (s1, last) := Round(s, script[0]);
      if s1.fault then Result(s1, [], last, Aborted)
      else if last == 0 then Result(s1, [], 0, Returned)
      else if s1.now == prev && stalled + 1 > MAX_STALLED then Result(Unwind(s1), [s1.now], last, Threw)
      else
        var rest := if s1.stopped then Result(s1, [], 0, Returned)
                    else Loop(s1, s1.now, if s1.now == prev then stalled + 1 else 0, script[1..]);
        Prepend([s1.now], last, rest)
  }

  function Prepend<T>(times: seq<int>, executed: nat, r: Result<T>): (p: Result<T>)
  {
    r.(times := times + r.times, executed := executed + r.executed)
  }

  lemma PrependTwice<T>(a: seq<int>, m: nat, b: seq<int>, n: nat, r: Result<T>)
    ensures Prepend(a, m, Prepend(b, n, r)) == Prepend(a + b, m + n, r)
  {
    assert a + (b + r.times) == (a + b) + r.times;
  }

  /** The loop as written, over local counters. */
  method Run<T(==)>(s0: State<T>, script: seq<seq<Handler<T>>>) returns (r: Result<T>)
    requires Structure(s0)
    ensures r == Loop(s0, s0.now, 0, script)
  {
    hide Round;
    hide Unwind;
    hide SortedQueue;
    hide QueuedIffArmed;
    hide Stamped;
    var s, prev, stalled, times, total := s0, s0.now, 0, [], 0;
    ghost var goal := Loop(s0, s0.now, 0, script);
    assert script[0..] == script && [] + goal.times == goal.times;
    for i := 0 to |script|
      invariant Structure(s) && stalled >= 0 && total >= 0
      invariant goal == Prepend(times, total, Loop(s, prev, stalled, script[i..]))
    {
      assert script[i..][1..] == script[i + 1..];
      var (s1, last) := Round(s, script[i]);
      ghost var before, sum := times, total;
      s := s1;
      total := total + last;
      if s1.fault {
        r := Result(s1, times, total, Aborted);
        assert before + [] == before;
        return;
      }
      if last > 0 {
        times := times + [s1.now];
        if s1.now == prev {
          stalled := stalled + 1;
          if stalled > MAX_STALLED {
            r := Result(Unwind(s1), times, total, Threw);
            return;
          }
        } else {
          stalled := 0;
          prev := s1.now;
        }
      }
      if last == 0 || s1.stopped {
        r := Result(s1, times, total, Returned);
        assert times + [] == times && before + [] == before;
        return;
      }
      PrependTwice(before, sum, [s1.now], last, Loop(s1, prev, stalled, script[i + 1..]));
    }
    assert times + [] == times;
    r := Result(s, times, total, Running);
  }

  // ---------------------------------------------------------------------------
  // A run of the loop is a run of the simulation

  lemma {:induction false} AppliedConcat<T>(s: State<T>, a: seq<Op<T>>, b: seq<Op<T>>)
    requires Structure(s)
    ensures Applied(s, a + b) == Applied(Applied(s, a), b)
    decreases |a|
  {
    hide Structure;
    hide Apply;
    if a == [] {
      assert a + b == b;
    } else {
      assert (a + b)[1..] == a[1..] + b;
      AppliedConcat(Apply(s, a[0]), a[1..], b);
    }
  }

  lemma {:induction false} ExecApplied<T>(ops: seq<Op<T>>, more: seq<Op<T>>)
    ensures Exec(ops + more) == Applied(Exec(ops), more)
    decreases |more|
  {
    hide Structure;
    hide Apply;
    if more == [] {
      assert ops + more == ops;
    } else {
      var first := ops + [more[0]];
      assert first[..|ops|] == ops;
      assert ops + more == first + more[1..];
      ExecApplied(first, more[1..]);
    }
  }

  /** The operations of one `poll`. */
  function PollOps<T(==)>(s: State<T>, handlers: seq<Handler<T>>): (r: seq<Op<T>>)
    requires Structure(s)
    decreases |handlers|
  {
    if s.fault then []
    else if handlers == [] then Repeat(RunHandler, |s.ready|)
    else
      var ops := HandlerOps(s, handlers[0]);
      ops + PollOps(Applied(s, ops), handlers[1..])
  }

  /** The operations of `run`: in each round those of the handlers and one
      advance of the clock, and on the exception path the cancelling of all
      timers. */
  function LoopOps<T(==)>(s: State<T>, prev: int, stalled: nat, script: seq<seq<Handler<T>>>): (r: seq<Op<T>>)
    requires Structure(s)
    decreases |script|
  {
    if script == [] then []
    else
      var ops := PollOps(s, script[0]) + [AdvanceClock];
      var (s1, last) := Round(s, script[0]);
      if s1.fault || last == 0 then ops
      else if s1.now == prev && stalled + 1 > MAX_STALLED then ops + (Cancels(s1.queue) + [Stop])
      else if s1.stopped then ops
      else ops + LoopOps(s1, s1.now, if s1.now == prev then stalled + 1 else 0, script[1..])
  }

  function Cancels<T>(queue: seq<T>): (r: seq<Op<T>>)
  {
    if queue == [] then [] else [CancelTimer(queue[0])] + Cancels(queue[1..])
  }

  lemma {:induction false} DrainIsRunning<T>(s: State<T>)
    requires Structure(s) && !s.fault
    ensures Applied(s, Repeat(RunHandler, |s.ready|)) == s.(ready := [])
    decreases |s.ready|
  {
    hide Structure;
    if s.ready != [] {
      var r := Apply(s, RunHandler);
      var ops := Repeat<T>(RunHandler, |s.ready|);
      assert r == s.(ready := s.ready[1..]);
      assert ops[1..] == Repeat(RunHandler, |r.ready|);
      DrainIsRunning(r);
    }
  }

  lemma AppliedNone<T>(s: State<T>)
    requires Structure(s)
    ensures Applied(s, []) == s
  {
  }

  lemma {:induction false} PollIsRun<T>(s: State<T>, handlers: seq<Handler<T>>)
    requires Structure(s)
    ensures Applied(s, PollOps(s, handlers)) == Poll(s, handlers).0
    decreases |handlers|
  {
    hide Structure;
    hide Applied;
    if s.fault {
      AppliedNone(s);
    } else if handlers == [] {
      DrainIsRunning(s);
    } else {
      var ops := HandlerOps(s, handlers[0]);
      var s1 := Applied(s, ops);
      PollIsRun(s1, handlers[1..]);
      AppliedConcat(s, ops, PollOps(s1, handlers[1..]));
    }
  }

  lemma RoundIsRun<T>(s: State<T>, handlers: seq<Handler<T>>)
    requires Structure(s)
    ensures Applied(s, PollOps(s, handlers) + [AdvanceClock]) == Round(s, handlers).0
  {
    hide Structure;
    hide Poll;
    hide PollOps;
    var polled := Poll(s, handlers).0;
    PollIsRun(s, handlers);
    AppliedConcat(s, PollOps(s, handlers), [AdvanceClock]);
    assert Applied(polled, [AdvanceClock]) == Apply(polled, AdvanceClock);
  }

  lemma CancelKeepsFault<T>(s: State<T>, t: T)
    requires Known(s.queue, s.recs) && t in s.recs
    ensures Cancel(s, t).fault == s.fault
  {
  }

  lemma {:induction false} CancelAllIsRun<T>(s: State<T>, copy: seq<T>)
    requires Structure(s) && Known(s.queue, s.recs) && Known(copy, s.recs) && !s.fault
    ensures Applied(s, Cancels(copy)) == CancelAll(s, copy) && !CancelAll(s, copy).fault
    decreases |copy|
  {
    hide Structure;
    hide Cancel;
    if copy != [] {
      var r := Apply(s, CancelTimer(copy[0]));
      CancelKeepsFault(s, copy[0]);
      assert r == Cancel(s, copy[0]);
      assert Cancels(copy)[1..] == Cancels(copy[1..]);
      CancelAllIsRun(r, copy[1..]);
    }
  }

  lemma UnwindIsRun<T>(s: State<T>)
    requires Known(s.queue, s.recs) && Structure(s) && !s.fault
    ensures Applied(s, Cancels(s.queue) + [Stop]) == Unwind(s) && !Unwind(s).fault
  {
    hide Structure;
    hide CancelAll;
    CancelAllIsRun(s, s.queue);
    AppliedConcat(s, Cancels(s.queue), [Stop]);
    var c := Applied(s, Cancels(s.queue));
    assert Applied(c, [Stop]) == Apply(c, Stop);
  }

  lemma {:induction false} LoopIsApplied<T>(s: State<T>, prev: int, stalled: nat, script: seq<seq<Handler<T>>>)
    requires Structure(s)
    ensures Applied(s, LoopOps(s, prev, stalled, script)) == Loop(s, prev, stalled, script).s
    decreases |script|
  {
    hide Structure;
    hide Round;
    hide PollOps;
    hide Unwind;
    hide Cancels;
    if script == [] {
    } else {
      var ops := PollOps(s, script[0]) + [AdvanceClock];
      var (s1, last) := Round(s, script[0]);
      RoundIsRun(s, script[0]);
      StructureKnown(s1);
      if !s1.fault && last > 0 {
        var stalled1 := if s1.now == prev then stalled + 1 else 0;
        if s1.now == prev && stalled + 1 > MAX_STALLED {
          UnwindIsRun(s1);
          AppliedConcat(s, ops, Cancels(s1.queue) + [Stop]);
        } else if !s1.stopped {
          LoopIsApplied(s1, s1.now, stalled1, script[1..]);
          AppliedConcat(s, ops, LoopOps(s1, s1.now, stalled1, script[1..]));
        }
      }
    }
  }

  // ---------------------------------------------------------------------------
  // The exception

  /** The clock before round `i`. */
  function TimeBefore(start: int, times: seq<int>, i: nat): (r: int)
    requires i <= |times|
  {
    if i == 0 then start else times[i - 1]
  }

  /** How many of the last rounds did not move the clock. */
  function Stalled(start: int, times: seq<int>): (r: nat)
    ensures r <= |times|
  {
    var n := |times|;
    if n == 0 || times[n - 1] != TimeBefore(start, times, n - 1) then 0
    else 1 + Stalled(start, times[..n - 1])
  }

  /** The last `m` rounds did not move the clock. */
  predicate Unmoved(start: int, times: seq<int>, m: nat)
  {
    m <= |times| && forall i :: |times| - m <= i < |times| ==> times[i] == TimeBefore(start, times, i)
  }

  lemma {:induction false} StalledCounts(start: int, times: seq<int>, m: nat)
    ensures Stalled(start, times) >= m <==> Unmoved(start, times, m)
  {
    var n := |times|;
    if m > 0 && n > 0 {
      var front := times[..n - 1];
      StalledCounts(start, front, m - 1);
      if Unmoved(start, times, m) {
        forall i | |front| - (m - 1) <= i < |front| ensures front[i] == TimeBefore(start, front, i) {
          assert times[i] == TimeBefore(start, times, i);
        }
        assert times[n - 1] == TimeBefore(start, times, n - 1);
      }
      if Stalled(start, times) >= m {
        forall i | n - m <= i < n ensures times[i] == TimeBefore(start, times, i) {
          if i < n - 1 {
            assert front[i] == TimeBefore(start, front, i);
          }
        }
      }
    }
  }

  lemma StalledSnoc(start: int, done: seq<int>, now: int)
    ensures Stalled(start, done + [now]) ==
            if now == TimeBefore(start, done, |done|) then Stalled(start, done) + 1 else 0
    ensures TimeBefore(start, done + [now], |done| + 1) == now
  {
    assert (done + [now])[..|done|] == done;
  }

  /** The loop throws at the first round that makes the count exceed the limit. */
  ghost predicate ThrowsFirst(start: int, done: seq<int>, times: seq<int>, threw: bool)
  {
    && (threw <==> Stalled(start, done + times) > MAX_STALLED)
    && (forall k :: 0 <= k < |times| ==> Stalled(start, done + times[..k]) <= MAX_STALLED)
  }

  lemma ThrowsFirstPrepend(start: int, done: seq<int>, now: int, times: seq<int>, threw: bool)
    requires Stalled(start, done) <= MAX_STALLED
    requires ThrowsFirst(start, done + [now], times, threw)
    ensures ThrowsFirst(start, done, [now] + times, threw)
  {
    hide Stalled;
    assert done + ([now] + times) == (done + [now]) + times;
    var all := [now] + times;
    forall k | 0 <= k < |all| ensures Stalled(start, done + all[..k]) <= MAX_STALLED {
      PrefixOf(done, now, times, k);
    }
  }

  lemma PrefixOf(done: seq<int>, now: int, times: seq<int>, k: nat)
    requires k <= |times|
    ensures done + ([now] + times)[..k] == if k == 0 then done else (done + [now]) + times[..k - 1]
  {
  }

  lemma NoMoreRounds(start: int, done: seq<int>)
    requires Stalled(start, done) <= MAX_STALLED
    ensures ThrowsFirst(start, done, [], false)
  {
    assert done + [] == done;
  }

  lemma {:induction false} LoopThrowsFirst<T>(s: State<T>, start: int, done: seq<int>, script: seq<seq<Handler<T>>>)
    requires Structure(s) && Stalled(start, done) <= MAX_STALLED
    ensures var r := Loop(s, TimeBefore(start, done, |done|), Stalled(start, done), script);
            ThrowsFirst(start, done, r.times, r.outcome.Threw?)
    decreases |script|
  {
    hide Round;
    hide Unwind;
    hide ThrowsFirst;
    hide Stalled;
    NoMoreRounds(start, done);
    if script != [] {
      var (s1, last) := Round(s, script[0]);
      var now := s1.now;
      StalledSnoc(start, done, now);
      if !s1.fault && last > 0 {
        if now == TimeBefore(start, done, |done|) && Stalled(start, done) + 1 > MAX_STALLED {
          LastRound(start, done, now);
        } else if s1.stopped {
          NoMoreRounds(start, done + [now]);
          ThrowsFirstPrepend(start, done, now, [], false);
        } else {
          LoopThrowsFirst(s1, start, done + [now], script[1..]);
          var rest := Loop(s1, now, Stalled(start, done + [now]), script[1..]);
          ThrowsFirstPrepend(start, done, now, rest.times, rest.outcome.Threw?);
        }
      }
    }
  }

  lemma LastRound(start: int, done: seq<int>, now: int)
    requires Stalled(start, done) <= MAX_STALLED < Stalled(start, done + [now])
    ensures ThrowsFirst(start, done, [now], true)
  {
    assert [now][..0] == [];
    assert done + [] == done;
  }

  /** The run ends in the exception if and only if 1001 consecutive rounds
      executed something without moving the clock, and it does so at the first
      such moment. */
  lemma ThrowsExactlyWhenStalled<T>(s: State<T>, script: seq<seq<Handler<T>>>)
    requires Structure(s)
    ensures var r := Loop(s, s.now, 0, script);
            && (r.outcome.Threw? <==> Unmoved(s.now, r.times, 1001))
            && (forall k :: 0 <= k < |r.times| ==> !Unmoved(s.now, r.times[..k], 1001))
  {
    LoopThrowsFirst(s, s.now, [], script);
    var r := Loop(s, s.now, 0, script);
    StalledCounts(s.now, r.times, MAX_STALLED + 1);
    assert [] + r.times == r.times;
    forall k | 0 <= k < |r.times| ensures !Unmoved(s.now, r.times[..k], MAX_STALLED + 1) {
      StalledCounts(s.now, r.times[..k], MAX_STALLED + 1);
      assert [] + r.times[..k] == r.times[..k];
    }
  }

  lemma UnwindKeeps<T>(s: State<T>)
    requires Known(s.queue, s.recs) && Structure(s)
    ensures Structure(Unwind(s)) && Unwind(s).queue == []
  {
    CancelAllEmpties(s, s.queue);
  }

  /** Every outcome leaves a well-formed timer queue, the exception leaves an empty
      one, and only a failed assertion aborts. */
  lemma {:induction false} LoopKeeps<T>(s: State<T>, prev: int, stalled: nat, script: seq<seq<Handler<T>>>)
    requires Structure(s)
    ensures var r := Loop(s, prev, stalled, script);
            && Structure(r.s) && (r.outcome.Threw? ==> r.s.queue == [])
            && (!s.fault ==> (r.outcome.Aborted? <==> r.s.fault))
    decreases |script|
  {
    hide Round;
    hide Structure;
    hide Unwind;
    if script != [] {
      var (s1, last) := Round(s, script[0]);
      StructureKnown(s1);
      UnwindKeeps(s1);
      if !s1.fault {
        UnwindIsRun(s1);
      }
      if !s1.fault && !s1.stopped {
        LoopKeeps(s1, s1.now, if s1.now == prev then stalled + 1 else 0, script[1..]);
      }
    }
  }

  /** `run`, called in any state that can be reached, ends in a state that can be
      reached, with whatever outcome; so everything that holds in every run of
      timer operations holds for it.  In particular, if no timer is armed for the
      past, the timers that `run` fires fire at their expiry and in order of
      expiry and then of arming; and `run` aborts if and only if some operation
      fails an assertion. */
  lemma RunIsARun<T>(ops: seq<Op<T>>, script: seq<seq<Handler<T>>>)
    ensures var s := Exec(ops);
            var loop := Loop(s, s.now, 0, script);
            var r := loop.s;
            var all := ops + LoopOps(s, s.now, 0, script);
            && r == Exec(all)
            && Structure(r) && Handlers(r.recs, r.posts, r.waits) && Accounted(r)
            && (Punctual(all) ==> Timely(r))
            && (!s.fault ==> (loop.outcome.Aborted? <==> exists k: nat :: k < |all| && AssertsAt(all, k)))
  {
    hide Structure;
    hide Handlers;
    hide Timely;
    hide Accounted;
    hide Punctual;
    hide AssertsAt;
    var s := Exec(ops);
    var more := LoopOps(s, s.now, 0, script);
    LoopIsApplied(s, s.now, 0, script);
    ExecApplied(ops, more);
    HandlersOnce(ops + more);
    ArmingsHaveOneFate(ops + more, 0);
    LoopKeeps(s, s.now, 0, script);
    FaultsExactly(ops + more);
    if Punctual(ops + more) {
      TimersFireInOrder(ops + more);
    }
  }
}
