/** The timer object and the simulation that queues it, proved against TimerSpec. */
module Timers {
  import opened Options
  import opened Sequences
  import opened TimerSpec
  import opened TimerFacts

  class Timer {
    var expiry: int
    var expired: bool
    var handler: Option<nat>
    ghost var stamp: nat

    constructor ()
      ensures expiry == 0 && expired && handler == None && stamp == 0
    {
      expiry, expired, handler, stamp := 0, true, None, 0;
    }

    ghost function Record(): (r: Rec)
      reads this
    {
      Rec(expiry, expired, handler, stamp)
    }
  }

  /** The records of a set of timers. */
  ghost function Records(all: set<Timer>): (m: map<Timer, Rec>)
    reads all
  {
    map t | t in all :: t.Record()
  }

  class Simulation {
    var now: int
    var queue: seq<Timer>
    var ready: seq<Post>
    var stopped: bool
    var waits: nat
    ghost var all: set<Timer>
    ghost var posts: seq<Post>
    ghost var fired: seq<Fired>
    ghost var cancelled: seq<nat>
    ghost var waitedOn: seq<Option<nat>>
    ghost var arms: nat

    ghost function View(): (s: State<Timer>)
      reads this, all
    {
      State(now, queue, Records(all), ready, stopped, false, posts, fired, cancelled, waits, waitedOn, arms)
    }

    constructor ()
      ensures View() == State(0, [], map[], [], false, false, [], [], [], 0, [], 0)
    {
      now, queue, ready, stopped, waits := 0, [], [], false, 0;
      all, posts, fired, cancelled, waitedOn, arms := {}, [], [], [], [], 0;
      new;
      assert Records(all) == map[];
    }

    /** A timer of this simulation. */
    method NewTimer() returns (t: Timer)
      modifies this`all
      ensures fresh(t) && t in all
      ensures View() == TimerSpec.Create(old(View()), t)
    {
      t := new Timer();
      all := all + {t};
      assert Records(all) == old(Records(all))[t := t.Record()];
    }

    method Stop()
      modifies this`stopped
      ensures View() == old(View()).(stopped := true)
    {
      stopped := true;
    }

    method Restart()
      modifies this`stopped
      ensures View() == old(View()).(stopped := false)
    {
      stopped := false;
    }

    method UpperBound(key: int) returns (i: nat)
      requires Known(queue, Records(all))
      ensures i == Upper(queue, Records(all), key, 0, |queue|) && i <= |queue|
    {
      var lo, hi := 0, |queue|;
      while lo < hi
        invariant 0 <= lo <= hi <= |queue|
        invariant Upper(queue, Records(all), key, lo, hi) == Upper(queue, Records(all), key, 0, |queue|)
      {
        var mid := (lo + hi) / 2;
        assert queue[mid] in Records(all);
        if key < queue[mid].expiry { hi := mid; } else { lo := mid + 1; }
      }
      i := lo;
    }

    method LowerBound(key: int) returns (i: nat)
      requires Known(queue, Records(all))
      ensures i == Lower(queue, Records(all), key, 0, |queue|) && i <= |queue|
    {
      var lo, hi := 0, |queue|;
      while lo < hi
        invariant 0 <= lo <= hi <= |queue|
        invariant Lower(queue, Records(all), key, lo, hi) == Lower(queue, Records(all), key, 0, |queue|)
      {
        var mid := (lo + hi) / 2;
        assert queue[mid] in Records(all);
        if queue[mid].expiry < key { lo := mid + 1; } else { hi := mid; }
      }
      i := lo;
    }

    /** `add_timer`: after all timers that expire no later.  It is an error to
        queue a timer while the simulation is stopped. */
    method AddTimer(t: Timer)
      requires Known(queue, Records(all)) && t in all && !stopped
      modifies this`queue
      ensures queue == Insert(old(queue), Records(all), t)
    {
      var i := UpperBound(t.expiry);
      queue := queue[..i] + [t] + queue[i..];
    }

    /** `remove_timer`: search the timers with the same expiry. */
    method RemoveTimer(t: Timer)
      requires Known(queue, Records(all)) && t in all
      modifies this`queue
      ensures queue == Remove(old(queue), Records(all), t)
    {
      hide Lower;
      hide Upper;
      hide Find;
      assert Records(all)[t].expiry == t.expiry;
      if queue == [] { return; }
      var lo := LowerBound(t.expiry);
      var hi := UpperBound(t.expiry);
      if lo >= hi { return; }
      var i := FindTimer(t, lo, hi);
      if i == hi { return; }
      queue := RemoveAt(queue, i);
    }

    /** `std::find` in a part of the queue. */
    method FindTimer(t: Timer, lo: nat, hi: nat) returns (i: nat)
      requires lo <= hi <= |queue|
      ensures i == Find(queue, t, lo, hi)
    {
      i := lo;
      while i < hi && queue[i] != t
        invariant lo <= i <= hi
        invariant Find(queue, t, i, hi) == Find(queue, t, lo, hi)
      {
        i := i + 1;
      }
    }

    /** `fire`: the handler, if there is one, is posted. */
    method Fire(t: Timer, aborted: bool)
      requires t in all
      modifies this`ready, this`posts, t`expired, t`handler
      ensures View() == TimerSpec.Fire(old(View()), t, aborted)
    {
      var h := t.handler;
      t.expired := true;
      if h.Some? {
        t.handler := None;
        ready := ready + [Post(h.value, aborted)];
        posts := posts + [Post(h.value, aborted)];
      }
      assert Records(all) == old(Records(all))[t := t.Record()];
    }

    /** `cancel`; the result is the number of handlers aborted. */
    method Cancel(t: Timer) returns (n: nat)
      requires Known(queue, Records(all)) && t in all
      modifies this`queue, this`ready, this`posts, this`cancelled, t`expired, t`handler
      ensures View() == TimerSpec.Cancel(old(View()), t)
      ensures n == if !old(t.expired) && old(t.handler).Some? then 1 else 0
    {
      if t.expired { return 0; }
      RemoveTimer(t);
      cancelled := cancelled + [t.stamp];
      n := if t.handler.Some? then 1 else 0;
      Fire(t, true);
    }

    /** `expires_at`. */
    method ExpiresAt(t: Timer, expiry: int) returns (n: nat)
      requires Known(queue, Records(all)) && t in all && !stopped
      modifies this`queue, this`ready, this`posts, this`cancelled, this`arms, t
      ensures View() == TimerSpec.ExpiresAt(old(View()), t, expiry)
      ensures n == if !old(t.expired) && old(t.handler).Some? then 1 else 0
    {
      hide TimerSpec.Cancel;
      hide TimerSpec.Arm;
      n := Cancel(t);
      Arm(t, expiry);
    }

    /** Its second half: set the key while the timer is not queued, then queue it. */
    method Arm(t: Timer, expiry: int)
      requires Known(queue, Records(all)) && t in all && !stopped
      modifies this`queue, this`arms, t
      ensures View() == TimerSpec.Arm(old(View()), t, expiry)
    {
      ghost var s0 := View();
      t.expiry, t.expired := expiry, false;
      t.stamp := arms;
      arms := arms + 1;
      ghost var recs := s0.recs[t := s0.recs[t].(expiry := expiry, expired := false, stamp := s0.arms)];
      assert Records(all) == recs;
      AddTimer(t);
      assert View().recs == Records(all) == recs;
    }

    /** `expires_after`. */
    method ExpiresAfter(t: Timer, delay: int) returns (n: nat)
      requires Known(queue, Records(all)) && t in all && !stopped
      modifies this`queue, this`ready, this`posts, this`cancelled, this`arms, t
      ensures View() == TimerSpec.ExpiresAt(old(View()), t, old(now) + delay)
      ensures n == if !old(t.expired) && old(t.handler).Some? then 1 else 0
    {
      n := ExpiresAt(t, now + delay);
    }

    /** `async_wait`, for a timer that has no handler. */
    method AsyncWait(t: Timer)
      requires t in all && t.handler.None?
      modifies this`waits, this`waitedOn, this`ready, this`posts, t`expired, t`handler
      ensures View() == TimerSpec.AsyncWait(old(View()), t)
    {
      t.handler := Some(waits);
      waits := waits + 1;
      waitedOn := waitedOn + [if t.expired then None else Some(t.stamp)];
      assert Records(all) == old(Records(all))[t := t.Record()];
      if t.expired {
        Fire(t, false);
      }
    }

    /** The part of `run` that moves the clock and fires what is due. */
    method Advance()
      requires Known(queue, Records(all))
      modifies this`now, this`queue, this`ready, this`posts, this`fired, all
      ensures View() == TimerSpec.Advance(old(View()))
    {
      if queue == [] { return; }
      assert queue[0] in Records(all);
      now := queue[0].expiry;
      ghost var goal := FireDue(View());
      while queue != [] && queue[0].expiry <= now
        invariant all == old(all) && Known(queue, Records(all))
        invariant FireDue(View()) == goal
        decreases |queue|
      {
        assert queue[0] in Records(all);
        FireNext();
      }
    }

    method FireNext()
      requires queue != [] && Known(queue, Records(all))
      modifies this`queue, this`ready, this`posts, this`fired, queue[0]
      ensures View() == FireFirst(old(View()))
    {
      var t := queue[0];
      assert t in Records(all);
      fired := fired + [TimerSpec.Fired(t.expiry, t.stamp, now)];
      queue := queue[1..];
      Fire(t, false);
    }

    /** The exception path of `run`, up to the timers. */
    method Unwind()
      requires Structure(View())
      modifies this`queue, this`ready, this`stopped, this`posts, this`cancelled, all
      ensures View() == TimerSpec.Unwind(old(View()))
      ensures queue == [] && stopped
    {
      hide TimerSpec.Cancel;
      hide Structure;
      hide CancelAll;
      StructureKnown(View());
      var copy := queue;
      CancelAllEmpties(View(), queue);
      ghost var goal := CancelAll(View(), copy);
      assert copy[0..] == copy;
      for i := 0 to |copy|
        invariant all == old(all) && Known(queue, Records(all)) && Known(copy[i..], Records(all))
        invariant CancelAll(View(), copy[i..]) == goal
      {
        CancelAllStep(View(), copy[i..]);
        assert copy[i..][0] == copy[i] && copy[i..][1..] == copy[i + 1..];
        var _ := Cancel(copy[i]);
      }
      CancelAllNone(View(), copy[|copy|..]);
      stopped := true;
    }
  }
}
