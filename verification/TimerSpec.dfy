/** Timers and the simulation's timer queue (src/high_resolution_timer.cpp,
    src/simulation.cpp) as functions on a snapshot.  `T` identifies a timer. */
module TimerSpec {
  import opened Options
  import opened Sequences

  /** Expiry first, then the number of the arming call. */
  predicate Earlier(expiry: int, stamp: nat, otherExpiry: int, otherStamp: nat)
  {
    expiry < otherExpiry || (expiry == otherExpiry && stamp < otherStamp)
  }

  /** A timer's fields.  `stamp` numbers the arming calls; no code reads it. */
  datatype Rec = Rec(expiry: int, expired: bool, handler: Option<nat>, stamp: nat)
  {
    predicate Before(other: Rec)
    {
      Earlier(expiry, stamp, other.expiry, other.stamp)
    }
  }

  /** A handler that was posted, with success or with operation_aborted. */
  datatype Post = Post(token: nat, aborted: bool)

  datatype Fired = Fired(expiry: int, stamp: nat, at: int)
  {
    predicate Before(other: Fired)
    {
      Earlier(expiry, stamp, other.expiry, other.stamp)
    }
  }

  /** `ready` are posted handlers that have not run yet.  `fault` stands for a
      failed assertion, after which nothing runs.  `posts`, `fired`,
      `cancelled` (the stamps of timers cancelled while queued), `waits`
      (handlers registered), `waitedOn` (for each of them the arming that it waits
      for, if the timer had not expired) and `arms` are history. */
  datatype State<T> = State(
    now: int,
    queue: seq<T>,
    recs: map<T, Rec>,
    ready: seq<Post>,
    stopped: bool,
    fault: bool,
    posts: seq<Post>,
    fired: seq<Fired>,
    cancelled: seq<nat>,
    waits: nat,
    waitedOn: seq<Option<nat>>,
    arms: nat)

  /** Every queued timer exists. */
  ghost predicate Known<T>(queue: seq<T>, recs: map<T, Rec>)
  {
    forall i :: 0 <= i < |queue| ==> queue[i] in recs
  }

  // ---------------------------------------------------------------------------
  // The sorted vector

  /** `std::upper_bound` by expiry: the bisection, whether or not the range is sorted. */
  function Upper<T>(queue: seq<T>, recs: map<T, Rec>, key: int, lo: nat, hi: nat): (r: nat)
    requires lo <= hi <= |queue| && Known(queue, recs)
    ensures lo <= r <= hi
    decreases hi - lo
  {
    if lo == hi then lo
    else
      var mid := (lo + hi) / 2;
      if key < recs[queue[mid]].expiry then Upper(queue, recs, key, lo, mid)
      else Upper(queue, recs, key, mid + 1, hi)
  }

  /** `std::lower_bound` by expiry. */
  function Lower<T>(queue: seq<T>, recs: map<T, Rec>, key: int, lo: nat, hi: nat): (r: nat)
    requires lo <= hi <= |queue| && Known(queue, recs)
    ensures lo <= r <= hi
    decreases hi - lo
  {
    if lo == hi then lo
    else
      var mid := (lo + hi) / 2;
      if recs[queue[mid]].expiry < key then Lower(queue, recs, key, mid + 1, hi)
      else Lower(queue, recs, key, lo, mid)
  }

  /** `std::find` in a range. */
  function Find<T(==)>(queue: seq<T>, t: T, lo: nat, hi: nat): (r: nat)
    requires lo <= hi <= |queue|
    ensures lo <= r <= hi
    decreases hi - lo
  {
    if lo == hi || queue[lo] == t then lo else Find(queue, t, lo + 1, hi)
  }

  function Insert<T>(queue: seq<T>, recs: map<T, Rec>, t: T): (r: seq<T>)
    requires Known(queue, recs) && t in recs
  {
    var i := Upper(queue, recs, recs[t].expiry, 0, |queue|);
    queue[..i] + [t] + queue[i..]
  }

  function Remove<T(==)>(queue: seq<T>, recs: map<T, Rec>, t: T): (r: seq<T>)
    requires Known(queue, recs) && t in recs
  {
    var key := recs[t].expiry;
    var lo, hi := Lower(queue, recs, key, 0, |queue|), Upper(queue, recs, key, 0, |queue|);
    if lo >= hi then queue
    else
      var i := Find(queue, t, lo, hi);
      if i == hi then queue else RemoveAt(queue, i)
  }

  // ---------------------------------------------------------------------------
  // Timer operations

  /** A new timer has expired. */
  function Create<T>(s: State<T>, t: T): (r: State<T>)
  {
    s.(recs := s.recs[t := Rec(0, true, None, 0)])
  }

  function Fire<T(==)>(s: State<T>, t: T, aborted: bool): (r: State<T>)
    requires t in s.recs
  {
    var rec := s.recs[t];
    var ps := if rec.handler.Some? then [Post(rec.handler.value, aborted)] else [];
    s.(recs := s.recs[t := rec.(expired := true, handler := None)], ready := s.ready + ps, posts := s.posts + ps)
  }

  function Cancel<T(==)>(s: State<T>, t: T): (r: State<T>)
    requires Known(s.queue, s.recs) && t in s.recs
    ensures r.recs.Keys == s.recs.Keys && Known(r.queue, r.recs)
  {
    if s.recs[t].expired then s
    else Fire(s.(queue := Remove(s.queue, s.recs, t), cancelled := s.cancelled + [s.recs[t].stamp]), t, true)
  }

  function Arm<T(==)>(s: State<T>, t: T, expiry: int): (r: State<T>)
    requires Known(s.queue, s.recs) && t in s.recs
  {
    var recs := s.recs[t := s.recs[t].(expiry := expiry, expired := false, stamp := s.arms)];
    s.(recs := recs, queue := Insert(s.queue, recs, t), arms := s.arms + 1)
  }

  /** `expires_at`: cancel, then queue under the new expiry. */
  function ExpiresAt<T(==)>(s: State<T>, t: T, expiry: int): (r: State<T>)
    requires Known(s.queue, s.recs) && t in s.recs
  {
    Arm(Cancel(s, t), t, expiry)
  }

  /** `async_wait` on a timer that has no handler: an expired timer posts the
      handler at once. */
  function AsyncWait<T(==)>(s: State<T>, t: T): (r: State<T>)
    requires t in s.recs
  {
    var s1 := s.(recs := s.recs[t := s.recs[t].(handler := Some(s.waits))], waits := s.waits + 1,
                 waitedOn := s.waitedOn + [if s.recs[t].expired then None else Some(s.recs[t].stamp)]);
    if s.recs[t].expired then Fire(s1, t, false) else s1
  }

  // ---------------------------------------------------------------------------
  // The clock

  /** Take the first timer off the queue and fire it. */
  function FireFirst<T(==)>(s: State<T>): (r: State<T>)
    requires Known(s.queue, s.recs) && s.queue != []
    ensures Known(r.queue, r.recs) && |r.fired| == |s.fired| + 1
  {
    var t := s.queue[0];
    Fire(s.(queue := s.queue[1..], fired := s.fired + [Fired(s.recs[t].expiry, s.recs[t].stamp, s.now)]), t, false)
  }

  function FireDue<T(==)>(s: State<T>): (r: State<T>)
    requires Known(s.queue, s.recs)
    ensures Known(r.queue, r.recs) && |r.fired| >= |s.fired|
    decreases |s.queue|
  {
    if s.queue == [] || s.recs[s.queue[0]].expiry > s.now then s
    else FireDue(FireFirst(s))
  }

  /** One round of the event loop after the ready handlers have run: move the
      clock to the first expiry and fire everything that is due. */
  function Advance<T(==)>(s: State<T>): (r: State<T>)
    requires Known(s.queue, s.recs)
    ensures Known(r.queue, r.recs) && |r.fired| >= |s.fired|
  {
    if s.queue == [] then s else FireDue(s.(now := s.recs[s.queue[0]].expiry))
  }

  /** The exception path cancels every timer of a copy of the queue. */
  function CancelAll<T(==)>(s: State<T>, copy: seq<T>): (r: State<T>)
    requires Known(s.queue, s.recs) && Known(copy, s.recs)
    decreases |copy|
  {
    if copy == [] then s else CancelAll(Cancel(s, copy[0]), copy[1..])
  }

  /** What `run` does about its timers when it ends in an exception. */
  function Unwind<T(==)>(s: State<T>): (r: State<T>)
    requires Known(s.queue, s.recs)
  {
    CancelAll(s, s.queue).(stopped := true)
  }
}

/** What every timer operation keeps. */
module TimerFacts {
  import opened Sequences
  import opened TimerSpec

  /** The queue is strictly sorted by expiry, then by arming order. */
  ghost predicate SortedQueue<T>(queue: seq<T>, recs: map<T, Rec>)
    requires Known(queue, recs)
  {
    forall i, j :: 0 <= i < j < |queue| ==> recs[queue[i]].Before(recs[queue[j]])
  }

  /** A timer is queued if and only if it has not expired. */
  ghost predicate QueuedIffArmed<T>(queue: seq<T>, recs: map<T, Rec>)
  {
    forall t :: t in recs ==> (t in queue <==> !recs[t].expired)
  }

  ghost predicate Stamped<T>(recs: map<T, Rec>, arms: nat)
  {
    forall t :: t in recs ==> recs[t].stamp < arms || recs[t].expired
  }

  ghost predicate Structure<T>(s: State<T>)
  {
    && Known(s.queue, s.recs)
    && SortedQueue(s.queue, s.recs)
    && QueuedIffArmed(s.queue, s.recs)
    && Stamped(s.recs, s.arms)
  }

  lemma StructureKnown<T>(s: State<T>)
    requires Structure(s)
    ensures Known(s.queue, s.recs)
  {
  }

  // ---------------------------------------------------------------------------
  // Bisection on the sorted queue

  lemma Around<T>(queue: seq<T>, recs: map<T, Rec>, mid: nat)
    requires Known(queue, recs) && SortedQueue(queue, recs) && mid < |queue|
    ensures forall i :: 0 <= i < mid ==> recs[queue[i]].expiry <= recs[queue[mid]].expiry
    ensures forall i :: mid < i < |queue| ==> recs[queue[i]].expiry >= recs[queue[mid]].expiry
  {
    forall i | 0 <= i < mid ensures recs[queue[i]].expiry <= recs[queue[mid]].expiry {
      assert recs[queue[i]].Before(recs[queue[mid]]);
    }
    forall i | mid < i < |queue| ensures recs[queue[i]].expiry >= recs[queue[mid]].expiry {
      assert recs[queue[mid]].Before(recs[queue[i]]);
    }
  }

  lemma {:induction false} UpperSorted<T>(queue: seq<T>, recs: map<T, Rec>, key: int, lo: nat, hi: nat)
    requires lo <= hi <= |queue| && Known(queue, recs) && SortedQueue(queue, recs)
    requires forall i :: 0 <= i < lo ==> recs[queue[i]].expiry <= key
    requires forall i :: hi <= i < |queue| ==> recs[queue[i]].expiry > key
    ensures var u := Upper(queue, recs, key, lo, hi);
            && (forall i :: 0 <= i < u ==> recs[queue[i]].expiry <= key)
            && (forall i :: u <= i < |queue| ==> recs[queue[i]].expiry > key)
    decreases hi - lo
  {
    hide SortedQueue;
    if lo < hi {
      var mid := (lo + hi) / 2;
      Around(queue, recs, mid);
      if key < recs[queue[mid]].expiry {
        UpperSorted(queue, recs, key, lo, mid);
      } else {
        UpperSorted(queue, recs, key, mid + 1, hi);
      }
    }
  }

  lemma {:induction false} LowerSorted<T>(queue: seq<T>, recs: map<T, Rec>, key: int, lo: nat, hi: nat)
    requires lo <= hi <= |queue| && Known(queue, recs) && SortedQueue(queue, recs)
    requires forall i :: 0 <= i < lo ==> recs[queue[i]].expiry < key
    requires forall i :: hi <= i < |queue| ==> recs[queue[i]].expiry >= key
    ensures var l := Lower(queue, recs, key, lo, hi);
            && (forall i :: 0 <= i < l ==> recs[queue[i]].expiry < key)
            && (forall i :: l <= i < |queue| ==> recs[queue[i]].expiry >= key)
    decreases hi - lo
  {
    hide SortedQueue;
    if lo < hi {
      var mid := (lo + hi) / 2;
      Around(queue, recs, mid);
      if recs[queue[mid]].expiry < key {
        LowerSorted(queue, recs, key, mid + 1, hi);
      } else {
        LowerSorted(queue, recs, key, lo, mid);
      }
    }
  }

  lemma {:induction false} FindIndex<T>(queue: seq<T>, t: T, lo: nat, hi: nat, k: nat)
    requires lo <= k < hi <= |queue| && queue[k] == t
    requires forall i :: lo <= i < k ==> queue[i] != t
    ensures Find(queue, t, lo, hi) == k
    decreases hi - lo
  {
    if lo < k {
      FindIndex(queue, t, lo + 1, hi, k);
    }
  }

  /** The removal always finds a queued timer: exactly that one is erased. */
  lemma RemoveFinds<T>(queue: seq<T>, recs: map<T, Rec>, k: nat)
    requires Known(queue, recs) && SortedQueue(queue, recs) && k < |queue|
    ensures Remove(queue, recs, queue[k]) == RemoveAt(queue, k)
    ensures queue[k] !in RemoveAt(queue, k)
  {
    var t := queue[k];
    var key := recs[t].expiry;
    UpperSorted(queue, recs, key, 0, |queue|);
    LowerSorted(queue, recs, key, 0, |queue|);
    var lo, hi := Lower(queue, recs, key, 0, |queue|), Upper(queue, recs, key, 0, |queue|);
    assert lo <= k < hi;
    forall i | 0 <= i < |queue| && i != k ensures queue[i] != t {
      if i < k {
        assert recs[queue[i]].Before(recs[queue[k]]);
      } else {
        assert recs[queue[k]].Before(recs[queue[i]]);
      }
    }
    FindIndex(queue, t, lo, hi, k);
  }

  lemma RemoveAtSorted<T>(queue: seq<T>, recs: map<T, Rec>, k: nat)
    requires Known(queue, recs) && SortedQueue(queue, recs) && k < |queue|
    ensures Known(RemoveAt(queue, k), recs) && SortedQueue(RemoveAt(queue, k), recs)
    ensures forall t :: t in RemoveAt(queue, k) ==> t in queue
    ensures forall t :: t in queue && t != queue[k] ==> t in RemoveAt(queue, k)
  {
    var q := RemoveAt(queue, k);
    forall i | 0 <= i < |queue| && i != k ensures queue[i] in q {
      if i < k { assert q[i] == queue[i]; } else { assert q[i - 1] == queue[i]; }
    }
  }

  /** Two records that agree on the queued timers' keys give the same order. */
  lemma SortedSameKeys<T>(queue: seq<T>, recs: map<T, Rec>, recs': map<T, Rec>)
    requires Known(queue, recs) && SortedQueue(queue, recs) && Known(queue, recs')
    requires forall i :: 0 <= i < |queue| ==>
               recs[queue[i]].expiry == recs'[queue[i]].expiry && recs[queue[i]].stamp == recs'[queue[i]].stamp
    ensures SortedQueue(queue, recs')
  {
  }

  // ---------------------------------------------------------------------------
  // The operations

  lemma CancelKeeps<T>(s: State<T>, t: T)
    requires Structure(s) && t in s.recs
    ensures Structure(Cancel(s, t))
    ensures t !in Cancel(s, t).queue && Cancel(s, t).recs[t].expired
    ensures forall u :: u in s.recs && u != t ==> u in Cancel(s, t).recs && Cancel(s, t).recs[u] == s.recs[u]
    ensures forall u :: u in s.queue && u != t ==> u in Cancel(s, t).queue
    ensures forall u :: u in Cancel(s, t).queue ==> u in s.queue && u != t
  {
    hide Remove;
    hide RemoveAt;
    hide SortedQueue;
    if !s.recs[t].expired {
      var k :| 0 <= k < |s.queue| && s.queue[k] == t;
      RemoveFinds(s.queue, s.recs, k);
      RemoveAtSorted(s.queue, s.recs, k);
      var c := Cancel(s, t);
      assert c.queue == RemoveAt(s.queue, k);
      SortedSameKeys(c.queue, s.recs, c.recs);
    }
  }

  /** Every element of a list with one more inserted. */
  lemma InsertedAt<T>(queue: seq<T>, t: T, i: nat)
    requires i <= |queue|
    ensures var q := queue[..i] + [t] + queue[i..];
            && |q| == |queue| + 1
            && (forall a :: 0 <= a < |q| ==> q[a] == if a < i then queue[a] else if a == i then t else queue[a - 1])
            && (forall u :: u in q <==> u in queue || u == t)
  {
    assert queue == queue[..i] + queue[i..];
  }

  /** Inserting where everything before is earlier and everything after later. */
  lemma InsertBetween<T>(queue: seq<T>, recs: map<T, Rec>, t: T, i: nat)
    requires Known(queue, recs) && SortedQueue(queue, recs) && t in recs && i <= |queue|
    requires forall j :: 0 <= j < i ==> recs[queue[j]].Before(recs[t])
    requires forall j :: i <= j < |queue| ==> recs[t].Before(recs[queue[j]])
    ensures var q := queue[..i] + [t] + queue[i..]; Known(q, recs) && SortedQueue(q, recs)
  {
    InsertedAt(queue, t, i);
    hide Earlier;
  }

  lemma InsertSorted<T>(queue: seq<T>, recs: map<T, Rec>, t: T)
    requires Known(queue, recs) && SortedQueue(queue, recs) && t in recs && t !in queue
    requires forall i :: 0 <= i < |queue| ==> recs[queue[i]].stamp < recs[t].stamp
    ensures Known(Insert(queue, recs, t), recs) && SortedQueue(Insert(queue, recs, t), recs)
    ensures forall u :: u in Insert(queue, recs, t) <==> u in queue || u == t
  {
    hide Upper;
    hide SortedQueue;
    var i := Upper(queue, recs, recs[t].expiry, 0, |queue|);
    UpperSorted(queue, recs, recs[t].expiry, 0, |queue|);
    InsertBetween(queue, recs, t, i);
    InsertedAt(queue, t, i);
  }

  lemma ArmKeeps<T>(s: State<T>, t: T, expiry: int)
    requires Structure(s) && t in s.recs && s.recs[t].expired
    ensures Structure(Arm(s, t, expiry))
    ensures forall u :: u in Arm(s, t, expiry).queue <==> u in s.queue || u == t
  {
    var recs := s.recs[t := s.recs[t].(expiry := expiry, expired := false, stamp := s.arms)];
    assert t !in s.queue;
    SortedSameKeys(s.queue, s.recs, recs);
    InsertSorted(s.queue, recs, t);
  }

  lemma ExpiresAtKeeps<T>(s: State<T>, t: T, expiry: int)
    requires Structure(s) && t in s.recs
    ensures Structure(ExpiresAt(s, t, expiry))
    ensures forall u :: u in ExpiresAt(s, t, expiry).queue <==> u in s.queue || u == t
  {
    CancelKeeps(s, t);
    ArmKeeps(Cancel(s, t), t, expiry);
    hide Structure;
    hide Cancel;
    hide Arm;
  }

  lemma AsyncWaitKeeps<T>(s: State<T>, t: T)
    requires Structure(s) && t in s.recs
    ensures Structure(AsyncWait(s, t))
  {
    SortedSameKeys(s.queue, s.recs, AsyncWait(s, t).recs);
  }

  lemma FireFirstKeeps<T>(s: State<T>)
    requires Structure(s) && s.queue != []
    ensures Structure(FireFirst(s))
    ensures s.queue[0] !in FireFirst(s).queue
  {
    var t := s.queue[0];
    RemoveAtSorted(s.queue, s.recs, 0);
    RemoveFinds(s.queue, s.recs, 0);
    assert RemoveAt(s.queue, 0) == s.queue[1..];
    SortedSameKeys(s.queue[1..], s.recs, FireFirst(s).recs);
  }

  lemma {:induction false} FireDueKeeps<T>(s: State<T>)
    requires Structure(s)
    ensures Structure(FireDue(s))
    decreases |s.queue|
  {
    if s.queue != [] && s.recs[s.queue[0]].expiry <= s.now {
      FireFirstKeeps(s);
      FireDueKeeps(FireFirst(s));
    }
  }

  lemma CancelAllStep<T>(s: State<T>, copy: seq<T>)
    requires Known(s.queue, s.recs) && Known(copy, s.recs) && copy != []
    ensures Known(copy[1..], Cancel(s, copy[0]).recs)
    ensures CancelAll(s, copy) == CancelAll(Cancel(s, copy[0]), copy[1..])
  {
  }

  lemma CancelAllNone<T>(s: State<T>, copy: seq<T>)
    requires Known(s.queue, s.recs) && copy == []
    ensures CancelAll(s, copy) == s
  {
  }

  /** Cancelling the timers of a copy of the queue, in order, empties the queue. */
  lemma {:induction false} CancelAllEmpties<T>(s: State<T>, copy: seq<T>)
    requires Structure(s) && copy == s.queue
    ensures Structure(CancelAll(s, copy)) && CancelAll(s, copy).queue == []
    decreases |copy|
  {
    hide Fire;
    if copy != [] {
      assert copy[0] in s.queue;
      RemoveFinds(s.queue, s.recs, 0);
      assert RemoveAt(s.queue, 0) == s.queue[1..];
      CancelKeeps(s, copy[0]);
      CancelQueue(s, copy[0]);
      CancelAllEmpties(Cancel(s, copy[0]), copy[1..]);
    }
  }

  lemma CancelQueue<T>(s: State<T>, t: T)
    requires Known(s.queue, s.recs) && t in s.recs && !s.recs[t].expired
    ensures Cancel(s, t).queue == Remove(s.queue, s.recs, t)
  {
  }
}
