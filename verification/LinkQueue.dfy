/** The bandwidth and latency queue (src/queue.cpp), and the closed-form
    departure times it implements. */
module LinkSpec {
  import opened Packets

  datatype Config = Config(latency: nat, bandwidth: nat, limit: int)

  /** The nanoseconds a packet of `size` bytes occupies the link. */
  function TxTime(cfg: Config, size: nat): (r: nat)
  {
    if cfg.bandwidth == 0 then 0 else 1_000_000_000 * size / cfg.bandwidth
  }

  datatype Timed = Timed(ts: int, pkt: Packet)

  /** The two continuations of the queue. */
  datatype Handler = BeginSend | PacketSent

  datatype Timer = Idle | Armed(due: int, handler: Handler)

  /** `posted` are handlers that are ready to run. */
  datatype Link = Link(queue: seq<Timed>, size: int, lastForward: int, timer: Timer, posted: seq<Handler>)

  /** Re-arming cancels the pending wait, which posts its handler. */
  function Arm(q: Link, due: int, h: Handler): (r: Link)
  {
    q.(timer := Armed(due, h), posted := if q.timer.Armed? then q.posted + [q.timer.handler] else q.posted)
  }

  predicate Admits(cfg: Config, q: Link, p: Packet)
  {
    !(p.OkToDrop() && cfg.limit > 0 && q.size + p.Size() > cfg.limit)
  }

  function Begin(cfg: Config, q: Link, now: int): (r: Link)
    requires q.queue != []
  {
    var head := q.queue[0];
    if head.ts > now then Arm(q, head.ts, BeginSend)
    else if cfg.bandwidth == 0 then q.(lastForward := now, posted := q.posted + [PacketSent])
    else
      var last := now + TxTime(cfg, head.pkt.Size());
      Arm(q.(lastForward := last), last, PacketSent)
  }

  function Incoming(cfg: Config, q: Link, p: Packet, now: int): (r: Link)
  {
    if !Admits(cfg, q, p) then q
    else
      var q1 := q.(queue := q.queue + [Timed(now + cfg.latency, p)], size := q.size + p.Size());
      if |q1.queue| > 1 then q1 else Begin(cfg, q1, now)
  }

  function Pop(q: Link): (r: Link)
    requires q.queue != []
  {
    q.(queue := q.queue[1..], size := q.size - q.queue[0].pkt.Size())
  }

  /** What `next_packet_sent` does after the packet was forwarded. */
  function Continue(cfg: Config, q: Link, now: int): (r: Link)
  {
    if q.queue == [] then q else Begin(cfg, q, now)
  }

  function Pending(q: Link): (r: nat)
  {
    (if q.timer.Armed? then 1 else 0) + |q.posted|
  }

  function Bytes(queue: seq<Timed>): (r: int)
  {
    if queue == [] then 0 else queue[0].pkt.Size() + Bytes(queue[1..])
  }

  function DroppableBytes(queue: seq<Timed>): (r: int)
  {
    if queue == [] then 0
    else (if queue[0].pkt.OkToDrop() then queue[0].pkt.Size() else 0) + DroppableBytes(queue[1..])
  }

  lemma {:induction false} BytesSnoc(queue: seq<Timed>, t: Timed)
    ensures Bytes(queue + [t]) == Bytes(queue) + t.pkt.Size()
    ensures DroppableBytes(queue + [t]) == DroppableBytes(queue) + (if t.pkt.OkToDrop() then t.pkt.Size() else 0)
  {
    if queue == [] {
      assert queue + [t] == [t];
      assert [t][1..] == [];
    } else {
      assert (queue + [t])[1..] == queue[1..] + [t];
      BytesSnoc(queue[1..], t);
    }
  }

  lemma {:induction false} DroppableWithin(queue: seq<Timed>)
    ensures 0 <= DroppableBytes(queue) <= Bytes(queue)
  {
    if queue != [] { DroppableWithin(queue[1..]); }
  }
}

module LinkQueue {
  import opened Packets
  import LinkSpec

  class Queue {
    const cfg: LinkSpec.Config
    var queue: seq<LinkSpec.Timed>
    var queueSize: int
    var lastForward: int
    var timer: LinkSpec.Timer
    var posted: seq<LinkSpec.Handler>

    ghost function View(): (q: LinkSpec.Link)
      reads this
    {
      LinkSpec.Link(queue, queueSize, lastForward, timer, posted)
    }

    constructor (cfg: LinkSpec.Config, now: int)
      ensures this.cfg == cfg
      ensures View() == LinkSpec.Link([], 0, now, LinkSpec.Idle, [])
    {
      this.cfg := cfg;
      queue, queueSize, lastForward, timer, posted := [], 0, now, LinkSpec.Idle, [];
    }

    method ArmTimer(due: int, h: LinkSpec.Handler)
      modifies this`timer, this`posted
      ensures View() == LinkSpec.Arm(old(View()), due, h)
    {
      if timer.Armed? {
        posted := posted + [timer.handler];
      }
      timer := LinkSpec.Armed(due, h);
    }

    method BeginSendNextPacket(now: int)
      requires queue != []
      modifies this
      ensures View() == LinkSpec.Begin(cfg, old(View()), now)
    {
      if queue[0].ts > now {
        ArmTimer(queue[0].ts, LinkSpec.BeginSend);
        return;
      }
      lastForward := now;
      if cfg.bandwidth == 0 {
        posted := posted + [LinkSpec.PacketSent];
        return;
      }
      lastForward := lastForward + LinkSpec.TxTime(cfg, queue[0].pkt.Size());
      ArmTimer(lastForward, LinkSpec.PacketSent);
    }

    /** A packet that is not admitted comes back as `dropped`, without its drop
        callback: the callback is what the caller of this method runs next. */
    method IncomingPacket(p: Packet, now: int) returns (admitted: bool, dropped: Packet)
      modifies this
      ensures View() == LinkSpec.Incoming(cfg, old(View()), p, now)
      ensures admitted == LinkSpec.Admits(cfg, old(View()), p)
      ensures dropped == p.(returnable := false)
    {
      dropped := p.(returnable := false);
      if p.OkToDrop() && cfg.limit > 0 && queueSize + p.Size() > cfg.limit {
        return false, dropped;
      }
      admitted := true;
      queue := queue + [LinkSpec.Timed(now + cfg.latency, p)];
      queueSize := queueSize + p.Size();
      if |queue| > 1 {
        return;
      }
      BeginSendNextPacket(now);
    }

    /** `forwarded` leaves for the next hop, which does not re-enter this queue
        before the method is done. */
    method NextPacketSent(now: int) returns (forwarded: Packet)
      requires queue != []
      modifies this
      ensures forwarded == old(queue)[0].pkt
      ensures View() == LinkSpec.Continue(cfg, LinkSpec.Pop(old(View())), now)
    {
      forwarded := queue[0].pkt;
      queue := queue[1..];
      queueSize := queueSize - forwarded.Size();
      if |queue| > 0 {
        BeginSendNextPacket(now);
      }
    }
  }
}

/** Runs of a queue against the clock. */
module LinkRefinement {
  import opened Sequences
  import opened Packets
  import opened LinkSpec

  datatype Admission = Admission(at: int, pkt: Packet)

  datatype Departure = Departure(at: int, pkt: Packet)

  /** `admitted` and `departed` are history; `start` is when the queue was made. */
  datatype Run = Run(q: Link, now: int, start: int, admitted: seq<Admission>, departed: seq<Departure>)

  /** A packet arrives, the timer fires and posts its handler, or a posted
      handler runs. */
  datatype Event = Arrive(at: int, p: Packet) | TimerFires | HandlerRuns

  function Begun(start: int): (r: Run)
  {
    Run(Link([], 0, start, Idle, []), start, start, [], [])
  }

  function Execute(cfg: Config, r: Run, h: Handler): (r': Run)
  {
    if r.q.queue == [] then r
    else
      match h
      case BeginSend => r.(q := Begin(cfg, r.q, r.now))
      case PacketSent =>
        r.(q := Continue(cfg, Pop(r.q), r.now), departed := r.departed + [Departure(r.now, r.q.queue[0].pkt)])
  }

  /** Time moves on only when no handler is ready, and never past an armed timer;
      an event that cannot happen leaves the run unchanged. */
  function Step(cfg: Config, r: Run, e: Event): (r': Run)
  {
    match e
    case Arrive(at, p) =>
      if at < r.now || (r.q.posted != [] && at != r.now) || (r.q.timer.Armed? && at > r.q.timer.due) then r
      else
        r.(now := at, q := Incoming(cfg, r.q, p, at),
           admitted := if Admits(cfg, r.q, p) then r.admitted + [Admission(at, p)] else r.admitted)
    case TimerFires =>
      if r.q.posted != [] || !r.q.timer.Armed? then r
      else r.(now := r.q.timer.due, q := r.q.(timer := Idle, posted := [r.q.timer.handler]))
    case HandlerRuns =>
      if r.q.posted == [] then r
      else Execute(cfg, r.(q := r.q.(posted := r.q.posted[1..])), r.q.posted[0])
  }

  function Steps(cfg: Config, start: int, events: seq<Event>): (r: Run)
  {
    if events == [] then Begun(start)
    else Step(cfg, Steps(cfg, start, events[..|events| - 1]), events[|events| - 1])
  }

  /** The closed form: packet `k` starts when the link is free and its latency
      has passed, and departs one transmission time later. */
  function DepartsAt(cfg: Config, start: int, admitted: seq<Admission>, k: nat): (r: int)
    requires k < |admitted|
    decreases k, 1
  {
    Max(FreeAt(cfg, start, admitted, k), admitted[k].at + cfg.latency) + TxTime(cfg, admitted[k].pkt.Size())
  }

  /** When the link becomes free for packet `k`. */
  function FreeAt(cfg: Config, start: int, admitted: seq<Admission>, k: nat): (r: int)
    requires k <= |admitted|
    decreases k, 0
  {
    if k == 0 then start else DepartsAt(cfg, start, admitted, k - 1)
  }

  lemma {:induction false} DepartsAtGrow(cfg: Config, start: int, admitted: seq<Admission>, a: Admission, k: nat)
    requires k <= |admitted|
    ensures FreeAt(cfg, start, admitted + [a], k) == FreeAt(cfg, start, admitted, k)
    ensures k < |admitted| ==> DepartsAt(cfg, start, admitted + [a], k) == DepartsAt(cfg, start, admitted, k)
  {
    if k > 0 {
      DepartsAtGrow(cfg, start, admitted, a, k - 1);
    }
  }

  // ---------------------------------------------------------------------------
  // The invariant

  /** The queue is what was admitted and has not departed, in order. */
  ghost predicate InOrder(cfg: Config, queue: seq<Timed>, admitted: seq<Admission>, departed: seq<Departure>)
  {
    && |departed| + |queue| == |admitted|
    && (forall k :: 0 <= k < |departed| ==> departed[k].pkt == admitted[k].pkt)
    && (forall k :: 0 <= k < |queue| ==>
          queue[k] == Timed(admitted[|departed| + k].at + cfg.latency, admitted[|departed| + k].pkt))
  }

  ghost predicate OnTime(cfg: Config, start: int, admitted: seq<Admission>, departed: seq<Departure>)
    requires |departed| <= |admitted|
  {
    forall k :: 0 <= k < |departed| ==> departed[k].at == DepartsAt(cfg, start, admitted, k)
  }

  /** Sizes are counted, and droppable bytes stay within the limit. */
  predicate Sized(cfg: Config, q: Link)
  {
    q.size == Bytes(q.queue) && (cfg.limit > 0 ==> DroppableBytes(q.queue) <= cfg.limit)
  }

  /** One continuation is pending when packets are queued, and it is due at the
      next point of the closed form. */
  ghost predicate Waiting(cfg: Config, r: Run)
    requires |r.departed| + |r.q.queue| == |r.admitted|
  {
    if r.q.queue == [] then Pending(r.q) == 0
    else
      var k := |r.departed|;
      var free := FreeAt(cfg, r.start, r.admitted, k);
      && Pending(r.q) == 1
      && (r.q.timer.Armed? ==>
            && r.q.timer.due >= r.now
            && (r.q.timer.handler.BeginSend? ==> r.q.timer.due == r.q.queue[0].ts >= free)
            && (r.q.timer.handler.PacketSent? ==>
                  r.q.timer.due == r.q.lastForward == DepartsAt(cfg, r.start, r.admitted, k)))
      && (r.q.timer.Idle? ==>
            || (r.q.posted == [BeginSend] && r.now == r.q.queue[0].ts >= free)
            || (r.q.posted == [PacketSent] && r.now == r.q.lastForward == DepartsAt(cfg, r.start, r.admitted, k)))
  }

  ghost predicate Free(cfg: Config, r: Run)
    requires |r.departed| <= |r.admitted|
  {
    FreeAt(cfg, r.start, r.admitted, |r.departed|) <= r.now
  }

  ghost predicate Inv(cfg: Config, r: Run)
  {
    && InOrder(cfg, r.q.queue, r.admitted, r.departed)
    && OnTime(cfg, r.start, r.admitted, r.departed)
    && Free(cfg, r)
    && Sized(cfg, r.q)
    && Waiting(cfg, r)
  }

  /** Nothing is pending and the head of the queue may start, or must wait for
      its latency. */
  ghost predicate Ready(cfg: Config, r: Run)
  {
    && InOrder(cfg, r.q.queue, r.admitted, r.departed)
    && OnTime(cfg, r.start, r.admitted, r.departed)
    && Free(cfg, r)
    && Sized(cfg, r.q)
    && Pending(r.q) == 0
    && (r.q.queue != [] && r.q.queue[0].ts <= r.now ==>
          r.now == Max(FreeAt(cfg, r.start, r.admitted, |r.departed|), r.q.queue[0].ts))
  }

  lemma BeginKeeps(cfg: Config, r: Run)
    requires Ready(cfg, r)
    ensures Inv(cfg, r.(q := Continue(cfg, r.q, r.now)))
  {
    if r.q.queue != [] {
      var k := |r.departed|;
      assert r.q.queue[0] == Timed(r.admitted[k].at + cfg.latency, r.admitted[k].pkt);
    }
  }

  lemma FreeAfter(cfg: Config, start: int, admitted: seq<Admission>, k: nat)
    requires k < |admitted|
    ensures FreeAt(cfg, start, admitted, k + 1) == DepartsAt(cfg, start, admitted, k)
  {
  }

  lemma DepartReady(cfg: Config, r: Run)
    requires InOrder(cfg, r.q.queue, r.admitted, r.departed) && OnTime(cfg, r.start, r.admitted, r.departed)
    requires Sized(cfg, r.q) && Pending(r.q) == 0 && r.q.queue != []
    requires r.now == DepartsAt(cfg, r.start, r.admitted, |r.departed|)
    ensures Ready(cfg, r.(q := Pop(r.q), departed := r.departed + [Departure(r.now, r.q.queue[0].pkt)]))
  {
    hide FreeAt;
    hide DepartsAt;
    var k := |r.departed|;
    var d := r.departed + [Departure(r.now, r.q.queue[0].pkt)];
    FreeAfter(cfg, r.start, r.admitted, k);
    assert r.q.queue[0].pkt == r.admitted[k].pkt;
    forall j | 0 <= j < |r.q.queue[1..]|
      ensures r.q.queue[1..][j] == Timed(r.admitted[|d| + j].at + cfg.latency, r.admitted[|d| + j].pkt)
    {
      assert r.q.queue[1..][j] == r.q.queue[j + 1];
    }
    assert OnTime(cfg, r.start, r.admitted, d);
  }

  lemma TimerKeeps(cfg: Config, r: Run)
    requires Inv(cfg, r)
    ensures Inv(cfg, Step(cfg, r, TimerFires))
  {
    hide DepartsAt;
    hide FreeAt;
  }

  lemma HandlerKeeps(cfg: Config, r: Run)
    requires Inv(cfg, r)
    ensures Inv(cfg, Step(cfg, r, HandlerRuns))
  {
    if r.q.posted != [] {
      var r1 := r.(q := r.q.(posted := r.q.posted[1..]));
      if r.q.posted[0].BeginSend? {
        BeginKeeps(cfg, r1);
      } else {
        DepartReady(cfg, r1);
        BeginKeeps(cfg, r1.(q := Pop(r1.q), departed := r1.departed + [Departure(r1.now, r1.q.queue[0].pkt)]));
      }
    }
  }

  /** Admission, before anything is started. */
  lemma AdmitParts(cfg: Config, r: Run, at: int, p: Packet)
    requires Inv(cfg, r) && at >= r.now && Admits(cfg, r.q, p)
    ensures var t := Timed(at + cfg.latency, p);
            var adm := r.admitted + [Admission(at, p)];
            && InOrder(cfg, r.q.queue + [t], adm, r.departed)
            && OnTime(cfg, r.start, adm, r.departed)
            && FreeAt(cfg, r.start, adm, |r.departed|) == FreeAt(cfg, r.start, r.admitted, |r.departed|) <= at
            && Sized(cfg, r.q.(queue := r.q.queue + [t], size := r.q.size + p.Size()))
  {
    var a := Admission(at, p);
    BytesSnoc(r.q.queue, Timed(at + cfg.latency, p));
    DroppableWithin(r.q.queue);
    forall k: nat | k <= |r.admitted|
      ensures FreeAt(cfg, r.start, r.admitted + [a], k) == FreeAt(cfg, r.start, r.admitted, k)
      ensures k < |r.admitted| ==> DepartsAt(cfg, r.start, r.admitted + [a], k) == DepartsAt(cfg, r.start, r.admitted, k)
    {
      DepartsAtGrow(cfg, r.start, r.admitted, a, k);
    }
  }

  lemma ArriveKeeps(cfg: Config, r: Run, at: int, p: Packet)
    requires Inv(cfg, r)
    ensures Inv(cfg, Step(cfg, r, Arrive(at, p)))
  {
    var r1 := Step(cfg, r, Arrive(at, p));
    if r1 != r {
      if Admits(cfg, r.q, p) {
        AdmitParts(cfg, r, at, p);
        var a := Admission(at, p);
        var q1 := r.q.(queue := r.q.queue + [Timed(at + cfg.latency, p)], size := r.q.size + p.Size());
        if r.q.queue == [] {
          BeginKeeps(cfg, r.(now := at, q := q1, admitted := r.admitted + [a]));
        } else {
          DepartsAtGrow(cfg, r.start, r.admitted, a, |r.departed|);
        }
      }
    }
  }

  lemma {:induction false} StepsKeep(cfg: Config, start: int, events: seq<Event>)
    ensures Inv(cfg, Steps(cfg, start, events)) && Steps(cfg, start, events).start == start
  {
    hide Inv;
    hide Step;
    if events == [] {
      assert Inv(cfg, Begun(start)) by { BegunInv(cfg, start); }
    } else {
      var m := |events| - 1;
      var r := Steps(cfg, start, events[..m]);
      StepsKeep(cfg, start, events[..m]);
      StepKeepsStart(cfg, r, events[m]);
      match events[m]
      case Arrive(at, p) => ArriveKeeps(cfg, r, at, p);
      case TimerFires => TimerKeeps(cfg, r);
      case HandlerRuns => HandlerKeeps(cfg, r);
    }
  }

  lemma BegunInv(cfg: Config, start: int)
    ensures Inv(cfg, Begun(start))
  {
  }

  lemma StepKeepsStart(cfg: Config, r: Run, e: Event)
    ensures Step(cfg, r, e).start == r.start
  {
  }

  // ---------------------------------------------------------------------------
  // What every run of the queue guarantees

  /** The timer-driven queue refines the recurrence: for any pattern of arrivals,
      packets depart in the order they were admitted, each at the time of the
      closed form; what has not departed is queued. */
  lemma RefinesRecurrence(cfg: Config, start: int, events: seq<Event>)
    ensures var r := Steps(cfg, start, events);
            && |r.departed| + |r.q.queue| == |r.admitted|
            && (forall k :: 0 <= k < |r.departed| ==>
                  r.departed[k] == Departure(DepartsAt(cfg, start, r.admitted, k), r.admitted[k].pkt))
            && (forall k :: 0 <= k < |r.q.queue| ==> r.q.queue[k].pkt == r.admitted[|r.departed| + k].pkt)
  {
    StepsKeep(cfg, start, events);
    hide DepartsAt;
    hide Steps;
    hide Waiting;
    hide Sized;
  }

  /** Exactly one continuation is pending if and only if packets are queued, the
      byte counter is the size of what is queued, and with a limit set the
      droppable bytes never exceed it; a transmission ends when the link is next
      free. */
  lemma OneContinuation(cfg: Config, start: int, events: seq<Event>)
    ensures var q := Steps(cfg, start, events).q;
            && Pending(q) == (if q.queue == [] then 0 else 1)
            && q.size == Bytes(q.queue)
            && (cfg.limit > 0 ==> DroppableBytes(q.queue) <= cfg.limit)
            && (q.timer.Armed? && q.timer.handler.PacketSent? ==> q.timer.due == q.lastForward)
  {
    StepsKeep(cfg, start, events);
  }

  /** The time the link is busy with packets `i + 1` to `j`. */
  function BusyTime(cfg: Config, admitted: seq<Admission>, i: nat, j: nat): (r: nat)
    requires i <= j < |admitted|
  {
    if i == j then 0 else BusyTime(cfg, admitted, i, j - 1) + TxTime(cfg, admitted[j].pkt.Size())
  }

  lemma {:induction false} DepartureGap(cfg: Config, start: int, admitted: seq<Admission>, i: nat, j: nat)
    requires i <= j < |admitted|
    ensures DepartsAt(cfg, start, admitted, j) >= DepartsAt(cfg, start, admitted, i) + BusyTime(cfg, admitted, i, j)
  {
    if i < j {
      DepartureGap(cfg, start, admitted, i, j - 1);
    }
  }

  /** Departures are never faster than the link: between two of them the link
      has time for every packet after the first; and none leaves before its
      latency and its transmission time have passed since it arrived. */
  lemma NeverFasterThanTheLink(cfg: Config, start: int, events: seq<Event>, i: nat, j: nat)
    ensures |Steps(cfg, start, events).departed| <= |Steps(cfg, start, events).admitted|
    ensures var r := Steps(cfg, start, events);
            i <= j < |r.departed| ==>
              && r.departed[j].at - r.departed[i].at >= BusyTime(cfg, r.admitted, i, j)
              && r.departed[j].at >= r.admitted[j].at + cfg.latency + TxTime(cfg, r.admitted[j].pkt.Size())
  {
    StepsKeep(cfg, start, events);
    var r := Steps(cfg, start, events);
    if i <= j < |r.departed| {
      DepartureGap(cfg, start, r.admitted, i, j);
    }
  }

  // ---------------------------------------------------------------------------
  // Admission

  /** The bytes that packets occupy: payload and overhead. */
  function Occupied(queue: seq<Timed>): (r: nat)
  {
    if queue == [] then 0 else |queue[0].pkt.buffer| + queue[0].pkt.overhead + Occupied(queue[1..])
  }

  lemma {:induction false} OccupiedIsBytes(queue: seq<Timed>)
    ensures Occupied(queue) == Bytes(queue)
  {
    if queue != [] { OccupiedIsBytes(queue[1..]); }
  }

  /** An arrival can happen now: no handler is ready if time has to pass, and no
      timer fires before. */
  predicate CanArrive(r: Run, at: int)
  {
    && at >= r.now
    && (r.q.posted == [] || at == r.now)
    && (r.q.timer.Armed? ==> at <= r.q.timer.due)
  }

  /** In every run a packet that arrives is queued, behind all others, if and only
      if it is a handshake reply, an ack or an error, or there is no limit, or it
      fits the limit with what is queued.  Otherwise nothing changes. */
  lemma AdmittedExactly(cfg: Config, start: int, events: seq<Event>, at: int, p: Packet)
    requires CanArrive(Steps(cfg, start, events), at)
    ensures var r := Steps(cfg, start, events);
            var r' := Step(cfg, r, Arrive(at, p));
            var fits := p.kind in {SynAck, Ack, Error} || cfg.limit <= 0
                        || Occupied(r.q.queue) + |p.buffer| + p.overhead <= cfg.limit;
            && r'.now == at && r'.departed == r.departed
            && r'.admitted == r.admitted + (if fits then [Admission(at, p)] else [])
            && r'.q.queue == r.q.queue + (if fits then [Timed(at + cfg.latency, p)] else [])
            && (!fits ==> r'.q == r.q)
            && (r.q.queue != [] ==> r'.q.timer == r.q.timer && r'.q.posted == r.q.posted)
  {
    hide Steps;
    hide DepartsAt;
    hide FreeAt;
    var r := Steps(cfg, start, events);
    StepsKeep(cfg, start, events);
    OccupiedIsBytes(r.q.queue);
    assert r.admitted + [] == r.admitted && r.q.queue + [] == r.q.queue;
  }

  // ---------------------------------------------------------------------------
  // The transmission time

  /** The floor of the time in nanoseconds that the bits take; none without a
      bandwidth. */
  lemma TransmissionTime(cfg: Config, p: Packet)
    ensures var t := TxTime(cfg, p.Size());
            && (cfg.bandwidth == 0 ==> t == 0)
            && (cfg.bandwidth > 0 ==>
                  t * cfg.bandwidth <= 1_000_000_000 * (|p.buffer| + p.overhead) < (t + 1) * cfg.bandwidth)
  {
    if cfg.bandwidth > 0 {
      FloorBounds(1_000_000_000 * p.Size(), cfg.bandwidth);
    }
  }

  /** A megabyte per second, a microsecond of latency: two packets of a hundred
      bytes that arrive together leave after 101 and 201 microseconds. */
  lemma TwoDepartures(p: Packet, p2: Packet)
    requires |p.buffer| == |p2.buffer| == 60 && p.overhead == p2.overhead == 40
    ensures var cfg := Config(1000, 1_000_000, 0);
            Steps(cfg, 0, [Arrive(0, p), Arrive(0, p2), TimerFires, HandlerRuns, TimerFires, HandlerRuns,
                           TimerFires, HandlerRuns]).departed ==
            [Departure(101_000, p), Departure(201_000, p2)]
  {
    var cfg := Config(1000, 1_000_000, 0);
    var events := [Arrive(0, p), Arrive(0, p2), TimerFires, HandlerRuns, TimerFires, HandlerRuns,
                   TimerFires, HandlerRuns];
    hide Step;
    assert events[..0] == [];
    StepsStep(cfg, events, 0);
    StepsStep(cfg, events, 1);
    var r2 := BothQueued(cfg, p, p2);
    StepsStep(cfg, events, 2);
    StepsStep(cfg, events, 3);
    var r4 := FirstStarts(cfg, r2, p, p2);
    StepsStep(cfg, events, 4);
    StepsStep(cfg, events, 5);
    var r6 := FirstLeaves(cfg, r4, p, p2);
    StepsStep(cfg, events, 6);
    StepsStep(cfg, events, 7);
    SecondLeaves(cfg, r6, p2);
    assert events[..8] == events;
    assert r6.departed + [Departure(201_000, p2)] == [Departure(101_000, p), Departure(201_000, p2)];
  }

  lemma StepsStep(cfg: Config, events: seq<Event>, k: nat)
    requires k < |events|
    ensures Steps(cfg, 0, events[..k + 1]) == Step(cfg, Steps(cfg, 0, events[..k]), events[k])
  {
    assert events[..k + 1][..k] == events[..k];
  }

  lemma BothQueued(cfg: Config, p: Packet, p2: Packet) returns (r: Run)
    requires cfg == Config(1000, 1_000_000, 0)
    ensures r == Step(cfg, Step(cfg, Begun(0), Arrive(0, p)), Arrive(0, p2))
    ensures r.q.queue == [Timed(1000, p), Timed(1000, p2)] && r.q.timer == Armed(1000, BeginSend)
    ensures r.q.posted == [] && r.now == 0 && r.departed == []
  {
    r := Step(cfg, Step(cfg, Begun(0), Arrive(0, p)), Arrive(0, p2));
  }

  lemma FirstStarts(cfg: Config, r2: Run, p: Packet, p2: Packet) returns (r: Run)
    requires cfg == Config(1000, 1_000_000, 0) && p.Size() == 100
    requires r2.q.queue == [Timed(1000, p), Timed(1000, p2)] && r2.q.timer == Armed(1000, BeginSend)
    requires r2.q.posted == [] && r2.departed == []
    ensures r == Step(cfg, Step(cfg, r2, TimerFires), HandlerRuns)
    ensures r.q.queue == r2.q.queue && r.q.timer == Armed(101_000, PacketSent)
    ensures r.q.posted == [] && r.departed == []
  {
    r := Step(cfg, Step(cfg, r2, TimerFires), HandlerRuns);
  }

  lemma FirstLeaves(cfg: Config, r4: Run, p: Packet, p2: Packet) returns (r: Run)
    requires cfg == Config(1000, 1_000_000, 0) && p2.Size() == 100
    requires r4.q.queue == [Timed(1000, p), Timed(1000, p2)] && r4.q.timer == Armed(101_000, PacketSent)
    requires r4.q.posted == [] && r4.departed == []
    ensures r == Step(cfg, Step(cfg, r4, TimerFires), HandlerRuns)
    ensures r.q.queue == [Timed(1000, p2)] && r.q.timer == Armed(201_000, PacketSent)
    ensures r.q.posted == [] && r.departed == [Departure(101_000, p)]
  {
    r := Step(cfg, Step(cfg, r4, TimerFires), HandlerRuns);
  }

  lemma SecondLeaves(cfg: Config, r6: Run, p2: Packet)
    requires r6.q.queue == [Timed(1000, p2)] && r6.q.timer == Armed(201_000, PacketSent) && r6.q.posted == []
    ensures Step(cfg, Step(cfg, r6, TimerFires), HandlerRuns).departed == r6.departed + [Departure(201_000, p2)]
  {
  }

  // ---------------------------------------------------------------------------
  // Re-entry

  /** Forwarding a packet that synchronously leads back into the same queue:
      `p` arrives between the pop and the check for more packets. */
  function SentWithReentry(cfg: Config, q: Link, p: Packet, now: int): (r: Link)
    requires q.queue != []
  {
    Continue(cfg, Incoming(cfg, Pop(q), p, now), now)
  }

  /** Re-entry keeps a single continuation exactly when the queue still holds a
      packet after the pop, or the re-entering packet is dropped; otherwise the
      new head is started twice. */
  lemma ReentryExact(cfg: Config, q: Link, p: Packet, now: int)
    requires q.queue != [] && Pending(q) == 0
    ensures var r := SentWithReentry(cfg, q, p, now);
            Pending(r) == (if r.queue == [] then 0 else 1) <==> Pop(q).queue != [] || !Admits(cfg, Pop(q), p)
  {
  }

  /** It happens, on an unlimited link without latency: the completion of the
      only packet forwards it back into the queue, two completions get posted,
      and the second one finds the queue empty. */
  lemma ReentryStartsTwice(p: Packet)
    ensures var cfg := Config(0, 0, 0);
            var q := Steps(cfg, 0, [Arrive(0, p)]).q;
            && q.queue != [] && q.posted == [PacketSent]
            && (var r := SentWithReentry(cfg, q.(posted := []), p, 0);
                && Pending(r) == 2 && r.posted == [PacketSent, PacketSent]
                && Pop(r).queue == [])
  {
    assert [Arrive(0, p)][..0] == [];
    assert Steps(Config(0, 0, 0), 0, []) == Begun(0);
  }
}
