/** The inductive invariant of the transport, in parts that each speak about
    a few fields only. */
module TransportInv {
  import opened Sequences
  import opened Packets
  import opened TcpSpec
  import opened ReadFacts
  import opened Transport

  // ---------------------------------------------------------------------------
  // The log of numbered packets

  /** Packet `n` has sequence number `n`.  All are non-empty payload packets,
      except that the last one is the eof once the sender has closed. */
  ghost predicate LogOk(log: seq<Packet>, live: bool)
  {
    forall n :: 0 <= n < |log| ==>
      && log[n].seqNr == n
      && (if log[n].kind == Payload then log[n].buffer != []
          else !live && n == |log| - 1 && log[n] == EofPacket(n))
  }

  /** `p` is packet `p.seqNr` of the log, except for its drop callback. */
  predicate IsCopy(p: Packet, log: seq<Packet>)
  {
    p.seqNr < |log| && p.(returnable := false) == log[p.seqNr].(returnable := false)
  }

  ghost predicate Copies(ps: seq<Packet>, log: seq<Packet>)
  {
    forall i :: 0 <= i < |ps| ==> IsCopy(ps[i], log)
  }

  ghost predicate HeldCopies(m: map<nat, Packet>, log: seq<Packet>)
  {
    forall k :: k in m ==> m[k].seqNr == k && IsCopy(m[k], log)
  }

  /** Packets that wait to be re-sent are payload and carry no callback. */
  ghost predicate WaitingOk(outgoing: seq<Packet>)
  {
    forall i :: 0 <= i < |outgoing| ==> outgoing[i].kind == Payload && !outgoing[i].returnable
  }

  // ---------------------------------------------------------------------------
  // Conservation

  /** Where a sequence number can be: in the network, waiting to be re-sent,
      held for reordering, handed to the reader, or lost. */
  ghost function Places(net: seq<Packet>, outgoing: seq<Packet>, held: set<nat>, nextIn: nat, lost: seq<nat>): multiset<nat>
  {
    multiset(Seqs(net)) + multiset(Seqs(outgoing)) + multiset(held) + multiset(Below(nextIn)) + multiset(lost)
  }

  ghost predicate Conserved(net: seq<Packet>, outgoing: seq<Packet>, held: set<nat>, nextIn: nat, lost: seq<nat>, n: nat)
  {
    Places(net, outgoing, held, nextIn, lost) == multiset(Below(n))
  }

  /** Every sequence number that the sender still counts as outstanding is on
      its way, waiting, lost, or has its ack on the way. */
  ghost predicate Unacked(net: seq<Packet>, outgoing: seq<Packet>, lost: seq<nat>, acks: seq<nat>, outstanding: set<nat>)
  {
    multiset(Seqs(net)) + multiset(Seqs(outgoing)) + multiset(lost) + multiset(acks) == multiset(outstanding)
  }

  // ---------------------------------------------------------------------------
  // Accounting

  /** The sum of the entries of `m` below `n`. */
  function SumUpTo(m: map<nat, nat>, n: nat): (r: nat)
  {
    if n == 0 then 0 else SumUpTo(m, n - 1) + (if n - 1 in m then m[n - 1] else 0)
  }

  ghost predicate Sizes(outstanding: map<nat, nat>, log: seq<Packet>)
  {
    forall k :: k in outstanding ==> k < |log| && outstanding[k] == |log[k].buffer|
  }

  ghost predicate Flight(inFlight: int, outstanding: map<nat, nat>, resent: nat, n: nat)
  {
    inFlight == SumUpTo(outstanding, n) + resent
  }

  /** Everything numbered so far has been acked or is still in flight, and
      what was re-sent is counted in flight a second time. */
  ghost predicate Balance(inFlight: int, hist: History, log: seq<Packet>)
  {
    inFlight + hist.acked == |PayloadOf(log)| + hist.resent
  }

  /** Without drops there is nothing to re-send. */
  ghost predicate DropFree(hist: History, outgoing: seq<Packet>)
  {
    hist.drops == 0 ==> outgoing == [] && hist.resent == 0
  }

  /** Only payload is ever lost. */
  ghost predicate LostPayload(lost: seq<nat>, log: seq<Packet>)
  {
    forall i :: 0 <= i < |lost| ==> lost[i] < |log| && log[lost[i]].kind == Payload
  }

  // ---------------------------------------------------------------------------
  // The congestion window

  /** Nothing with payload was ever sent beyond the window of that moment. */
  ghost predicate WithinWindow(sends: seq<Sent>)
  {
    forall i :: 0 <= i < |sends| && sends[i].size > 0 ==> sends[i].inFlight + sends[i].size <= sends[i].cwnd
  }

  /** After a halving at sequence number s > 0, the next one is at least a
      window of packets later. */
  ghost predicate Spaced(cuts: seq<Cut>, mss: Pos)
  {
    forall i :: 0 <= i < |cuts| - 1 && cuts[i].seqNr > 0 ==>
      cuts[i + 1].seqNr >= cuts[i].seqNr + cuts[i + 1].cwnd / mss
  }

  predicate LastCut(cuts: seq<Cut>, lastDrop: nat)
  {
    lastDrop == if cuts == [] then 0 else cuts[|cuts| - 1].seqNr
  }

  // ---------------------------------------------------------------------------
  // The byte stream

  /** Entry `i` of the incoming queue is entry `i - |incoming| + nextIn` of the
      log, up to bytes that were already read. */
  ghost predicate Aligned(incoming: seq<Packet>, log: seq<Packet>, nextIn: nat)
  {
    && |incoming| <= nextIn <= |log|
    && (forall i :: 0 <= i < |incoming| ==>
          && Queueable(incoming[i])
          && incoming[i].kind == log[nextIn - |incoming| + i].kind
          && incoming[i].ec == log[nextIn - |incoming| + i].ec
          && (incoming[i].kind == Error ==> incoming[i].buffer == []))
  }

  ghost predicate Received(rcv: Sock, log: seq<Packet>, delivered: seq<Byte>, live: bool, eofRead: bool)
  {
    if rcv.channel then
      && !eofRead
      && Aligned(rcv.incoming, log, rcv.nextIn)
      && delivered + PayloadOf(rcv.incoming) == PayloadOf(log[..rcv.nextIn])
    else
      && eofRead && !live
      && rcv.incoming == [] && rcv.nextIn == |log| && delivered == PayloadOf(log)
  }

  // ---------------------------------------------------------------------------
  // The whole invariant

  /** What holds of the sender while its channel is live. */
  ghost predicate Live(snd: Sock, net: seq<Packet>, acks: seq<nat>, lost: seq<nat>, log: seq<Packet>)
  {
    && snd.open && !snd.connecting && snd.hops > 0
    && snd.nextOut == |log|
    && snd.cwnd >= snd.mss
    && Unacked(net, snd.outgoing, lost, acks, snd.outstanding.Keys)
    && Sizes(snd.outstanding, log)
    && Flight(snd.inFlight, snd.outstanding, snd.hist.resent, |log|)
    && Balance(snd.inFlight, snd.hist, log)
    && LastCut(snd.hist.cuts, snd.lastDrop)
  }

  ghost predicate Content(log: seq<Packet>, live: bool, net: seq<Packet>, outgoing: seq<Packet>, held: map<nat, Packet>)
  {
    && LogOk(log, live)
    && Copies(net, log)
    && Copies(outgoing, log)
    && WaitingOk(outgoing)
    && HeldCopies(held, log)
  }

  ghost predicate Inv(s: System, mss: Pos)
  {
    && Content(s.log, s.snd.channel, s.net, s.snd.outgoing, s.rcv.reorder)
    && Conserved(s.net, s.snd.outgoing, s.rcv.reorder.Keys, s.rcv.nextIn, s.lost, |s.log|)
    && (s.snd.channel ==> s.snd.mss == mss && Live(s.snd, s.net, s.acks, s.lost, s.log))
    && LostPayload(s.lost, s.log)
    && DropFree(s.snd.hist, s.snd.outgoing)
    && WithinWindow(s.snd.hist.sends)
    && Spaced(s.snd.hist.cuts, mss)
    && s.accepted == PayloadOf(s.log)
    && s.rcv.open && !s.rcv.connecting
    && Received(s.rcv, s.log, s.delivered, s.snd.channel, s.eofRead)
    && !s.stale
  }

  lemma EmptyConserved(held: map<nat, Packet>, outstanding: map<nat, nat>)
    requires held == map[] && outstanding == map[]
    ensures Conserved([], [], held.Keys, 0, [], 0)
    ensures Unacked([], [], [], [], outstanding.Keys)
  {
    assert Seqs([]) == [];
    assert Below(0) == {};
  }

  lemma InitInv(mss: Pos)
    ensures Inv(Init(mss), mss)
  {
    var s := Init(mss);
    EmptyConserved(s.rcv.reorder, s.snd.outstanding);
    assert Received(s.rcv, [], [], true, false) by {
      assert PayloadOf([]) == [];
    }
    hide Conserved;
    hide Unacked;
    hide Received;
  }

  // ---------------------------------------------------------------------------
  // Facts about the parts

  lemma SeqsSnoc(ps: seq<Packet>, p: Packet)
    ensures multiset(Seqs(ps + [p])) == multiset(Seqs(ps)) + multiset{p.seqNr}
  {
    assert Seqs(ps + [p]) == Seqs(ps) + [p.seqNr];
  }

  lemma SeqsRemoveAt(ps: seq<Packet>, i: nat)
    requires i < |ps|
    ensures multiset(Seqs(ps)) == multiset(Seqs(RemoveAt(ps, i))) + multiset{ps[i].seqNr}
  {
    RemoveAtMultiset(Seqs(ps), i);
    assert Seqs(RemoveAt(ps, i)) == RemoveAt(Seqs(ps), i);
  }

  lemma SeqsTail(ps: seq<Packet>)
    requires ps != []
    ensures multiset(Seqs(ps)) == multiset(Seqs(ps[1..])) + multiset{ps[0].seqNr}
  {
    SeqsRemoveAt(ps, 0);
    assert RemoveAt(ps, 0) == ps[1..];
  }

  lemma CancelOne(a: multiset<nat>, b: multiset<nat>, x: nat)
    requires a + multiset{x} == b + multiset{x}
    ensures a == b
  {
    assert a == (a + multiset{x}) - multiset{x};
  }

  lemma AddKey(keys: set<nat>, k: nat)
    requires k !in keys
    ensures multiset(keys + {k}) == multiset(keys) + multiset{k}
  {
  }

  lemma RemoveKey(keys: set<nat>, k: nat)
    requires k in keys
    ensures multiset(keys) == multiset(keys - {k}) + multiset{k}
  {
  }

  lemma {:induction false} SumSame(m: map<nat, nat>, m': map<nat, nat>, n: nat)
    requires forall k :: 0 <= k < n ==> (k in m <==> k in m') && (k in m ==> m[k] == m'[k])
    ensures SumUpTo(m, n) == SumUpTo(m', n)
  {
    if n > 0 { SumSame(m, m', n - 1); }
  }

  lemma {:induction false} SumRemove(m: map<nat, nat>, k: nat, n: nat)
    requires k in m && k < n
    ensures SumUpTo(m, n) == SumUpTo(m - {k}, n) + m[k]
  {
    if k < n - 1 {
      SumRemove(m, k, n - 1);
    } else {
      SumSame(m, m - {k}, n - 1);
    }
  }

  lemma SumAdd(m: map<nat, nat>, n: nat, v: nat)
    requires n !in m
    ensures SumUpTo(m[n := v], n + 1) == SumUpTo(m, n) + v
  {
    SumSame(m, m[n := v], n);
  }

  lemma CopiesGrow(ps: seq<Packet>, log: seq<Packet>, p: Packet)
    requires Copies(ps, log)
    ensures Copies(ps, log + [p])
  {
  }

  lemma HeldGrow(m: map<nat, Packet>, log: seq<Packet>, p: Packet)
    requires HeldCopies(m, log)
    ensures HeldCopies(m, log + [p])
  {
  }

  lemma CopiesSnoc(ps: seq<Packet>, p: Packet, log: seq<Packet>)
    requires Copies(ps, log) && IsCopy(p, log)
    ensures Copies(ps + [p], log)
  {
  }

  lemma CopiesRemove(ps: seq<Packet>, i: nat, log: seq<Packet>)
    requires Copies(ps, log) && i < |ps|
    ensures Copies(RemoveAt(ps, i), log)
  {
  }

  lemma LogSnoc(log: seq<Packet>, live: bool, p: Packet)
    requires LogOk(log, true) && p.seqNr == |log|
    requires (p.kind == Payload && p.buffer != []) || (!live && p == EofPacket(|log|))
    ensures LogOk(log + [p], live)
  {
  }

  lemma ReceivedGrow(rcv: Sock, log: seq<Packet>, p: Packet, delivered: seq<Byte>, live: bool, eofRead: bool)
    requires Received(rcv, log, delivered, true, eofRead)
    ensures Received(rcv, log + [p], delivered, live, eofRead)
  {
    assert (log + [p])[..rcv.nextIn] == log[..rcv.nextIn];
  }
}
