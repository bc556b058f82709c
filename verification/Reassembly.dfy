/** Reassembly at the receiver (src/tcp_socket.cpp:898-925) for packets that
    arrive in any order and any number of times. */
module Reassembly {
  import opened Packets
  import opened ReceiveFacts
  import opened TcpSpec

  /** All arrivals, one after the other. */
  function Receive(s: Sock, arrivals: seq<Packet>): (r: Sock)
  {
    if arrivals == [] then s
    else IncomingData(Receive(s, arrivals[..|arrivals| - 1]), arrivals[|arrivals| - 1])
  }

  predicate Arrived(arrivals: seq<Packet>, n: nat)
  {
    exists i :: 0 <= i < |arrivals| && arrivals[i].seqNr == n
  }

  /** The packet that arrived first under sequence number `n`. */
  function First(arrivals: seq<Packet>, n: nat): (r: Packet)
    requires Arrived(arrivals, n)
    ensures r.seqNr == n && r in arrivals
  {
    if arrivals[0].seqNr == n then arrivals[0]
    else
      var i :| 0 <= i < |arrivals| && arrivals[i].seqNr == n;
      assert arrivals[1..][i - 1].seqNr == n;
      First(arrivals[1..], n)
  }

  lemma ArrivedSnoc(arrivals: seq<Packet>, p: Packet, n: nat)
    ensures Arrived(arrivals + [p], n) <==> Arrived(arrivals, n) || p.seqNr == n
  {
    var all := arrivals + [p];
    if Arrived(arrivals, n) {
      var i :| 0 <= i < |arrivals| && arrivals[i].seqNr == n;
      assert all[i].seqNr == n;
    }
    if p.seqNr == n {
      assert all[|arrivals|].seqNr == n;
    }
    if Arrived(all, n) {
      var i :| 0 <= i < |all| && all[i].seqNr == n;
      assert i < |arrivals| ==> arrivals[i].seqNr == n;
    }
  }

  lemma {:induction false} FirstSnoc(arrivals: seq<Packet>, p: Packet, n: nat)
    requires Arrived(arrivals + [p], n)
    ensures Arrived(arrivals, n) ==> First(arrivals + [p], n) == First(arrivals, n)
    ensures !Arrived(arrivals, n) ==> First(arrivals + [p], n) == p
  {
    var all := arrivals + [p];
    ArrivedSnoc(arrivals, p, n);
    if arrivals != [] {
      assert all[1..] == arrivals[1..] + [p];
      if all[0].seqNr != n {
        assert Arrived(arrivals, n) == Arrived(arrivals[1..], n) by {
          TailArrived(arrivals, n);
        }
        TailArrived(all, n);
        FirstSnoc(arrivals[1..], p, n);
      }
    }
  }

  lemma TailArrived(arrivals: seq<Packet>, n: nat)
    requires arrivals != [] && arrivals[0].seqNr != n
    ensures Arrived(arrivals, n) <==> Arrived(arrivals[1..], n)
  {
    if Arrived(arrivals, n) {
      var i :| 0 <= i < |arrivals| && arrivals[i].seqNr == n;
      assert arrivals[1..][i - 1].seqNr == n;
    }
    if Arrived(arrivals[1..], n) {
      var i :| 0 <= i < |arrivals[1..]| && arrivals[1..][i].seqNr == n;
      assert arrivals[i + 1].seqNr == n;
    }
  }

  /** The state after some arrivals, up to draining. */
  ghost predicate Reassembled(s: Sock, arrivals: seq<Packet>)
  {
    && |s.incoming| == s.nextIn
    && (forall n :: 0 <= n < s.nextIn ==> Arrived(arrivals, n) && s.incoming[n] == First(arrivals, n))
    && (forall n :: n >= s.nextIn ==> (n in s.reorder <==> Arrived(arrivals, n)))
    && (forall n :: n in s.reorder && n >= s.nextIn ==> s.reorder[n] == First(arrivals, n))
  }

  lemma {:induction false} DrainReassembled(s: Sock, arrivals: seq<Packet>)
    requires Reassembled(s, arrivals)
    ensures Reassembled(Drain(s), arrivals)
    decreases |s.reorder|
  {
    if s.nextIn in s.reorder {
      DrainStep(s);
      var r := s.(reorder := s.reorder - {s.nextIn}, incoming := s.incoming + [s.reorder[s.nextIn]], nextIn := s.nextIn + 1);
      DrainReassembled(r, arrivals);
    }
  }

  lemma HoldReassembled(s: Sock, arrivals: seq<Packet>, p: Packet)
    requires Reassembled(s, arrivals) && p.seqNr != s.nextIn && s.nextIn !in s.reorder
    ensures Reassembled(IncomingData(s, p), arrivals + [p])
    ensures IncomingData(s, p).nextIn !in IncomingData(s, p).reorder
  {
    var r := IncomingData(s, p);
    var all := arrivals + [p];
    forall n: nat ensures Arrived(all, n) <==> Arrived(arrivals, n) || p.seqNr == n {
      ArrivedSnoc(arrivals, p, n);
    }
    forall n: nat | Arrived(all, n)
      ensures First(all, n) == if Arrived(arrivals, n) then First(arrivals, n) else p
    {
      FirstSnoc(arrivals, p, n);
    }
    hide First;
    hide Arrived;
  }

  lemma AcceptReassembled(s: Sock, arrivals: seq<Packet>, p: Packet)
    requires Reassembled(s, arrivals) && p.seqNr == s.nextIn && s.nextIn !in s.reorder
    ensures Reassembled(s.(nextIn := s.nextIn + 1, incoming := s.incoming + [p]), arrivals + [p])
  {
    var all := arrivals + [p];
    forall n: nat ensures Arrived(all, n) <==> Arrived(arrivals, n) || p.seqNr == n {
      ArrivedSnoc(arrivals, p, n);
    }
    forall n: nat | Arrived(all, n)
      ensures First(all, n) == if Arrived(arrivals, n) then First(arrivals, n) else p
    {
      FirstSnoc(arrivals, p, n);
    }
    hide First;
    hide Arrived;
  }

  lemma {:induction false} ReceiveReassembled(mss: Pos, arrivals: seq<Packet>)
    ensures var r := Receive(Established(mss), arrivals);
            Reassembled(r, arrivals) && r.nextIn !in r.reorder
  {
    hide Drain;
    hide First;
    if arrivals != [] {
      var m := |arrivals| - 1;
      var before, p := arrivals[..m], arrivals[m];
      ReceiveReassembled(mss, before);
      var s := Receive(Established(mss), before);
      assert arrivals == before + [p];
      if p.seqNr != s.nextIn {
        HoldReassembled(s, before, p);
      } else {
        AcceptReassembled(s, before, p);
        var accepted := s.(nextIn := s.nextIn + 1, incoming := s.incoming + [p]);
        DrainReassembled(accepted, arrivals);
        DrainDrains(accepted);
      }
    }
  }

  /** For arrivals in any order, with duplicates, the next expected number is the
      least one that has not arrived, and the reader's queue holds exactly the
      packets below it, in order, once each, as they arrived first. */
  lemma DeliversInOrder(mss: Pos, arrivals: seq<Packet>)
    ensures var r := Receive(Established(mss), arrivals);
            && !Arrived(arrivals, r.nextIn)
            && (forall n :: 0 <= n < r.nextIn ==> Arrived(arrivals, n))
            && |r.incoming| == r.nextIn
            && (forall n :: 0 <= n < r.nextIn ==> r.incoming[n] == First(arrivals, n))
  {
    ReceiveReassembled(mss, arrivals);
    hide First;
    hide Arrived;
    hide Receive;
  }
}
