/** Binding sockets to endpoints and choosing free ports
    (src/simulation.cpp:172-282). */
module PortSpec {
  import opened Packets

  datatype Endpoint = Endpoint(address: nat, port: nat)

  const FIRST_PORT := 2000
  const LAST_COUNTER := 65534
  const LAST_SEARCHED := 65530

  /** The table of one protocol, and the counter that both protocols share.
      `S` identifies a socket. */
  datatype Table<S> = Table(sockets: map<Endpoint, S>, nextPort: nat)

  function NoSockets<S>(): (t: Table<S>)
  {
    Table(map[], FIRST_PORT)
  }

  /** The rolling counter after one use. */
  function Roll(port: nat): (r: nat)
  {
    if port + 1 > LAST_COUNTER then FIRST_PORT else port + 1
  }

  function Bound<S>(t: Table<S>, address: nat, port: nat): (r: bool)
  {
    Endpoint(address, port) in t.sockets
  }

  /** Search upwards for a port that is free. */
  function Search<S>(t: Table<S>, address: nat, port: nat): (r: Result)
    decreases LAST_SEARCHED + 1 - port
  {
    if !Bound(t, address, port) then Found(port)
    else if port + 1 > LAST_SEARCHED then InUse
    else Search(t, address, port + 1)
  }

  datatype Result = Found(port: nat) | InUse

  datatype Outcome<S> = Outcome(table: Table<S>, ep: Endpoint, ec: ErrorCode)

  const NO_ENDPOINT := Endpoint(0, 0)

  function Bind<S>(t: Table<S>, socket: S, ep: Endpoint): (r: Outcome<S>)
  {
    if 0 < ep.port < 1024 then Outcome(t, NO_ENDPOINT, AccessDenied)
    else
      var t1 := if ep.port == 0 then t.(nextPort := Roll(t.nextPort)) else t;
      var choice := if ep.port == 0 then Search(t, ep.address, t.nextPort) else Found(ep.port);
      if choice.InUse? || Bound(t, ep.address, choice.port) then Outcome(t1, NO_ENDPOINT, AddressInUse)
      else
        var chosen := Endpoint(ep.address, choice.port);
        Outcome(t1.(sockets := t.sockets[chosen := socket]), chosen, NoError)
  }

  /** Only the socket that owns the entry removes it. */
  function Unbind<S(==)>(t: Table<S>, socket: S, ep: Endpoint): (r: Table<S>)
  {
    if ep !in t.sockets || t.sockets[ep] != socket then t
    else t.(sockets := t.sockets - {ep})
  }
}

module Ports {
  import opened Packets
  import opened PortSpec

  class Registry<S(==)> {
    var sockets: map<Endpoint, S>
    var nextBindPort: nat

    ghost function View(): (t: Table<S>)
      reads this
    {
      Table(sockets, nextBindPort)
    }

    constructor ()
      ensures View() == NoSockets()
    {
      sockets, nextBindPort := map[], FIRST_PORT;
    }

    method Bind(socket: S, ep: Endpoint) returns (bound: Endpoint, ec: ErrorCode)
      modifies this
      ensures Outcome(View(), bound, ec) == PortSpec.Bind(old(View()), socket, ep)
    {
      if ep.port < 1024 && ep.port > 0 {
        return NO_ENDPOINT, AccessDenied;
      }
      var port := ep.port;
      if port == 0 {
        port := nextBindPort;
        nextBindPort := nextBindPort + 1;
        if nextBindPort > LAST_COUNTER {
          nextBindPort := FIRST_PORT;
        }
        ghost var goal := Search(old(View()), ep.address, port);
        while Endpoint(ep.address, port) in sockets
          invariant sockets == old(sockets) && nextBindPort == Roll(old(nextBindPort))
          invariant Search(old(View()), ep.address, port) == goal
          decreases LAST_SEARCHED + 1 - port
        {
          port := port + 1;
          if port > LAST_SEARCHED {
            return NO_ENDPOINT, AddressInUse;
          }
        }
      }
      bound := Endpoint(ep.address, port);
      if bound in sockets {
        return NO_ENDPOINT, AddressInUse;
      }
      sockets := sockets[bound := socket];
      ec := NoError;
    }

    method Unbind(socket: S, ep: Endpoint)
      modifies this`sockets
      ensures View() == PortSpec.Unbind(old(View()), socket, ep)
    {
      if ep !in sockets || sockets[ep] != socket { return; }
      sockets := sockets - {ep};
    }
  }

  /** The search finds the least free port from `port` on; only the very first
      candidate may lie above the last searched port. */
  lemma {:induction false} SearchLeast<S>(t: Table<S>, address: nat, port: nat)
    ensures var r := Search(t, address, port);
            && (r.Found? ==>
                  && r.port >= port && !Bound(t, address, r.port)
                  && (r.port == port || r.port <= LAST_SEARCHED)
                  && (forall q :: port <= q < r.port ==> Bound(t, address, q)))
            && (r.InUse? <==> Bound(t, address, port) && forall q :: port < q <= LAST_SEARCHED ==> Bound(t, address, q))
    decreases LAST_SEARCHED + 1 - port
  {
    if Bound(t, address, port) && port + 1 <= LAST_SEARCHED {
      SearchLeast(t, address, port + 1);
    }
  }

  /** Binding to port 0 gives the least free port at or above the rolling
      counter, never one that is in use, and fails exactly when the counter's
      port and every port from there to 65530 are taken.  Other entries stay. */
  lemma BindsLeastFreePort<S>(t: Table<S>, socket: S, address: nat)
    ensures var r := Bind(t, socket, Endpoint(address, 0));
            && (r.ec == NoError <==>
                  !(Bound(t, address, t.nextPort) && forall q :: t.nextPort < q <= 65530 ==> Bound(t, address, q)))
            && (r.ec == NoError ==>
                  && r.ep.address == address && r.ep.port >= t.nextPort
                  && !Bound(t, address, r.ep.port)
                  && (forall q :: t.nextPort <= q < r.ep.port ==> Bound(t, address, q))
                  && r.table.sockets == t.sockets[r.ep := socket])
            && (r.ec != NoError ==> r.ec == AddressInUse && r.table.sockets == t.sockets)
            && r.table.nextPort == Roll(t.nextPort)
  {
    SearchLeast(t, address, t.nextPort);
    hide Search;
    hide Bound;
  }

  /** Binding to a given port succeeds exactly when it is not reserved and free. */
  lemma BindsGivenPort<S>(t: Table<S>, socket: S, ep: Endpoint)
    requires ep.port != 0
    ensures var r := Bind(t, socket, ep);
            && (r.ec == AccessDenied <==> ep.port < 1024)
            && (r.ec == AddressInUse <==> ep.port >= 1024 && ep in t.sockets)
            && (r.ec == NoError <==> ep.port >= 1024 && ep !in t.sockets)
            && (r.ec == NoError ==> r.ep == ep)
            && r.table == if r.ec == NoError then t.(sockets := t.sockets[ep := socket]) else t
  {
    assert Endpoint(ep.address, ep.port) == ep;
  }

  /** Unbinding by the owner removes its entry and no other; by anyone else, or
      from a free endpoint, it does nothing. */
  lemma UnbindsExactly<S>(t: Table<S>, socket: S, ep: Endpoint)
    ensures var r := Unbind(t, socket, ep);
            && r.nextPort == t.nextPort
            && (ep in t.sockets && t.sockets[ep] == socket ==> ep !in r.sockets)
            && (forall e :: e in t.sockets && !(e == ep && t.sockets[e] == socket) ==>
                  e in r.sockets && r.sockets[e] == t.sockets[e])
            && (forall e :: e in r.sockets ==> e in t.sockets)
  {
  }

  /** After its owner has unbound, an endpoint can be bound again by anyone. */
  lemma UnboundIsFree<S>(t: Table<S>, owner: S, other: S, ep: Endpoint)
    requires ep in t.sockets && t.sockets[ep] == owner && ep.port >= 1024
    ensures var r := Bind(Unbind(t, owner, ep), other, ep);
            r.ec == NoError && r.ep == ep && r.table.sockets == t.sockets[ep := other]
  {
    UnbindsExactly(t, owner, ep);
    var u := Unbind(t, owner, ep);
    BindsGivenPort(u, other, ep);
    hide Bind;
    hide Unbind;
    assert u.sockets[ep := other] == t.sockets[ep := other];
  }

  // ---------------------------------------------------------------------------
  // Runs

  /** `CounterRolls` stands for the other protocol choosing a port. */
  datatype Op<S> = BindTo(socket: S, ep: Endpoint) | UnbindFrom(socket: S, ep: Endpoint) | CounterRolls

  function Apply<S(==)>(t: Table<S>, op: Op<S>): (r: Table<S>)
  {
    match op
    case BindTo(socket, ep) => Bind(t, socket, ep).table
    case UnbindFrom(socket, ep) => Unbind(t, socket, ep)
    case CounterRolls => t.(nextPort := Roll(t.nextPort))
  }

  function Exec<S(==)>(t: Table<S>, ops: seq<Op<S>>): (r: Table<S>)
  {
    if ops == [] then t else Apply(Exec(t, ops[..|ops| - 1]), ops[|ops| - 1])
  }

  lemma ApplyKeepsOwner<S>(t: Table<S>, op: Op<S>, ep: Endpoint, owner: S)
    requires ep in t.sockets && t.sockets[ep] == owner && op != UnbindFrom(owner, ep)
    ensures ep in Apply(t, op).sockets && Apply(t, op).sockets[ep] == owner
  {
    match op
    case BindTo(socket, at) =>
      if at.port == 0 {
        BindsLeastFreePort(t, socket, at.address);
        assert Endpoint(at.address, 0) == at;
      } else {
        BindsGivenPort(t, socket, at);
      }
      hide Bind;
    case UnbindFrom(socket, at) =>
    case CounterRolls =>
  }

  /** A listener keeps its endpoint through any run in which it does not unbind
      from it itself; in particular closing accepted sockets that share the
      endpoint, or binding others, never takes or removes its entry. */
  lemma {:induction false} ListenerKeepsEntry<S>(t: Table<S>, ops: seq<Op<S>>, ep: Endpoint, owner: S)
    requires ep in t.sockets && t.sockets[ep] == owner
    requires UnbindFrom(owner, ep) !in ops
    ensures ep in Exec(t, ops).sockets && Exec(t, ops).sockets[ep] == owner
  {
    if ops != [] {
      var m := |ops| - 1;
      assert ops[m] in ops && forall op :: op in ops[..m] ==> op in ops;
      ListenerKeepsEntry(t, ops[..m], ep, owner);
      ApplyKeepsOwner(Exec(t, ops[..m]), ops[m], ep, owner);
    }
  }

  /** The operation takes a port from the counter. */
  predicate UsesCounter<S>(op: Op<S>)
  {
    op.CounterRolls? || (op.BindTo? && op.ep.port == 0)
  }

  function Uses<S>(ops: seq<Op<S>>): (r: nat)
  {
    if ops == [] then 0 else Uses(ops[..|ops| - 1]) + (if UsesCounter(ops[|ops| - 1]) then 1 else 0)
  }

  /** The counter goes through the 63535 ports from 2000 to 65534, one for each
      use, and starts over. */
  lemma {:induction false} CounterCycles<S>(ops: seq<Op<S>>)
    ensures Exec(NoSockets<S>(), ops).nextPort == 2000 + Uses(ops) % 63535
  {
    if ops != [] {
      var m := |ops| - 1;
      CounterCycles(ops[..m]);
      var t := Exec(NoSockets<S>(), ops[..m]);
      match ops[m]
      case BindTo(socket, at) =>
        if at.port == 0 {
          BindsLeastFreePort(t, socket, at.address);
          assert Endpoint(at.address, 0) == at;
        } else {
          BindsGivenPort(t, socket, at);
        }
        hide Bind;
      case UnbindFrom(socket, at) =>
      case CounterRolls =>
    }
  }

  /** The counter never leaves the range it rolls over. */
  lemma {:induction false} CounterInRange<S>(ops: seq<Op<S>>)
    ensures 2000 <= Exec(NoSockets<S>(), ops).nextPort <= 65534
    ensures forall ep :: ep in Exec(NoSockets<S>(), ops).sockets ==> 1024 <= ep.port
  {
    if ops != [] {
      var m := |ops| - 1;
      CounterInRange(ops[..m]);
      var t := Exec(NoSockets<S>(), ops[..m]);
      match ops[m]
      case BindTo(socket, at) =>
        if at.port == 0 {
          BindsLeastFreePort(t, socket, at.address);
          assert Endpoint(at.address, 0) == at;
        } else {
          BindsGivenPort(t, socket, at);
        }
        hide Bind;
      case UnbindFrom(socket, at) =>
      case CounterRolls =>
    }
  }
}
