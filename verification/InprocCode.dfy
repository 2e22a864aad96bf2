/** The context's table of endpoints and of connections waiting for one. */
module InprocCode {
  import opened Bytes
  import opened Inproc
  import opened Sequences

  datatype Entry = Entry(addr: Addr, conn: Conn, sock: Sock)

  // The entries stand for what is pending.
  ghost predicate Stands(entries: seq<Entry>, pending: map<Conn, Side>)
  {
    && (forall i, j | 0 <= i < j < |entries| :: entries[i].conn != entries[j].conn)
    && (forall i | 0 <= i < |entries| ::
          entries[i].conn in pending && pending[entries[i].conn] == Side(entries[i].sock, entries[i].addr))
    && (forall c | c in pending :: Listed(entries, c))
  }

  ghost predicate Listed(entries: seq<Entry>, c: Conn)
  {
    exists i :: 0 <= i < |entries| && entries[i].conn == c
  }

  lemma StandsMore(entries: seq<Entry>, pending: map<Conn, Side>, e: Entry)
    requires Stands(entries, pending) && e.conn !in pending
    ensures Stands(entries + [e], pending[e.conn := Side(e.sock, e.addr)])
  {
    var all, now := entries + [e], pending[e.conn := Side(e.sock, e.addr)];
    forall c | c in now ensures Listed(all, c) {
      if c == e.conn {
        assert all[|entries|].conn == c;
      } else {
        var i :| 0 <= i < |entries| && entries[i].conn == c;
        assert all[i].conn == c;
      }
    }
  }

  /* The entries for an address, and the others. */

  function Chosen(entries: seq<Entry>, addr: Addr): seq<Conn>
  {
    if entries == [] then []
    else
      var e := entries[|entries| - 1];
      Chosen(entries[..|entries| - 1], addr) + if e.addr == addr then [e.conn] else []
  }

  function Others(entries: seq<Entry>, addr: Addr): seq<Entry>
  {
    if entries == [] then []
    else
      var e := entries[|entries| - 1];
      Others(entries[..|entries| - 1], addr) + if e.addr == addr then [] else [e]
  }

  ghost predicate DistinctConns(entries: seq<Entry>)
  {
    forall i, j | 0 <= i < j < |entries| :: entries[i].conn != entries[j].conn
  }

  ghost predicate ListedAt(entries: seq<Entry>, addr: Addr, c: Conn)
  {
    exists i :: 0 <= i < |entries| && entries[i].conn == c && entries[i].addr == addr
  }

  lemma {:induction false} ChosenIff(entries: seq<Entry>, addr: Addr)
    requires DistinctConns(entries)
    ensures Distinct(Chosen(entries, addr))
    ensures forall c :: c in Chosen(entries, addr) <==> ListedAt(entries, addr, c)
  {
    if entries != [] {
      var n := |entries| - 1;
      var front, e := entries[..n], entries[n];
      ChosenIff(front, addr);
      forall c ensures c in Chosen(entries, addr) <==> ListedAt(entries, addr, c) {
        if ListedAt(front, addr, c) {
          var i :| 0 <= i < n && front[i].conn == c && front[i].addr == addr;
          assert entries[i] == front[i];
        }
        if ListedAt(entries, addr, c) {
          var i :| 0 <= i < |entries| && entries[i].conn == c && entries[i].addr == addr;
          assert i < n ==> front[i] == entries[i];
        }
      }
      assert !ListedAt(front, addr, e.conn);
    }
  }

  lemma {:induction false} OthersIff(entries: seq<Entry>, addr: Addr)
    requires DistinctConns(entries)
    ensures DistinctConns(Others(entries, addr))
    ensures forall e :: e in Others(entries, addr) <==> e in entries && e.addr != addr
  {
    if entries != [] {
      var n := |entries| - 1;
      OthersIff(entries[..n], addr);
      assert entries == entries[..n] + [entries[n]];
      var kept := Others(entries[..n], addr);
      forall i | 0 <= i < |kept| ensures kept[i].conn != entries[n].conn {
        assert kept[i] in kept;
        var j :| 0 <= j < n && entries[j] == kept[i];
      }
    }
  }

  // The connections for an address, as far as the entries have been gone through, are pending.
  lemma ChosenPending(w: World, entries: seq<Entry>, i: nat, addr: Addr)
    requires Stands(entries, w.pending) && i <= |entries|
    ensures AllPending(w, Chosen(entries[..i], addr))
  {
    var front := entries[..i];
    var order := Chosen(front, addr);
    ChosenIff(front, addr);
    forall k | 0 <= k < |order| ensures order[k] in w.pending {
      assert order[k] in order;
      var j :| 0 <= j < |front| && front[j].conn == order[k] && front[j].addr == addr;
      assert entries[j] == front[j];
    }
  }

  // They are all that is pending for it.
  lemma ChosenAll(w: World, entries: seq<Entry>, addr: Addr)
    requires Stands(entries, w.pending)
    ensures Distinct(Chosen(entries, addr))
    ensures forall c :: c in Chosen(entries, addr) <==> c in w.pending && w.pending[c].addr == addr
  {
    ChosenIff(entries, addr);
    forall c | c in w.pending && w.pending[c].addr == addr ensures ListedAt(entries, addr, c) {
      assert Listed(entries, c);
    }
  }

  // The others stand for what is still pending.
  lemma OthersStand(entries: seq<Entry>, addr: Addr, before: map<Conn, Side>, after: map<Conn, Side>)
    requires Stands(entries, before)
    requires forall c :: c in after <==> c in before && before[c].addr != addr
    requires forall c | c in after :: after[c] == before[c]
    ensures Stands(Others(entries, addr), after)
  {
    var kept := Others(entries, addr);
    OthersIff(entries, addr);
    forall i | 0 <= i < |kept|
      ensures kept[i].conn in after && after[kept[i].conn] == Side(kept[i].sock, kept[i].addr)
    {
      assert kept[i] in kept;
      var j :| 0 <= j < |entries| && entries[j] == kept[i];
    }
    forall c | c in after ensures Listed(kept, c) {
      assert Listed(entries, c);
      var j :| 0 <= j < |entries| && entries[j].conn == c;
      assert entries[j] in kept;
      var i :| 0 <= i < |kept| && kept[i] == entries[j];
    }
  }

  lemma {:induction false} JoinSnoc(w: World, order: seq<Conn>, c: Conn, b: Sock)
    requires AllPending(w, order + [c])
    ensures AllPending(w, order) && c in JoinAll(w, order, b).pending
    ensures JoinAll(w, order + [c], b) == JoinByBinder(JoinAll(w, order, b), c, b)
    decreases |order|
  {
    var all := order + [c];
    assert forall k | 0 <= k < |order| :: order[k] == all[k];
    assert all[|order|] == c;
    if order != [] {
      var u := JoinByBinder(w, order[0], b);
      assert all[1..] == order[1..] + [c] && all[0] == order[0];
      forall k | 0 <= k < |all[1..]| ensures all[1..][k] in u.pending {
        assert all[1..][k] == all[k + 1] != all[0];
      }
      JoinSnoc(u, order[1..], c, b);
    }
  }

  // The binder is promised a command for each connection, and has processed it at once.
  lemma {:induction false} JoinAllCounts(w: World, order: seq<Conn>, b: Sock)
    requires AllPending(w, order)
    ensures var v := JoinAll(w, order, b);
            forall s :: Count(v.sent, s) == Count(w.sent, s) + (if s == b then |order| else 0)
                        && Count(v.processed, s) == Count(w.processed, s) + if s == b then |order| else 0
    decreases |order|
  {
    if order != [] {
      RestPending(w, order, b);
      JoinAllCounts(JoinByBinder(w, order[0], b), order[1..], b);
    }
  }

  class Registry {
    var endpoints: map<Addr, Sock>
    var pendingConnections: seq<Entry>
    ghost var world: World       // the table, and what goes on around it

    ghost predicate Valid()
      reads this
    {
      Inv(world) && world.endpoints == endpoints && Stands(pendingConnections, world.pending)
    }

    constructor ()
      ensures Valid() && world == START
    {
      StartInv();
      endpoints, pendingConnections, world := map[], [], START;
    }

    method RegisterEndpoint(addr: Addr, sock: Sock) returns (rc: int)
      requires Valid()
      modifies this
      ensures Valid() && world == Step(old(world), Register(addr, sock))
      ensures rc == if addr in old(endpoints) then -1 else 0
    {
      StepInv(world, Register(addr, sock));
      world := Step(world, Register(addr, sock));
      if addr in endpoints {
        return -1;
      }
      endpoints := endpoints[addr := sock];
      return 0;
    }

    method UnregisterEndpoint(addr: Addr, sock: Sock) returns (rc: int)
      requires Valid() && (addr in endpoints && endpoints[addr] == sock ==> addr !in world.binding)
      modifies this
      ensures Valid()
      ensures if addr in old(endpoints) && old(endpoints[addr]) == sock
              then rc == 0 && world == Step(old(world), Unregister(addr))
              else rc == -1 && world == old(world)
    {
      if addr !in endpoints || endpoints[addr] != sock {
        return -1;
      }
      StepInv(world, Unregister(addr));
      world := Step(world, Unregister(addr));
      endpoints := endpoints - {addr};
      return 0;
    }

    // A peer that is found will not go before the bind command, still to be sent, has reached it.
    method FindEndpoint(ghost conn: Conn, side: Side) returns (peer: Option<Sock>)
      requires Valid() && conn !in world.used
      modifies this
      ensures Valid() && world == Step(old(world), Find(conn, side))
      ensures peer == if side.addr in endpoints then Some(endpoints[side.addr]) else None
      ensures forall s: Sock :: Count(world.sent, s) == old(Count(world.sent, s)) + if peer == Some(s) then 1 else 0
    {
      StepInv(world, Find(conn, side));
      world := Step(world, Find(conn, side));
      peer := if side.addr in endpoints then Some(endpoints[side.addr]) else None;
    }

    // Binding may have happened since the endpoint was looked for.
    method PendConnection(conn: Conn, side: Side) returns (peer: Option<Sock>)
      requires Valid() && conn in world.missed && world.missed[conn] == side
      modifies this
      ensures Valid() && world == Step(old(world), Pend(conn))
      ensures peer == if side.addr in endpoints then Some(endpoints[side.addr]) else None
      ensures var told := if peer == None then side.sock else peer.value;
              forall s: Sock :: Count(world.sent, s) == old(Count(world.sent, s)) + if s == told then 1 else 0
      ensures pendingConnections == old(pendingConnections)
                                    + if peer == None then [Entry(side.addr, conn, side.sock)] else []
      ensures world.flight == old(world.flight) + if peer == None then {} else {Bind(peer.value, conn)}
    {
      StepInv(world, Pend(conn));
      assert conn !in world.pending;
      ghost var w := world;
      world := Step(world, Pend(conn));
      if side.addr !in endpoints {
        StandsMore(pendingConnections, w.pending, Entry(side.addr, conn, side.sock));
        pendingConnections := pendingConnections + [Entry(side.addr, conn, side.sock)];
        return None;
      }
      return Some(endpoints[side.addr]);
    }

    // What has been pending for the address is connected, in the order in which it came.
    method ConnectPending(addr: Addr, binder: Sock) returns (ghost order: seq<Conn>)
      requires Valid() && addr in world.binding && world.binding[addr] == binder
      modifies this
      ensures Valid() && order == Chosen(old(pendingConnections), addr)
      ensures old(Enabled(world, Event.ConnectPending(addr, order)))
      ensures world == Step(old(world), Event.ConnectPending(addr, order))
      ensures pendingConnections == Others(old(pendingConnections), addr)
      ensures forall s: Sock :: Count(world.sent, s) == old(Count(world.sent, s)) + if s == binder then |order| else 0
      ensures forall s: Sock ::
                Count(world.processed, s) == old(Count(world.processed, s)) + if s == binder then |order| else 0
    {
      ghost var w := world;
      order := [];
      var kept, i := [], 0;
      while i < |pendingConnections|
        modifies this`world
        invariant i <= |pendingConnections|
        invariant order == Chosen(pendingConnections[..i], addr) && kept == Others(pendingConnections[..i], addr)
        invariant AllPending(w, order) && world == JoinAll(w, order, binder)
      {
        order, kept := ConnectOne(i, addr, binder, w, order, kept);
        i := i + 1;
      }
      assert pendingConnections[..i] == pendingConnections;
      Finish(w, addr, order, kept);
      JoinAllCounts(w, order, binder);
      world := world.(binding := world.binding - {addr});
      pendingConnections := kept;
    }

    // One entry is connected, or kept.
    method ConnectOne(i: nat, addr: Addr, ghost binder: Sock, ghost w: World, ghost order: seq<Conn>, kept: seq<Entry>)
      returns (ghost order': seq<Conn>, kept': seq<Entry>)
      requires i < |pendingConnections| && Stands(pendingConnections, w.pending)
      requires order == Chosen(pendingConnections[..i], addr) && kept == Others(pendingConnections[..i], addr)
      requires AllPending(w, order) && world == JoinAll(w, order, binder)
      modifies this`world
      ensures order' == Chosen(pendingConnections[..i + 1], addr) && kept' == Others(pendingConnections[..i + 1], addr)
      ensures AllPending(w, order') && world == JoinAll(w, order', binder)
    {
      order', kept' := order, kept;
      var e := pendingConnections[i];
      assert pendingConnections[..i + 1][..i] == pendingConnections[..i];
      ChosenPending(w, pendingConnections, i + 1, addr);
      if e.addr == addr {
        JoinSnoc(w, order, e.conn, binder);
        world := JoinByBinder(world, e.conn, binder);
        order' := order + [e.conn];
      } else {
        kept' := kept + [e];
      }
    }

    lemma Finish(w: World, addr: Addr, order: seq<Conn>, kept: seq<Entry>)
      requires Inv(w) && Stands(pendingConnections, w.pending) && addr in w.binding && w.endpoints == endpoints
      requires order == Chosen(pendingConnections, addr) && kept == Others(pendingConnections, addr)
      requires AllPending(w, order) && world == JoinAll(w, order, w.binding[addr])
      ensures Enabled(w, Event.ConnectPending(addr, order))
      ensures var v := Step(w, Event.ConnectPending(addr, order));
              && v == world.(binding := world.binding - {addr})
              && Inv(v) && v.endpoints == endpoints && Stands(kept, v.pending)
    {
      ChosenAll(w, pendingConnections, addr);
      ConnectPendingInv(w, addr, order);
      JoinAllInv(w, order, w.binding[addr]);
      JoinAllLeft(w, order, w.binding[addr]);
      OthersStand(pendingConnections, addr, w.pending, world.pending);
    }
  }
}
