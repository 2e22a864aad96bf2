/** How sockets of one process find each other, whichever of binding and connecting comes first. */
module Inproc {
  import opened Sequences

  type Addr = nat
  type Sock = nat
  type Conn = nat                // one call of connect

  datatype Side = Side(sock: Sock, addr: Addr)

  // A command that makes its destination count one more sequence number as processed.
  datatype Cmd = Bind(dest: Sock, conn: Conn) | Connected(dest: Sock, conn: Conn)

  datatype World = World(
    endpoints: map<Addr, Sock>,
    binding: map<Addr, Sock>,        // registered, while what is pending has still to be connected
    missed: map<Conn, Side>,         // nothing was found; to be pended
    reserved: map<Conn, Sock>,       // a peer was found; its bind command is still to be sent
    pending: map<Conn, Side>,        // ctx_t::_pending_connections
    flight: set<Cmd>,
    joined: multiset<Conn>,          // connections made, as often as they were
    used: set<Conn>,
    sent: map<Sock, int>,            // own_t::_sent_seqnum
    processed: map<Sock, int>)       // own_t::_processed_seqnum

  datatype Event =
    | Register(addr: Addr, sock: Sock)      // bind, first part
    | ConnectPending(addr: Addr, order: seq<Conn>)  // bind, second part: what is pending for it, in some order
    | Unregister(addr: Addr)
    | Find(conn: Conn, side: Side)          // connect, first part
    | SendBind(conn: Conn)                  // connect, when a peer was found
    | Pend(conn: Conn)                      // connect, when none was found
    | Deliver(cmd: Cmd)

  function Count(m: map<Sock, int>, s: Sock): int
  {
    if s in m then m[s] else 0
  }

  function Inc(m: map<Sock, int>, s: Sock): map<Sock, int>
  {
    m[s := Count(m, s) + 1]
  }

  // A socket takes its own endpoints back, but not in the middle of binding.
  ghost predicate Enabled(w: World, e: Event)
  {
    match e
    case Register(_, _) => true
    case ConnectPending(addr, order) =>
      && addr in w.binding && Distinct(order)
      && forall c :: c in order <==> c in w.pending && w.pending[c].addr == addr
    case Unregister(addr) => addr in w.endpoints && addr !in w.binding
    case Find(conn, _) => conn !in w.used
    case SendBind(conn) => conn in w.reserved
    case Pend(conn) => conn in w.missed
    case Deliver(cmd) => cmd in w.flight
  }

  // connect_inproc_sockets on the connecting side: the peer is told.
  function JoinByConnector(w: World, conn: Conn, peer: Sock): World
  {
    w.(sent := Inc(w.sent, peer), flight := w.flight + {Bind(peer, conn)}, joined := w.joined + multiset{conn})
  }

  // connect_inproc_sockets on the binding side: the pipe is attached at once, and the connecting socket is told.
  function JoinByBinder(w: World, conn: Conn, binder: Sock): World
    requires conn in w.pending
  {
    w.(sent := Inc(w.sent, binder), processed := Inc(w.processed, binder), pending := w.pending - {conn},
       flight := w.flight + {Connected(w.pending[conn].sock, conn)}, joined := w.joined + multiset{conn})
  }

  ghost predicate AllPending(w: World, order: seq<Conn>)
  {
    Distinct(order) && forall k | 0 <= k < |order| :: order[k] in w.pending
  }

  function JoinAll(w: World, order: seq<Conn>, binder: Sock): World
    requires AllPending(w, order)
    decreases |order|
  {
    if order == [] then w else JoinAll(JoinByBinder(w, order[0], binder), order[1..], binder)
  }

  ghost function Step(w: World, e: Event): World
    requires Enabled(w, e)
  {
    match e
    case Register(addr, sock) =>
      if addr in w.endpoints then w
      else w.(endpoints := w.endpoints[addr := sock], binding := w.binding[addr := sock])
    case ConnectPending(addr, order) =>
      var v := JoinAll(w, order, w.binding[addr]);
      v.(binding := v.binding - {addr})
    case Unregister(addr) => w.(endpoints := w.endpoints - {addr})
    case Find(conn, side) =>
      var v := w.(used := w.used + {conn});
      if side.addr in w.endpoints then
        var peer := w.endpoints[side.addr];
        v.(sent := Inc(w.sent, peer), reserved := w.reserved[conn := peer])
      else
        v.(missed := w.missed[conn := side])
    case SendBind(conn) =>
      w.(reserved := w.reserved - {conn}, flight := w.flight + {Bind(w.reserved[conn], conn)},
         joined := w.joined + multiset{conn})
    case Pend(conn) =>
      var side, v := w.missed[conn], w.(missed := w.missed - {conn});
      if side.addr in w.endpoints then JoinByConnector(v, conn, w.endpoints[side.addr])
      else v.(sent := Inc(w.sent, side.sock), pending := w.pending[conn := side])
    case Deliver(cmd) =>
      w.(flight := w.flight - {cmd}, processed := Inc(w.processed, cmd.dest))
  }

  /* What every run keeps. */

  function To(flight: set<Cmd>, s: Sock): set<Cmd>
  {
    set c | c in flight && c.dest == s
  }

  function PendingOf(pending: map<Conn, Side>, s: Sock): set<Conn>
  {
    set c | c in pending && pending[c].sock == s
  }

  function ReservedFor(reserved: map<Conn, Sock>, s: Sock): set<Conn>
  {
    set c | c in reserved && reserved[c] == s
  }

  // What a socket has still to count is on its way to it, or waits to be sent to it.
  ghost predicate Balanced(w: World, s: Sock)
  {
    Count(w.sent, s) - Count(w.processed, s)
    == |To(w.flight, s)| + |PendingOf(w.pending, s)| + |ReservedFor(w.reserved, s)|
  }

  ghost predicate Waiting(w: World, c: Conn)
  {
    c in w.missed || c in w.reserved || c in w.pending
  }

  ghost predicate Shape(w: World)
  {
    && (forall c | Waiting(w, c) :: c in w.used)
    && (forall c | c in w.missed :: c !in w.reserved && c !in w.pending)
    && (forall c | c in w.reserved :: c !in w.pending)
    && (forall c :: w.joined[c] == if c in w.used && !Waiting(w, c) then 1 else 0)
    && (forall x | x in w.flight :: w.joined[x.conn] == 1)
    && (forall a | a in w.binding :: a in w.endpoints && w.endpoints[a] == w.binding[a])
    && (forall c | c in w.pending && w.pending[c].addr in w.endpoints :: w.pending[c].addr in w.binding)
  }

  ghost predicate Inv(w: World)
  {
    Shape(w) && forall s :: Balanced(w, s)
  }

  lemma OneMore<T>(a: set<T>, x: T)
    requires x !in a
    ensures |a + {x}| == |a| + 1
  {
  }

  lemma SentTo(flight: set<Cmd>, x: Cmd, s: Sock)
    requires x !in flight
    ensures |To(flight + {x}, s)| == |To(flight, s)| + if s == x.dest then 1 else 0
  {
    if s == x.dest {
      assert To(flight + {x}, s) == To(flight, s) + {x};
    } else {
      assert To(flight + {x}, s) == To(flight, s);
    }
  }

  lemma TakenFrom(flight: set<Cmd>, x: Cmd, s: Sock)
    requires x in flight
    ensures |To(flight - {x}, s)| == |To(flight, s)| - if s == x.dest then 1 else 0
  {
    SentTo(flight - {x}, x, s);
    assert flight - {x} + {x} == flight;
  }

  lemma PendedBy(pending: map<Conn, Side>, c: Conn, side: Side, s: Sock)
    requires c !in pending
    ensures |PendingOf(pending[c := side], s)| == |PendingOf(pending, s)| + if s == side.sock then 1 else 0
  {
    if s == side.sock {
      assert PendingOf(pending[c := side], s) == PendingOf(pending, s) + {c};
    } else {
      assert PendingOf(pending[c := side], s) == PendingOf(pending, s);
    }
  }

  lemma PendedLess(pending: map<Conn, Side>, c: Conn, s: Sock)
    requires c in pending
    ensures |PendingOf(pending - {c}, s)| == |PendingOf(pending, s)| - if s == pending[c].sock then 1 else 0
  {
    PendedBy(pending - {c}, c, pending[c], s);
    assert (pending - {c})[c := pending[c]] == pending;
  }

  lemma ReservedMore(reserved: map<Conn, Sock>, c: Conn, peer: Sock, s: Sock)
    requires c !in reserved
    ensures |ReservedFor(reserved[c := peer], s)| == |ReservedFor(reserved, s)| + if s == peer then 1 else 0
  {
    if s == peer {
      assert ReservedFor(reserved[c := peer], s) == ReservedFor(reserved, s) + {c};
    } else {
      assert ReservedFor(reserved[c := peer], s) == ReservedFor(reserved, s);
    }
  }

  lemma ReservedLess(reserved: map<Conn, Sock>, c: Conn, s: Sock)
    requires c in reserved
    ensures |ReservedFor(reserved - {c}, s)| == |ReservedFor(reserved, s)| - if s == reserved[c] then 1 else 0
  {
    ReservedMore(reserved - {c}, c, reserved[c], s);
    assert (reserved - {c})[c := reserved[c]] == reserved;
  }

  // A command of a connection still waiting is not on its way.
  lemma NotInFlight(w: World, x: Cmd)
    requires Shape(w) && Waiting(w, x.conn)
    ensures x !in w.flight
  {
    assert w.joined[x.conn] == 0;
  }

  lemma JoinByBinderInv(w: World, c: Conn, b: Sock)
    requires Inv(w) && c in w.pending
    ensures Inv(JoinByBinder(w, c, b))
  {
    var v, x := JoinByBinder(w, c, b), Connected(w.pending[c].sock, c);
    NotInFlight(w, x);
    JoinByBinderShape(w, c, b);
    forall s ensures Balanced(v, s) {
      assert Balanced(w, s);
      SentTo(w.flight, x, s);
      PendedLess(w.pending, c, s);
    }
  }

  lemma JoinByBinderShape(w: World, c: Conn, b: Sock)
    requires Shape(w) && c in w.pending
    ensures Shape(JoinByBinder(w, c, b))
  {
    var v := JoinByBinder(w, c, b);
    forall d ensures v.joined[d] == if d in v.used && !Waiting(v, d) then 1 else 0 {
      assert w.joined[d] == if d in w.used && !Waiting(w, d) then 1 else 0;
      assert d != c ==> (Waiting(v, d) <==> Waiting(w, d));
      assert Waiting(w, c) && !Waiting(v, c);
    }
  }

  lemma RestPending(w: World, order: seq<Conn>, b: Sock)
    requires AllPending(w, order) && order != []
    ensures AllPending(JoinByBinder(w, order[0], b), order[1..])
  {
    forall k | 0 <= k < |order[1..]| ensures order[1..][k] in w.pending - {order[0]} {
      assert order[1..][k] == order[k + 1] != order[0];
    }
  }

  lemma {:induction false} JoinAllInv(w: World, order: seq<Conn>, b: Sock)
    requires Inv(w) && AllPending(w, order)
    ensures Inv(JoinAll(w, order, b))
    decreases |order|
  {
    if order != [] {
      JoinByBinderInv(w, order[0], b);
      RestPending(w, order, b);
      JoinAllInv(JoinByBinder(w, order[0], b), order[1..], b);
    }
  }

  lemma {:induction false} JoinAllLeft(w: World, order: seq<Conn>, b: Sock)
    requires AllPending(w, order)
    ensures var v := JoinAll(w, order, b);
            && v.binding == w.binding && v.endpoints == w.endpoints
            && (forall c :: c in v.pending <==> c in w.pending && c !in order)
            && (forall c | c in v.pending :: v.pending[c] == w.pending[c])
    decreases |order|
  {
    if order != [] {
      RestPending(w, order, b);
      JoinAllLeft(JoinByBinder(w, order[0], b), order[1..], b);
      assert order == [order[0]] + order[1..];
    }
  }

  // Binding is over for an address: nothing is pending there any more.
  lemma ConnectPendingInv(w: World, addr: Addr, order: seq<Conn>)
    requires Inv(w) && Enabled(w, ConnectPending(addr, order))
    ensures Inv(Step(w, ConnectPending(addr, order)))
    ensures forall c | c in Step(w, ConnectPending(addr, order)).pending ::
              Step(w, ConnectPending(addr, order)).pending[c].addr != addr
  {
    forall k | 0 <= k < |order| ensures order[k] in w.pending {
      assert order[k] in order;
    }
    var u, v := JoinAll(w, order, w.binding[addr]), Step(w, ConnectPending(addr, order));
    JoinAllInv(w, order, w.binding[addr]);
    JoinAllLeft(w, order, w.binding[addr]);
    forall s ensures Balanced(v, s) {
      assert Balanced(u, s);
    }
    forall c ensures v.joined[c] == if c in v.used && !Waiting(v, c) then 1 else 0 {
      assert Waiting(v, c) <==> Waiting(u, c);
    }
  }

  lemma SameWaiting(w: World, v: World)
    requires Inv(w) && v == w.(endpoints := v.endpoints, binding := v.binding)
    requires forall a | a in v.binding :: a in v.endpoints && v.endpoints[a] == v.binding[a]
    requires forall c | c in v.pending && v.pending[c].addr in v.endpoints :: v.pending[c].addr in v.binding
    ensures Inv(v)
  {
    forall s ensures Balanced(v, s) {
      assert Balanced(w, s);
    }
    forall c ensures v.joined[c] == if c in v.used && !Waiting(v, c) then 1 else 0 {
      assert Waiting(v, c) <==> Waiting(w, c);
    }
  }

  // One connection has changed its place, or come; of the others nothing is different.
  lemma JoinedOf(w: World, v: World, c: Conn)
    requires Shape(w) && v.used == w.used + {c}
    requires v.joined == if Waiting(v, c) then w.joined else w.joined + multiset{c}
    requires c !in w.used || Waiting(w, c)
    requires forall d | d != c :: Waiting(v, d) <==> Waiting(w, d)
    ensures forall d :: v.joined[d] == if d in v.used && !Waiting(v, d) then 1 else 0
  {
    assert w.joined[c] == 0;
  }

  lemma FoundInv(w: World, c: Conn, side: Side)
    requires Inv(w) && c !in w.used && side.addr in w.endpoints
    ensures Inv(Step(w, Find(c, side)))
  {
    var v := Step(w, Find(c, side));
    assert !Waiting(w, c) && Waiting(v, c);
    forall s ensures Balanced(v, s) {
      assert Balanced(w, s);
      ReservedMore(w.reserved, c, w.endpoints[side.addr], s);
    }
    JoinedOf(w, v, c);
  }

  lemma MissedInv(w: World, c: Conn, side: Side)
    requires Inv(w) && c !in w.used && side.addr !in w.endpoints
    ensures Inv(Step(w, Find(c, side)))
  {
    var v := Step(w, Find(c, side));
    assert !Waiting(w, c) && Waiting(v, c);
    forall s ensures Balanced(v, s) {
      assert Balanced(w, s);
    }
    JoinedOf(w, v, c);
  }

  lemma SendBindInv(w: World, c: Conn)
    requires Inv(w) && c in w.reserved
    ensures Inv(Step(w, SendBind(c)))
  {
    var v, x := Step(w, SendBind(c)), Bind(w.reserved[c], c);
    NotInFlight(w, x);
    forall s ensures Balanced(v, s) {
      assert Balanced(w, s);
      SentTo(w.flight, x, s);
      ReservedLess(w.reserved, c, s);
    }
    forall d ensures v.joined[d] == if d in v.used && !Waiting(v, d) then 1 else 0 {
      assert d != c ==> (Waiting(v, d) <==> Waiting(w, d));
      assert Waiting(w, c) && !Waiting(v, c);
    }
  }

  lemma PendedInv(w: World, c: Conn)
    requires Inv(w) && c in w.missed && w.missed[c].addr !in w.endpoints
    ensures Inv(Step(w, Pend(c)))
  {
    var v := Step(w, Pend(c));
    assert Waiting(w, c) && Waiting(v, c);
    forall s ensures Balanced(v, s) {
      assert Balanced(w, s);
      PendedBy(w.pending, c, w.missed[c], s);
    }
    JoinedOf(w, v, c);
  }

  // The address has been registered in the meantime.
  lemma PendedLateInv(w: World, c: Conn)
    requires Inv(w) && c in w.missed && w.missed[c].addr in w.endpoints
    ensures Inv(Step(w, Pend(c)))
  {
    var x, v := Bind(w.endpoints[w.missed[c].addr], c), Step(w, Pend(c));
    assert Waiting(w, c) && !Waiting(v, c);
    NotInFlight(w, x);
    forall s ensures Balanced(v, s) {
      assert Balanced(w, s);
      SentTo(w.flight, x, s);
    }
    JoinedOf(w, v, c);
  }

  lemma DeliverInv(w: World, x: Cmd)
    requires Inv(w) && x in w.flight
    ensures Inv(Step(w, Deliver(x)))
  {
    var v := Step(w, Deliver(x));
    forall s ensures Balanced(v, s) {
      assert Balanced(w, s);
      TakenFrom(w.flight, x, s);
    }
    forall d ensures v.joined[d] == if d in v.used && !Waiting(v, d) then 1 else 0 {
      assert Waiting(v, d) <==> Waiting(w, d);
    }
  }

  lemma StepInv(w: World, e: Event)
    requires Inv(w) && Enabled(w, e)
    ensures Inv(Step(w, e))
  {
    match e
    case Register(_, _) => SameWaiting(w, Step(w, e));
    case ConnectPending(addr, order) => ConnectPendingInv(w, addr, order);
    case Unregister(_) => SameWaiting(w, Step(w, e));
    case Find(c, side) => if side.addr in w.endpoints { FoundInv(w, c, side); } else { MissedInv(w, c, side); }
    case SendBind(c) => SendBindInv(w, c);
    case Pend(c) => if w.missed[c].addr in w.endpoints { PendedLateInv(w, c); } else { PendedInv(w, c); }
    case Deliver(x) => DeliverInv(w, x);
  }

  /* Whole runs. */

  const START := World(map[], map[], map[], map[], map[], {}, multiset{}, {}, map[], map[])

  lemma StartInv()
    ensures Inv(START)
  {
    forall s ensures Balanced(START, s) {
      assert To(START.flight, s) == {} && PendingOf(START.pending, s) == {} && ReservedFor(START.reserved, s) == {};
    }
  }

  ghost predicate Runs(w: World, es: seq<Event>)
    decreases |es|
  {
    es == [] || (Enabled(w, es[0]) && Runs(Step(w, es[0]), es[1..]))
  }

  ghost function After(w: World, es: seq<Event>): World
    requires Runs(w, es)
    decreases |es|
  {
    if es == [] then w else After(Step(w, es[0]), es[1..])
  }

  lemma {:induction false} RunInv(w: World, es: seq<Event>)
    requires Inv(w) && Runs(w, es)
    ensures Inv(After(w, es))
    decreases |es|
  {
    if es != [] {
      StepInv(w, es[0]);
      RunInv(Step(w, es[0]), es[1..]);
    }
  }

  // However the locked sections of binders and connectors interleave: a connection is made at most once, and
  // once exactly when it no longer waits; and none is left pending at an address that is registered, unless
  // its binder has still to connect what is pending.
  lemma JoinedOnce(es: seq<Event>)
    requires Runs(START, es)
    ensures var w := After(START, es);
            && (forall c :: w.joined[c] == if c in w.used && !Waiting(w, c) then 1 else 0)
            && (forall c | c in w.pending && w.pending[c].addr in w.endpoints :: w.pending[c].addr in w.binding)
  {
    StartInv();
    RunInv(START, es);
  }

  // A socket that has counted all the commands sent to it, and may go for that reason, is not waited for: no
  // command is on its way to it, and none will be sent on the strength of an earlier find or pend.
  lemma NothingComes(es: seq<Event>, s: Sock)
    requires Runs(START, es)
    ensures var w := After(START, es);
            && Count(w.sent, s) >= Count(w.processed, s)
            && (Count(w.sent, s) == Count(w.processed, s) <==>
                  && (forall x | x in w.flight :: x.dest != s)
                  && (forall c | c in w.pending :: w.pending[c].sock != s)
                  && (forall c | c in w.reserved :: w.reserved[c] != s))
  {
    StartInv();
    RunInv(START, es);
    var w := After(START, es);
    assert Balanced(w, s);
    var a, b, c := To(w.flight, s), PendingOf(w.pending, s), ReservedFor(w.reserved, s);
    assert (a == {} && b == {} && c == {}) <==> |a| + |b| + |c| == 0;
    assert a == {} <==> forall x | x in w.flight :: x.dest != s by {
      forall x | x in w.flight && x.dest == s ensures x in a {
      }
    }
    assert b == {} <==> forall d | d in w.pending :: w.pending[d].sock != s by {
      forall d | d in w.pending && w.pending[d].sock == s ensures d in b {
      }
    }
    assert c == {} <==> forall d | d in w.reserved :: w.reserved[d] != s by {
      forall d | d in w.reserved && w.reserved[d] == s ensures d in c {
      }
    }
  }
}
