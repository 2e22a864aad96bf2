/** Finding one another told by what has happened: whom a connection and its commands concern, from the events alone. */
module InprocHistory {
  import opened Inproc

  lemma {:induction false} AfterSnoc(w: World, es: seq<Event>)
    requires Runs(w, es) && es != []
    ensures var front, last := es[..|es| - 1], es[|es| - 1];
            Runs(w, front) && Enabled(After(w, front), last) && After(w, es) == Step(After(w, front), last)
    decreases |es|
  {
    if |es| > 1 {
      var front := es[..|es| - 1];
      AfterSnoc(Step(w, es[0]), es[1..]);
      assert es[1..][..|es| - 2] == front[1..];
    }
  }

  /* Who is registered at an address: the first to ask since it was last given up. */

  predicate Asks(e: Event, addr: Addr)
  {
    e.Register? && e.addr == addr
  }

  ghost predicate GivenUpBetween(es: seq<Event>, addr: Addr, j: int, k: int)
  {
    exists i :: j < i < k && 0 <= i < |es| && es[i] == Unregister(addr)
  }

  ghost predicate RegisteredBy(es: seq<Event>, addr: Addr, s: Sock, k: int)
  {
    && 0 <= k < |es| && es[k] == Register(addr, s)
    && (forall j | k < j < |es| :: es[j] != Unregister(addr))
    && (forall j | 0 <= j < k && Asks(es[j], addr) :: GivenUpBetween(es, addr, j, k))
  }

  ghost predicate Registered(es: seq<Event>, addr: Addr, s: Sock)
  {
    exists k :: RegisteredBy(es, addr, s, k)
  }

  lemma GivenUpSnoc(es: seq<Event>, e: Event, addr: Addr, j: int, k: int)
    requires k <= |es|
    ensures GivenUpBetween(es + [e], addr, j, k) <==> GivenUpBetween(es, addr, j, k)
  {
    assert forall i | 0 <= i < |es| :: (es + [e])[i] == es[i];
    if GivenUpBetween(es + [e], addr, j, k) {
      var i :| j < i < k && 0 <= i < |es + [e]| && (es + [e])[i] == Unregister(addr);
      assert es[i] == Unregister(addr);
    }
    if GivenUpBetween(es, addr, j, k) {
      var i :| j < i < k && 0 <= i < |es| && es[i] == Unregister(addr);
      assert (es + [e])[i] == Unregister(addr);
    }
  }

  lemma OldRegistered(es: seq<Event>, e: Event, addr: Addr, s: Sock, k: int)
    requires k < |es|
    ensures RegisteredBy(es + [e], addr, s, k) <==> RegisteredBy(es, addr, s, k) && e != Unregister(addr)
  {
    var all, n := es + [e], |es|;
    assert all[n] == e && forall i | 0 <= i < n :: all[i] == es[i];
    if RegisteredBy(all, addr, s, k) {
      forall j | 0 <= j < k && Asks(es[j], addr) ensures GivenUpBetween(es, addr, j, k) {
        assert Asks(all[j], addr);
        GivenUpSnoc(es, e, addr, j, k);
      }
      forall j | k < j < n ensures es[j] != Unregister(addr) {
        assert all[j] != Unregister(addr);
      }
    }
    if RegisteredBy(es, addr, s, k) {
      forall j | 0 <= j < k && Asks(all[j], addr) ensures GivenUpBetween(all, addr, j, k) {
        assert Asks(es[j], addr);
        GivenUpSnoc(es, e, addr, j, k);
      }
    }
  }

  // The address is free: whoever asked for it, it was given up since.
  ghost predicate Unclaimed(es: seq<Event>, addr: Addr)
  {
    forall j | 0 <= j < |es| && Asks(es[j], addr) :: GivenUpBetween(es, addr, j, |es|)
  }

  lemma UnclaimedSnoc(es: seq<Event>, e: Event, addr: Addr)
    ensures Unclaimed(es + [e], addr) <==> e == Unregister(addr) || (Unclaimed(es, addr) && !Asks(e, addr))
  {
    var all, n := es + [e], |es|;
    assert all[n] == e && forall i | 0 <= i < n :: all[i] == es[i];
    if e == Unregister(addr) {
      forall j | 0 <= j < |all| && Asks(all[j], addr) ensures GivenUpBetween(all, addr, j, |all|) {
        assert j < n && all[n] == Unregister(addr);
      }
    } else {
      forall j | 0 <= j < n ensures GivenUpBetween(all, addr, j, |all|) <==> GivenUpBetween(es, addr, j, n) {
        GivenUpSnoc(es, e, addr, j, n);
        if GivenUpBetween(all, addr, j, |all|) {
          var i :| j < i < |all| && 0 <= i < |all| && all[i] == Unregister(addr);
          assert i < n;
        }
      }
      assert !GivenUpBetween(all, addr, n, |all|);
      if Unclaimed(all, addr) {
        forall j | 0 <= j < n && Asks(es[j], addr) ensures GivenUpBetween(es, addr, j, n) {
          assert Asks(all[j], addr);
        }
      }
    }
  }

  lemma RegisteredSnoc(es: seq<Event>, e: Event, addr: Addr, s: Sock)
    ensures Registered(es + [e], addr, s) <==>
            (Registered(es, addr, s) && e != Unregister(addr)) || (e == Register(addr, s) && Unclaimed(es, addr))
  {
    var all, n := es + [e], |es|;
    assert all[n] == e && forall i | 0 <= i < n :: all[i] == es[i];
    if Registered(all, addr, s) {
      var k :| RegisteredBy(all, addr, s, k);
      if k < n {
        OldRegistered(es, e, addr, s, k);
      } else {
        forall j | 0 <= j < n && Asks(es[j], addr) ensures GivenUpBetween(es, addr, j, n) {
          assert Asks(all[j], addr);
          GivenUpSnoc(es, e, addr, j, n);
        }
      }
    }
    if Registered(es, addr, s) && e != Unregister(addr) {
      var k :| RegisteredBy(es, addr, s, k);
      OldRegistered(es, e, addr, s, k);
    }
    if e == Register(addr, s) && Unclaimed(es, addr) {
      forall j | 0 <= j < n && Asks(all[j], addr) ensures GivenUpBetween(all, addr, j, n) {
        assert Asks(es[j], addr);
        GivenUpSnoc(es, e, addr, j, n);
      }
      assert RegisteredBy(all, addr, s, n);
    }
  }

  // The table of endpoints is what the events make of it.
  lemma {:induction false} EndpointsByHistory(es: seq<Event>, addr: Addr)
    requires Runs(START, es)
    ensures var w := After(START, es);
            && (addr in w.endpoints <==> !Unclaimed(es, addr))
            && forall s :: (addr in w.endpoints && w.endpoints[addr] == s) <==> Registered(es, addr, s)
    decreases |es|
  {
    if es != [] {
      var front, last := es[..|es| - 1], es[|es| - 1];
      AfterSnoc(START, es);
      EndpointsByHistory(front, addr);
      assert es == front + [last];
      UnclaimedSnoc(front, last, addr);
      forall s ensures Registered(es, addr, s) <==>
                       (Registered(front, addr, s) && last != Unregister(addr))
                       || (last == Register(addr, s) && Unclaimed(front, addr)) {
        RegisteredSnoc(front, last, addr, s);
      }
      EndpointsStep(After(START, front), last, addr);
    }
  }

  lemma EndpointsStep(w: World, e: Event, addr: Addr)
    requires Enabled(w, e)
    ensures var v := Step(w, e);
            && (addr in v.endpoints <==> (addr in w.endpoints && e != Unregister(addr)) || Asks(e, addr))
            && (addr in v.endpoints ==> v.endpoints[addr] == if addr in w.endpoints then w.endpoints[addr] else e.sock)
  {
    if e.ConnectPending? {
      assert AllPending(w, e.order) by {
        forall k | 0 <= k < |e.order| ensures e.order[k] in w.pending {
          assert e.order[k] in e.order;
        }
      }
      JoinAllLeft(w, e.order, w.binding[e.addr]);
    }
  }

  /* Whom a connection concerns: the socket that called connect, and the one registered when it was looked for or
     pended. */

  ghost predicate CalledBy(es: seq<Event>, c: Conn, side: Side)
  {
    exists k :: 0 <= k < |es| && es[k] == Find(c, side)
  }

  // Step k of the connection came upon socket s at its address.
  ghost predicate MetAt(es: seq<Event>, c: Conn, s: Sock, k: int)
  {
    && 0 <= k < |es| && (es[k].Find? || es[k].Pend?) && es[k].conn == c
    && exists side :: CalledBy(es[..k + 1], c, side) && Registered(es[..k], side.addr, s)
  }

  ghost predicate Met(es: seq<Event>, c: Conn, s: Sock)
  {
    exists k :: MetAt(es, c, s, k)
  }

  // When it was pended, nobody was registered.
  ghost predicate PendedFor(es: seq<Event>, c: Conn, side: Side)
  {
    CalledBy(es, c, side) && exists k :: 0 <= k < |es| && es[k] == Pend(c) && Unclaimed(es[..k], side.addr)
  }

  lemma CalledSnoc(es: seq<Event>, e: Event, c: Conn, side: Side)
    ensures CalledBy(es + [e], c, side) <==> CalledBy(es, c, side) || e == Find(c, side)
  {
    var all, n := es + [e], |es|;
    assert all[n] == e && forall i | 0 <= i < n :: all[i] == es[i];
    if CalledBy(es, c, side) {
      var k :| 0 <= k < n && es[k] == Find(c, side);
      assert all[k] == Find(c, side);
    }
  }

  lemma MetKept(es: seq<Event>, e: Event, c: Conn, s: Sock)
    requires Met(es, c, s)
    ensures Met(es + [e], c, s)
  {
    var all := es + [e];
    var k :| MetAt(es, c, s, k);
    assert all[k] == es[k] && all[..k] == es[..k] && all[..k + 1] == es[..k + 1];
    assert MetAt(all, c, s, k);
  }

  lemma MetNow(es: seq<Event>, e: Event, c: Conn, side: Side, s: Sock)
    requires (e.Find? || e.Pend?) && e.conn == c && CalledBy(es + [e], c, side) && Registered(es, side.addr, s)
    ensures Met(es + [e], c, s)
  {
    var all, n := es + [e], |es|;
    assert all[n] == e && all[..n] == es && all[..n + 1] == all;
    assert MetAt(all, c, s, n);
  }

  lemma PendedKept(es: seq<Event>, e: Event, c: Conn, side: Side)
    requires PendedFor(es, c, side)
    ensures PendedFor(es + [e], c, side)
  {
    var all := es + [e];
    CalledSnoc(es, e, c, side);
    var k :| 0 <= k < |es| && es[k] == Pend(c) && Unclaimed(es[..k], side.addr);
    assert all[k] == Pend(c) && all[..k] == es[..k];
  }

  ghost predicate Traced(es: seq<Event>, w: World)
  {
    && (forall c, side | CalledBy(es, c, side) :: c in w.used)
    && (forall c | c in w.missed :: CalledBy(es, c, w.missed[c]))
    && (forall c | c in w.reserved :: Met(es, c, w.reserved[c]))
    && (forall c | c in w.pending :: PendedFor(es, c, w.pending[c]))
    && (forall x | x in w.flight && x.Bind? :: Met(es, x.conn, x.dest))
    && (forall x | x in w.flight && x.Connected? :: exists side :: CalledBy(es, x.conn, side) && side.sock == x.dest)
  }

  lemma AllKept(es: seq<Event>, e: Event)
    ensures forall c, side | CalledBy(es, c, side) :: CalledBy(es + [e], c, side)
    ensures forall c, side | CalledBy(es + [e], c, side) :: CalledBy(es, c, side) || e == Find(c, side)
    ensures forall c, s | Met(es, c, s) :: Met(es + [e], c, s)
    ensures forall c, side | PendedFor(es, c, side) :: PendedFor(es + [e], c, side)
  {
    forall c, side ensures CalledBy(es + [e], c, side) <==> CalledBy(es, c, side) || e == Find(c, side) {
      CalledSnoc(es, e, c, side);
    }
    forall c, s | Met(es, c, s) ensures Met(es + [e], c, s) {
      MetKept(es, e, c, s);
    }
    forall c, side | PendedFor(es, c, side) ensures PendedFor(es + [e], c, side) {
      PendedKept(es, e, c, side);
    }
  }

  lemma {:induction false} JoinAllTells(w: World, order: seq<Conn>, b: Sock)
    requires AllPending(w, order)
    ensures var v := JoinAll(w, order, b);
            && v.used == w.used && v.missed == w.missed && v.reserved == w.reserved
            && forall x | x in v.flight && x !in w.flight ::
                 x.Connected? && x.conn in w.pending && x.dest == w.pending[x.conn].sock
    decreases |order|
  {
    if order != [] {
      RestPending(w, order, b);
      JoinAllTells(JoinByBinder(w, order[0], b), order[1..], b);
    }
  }

  // What is new in the world after a step is accounted for by it.
  ghost predicate NewTraced(es: seq<Event>, w: World, v: World)
  {
    && (forall c | c in v.missed && !(c in w.missed && v.missed[c] == w.missed[c]) :: CalledBy(es, c, v.missed[c]))
    && (forall c | c in v.reserved && !(c in w.reserved && v.reserved[c] == w.reserved[c]) :: Met(es, c, v.reserved[c]))
    && (forall c | c in v.pending && !(c in w.pending && v.pending[c] == w.pending[c]) ::
          PendedFor(es, c, v.pending[c]))
    && (forall x | x in v.flight && x !in w.flight && x.Bind? :: Met(es, x.conn, x.dest))
    && (forall x | x in v.flight && x !in w.flight && x.Connected? ::
          exists side :: CalledBy(es, x.conn, side) && side.sock == x.dest)
  }

  lemma TracedMore(es: seq<Event>, e: Event, w: World, v: World)
    requires Traced(es, w) && NewTraced(es + [e], w, v)
    requires w.used <= v.used && (e.Find? ==> e.conn in v.used)
    ensures Traced(es + [e], v)
  {
    AllKept(es, e);
    forall x | x in v.flight && x.Connected?
      ensures exists side :: CalledBy(es + [e], x.conn, side) && side.sock == x.dest
    {
      if x in w.flight {
        var side :| CalledBy(es, x.conn, side) && side.sock == x.dest;
        assert CalledBy(es + [e], x.conn, side);
      }
    }
  }

  lemma FindTraced(es: seq<Event>, w: World, c: Conn, side: Side)
    requires Enabled(w, Find(c, side))
    requires side.addr in w.endpoints ==> Registered(es, side.addr, w.endpoints[side.addr])
    ensures NewTraced(es + [Find(c, side)], w, Step(w, Find(c, side)))
  {
    CalledSnoc(es, Find(c, side), c, side);
    if side.addr in w.endpoints {
      MetNow(es, Find(c, side), c, side, w.endpoints[side.addr]);
    }
  }

  lemma PendTraced(es: seq<Event>, w: World, c: Conn)
    requires Enabled(w, Pend(c)) && CalledBy(es, c, w.missed[c])
    requires var addr := w.missed[c].addr;
             if addr in w.endpoints then Registered(es, addr, w.endpoints[addr]) else Unclaimed(es, addr)
    ensures NewTraced(es + [Pend(c)], w, Step(w, Pend(c)))
  {
    var side, all := w.missed[c], es + [Pend(c)];
    CalledSnoc(es, Pend(c), c, side);
    if side.addr in w.endpoints {
      MetNow(es, Pend(c), c, side, w.endpoints[side.addr]);
    } else {
      assert all[|es|] == Pend(c) && all[..|es|] == es;
    }
  }

  lemma SendTraced(es: seq<Event>, w: World, c: Conn)
    requires Traced(es, w) && Enabled(w, SendBind(c))
    ensures NewTraced(es + [SendBind(c)], w, Step(w, SendBind(c)))
  {
    MetKept(es, SendBind(c), c, w.reserved[c]);
  }

  lemma PendingTraced(es: seq<Event>, w: World, e: Event)
    requires Traced(es, w) && e.ConnectPending? && Enabled(w, e)
    ensures NewTraced(es + [e], w, Step(w, e)) && Step(w, e).used == w.used
  {
    AllKept(es, e);
    assert AllPending(w, e.order) by {
      forall k | 0 <= k < |e.order| ensures e.order[k] in w.pending {
        assert e.order[k] in e.order;
      }
    }
    JoinAllLeft(w, e.order, w.binding[e.addr]);
    JoinAllTells(w, e.order, w.binding[e.addr]);
  }

  lemma TracedStep(es: seq<Event>, w: World, e: Event)
    requires Traced(es, w) && Enabled(w, e)
    requires forall a | a in w.endpoints :: Registered(es, a, w.endpoints[a])
    requires forall a | a !in w.endpoints :: Unclaimed(es, a)
    ensures Traced(es + [e], Step(w, e))
  {
    match e {
      case ConnectPending(_, _) => PendingTraced(es, w, e);
      case Find(c, side) => FindTraced(es, w, c, side);
      case Pend(c) => PendTraced(es, w, c);
      case SendBind(c) => SendTraced(es, w, c);
      case _ =>
    }
    TracedMore(es, e, w, Step(w, e));
  }

  // A reservation and a bind command concern the socket registered when the connection came upon it; a connection
  // is pending because there was none; and the socket told that it is connected is the one that called.
  lemma {:induction false} RightOnes(es: seq<Event>)
    requires Runs(START, es)
    ensures Traced(es, After(START, es))
    decreases |es|
  {
    if es != [] {
      var front, last := es[..|es| - 1], es[|es| - 1];
      AfterSnoc(START, es);
      var w := After(START, front);
      RightOnes(front);
      assert es == front + [last];
      forall a ensures (a in w.endpoints ==> Registered(front, a, w.endpoints[a]))
                       && (a !in w.endpoints ==> Unclaimed(front, a)) {
        EndpointsByHistory(front, a);
      }
      TracedStep(front, w, last);
    }
  }
}
