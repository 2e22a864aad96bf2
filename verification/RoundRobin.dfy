/** The round robin that fair queueing and load balancing share: a list whose first `active` items take
    turns, the one at `current` being next.

    An item that cannot take its turn changes places with the last active one, so the order of the list is
    disturbed all the time; that nobody is passed over is what has to be shown. */
module RoundRobin {
  import opened Sequences

  datatype Ring<T> = Ring(items: seq<T>, active: nat, current: nat)

  ghost predicate Ok<T>(r: Ring<T>)
  {
    && Distinct(r.items)
    && r.active <= |r.items|
    && (r.current < r.active || r.current == r.active == 0)
  }

  ghost predicate IsActive<T>(r: Ring<T>, p: T)
    requires r.active <= |r.items|
  {
    p in r.items[..r.active]
  }

  /* The operations. */

  function Attached<T>(r: Ring<T>, p: T): Ring<T>
    requires r.active <= |r.items|
  {
    var s := r.items + [p];
    Ring(Swapped(s, r.active, |s| - 1), r.active + 1, r.current)
  }

  // The item at i changes places with the first one that is not active.
  function Activated<T>(r: Ring<T>, i: nat): Ring<T>
    requires r.active < |r.items| && i < |r.items|
  {
    Ring(Swapped(r.items, i, r.active), r.active + 1, r.current)
  }

  // The current item is swapped behind the active ones.
  function Deactivated<T>(r: Ring<T>): Ring<T>
    requires 0 < r.active <= |r.items| && r.current < r.active
  {
    var last := r.active - 1;
    Ring(Swapped(r.items, r.current, last), last, if r.current == last then 0 else r.current)
  }

  // An active item that is about to go is swapped behind the active ones as well.
  function Left<T>(r: Ring<T>, i: nat): Ring<T>
    requires r.active <= |r.items| && i < |r.items|
  {
    if i < r.active then
      var last := r.active - 1;
      Ring(Swapped(r.items, i, last), last, if r.current == last then 0 else r.current)
    else
      r
  }

  function Terminated<T>(r: Ring<T>, i: nat): Ring<T>
    requires r.active <= |r.items| && i < |r.items|
  {
    var s := Left(r, i);
    s.(items := Erased(s.items, if i < r.active then s.active else i))
  }

  function Advanced<T>(r: Ring<T>): Ring<T>
  {
    r.(current := if r.current + 1 >= r.active then 0 else r.current + 1)
  }

  // Items that cannot take their turn are deactivated until one can.
  ghost function Settled<T>(r: Ring<T>, can: set<T>): (s: Ring<T>)
    requires Ok(r)
    ensures |s.items| == |r.items| && s.active <= r.active
    ensures s.active <= |s.items| && (s.current < s.active || s.current == s.active == 0)
    ensures s.active > 0 ==> s.items[s.current] in can
    decreases r.active
  {
    if r.active > 0 && r.items[r.current] !in can then
      DeactivatedOk(r);
      Settled(Deactivated(r), can)
    else
      r
  }

  lemma DeactivatedOk<T>(r: Ring<T>)
    requires Ok(r) && r.active > 0
    ensures Ok(Deactivated(r))
  {
  }

  lemma {:induction false} SettledOk<T>(r: Ring<T>, can: set<T>)
    requires Ok(r)
    ensures Ok(Settled(r, can))
    ensures forall p :: p in Settled(r, can).items <==> p in r.items
    decreases r.active
  {
    if r.active > 0 && r.items[r.current] !in can {
      DeactivatedOk(r);
      SwapMembers(r.items, r.current, r.active - 1);
      SettledOk(Deactivated(r), can);
    }
  }

  // No item that can take its turn is deactivated.
  lemma {:induction false} SettledKeepsAble<T>(r: Ring<T>, can: set<T>, p: T)
    requires Ok(r) && p in can && IsActive(r, p)
    ensures Ok(Settled(r, can)) && IsActive(Settled(r, can), p)
    decreases r.active
  {
    if r.active > 0 && r.items[r.current] !in can {
      DeactivatedOk(r);
      var i :| 0 <= i < r.active && r.items[i] == p;
      var last := r.active - 1;
      assert i != r.current;
      assert Deactivated(r).items[if i == last then r.current else i] == p;
      SettledKeepsAble(Deactivated(r), can, p);
    }
  }

  // The turn goes to an item that was active.
  lemma {:induction false} SettledFrom<T>(r: Ring<T>, can: set<T>)
    requires Ok(r) && Settled(r, can).active > 0
    ensures IsActive(r, Settled(r, can).items[Settled(r, can).current])
    decreases r.active
  {
    if r.items[r.current] !in can {
      DeactivatedOk(r);
      var d := Deactivated(r);
      SettledFrom(d, can);
      var k :| 0 <= k < d.active && d.items[k] == Settled(d, can).items[Settled(d, can).current];
      assert r.items[..r.active][if k == r.current then r.active - 1 else k] == d.items[k];
    } else {
      assert r.items[..r.active][r.current] == r.items[r.current];
    }
  }

  lemma NoneLeft<T>(r: Ring<T>, can: set<T>)
    requires Ok(r) && Settled(r, can).active == 0
    ensures forall p | p in r.items[..r.active] :: p !in can
  {
    forall p | p in r.items[..r.active] ensures p !in can {
      if p in can {
        SettledKeepsAble(r, can, p);
      }
    }
  }

  /* The items that are not active. */

  ghost function Passive<T>(r: Ring<T>): set<T>
    requires r.active <= |r.items|
  {
    set k | r.active <= k < |r.items| :: r.items[k]
  }

  lemma PassiveIff<T>(r: Ring<T>)
    requires Ok(r)
    ensures forall p :: p in Passive(r) <==> p in r.items && !IsActive(r, p)
  {
    forall p | p in r.items && !IsActive(r, p) ensures p in Passive(r) {
      var k :| 0 <= k < |r.items| && r.items[k] == p;
      assert k >= r.active;
    }
  }

  lemma DeactivatedPassive<T>(r: Ring<T>)
    requires Ok(r) && r.active > 0
    ensures Passive(Deactivated(r)) == Passive(r) + {r.items[r.current]}
  {
    var s, last := Deactivated(r), r.active - 1;
    assert s.items[last] == r.items[r.current];
    forall p | p in Passive(r) ensures p in Passive(s) {
      var k :| r.active <= k < |r.items| && r.items[k] == p;
      assert s.items[k] == p;
    }
  }

  lemma AttachedPassive<T>(r: Ring<T>, p: T)
    requires Ok(r) && p !in r.items
    ensures Passive(Attached(r, p)) == Passive(r)
  {
    var s := Attached(r, p);
    forall q | q in Passive(r) ensures q in Passive(s) {
      var k :| r.active <= k < |r.items| && r.items[k] == q;
      assert s.items[if k == r.active then |r.items| else k] == q;
    }
  }

  lemma ActivatedPassive<T>(r: Ring<T>, i: nat)
    requires Ok(r) && r.active < |r.items| && i < |r.items|
    ensures Passive(Activated(r, i)) == Passive(r) - {r.items[if i < r.active then r.active else i]}
  {
    var s := Activated(r, i);
    forall q | q in Passive(r) && q != r.items[if i < r.active then r.active else i] ensures q in Passive(s) {
      var k :| r.active <= k < |r.items| && r.items[k] == q;
      assert s.items[if k == r.active then i else k] == q;
    }
  }

  lemma TerminatedPassive<T>(r: Ring<T>, i: nat)
    requires Ok(r) && i < |r.items|
    ensures Ok(Terminated(r, i)) && Passive(Terminated(r, i)) <= Passive(r)
  {
    TerminatedOk(r, i);
  }

  /* Runs. */

  datatype Event<T> =
    | Join(p: T)
    | Return(i: nat)
    | Look(can: set<T>)               // has_in, has_out: deactivates, serves nobody
    | Serve(can: set<T>, last: bool)  // one frame from, or to, the current pipe

  ghost predicate Enabled<T>(r: Ring<T>, e: Event<T>)
    requires Ok(r)
  {
    match e
    case Join(p) => p !in r.items
    case Return(i) => r.active <= i < |r.items|
    case _ => true
  }

  ghost function Step<T>(r: Ring<T>, e: Event<T>): Ring<T>
    requires Ok(r) && Enabled(r, e)
  {
    match e
    case Join(p) => Attached(r, p)
    case Return(i) => Activated(r, i)
    case Look(can) => Settled(r, can)
    case Serve(can, last) =>
      var s := Settled(r, can);
      if s.active > 0 && last then Advanced(s) else s
  }

  lemma StepOk<T>(r: Ring<T>, e: Event<T>)
    requires Ok(r) && Enabled(r, e)
    ensures Ok(Step(r, e))
  {
    match e {
      case Look(can) => SettledOk(r, can);
      case Serve(can, _) => SettledOk(r, can);
      case _ =>
    }
  }

  ghost predicate Serves<T>(r: Ring<T>, e: Event<T>, p: T)
    requires Ok(r)
  {
    e.Serve? && Settled(r, e.can).active > 0 && Settled(r, e.can).items[Settled(r, e.can).current] == p
  }

  // A run in which p can always take its turn and never gets one.
  ghost predicate Starves<T>(r: Ring<T>, es: seq<Event<T>>, p: T)
    requires Ok(r)
    decreases |es|
  {
    es == [] ||
    (&& Enabled(r, es[0])
     && (es[0].Look? || es[0].Serve? ==> p in es[0].can)
     && !Serves(r, es[0], p)
     && (StepOk(r, es[0]); Starves(Step(r, es[0]), es[1..], p)))
  }

  ghost function After<T>(r: Ring<T>, es: seq<Event<T>>, p: T): Ring<T>
    requires Ok(r) && Starves(r, es, p)
    decreases |es|
  {
    if es == [] then r else StepOk(r, es[0]); After(Step(r, es[0]), es[1..], p)
  }

  // Whole messages served, whoever they were from or to.
  ghost function Completed<T>(r: Ring<T>, es: seq<Event<T>>, p: T): nat
    requires Ok(r) && Starves(r, es, p)
    decreases |es|
  {
    if es == [] then 0
    else
      StepOk(r, es[0]);
      (if es[0].Serve? && es[0].last && Settled(r, es[0].can).active > 0 then 1 else 0)
        + Completed(Step(r, es[0]), es[1..], p)
  }

  /* The bound. */

  ghost function Place<T>(r: Ring<T>, p: T): (i: nat)
    requires Ok(r) && IsActive(r, p)
    ensures i < r.active && r.items[i] == p
    ensures forall k | 0 <= k < |r.items| && r.items[k] == p :: k == i
  {
    var i :| 0 <= i < r.active && r.items[i] == p;
    i
  }

  // How many turns of others come before the one of p, at the most.
  ghost function Turns<T>(r: Ring<T>, p: T): nat
    requires Ok(r) && IsActive(r, p)
  {
    var i := Place(r, p);
    if i >= r.current then i - r.current else i + |r.items| - r.current
  }

  lemma DeactivatedTurns<T>(r: Ring<T>, p: T)
    requires Ok(r) && IsActive(r, p) && r.items[r.current] != p
    ensures Ok(Deactivated(r)) && IsActive(Deactivated(r), p)
    ensures Turns(Deactivated(r), p) <= Turns(r, p)
  {
    var i, last, s := Place(r, p), r.active - 1, Deactivated(r);
    var j := if i == last then r.current else i;
    assert s.items[..s.active][j] == p;
    assert Place(s, p) == j;
  }

  lemma {:induction false} SettledTurns<T>(r: Ring<T>, can: set<T>, p: T)
    requires Ok(r) && IsActive(r, p) && p in can
    ensures Ok(Settled(r, can)) && IsActive(Settled(r, can), p)
    ensures Turns(Settled(r, can), p) <= Turns(r, p)
    decreases r.active
  {
    if r.active > 0 && r.items[r.current] !in can {
      DeactivatedTurns(r, p);
      SettledTurns(Deactivated(r), can, p);
    }
  }

  lemma AdvancedTurns<T>(r: Ring<T>, p: T)
    requires Ok(r) && IsActive(r, p) && r.items[r.current] != p
    ensures Ok(Advanced(r)) && IsActive(Advanced(r), p)
    ensures Turns(Advanced(r), p) < Turns(r, p)
  {
    assert Place(Advanced(r), p) == Place(r, p);
  }

  lemma ArrivedTurns<T>(r: Ring<T>, e: Event<T>, p: T)
    requires Ok(r) && Enabled(r, e) && (e.Join? || e.Return?) && IsActive(r, p)
    ensures Ok(Step(r, e)) && IsActive(Step(r, e), p)
    ensures Turns(Step(r, e), p) <= Turns(r, p) + |Step(r, e).items| - |r.items|
  {
    var i, s := Place(r, p), Step(r, e);
    assert s.items[..s.active][i] == p;
    assert Place(s, p) == i;
  }

  // Every whole message of another pipe brings p nearer to its turn, and nothing but a new pipe takes it back.
  lemma {:induction false} Nearer<T>(r: Ring<T>, es: seq<Event<T>>, p: T)
    requires Ok(r) && IsActive(r, p) && Starves(r, es, p)
    ensures var w := After(r, es, p);
            && Ok(w) && IsActive(w, p)
            && Completed(r, es, p) + Turns(w, p) <= Turns(r, p) + |w.items| - |r.items|
    decreases |es|
  {
    if es != [] {
      var s := Step(r, es[0]);
      StepOk(r, es[0]);
      match es[0] {
        case Look(can) => SettledTurns(r, can, p);
        case Serve(can, last) =>
          SettledTurns(r, can, p);
          if last && Settled(r, can).active > 0 {
            AdvancedTurns(Settled(r, can), p);
          }
        case _ => ArrivedTurns(r, es[0], p);
      }
      Nearer(s, es[1..], p);
    }
  }

  // An active pipe that is always able waits for at most size - 1 whole messages of other pipes, whichever
  // pipes go out of action, come back or are added meanwhile.
  lemma Fair<T>(r: Ring<T>, es: seq<Event<T>>, p: T)
    requires Ok(r) && IsActive(r, p) && Starves(r, es, p)
    ensures Completed(r, es, p) <= |After(r, es, p).items| - 1
  {
    Nearer(r, es, p);
  }

  /* What activating an item does, which needs one that is not active to change places with.  The item is made
     active itself, and the turn left where it is, exactly when it was not active before; otherwise the first one
     that was not is made active in its place. */

  lemma ActivatedIff<T>(r: Ring<T>, i: nat)
    requires Ok(r) && r.active < |r.items| && i < |r.items|
    ensures var s := Activated(r, i);
            && Ok(s)
            && (forall p :: p in s.items <==> p in r.items)
            && (forall p :: IsActive(s, p) <==> IsActive(r, p) || p == r.items[if i < r.active then r.active else i])
            && (r.active > 0 ==> (s.items[s.current] == r.items[r.current] <==> i != r.current))
  {
    var s := Activated(r, i);
    SwapMembers(r.items, i, r.active);
    var front := r.items[..r.active];
    var x := r.items[if i < r.active then r.active else i];
    forall p | IsActive(r, p) || p == x ensures IsActive(s, p) {
      if p == x {
        assert s.items[..s.active][if i < r.active then i else r.active] == x;
      } else {
        var k :| 0 <= k < |front| && front[k] == p;
        assert s.items[..s.active][if k == i then r.active else k] == p;
      }
    }
    forall p | IsActive(s, p) ensures IsActive(r, p) || p == x {
      var k :| 0 <= k < s.active && s.items[k] == p;
      if p != x {
        assert front[if k == r.active then i else k] == p;
      }
    }
  }

  /* What a termination does to the pipe whose turn it is. */

  lemma TerminatedOk<T>(r: Ring<T>, i: nat)
    requires Ok(r) && i < |r.items|
    ensures Ok(Terminated(r, i))
    ensures forall p :: p in Terminated(r, i).items <==> p in r.items && p != r.items[i]
  {
    var s := Terminated(r, i);
    var last := r.active - 1;
    forall p | p in r.items && p != r.items[i] ensures p in s.items {
      var k :| 0 <= k < |r.items| && r.items[k] == p;
      var j := if i < r.active && k == last then i
               else if k == |r.items| - 1 then (if i < r.active then last else i)
               else k;
      assert s.items[j] == p;
    }
  }

  // The turn passes to another pipe exactly when the pipe whose turn it was came last among the active ones,
  // is moved to the place of the one that goes, and that place is not the first.
  lemma CurrentKept<T>(r: Ring<T>, i: nat)
    requires Ok(r) && r.active > 0 && i < |r.items| && i != r.current
    ensures var s := Terminated(r, i);
            && s.active > 0
            && (s.items[s.current] == r.items[r.current] <==> !(0 < i < r.current == r.active - 1))
  {
    var s := Terminated(r, i);
    if 0 < i < r.current == r.active - 1 {
      assert s.items[i] == r.items[r.current];
    }
  }
}
