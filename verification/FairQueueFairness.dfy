/** No pipe waits for more than one message of each other pipe. */
module FairQueueFairness {
  import opened FairQueueRuns
  import R = RoundRobin

  // In this step p, which can be read from, is not.
  ghost predicate Passes<T(!new)>(l: Line<T>, e: Event<T>, p: T)
    requires Inv(l)
  {
    && Enabled(l, e) && !e.Terminate?
    && (e.HasIn? || e.Recv? ==> p in Able(l, e.asleep))
    && (e.Recv? ==>
          var s := R.Settled(l.ring, Able(l, e.asleep));
          s.active > 0 ==> s.items[s.current] != p)
  }

  lemma ReadTurns<T(!new)>(l: Line<T>, s: R.Ring<T>, p: T)
    requires R.Ok(s) && s.active > 0 && R.IsActive(s, p) && s.items[s.current] != p
    requires s.items[s.current] in l.boxes && l.boxes[s.items[s.current]] != []
    ensures var w := Read(l.(ring := s));
            && R.Ok(w.ring) && R.IsActive(w.ring, p) && |w.ring.items| == |s.items|
            && |w.done| + R.Turns(w.ring, p) <= |l.done| + R.Turns(s, p)
  {
    R.AdvancedTurns(s, p);
  }

  lemma StepTurns<T(!new)>(l: Line<T>, e: Event<T>, p: T)
    requires Inv(l) && R.IsActive(l.ring, p) && Passes(l, e, p)
    ensures var w := Step(l, e);
            && Inv(w) && R.IsActive(w.ring, p)
            && |w.done| + R.Turns(w.ring, p) <= |l.done| + R.Turns(l.ring, p) + |w.ring.items| - |l.ring.items|
  {
    StepInv(l, e);
    match e
    case Attach(q) =>
      assert q !in l.ring.items;
      R.ArrivedTurns(l.ring, R.Join(q), p);
    case Deliver(_, _) =>
    case Activate(i) => R.ArrivedTurns(l.ring, R.Return(i), p);
    case HasIn(asleep) => R.SettledTurns(l.ring, Able(l, asleep), p);
    case Recv(asleep) =>
      var s := R.Settled(l.ring, Able(l, asleep));
      R.SettledTurns(l.ring, Able(l, asleep), p);
      ReadTurns(l, s, p);
  }

  // A run in which p always has something to read, is never put to sleep, and never gets its turn.
  ghost predicate Waits<T(!new)>(l: Line<T>, es: seq<Event<T>>, p: T)
    requires Inv(l)
    decreases |es|
  {
    es == [] || (Passes(l, es[0], p) && (StepInv(l, es[0]); Waits(Step(l, es[0]), es[1..], p)))
  }

  ghost function End<T(!new)>(l: Line<T>, es: seq<Event<T>>, p: T): (w: Line<T>)
    requires Inv(l) && Waits(l, es, p)
    ensures Inv(w)
    decreases |es|
  {
    if es == [] then l else StepInv(l, es[0]); End(Step(l, es[0]), es[1..], p)
  }

  lemma {:induction false} WaitTurns<T(!new)>(l: Line<T>, es: seq<Event<T>>, p: T)
    requires Inv(l) && R.IsActive(l.ring, p) && Waits(l, es, p)
    ensures var w := End(l, es, p);
            && R.IsActive(w.ring, p)
            && |w.done| + R.Turns(w.ring, p) <= |l.done| + R.Turns(l.ring, p) + |w.ring.items| - |l.ring.items|
    decreases |es|
  {
    if es != [] {
      StepTurns(l, es[0], p);
      WaitTurns(Step(l, es[0]), es[1..], p);
    }
  }

  // However long an active pipe with something to read has to wait, while no pipe terminates: at most
  // size - 1 whole messages come out before it has its turn.
  lemma Fair<T(!new)>(l: Line<T>, es: seq<Event<T>>, p: T)
    requires Inv(l) && R.IsActive(l.ring, p) && Waits(l, es, p)
    ensures var w := End(l, es, p);
            R.IsActive(w.ring, p) && |w.done| - |l.done| <= |w.ring.items| - 1
  {
    WaitTurns(l, es, p);
  }
}
