/** Commands promised with inc_seqnum keep their destination alive until they have been sent and processed. */
module OwnershipPromises {
  import opened Ownership
  import opened OwnershipInvariant
  import opened OwnershipRuns
  import opened OwnershipProgress

  ghost function ReservedOf(s: State, i: Id): nat
  {
    if i < |s| then s[i].reserved else 0
  }

  lemma PromiseStep(s: State, e: Event, i: Id)
    requires Inv(s) && Known(s) && Enabled(s, e)
    ensures ReservedOf(Next(s, e), i) == ReservedOf(s, i) + One(e == Reserve(i)) - One(e == Redeem(i))
  {
    match e {
      case Process(j) => DeliverCalls(s, j);
      case Terminate(j) => TerminateCalls(s, j);
      case _ =>
    }
  }

  lemma TerminateCalls(s: State, i: Id)
    requires Inv(s) && Known(s) && Enabled(s, Terminate(i))
    ensures SameCalls(s, Next(s, Terminate(i)))
  {
    if !s[i].terminating && s[i].owner.None? {
      CheckCalls(StartTerm(s, i), i);
    }
  }

  // What has been promised and not been sent is told by the events.
  lemma {:induction false} Promised(s: State, es: seq<Event>, t: State, i: Id)
    requires Inv(s) && Known(s) && Run(s, es, t)
    ensures ReservedOf(t, i) == ReservedOf(s, i) + multiset(es)[Reserve(i)] - multiset(es)[Redeem(i)]
    decreases |es|
  {
    if es != [] {
      StepKeeps(s, es[0]);
      PromiseStep(s, es[0], i);
      Promised(Next(s, es[0]), es[1..], t, i);
      assert es == [es[0]] + es[1..];
    }
  }

  // As long as a command is promised, whatever else is terminated and delivered, its destination is there, and so
  // is it when the command has been sent and waits.
  lemma PromiseKept(es: seq<Event>, t: State, i: Id)
    requires Run([], es, t)
    ensures multiset(es)[Redeem(i)] <= multiset(es)[Reserve(i)]
    ensures multiset(es)[Redeem(i)] < multiset(es)[Reserve(i)] ==> i < |t| && t[i].alive
    ensures i < |t| && Counted in t[i].inbox ==> t[i].alive
  {
    Promised([], es, t, i);
    if i < |t| {
      NothingForTheDead(t, i);
    }
  }
}
