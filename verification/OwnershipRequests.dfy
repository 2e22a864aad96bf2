/** When a child is terminated that asks for it, or that its owner wants gone. */
module OwnershipRequests {
  import opened Bytes
  import opened Ownership
  import opened OwnershipInvariant
  import opened OwnershipRuns
  import opened OwnershipProgress
  import opened OwnershipFate

  /* The verdict. */

  // Child i of p asks, and p finishes the launch it is in, if any.
  function Asked(s: State, i: Id, p: Id): State
    requires Known(s) && i < |s| && p < |s|
  {
    var s1 := Send(s, p, TermReq(i));
    if s1[p].launching.Some? then
      Send(s1[p := s1[p].(launching := None, sent := s1[p].sent + 1)], p, Own(s1[p].launching.value))
    else s1
  }

  lemma AskedIsRun(s: State, i: Id, p: Id)
    requires Inv(s) && Known(s) && Free(s, i) && s[i].owner == Some(p) && !s[i].terminating && p < |s|
    ensures var s1 := Next(s, Terminate(i));
            && Known(s1) && s1 == Send(s, p, TermReq(i))
            && (s[p].launching.None? ==> Asked(s, i, p) == s1)
            && (s[p].launching.Some? ==> Enabled(s1, LaunchOwn(p)) && Asked(s, i, p) == Next(s1, LaunchOwn(p)))
    ensures Inv(Asked(s, i, p)) && Known(Asked(s, i, p))
  {
    StepKeeps(s, Terminate(i));
    if s[p].launching.Some? {
      StepKeeps(Next(s, Terminate(i)), LaunchOwn(p));
    }
  }

  lemma AskedInbox(s: State, i: Id, p: Id)
    requires Known(s) && i < |s| && p < |s|
    ensures |Asked(s, i, p)| == |s|
    ensures Asked(s, i, p)[p].inbox ==
            s[p].inbox + [TermReq(i)] + if s[p].launching.Some? then [Own(s[p].launching.value)] else []
    ensures Asked(s, i, p)[p].owned == s[p].owned
    ensures Asked(s, i, p)[p].alive == s[p].alive && Asked(s, i, p)[p].terminating == s[p].terminating
    ensures forall j | 0 <= j < |s| && j != p :: Asked(s, i, p)[j] == s[j]
  {
  }

  // It is asked in time exactly if its launch is not half done.
  lemma AskedHeardIff(s: State, i: Id, p: Id)
    requires Inv(s) && Known(s) && i < |s| && s[i].owner == Some(p) && p < |s|
    requires Inv(Asked(s, i, p)) && Asked(s, i, p)[p].launching == None
    ensures |Asked(s, i, p)| == |s|
    ensures Heard(Asked(s, i, p), i, p) <==> s[p].launching != Some(i)
  {
    var u := Asked(s, i, p);
    var n := |s[p].inbox|;
    AskedInbox(s, i, p);
    RankFacts(u, i, p);
    assert LinkOk(u, i);
    if s[p].launching == Some(i) {
      assert u[p].inbox[n + 1] == Own(i);
      if Heard(u, i, p) {
        var k :| InTime(u[p], i, k);
        OwnOnce(u, i, p, k);
        assert false;
      }
    } else if RankAt(u, i) > 3 {
      if i !in u[p].owned {
        var m :| 0 <= m < |u[p].inbox| && u[p].inbox[m] == Own(i);
      }
      assert InTime(u[p], i, n);
    }
  }

  // The child terminates itself, and its owner finishes the launch it is in, if any.
  function Asking(s: State, i: Id, p: Id): seq<Event>
    requires p < |s|
  {
    [Terminate(i)] + if s[p].launching.Some? then [LaunchOwn(p)] else []
  }

  lemma AskedByRun(s: State, i: Id, p: Id, u: State)
    requires Inv(s) && Known(s) && Free(s, i) && s[i].owner == Some(p) && !s[i].terminating && p < |s|
    ensures Run(s, Asking(s, i, p), u) <==> u == Asked(s, i, p)
  {
    AskedIsRun(s, i, p);
    var es := Asking(s, i, p);
    assert es[0] == Terminate(i) && es[1..] == if s[p].launching.Some? then [LaunchOwn(p)] else [];
    if s[p].launching.Some? {
      var s1 := Next(s, Terminate(i));
      assert es[1..] == [LaunchOwn(p)] && [LaunchOwn(p)][1..] == [];
      assert Run(s1, [LaunchOwn(p)], u) <==> Run(Next(s1, LaunchOwn(p)), [], u);
    }
  }

  // A child that asks to be terminated is gone once all commands are delivered, unless its owner is between the
  // two halves of launching it: then the request arrives before the owner knows the child, is taken for one already
  // served, and is lost for good, and the child goes only if its owner does.
  lemma RequestHeededIff(s: State, i: Id, p: Id, u: State, es: seq<Event>, t: State)
    requires Reachable(s) && Free(s, i) && s[i].owner == Some(p) && !s[i].terminating && p < |s|
    requires Run(s, Asking(s, i, p), u) && Settled(u)
    requires Run(u, es, t) && OnlyDeliveries(es) && Exhausted(t)
    ensures |u| == |s| && i < |t|
    ensures !t[i].alive <==> s[p].launching != Some(i) || Doomed(u, p)
  {
    ReachableInv(s);
    AskedIsRun(s, i, p);
    AskedByRun(s, i, p, u);
    AskedInbox(s, i, p);
    AskedHeardIff(s, i, p);
    assert NamesOk(s, i);
    Fate(Asked(s, i, p), es, t, i);
  }

  // An owner that terminates one of its children without being asked succeeds if it has learnt of the child, and
  // if not, nothing comes of it.
  lemma TermChildHeededIff(s: State, i: Id, c: Id, es: seq<Event>, t: State)
    requires Reachable(s) && Known(s) && Free(s, i) && ChildOf(s, c, i)
    requires Settled(Next(s, TermChild(i, c)))
    requires Run(Next(s, TermChild(i, c)), es, t) && OnlyDeliveries(es) && Exhausted(t)
    ensures c < |t| && (!t[c].alive <==> c in s[i].owned || Doomed(s, c))
  {
    ReachableInv(s);
    StepKeeps(s, TermChild(i, c));
    assert NamesOk(s, c) && ObjOk(s[i]);
    if c in s[i].owned {
      TermChildHeard(s, i, c);
    }
    Fate(Next(s, TermChild(i, c)), es, t, c);
  }

  lemma TermChildHeard(s: State, i: Id, c: Id)
    requires Inv(s) && i < c < |s| && s[c].owner == Some(i) && c in s[i].owned && !s[i].terminating
    ensures var u := ProcessTermReq(s, i, c); u[c].owner == Some(i) && Heard(u, c, i)
  {
    var u := ProcessTermReq(s, i, c);
    AppendFacts(s[c].inbox, Term);
    assert Times(Term, u[c].inbox) > 0;
    assert LinkOk(s, c);
    assert u[i].launching == s[i].launching && u[i].inbox == s[i].inbox && c !in u[i].owned;
  }

  // A root and a child whose launch is half done.
  function HalfLaunched(): State
  {
    Born(RootOnly(), Some(0))
  }

  function RootOnly(): State
  {
    Born([], None)
  }

  lemma HalfLaunchedSteps()
    ensures Known([]) && Known(RootOnly()) && Known(HalfLaunched())
    ensures Next([], NewRoot) == RootOnly()
    ensures Enabled(RootOnly(), Launch(0)) && Next(RootOnly(), Launch(0)) == HalfLaunched()
  {
  }

  lemma RunTwo(s: State, e: Event, u: State, f: Event, t: State)
    requires Known(s) && Enabled(s, e) && Next(s, e) == u
    requires Known(u) && Enabled(u, f) && Next(u, f) == t
    ensures Run(s, [e, f], t)
  {
    assert [e, f][1..] == [f] && [f][1..] == [];
    assert Run(t, [f][1..], t);
    assert Run(u, [e, f][1..], t);
  }

  lemma HalfLaunchedReachable()
    ensures Reachable(HalfLaunched())
  {
    HalfLaunchedSteps();
    RunTwo([], NewRoot, RootOnly(), Launch(0), HalfLaunched());
  }

  // The child has been plugged in.
  function PluggedIn(): State
  {
    var s := HalfLaunched();
    s[1 := s[1].(inbox := [], processed := 1)]
  }

  lemma PluggedInFacts()
    ensures var s := PluggedIn(); Known(s) && Free(s, 1) && s[1].owner == Some(0) && Settled(Asked(s, 1, 0))
    ensures var s := HalfLaunched(); Known(s) && Enabled(s, Process(1)) && Next(s, Process(1)) == PluggedIn()
  {
    HalfLaunchedSteps();
    assert HalfLaunched()[1].inbox[1..] == [];
  }

  lemma PluggedInReachable()
    ensures Reachable(PluggedIn())
  {
    PluggedInFacts();
    HalfLaunchedReachable();
    var es :| Run([], es, HalfLaunched());
    RunOn([], es, HalfLaunched(), Process(1));
  }

  lemma {:induction false} RunOn(s: State, es: seq<Event>, t: State, e: Event)
    requires Run(s, es, t) && Known(t) && Enabled(t, e)
    ensures Run(s, es + [e], Next(t, e))
    decreases |es|
  {
    if es == [] {
      assert [e][1..] == [];
    } else {
      assert (es + [e])[1..] == es[1..] + [e];
      RunOn(Next(s, es[0]), es[1..], t, e);
    }
  }

  // And it does happen: the child of a root asks when it has been plugged in, before its launch is over, and
  // lives on with nothing left to deliver.
  lemma LostRequest() returns (u: State, es: seq<Event>, t: State)
    ensures var s := PluggedIn();
            && Reachable(s) && Free(s, 1) && s[1].owner == Some(0) && s[0].launching == Some(1)
            && Run(s, [Terminate(1), LaunchOwn(0)], u)
            && Run(u, es, t) && OnlyDeliveries(es) && Exhausted(t)
    ensures 1 < |t| && t[1].alive
  {
    var s := PluggedIn();
    PluggedInFacts();
    PluggedInReachable();
    ReachableInv(s);
    AskedIsRun(s, 1, 0);
    u := Asked(s, 1, 0);
    AskedByRun(s, 1, 0, u);
    assert Asking(s, 1, 0) == [Terminate(1), LaunchOwn(0)];
    es, t := DeliveriesGoOn(u);
    RequestHeededIff(s, 1, 0, u, es, t);
  }
}
