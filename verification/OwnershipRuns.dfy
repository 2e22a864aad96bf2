/** Runs of the ownership protocol: what holds in every state that can be reached. */
module OwnershipRuns {
  import opened Bytes
  import opened Ownership
  import opened OwnershipInvariant
  import opened OwnershipSteps
  import opened OwnershipEnds

  /* One step. */

  lemma DeliverCountedIs(s: State, i: Id)
    requires Known(s) && i < |s| && s[i].inbox != [] && (s[i].inbox[0] == Plug || s[i].inbox[0] == Counted)
    ensures OwnerKnown(s, i) && Deliver(s, i) == CheckTermAcks(PopCounted(s, i), i)
  {
    assert OwnerKnown(s, i);
    var t := s[i := s[i].(inbox := s[i].inbox[1..])];
    assert t[i := t[i].(processed := t[i].processed + 1)] == PopCounted(s, i);
  }

  lemma DeliverCounted(s: State, i: Id)
    requires Inv(s) && Known(s) && Free(s, i) && s[i].inbox != []
    requires s[i].inbox[0] == Plug || s[i].inbox[0] == Counted
    ensures Inv(Deliver(s, i)) && AssertsHold(s, i)
  {
    PopCountedKeeps(s, i);
    DeliverCountedIs(s, i);
    CheckKeeps(PopCounted(s, i), i);
  }

  lemma DeliverReqIs(s: State, i: Id, c: Id)
    requires Known(s) && i < |s| && s[i].inbox != [] && s[i].inbox[0] == TermReq(c) && c < |s| && c != i
    ensures Deliver(s, i) == if s[i].terminating || c !in s[i].owned then PopReq(s, i) else AcceptReq(s, i, c)
  {
    var t := s[i := s[i].(inbox := s[i].inbox[1..])];
    assert t[i := t[i].(owned := t[i].owned - {c}, termAcks := t[i].termAcks + 1)] ==
           s[i := s[i].(inbox := s[i].inbox[1..], owned := s[i].owned - {c}, termAcks := s[i].termAcks + 1)];
  }

  lemma DeliverReq(s: State, i: Id, c: Id)
    requires Inv(s) && Known(s) && Free(s, i) && s[i].inbox != [] && s[i].inbox[0] == TermReq(c) && c < |s|
    ensures Inv(Deliver(s, i)) && AssertsHold(s, i)
  {
    HeadChild(s, i, c);
    DeliverReqIs(s, i, c);
    if s[i].terminating || c !in s[i].owned {
      IgnoreReqKeeps(s, i);
    } else {
      AcceptReqKeeps(s, i, c);
    }
  }

  lemma TermStarts(s: State, i: Id)
    requires Inv(s) && Free(s, i) && s[i].inbox != [] && s[i].inbox[0] == Term
    ensures Starting(s, i, s[i].inbox[1..])
  {
    NoTimes(s[i].inbox, Term);
    assert NamesOk(s, i) && LinkOk(s, i) && ObjOk(s[i]);
  }

  lemma DeliverTerm(s: State, i: Id)
    requires Inv(s) && Known(s) && Free(s, i) && s[i].inbox != [] && s[i].inbox[0] == Term
    ensures Inv(Deliver(s, i)) && AssertsHold(s, i)
  {
    var box := s[i].inbox[1..];
    TermStarts(s, i);
    StartedKeeps(s, i, box);
    StartedRecords(s, i, box);
    assert OwnerKnown(s, i);
    CheckKeeps(Started(s, i, box), i);
  }

  lemma DeliverAckIs(s: State, i: Id)
    requires Known(s) && i < |s| && s[i].inbox != [] && s[i].inbox[0].TermAck?
    ensures OwnerKnown(s, i) && Deliver(s, i) == CheckTermAcks(PopAck(s, i), i)
  {
    assert OwnerKnown(s, i);
    var t := s[i := s[i].(inbox := s[i].inbox[1..])];
    assert t[i := t[i].(termAcks := t[i].termAcks - 1)] == PopAck(s, i);
  }

  lemma DeliverAck(s: State, i: Id, c: Id)
    requires Inv(s) && Known(s) && Free(s, i) && s[i].inbox != [] && s[i].inbox[0] == TermAck(c)
    ensures Inv(Deliver(s, i)) && AssertsHold(s, i)
  {
    AckKeeps(s, i, c);
    DeliverAckIs(s, i);
    CheckKeeps(PopAck(s, i), i);
  }

  lemma DeliverKeeps(s: State, i: Id)
    requires Inv(s) && Known(s) && Free(s, i) && s[i].inbox != []
    ensures Inv(Deliver(s, i)) && AssertsHold(s, i)
  {
    assert ChildKnown(s, s[i].inbox[0]);
    match s[i].inbox[0] {
      case Plug => DeliverCounted(s, i);
      case Counted => DeliverCounted(s, i);
      case Own(c) => DeliverOwn(s, i, c);
      case TermReq(c) => DeliverReq(s, i, c);
      case Term => DeliverTerm(s, i);
      case TermAck(c) => DeliverAck(s, i, c);
    }
  }

  // The table after `own`, before check_term_acks looks at it.
  function TakeOwn(s: State, i: Id, c: Id): State
    requires i < |s| && s[i].inbox != [] && c < |s|
  {
    if s[i].terminating then PassOn(s, i, c) else PopOwn(s, i, c)
  }

  lemma DeliverOwnIs(s: State, i: Id, c: Id)
    requires Known(s) && i < |s| && s[i].inbox != [] && s[i].inbox[0] == Own(c) && c < |s| && c != i
    ensures OwnerKnown(s, i) && Deliver(s, i) == CheckTermAcks(TakeOwn(s, i, c), i)
  {
    assert OwnerKnown(s, i);
    var t := s[i := s[i].(inbox := s[i].inbox[1..])];
    var u := ProcessOwn(t, i, c);
    assert Deliver(s, i) == CheckTermAcks(u[i := u[i].(processed := u[i].processed + 1)], i);
    assert u[i := u[i].(processed := u[i].processed + 1)] == TakeOwn(s, i, c);
  }

  lemma DeliverOwn(s: State, i: Id, c: Id)
    requires Inv(s) && Known(s) && Free(s, i) && s[i].inbox != [] && s[i].inbox[0] == Own(c) && c < |s|
    ensures Inv(Deliver(s, i)) && AssertsHold(s, i)
  {
    HeadChild(s, i, c);
    DeliverOwnIs(s, i, c);
    if s[i].terminating {
      OwnLateKeeps(s, i, c);
    } else {
      OwnKeeps(s, i, c);
    }
    CheckKeeps(TakeOwn(s, i, c), i);
  }

  lemma TerminateKeeps(s: State, i: Id)
    requires Inv(s) && Known(s) && Free(s, i)
    ensures Inv(Next(s, Terminate(i)))
  {
    assert NamesOk(s, i) && OwnerKnown(s, i);
    if s[i].terminating {
    } else if s[i].owner.None? {
      StartedKeeps(s, i, s[i].inbox);
      StartedRecords(s, i, s[i].inbox);
      assert s[i := s[i].(inbox := s[i].inbox)] == s;
      CheckKeeps(Started(s, i, s[i].inbox), i);
    } else {
      RequestKeeps(s, i);
    }
  }

  lemma StepKeepsInv(s: State, e: Event)
    requires Inv(s) && Known(s) && Enabled(s, e)
    ensures Inv(Next(s, e))
  {
    match e {
      case NewRoot => BornKeeps(s, None);
      case Launch(p) => BornKeeps(s, Some(p));
      case LaunchOwn(p) => LaunchOwnKeeps(s, p, s[p].launching.value);
      case Terminate(i) => TerminateKeeps(s, i);
      case TermChild(i, c) => TermChildKeeps(s, i, c);
      case Reserve(i) => ReserveKeeps(s, i);
      case Redeem(i) => RedeemKeeps(s, i);
      case Process(i) => DeliverKeeps(s, i);
    }
  }

  lemma StepKeeps(s: State, e: Event)
    requires Inv(s) && Known(s) && Enabled(s, e)
    ensures Inv(Next(s, e)) && Known(Next(s, e))
  {
    StepKeepsInv(s, e);
    InvKnown(Next(s, e), -1);
  }

  /* Whole runs. */

  ghost predicate Run(s: State, es: seq<Event>, t: State)
    decreases |es|
  {
    if es == [] then s == t
    else Known(s) && Enabled(s, es[0]) && Run(Next(s, es[0]), es[1..], t)
  }

  ghost predicate Reachable(t: State)
  {
    exists es :: Run([], es, t)
  }

  lemma {:induction false} RunKeeps(s: State, es: seq<Event>, t: State)
    requires Inv(s) && Known(s) && Run(s, es, t)
    ensures Inv(t) && Known(t)
    decreases |es|
  {
    if es != [] {
      StepKeeps(s, es[0]);
      RunKeeps(Next(s, es[0]), es[1..], t);
    }
  }

  lemma ReachableInv(t: State)
    requires Reachable(t)
    ensures Inv(t) && Known(t)
  {
    var es :| Run([], es, t);
    RunKeeps([], es, t);
  }

  // No command waits for a destroyed object, and none that waits trips an assertion.
  lemma NothingForTheDead(t: State, i: Id)
    requires Reachable(t) && i < |t|
    ensures Known(t)
    ensures !t[i].alive ==> t[i].inbox == [] && t[i].reserved == 0 && t[i].launching == None
    ensures Enabled(t, Process(i)) ==> AssertsHold(t, i)
  {
    ReachableInv(t);
    assert ObjOk(t[i]);
    if Enabled(t, Process(i)) {
      DeliverKeeps(t, i);
    }
  }

  // An owner outlives its children.
  lemma ChildrenFirst(t: State, c: Id)
    requires Reachable(t) && c < |t| && t[c].owner.Some?
    ensures t[c].owner.value < c
    ensures !t[t[c].owner.value].alive ==> !t[c].alive
  {
    ReachableInv(t);
    assert NamesOk(t, c);
    if t[c].alive {
      OwnerAlive(t, c);
    }
  }

  // Every child is in exactly one place, and its owner counts it exactly while it is awaited.
  lemma OnePlace(t: State, c: Id)
    requires Reachable(t) && c < |t| && t[c].owner.Some?
    ensures t[c].owner.value < |t|
    ensures PhaseOk(View(t[t[c].owner.value], t[c], c))
    ensures t[t[c].owner.value].termAcks == |AwaitedBy(t, t[c].owner.value)|
  {
    ReachableInv(t);
    assert NamesOk(t, c) && LinkOk(t, c) && CountOk(t, t[c].owner.value);
  }

  /* Termination starts once. */

  // Owners stay, and a set flag stays set; it gets set for `starter` alone.
  ghost predicate FlagsKept(s: State, t: State, starter: int)
  {
    && |s| <= |t|
    && forall j | 0 <= j < |s| ::
         t[j].owner == s[j].owner && t[j].terminating == (s[j].terminating || j == starter)
  }

  lemma CheckFlags(s: State, i: Id)
    requires i < |s| && OwnerKnown(s, i)
    ensures FlagsKept(s, CheckTermAcks(s, i), -1)
  {
  }

  lemma OwnFlags(s: State, i: Id, c: Id)
    requires i < |s| && c < |s| && OwnerKnown(s, i)
    ensures FlagsKept(s, ProcessSeqnum(ProcessOwn(s, i, c), i), -1)
  {
    var u := ProcessOwn(s, i, c);
    assert FlagsKept(s, u, -1);
    CheckFlags(u[i := u[i].(processed := u[i].processed + 1)], i);
  }

  lemma ReqFlags(s: State, i: Id, c: Id)
    requires i < |s| && c < |s|
    ensures FlagsKept(s, ProcessTermReq(s, i, c), -1)
  {
  }

  lemma DeliverFlags(s: State, i: Id)
    requires Known(s) && i < |s| && s[i].inbox != []
    ensures FlagsKept(s, Deliver(s, i), if s[i].inbox[0] == Term then i else -1)
  {
    var cmd := s[i].inbox[0];
    assert ChildKnown(s, cmd) && OwnerKnown(s, i);
    var t := s[i := s[i].(inbox := s[i].inbox[1..])];
    match cmd {
      case Plug => CheckFlags(t[i := t[i].(processed := t[i].processed + 1)], i);
      case Counted => CheckFlags(t[i := t[i].(processed := t[i].processed + 1)], i);
      case Own(c) => OwnFlags(t, i, c);
      case TermReq(c) => ReqFlags(t, i, c);
      case Term => CheckFlags(StartTerm(t, i), i);
      case TermAck(_) => CheckFlags(t[i := t[i].(termAcks := t[i].termAcks - 1)], i);
    }
  }

  // The step runs process_term of i.
  predicate Starts(s: State, e: Event, i: Id)
    requires Known(s) && Enabled(s, e)
  {
    || (e == Process(i) && s[i].inbox[0] == Term)
    || (e == Terminate(i) && s[i].owner.None? && !s[i].terminating)
  }

  lemma StepFlags(s: State, e: Event, i: Id)
    requires Known(s) && Enabled(s, e) && i < |s|
    ensures i < |Next(s, e)| && Next(s, e)[i].owner == s[i].owner
    ensures Next(s, e)[i].terminating == (s[i].terminating || Starts(s, e, i))
  {
    if e.Process? {
      DeliverFlags(s, e.i);
    } else if e.Terminate? && !s[e.i].terminating && s[e.i].owner.None? {
      CheckFlags(StartTerm(s, e.i), e.i);
    }
  }

  // How often process_term of i runs.
  ghost function Terminations(s: State, es: seq<Event>, t: State, i: Id): nat
    requires Run(s, es, t)
    decreases |es|
  {
    if es == [] then 0
    else One(Starts(s, es[0], i)) + Terminations(Next(s, es[0]), es[1..], t, i)
  }

  // No object is told to terminate twice, in any run.
  lemma {:induction false} TerminatedOnce(s: State, es: seq<Event>, t: State, i: Id)
    requires Inv(s) && Known(s) && Run(s, es, t)
    ensures Terminations(s, es, t, i) + One(i < |s| && s[i].terminating) <= 1
    decreases |es|
  {
    if es != [] {
      StepKeeps(s, es[0]);
      TerminatedOnce(Next(s, es[0]), es[1..], t, i);
      if i < |s| {
        StepFlags(s, es[0], i);
        if es[0] == Process(i) {
          DeliverKeeps(s, i);
        }
      }
    }
  }
}
