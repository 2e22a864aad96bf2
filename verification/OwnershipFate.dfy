/** Who is left when all commands have been delivered. */
module OwnershipFate {
  import opened Bytes
  import opened Ownership
  import opened OwnershipInvariant
  import opened OwnershipSteps
  import opened OwnershipEnds
  import opened OwnershipRuns
  import opened OwnershipProgress

  /* What a delivery does to the inboxes and to the sets of owned children. */

  predicate Grown(a: Obj, b: Obj)
  {
    && a.inbox <= b.inbox && b.owned == a.owned
    && forall k | |a.inbox| <= k < |b.inbox| :: !b.inbox[k].TermReq?
  }

  ghost predicate Effect(s: State, t: State, j: Id)
  {
    && |t| == |s| && j < |s| && s[j].inbox != []
    && t[j].inbox == s[j].inbox[1..]
    && (forall q | 0 <= q < |s| && q != j :: Grown(s[q], t[q]))
  }

  lemma CheckEffect(s: State, mid: State, j: Id)
    requires Effect(s, mid, j) && (mid[j].owner.Some? ==> mid[j].owner.value < j)
    requires OwnerKnown(mid, j)
    ensures Effect(s, CheckTermAcks(mid, j), j)
    ensures CheckTermAcks(mid, j)[j].owned == mid[j].owned
  {
  }

  lemma OwnEffect(s: State, j: Id, c: Id)
    requires Inv(s) && Known(s) && Free(s, j) && s[j].inbox != [] && s[j].inbox[0] == Own(c) && c < |s|
    ensures Effect(s, Deliver(s, j), j)
    ensures Deliver(s, j)[j].owned == if s[j].terminating then s[j].owned else s[j].owned + {c}
  {
    HeadChild(s, j, c);
    DeliverOwnIs(s, j, c);
    assert NamesOk(s, j);
    assert Effect(s, TakeOwn(s, j, c), j);
    CheckEffect(s, TakeOwn(s, j, c), j);
  }

  lemma ReqEffect(s: State, j: Id, c: Id)
    requires Inv(s) && Known(s) && Free(s, j) && s[j].inbox != [] && s[j].inbox[0] == TermReq(c) && c < |s|
    ensures Effect(s, Deliver(s, j), j)
    ensures Deliver(s, j)[j].owned == s[j].owned - {c} || Deliver(s, j)[j].owned == s[j].owned
  {
    HeadChild(s, j, c);
    DeliverReqIs(s, j, c);
  }

  lemma TermEffect(s: State, j: Id)
    requires Inv(s) && Known(s) && Free(s, j) && s[j].inbox != [] && s[j].inbox[0] == Term
    ensures Effect(s, Deliver(s, j), j)
  {
    var box := s[j].inbox[1..];
    TermStarts(s, j);
    StartedRecords(s, j, box);
    assert OwnerKnown(s, j) && NamesOk(s, j);
    CheckEffect(s, Started(s, j, box), j);
  }

  lemma CountedEffect(s: State, j: Id)
    requires Inv(s) && Known(s) && Free(s, j) && s[j].inbox != [] && (s[j].inbox[0] == Plug || s[j].inbox[0] == Counted)
    ensures Effect(s, Deliver(s, j), j)
    ensures Deliver(s, j)[j].owned == s[j].owned
  {
    DeliverCountedIs(s, j);
    assert NamesOk(s, j);
    CheckEffect(s, PopCounted(s, j), j);
  }

  lemma AckEffect(s: State, j: Id)
    requires Inv(s) && Known(s) && Free(s, j) && s[j].inbox != [] && s[j].inbox[0].TermAck?
    ensures Effect(s, Deliver(s, j), j)
    ensures Deliver(s, j)[j].owned == s[j].owned
  {
    DeliverAckIs(s, j);
    assert NamesOk(s, j);
    CheckEffect(s, PopAck(s, j), j);
  }

  lemma DeliverEffect(s: State, j: Id)
    requires Inv(s) && Known(s) && Free(s, j) && s[j].inbox != []
    ensures Effect(s, Deliver(s, j), j)
    ensures forall x | x in s[j].owned && s[j].inbox[0] != TermReq(x) && s[j].inbox[0] != Term ::
              x in Deliver(s, j)[j].owned
    ensures forall x | s[j].inbox[0] == Own(x) && !s[j].terminating :: x in Deliver(s, j)[j].owned
  {
    assert ChildKnown(s, s[j].inbox[0]);
    match s[j].inbox[0] {
      case Plug => CountedEffect(s, j);
      case Counted => CountedEffect(s, j);
      case Own(c) => OwnEffect(s, j, c);
      case TermReq(c) => ReqEffect(s, j, c);
      case Term => TermEffect(s, j);
      case TermAck(_) => AckEffect(s, j);
    }
  }

  /* A request that its owner will find the child for. */

  // Request k of the inbox comes when the child is owned.
  ghost predicate InTime(o: Obj, i: Id, k: int)
  {
    && 0 <= k < |o.inbox| && o.inbox[k] == TermReq(i)
    && (i in o.owned || exists m :: 0 <= m < k && o.inbox[m] == Own(i))
  }

  // Child i was asked to terminate already, or will be.
  ghost predicate Heard(s: State, i: Id, p: Id)
    requires i < |s| && p < |s|
  {
    RankAt(s, i) <= 3 || exists k :: InTime(s[p], i, k)
  }

  lemma RankFacts(s: State, i: Id, p: Id)
    requires Inv(s) && i < |s| && s[i].owner == Some(p) && p < |s|
    ensures i in s[p].owned <==> RankAt(s, i) == 4
    ensures Own(i) in s[p].inbox <==> RankAt(s, i) == 5
    ensures s[p].terminating ==> RankAt(s, i) != 4
    ensures RankAt(s, i) == 0 <==> !s[i].alive && TermAck(i) !in s[p].inbox
  {
    assert LinkOk(s, i) && ObjOk(s[p]);
    NoTimes(s[p].inbox, Own(i));
    NoTimes(s[p].inbox, TermAck(i));
  }

  // The owner takes a command out of its inbox.
  lemma HeardByOwner(s: State, i: Id, p: Id, k: int)
    requires Inv(s) && Known(s) && Enabled(s, Process(p)) && i < |s| && s[i].owner == Some(p)
    requires InTime(s[p], i, k)
    ensures i < |Deliver(s, p)| && p < |Deliver(s, p)| && Heard(Deliver(s, p), i, p)
  {
    var t := Deliver(s, p);
    var head := s[p].inbox[0];
    StepKeeps(s, Process(p));
    StepFlags(s, Process(p), p);
    StepFlags(s, Process(p), i);
    DeliverFalls(s, p);
    DeliverEffect(s, p);
    RankFacts(s, i, p);
    RankFacts(t, i, p);
    if i in s[p].owned {
      if head == TermReq(i) {
        HeadChild(s, p, i);
        DeliverReqIs(s, p, i);
        assert ObjOk(s[p]);
        AcceptRank(s, p, i);
      } else if head == Term {
        assert t[p].terminating;
      } else {
        assert InTime(t[p], i, k - 1);
      }
    } else {
      var m :| 0 <= m < k && s[p].inbox[m] == Own(i);
      if m == 0 && s[p].terminating {
        assert i !in t[p].owned;
        OwnTaken(s, i, p);
      } else if m == 0 {
        assert InTime(t[p], i, k - 1);
      } else {
        assert t[p].inbox[m - 1] == Own(i);
        assert InTime(t[p], i, k - 1);
      }
    }
  }

  lemma OwnTaken(s: State, i: Id, p: Id)
    requires Inv(s) && Known(s) && Free(s, p) && s[p].inbox != [] && s[p].inbox[0] == Own(i) && s[p].terminating
    requires i < |s| && s[i].owner == Some(p)
    ensures |Deliver(s, p)| == |s| && RankAt(Deliver(s, p), i) < 5
  {
    HeadChild(s, p, i);
    DeliverOwnIs(s, p, i);
    OwnRank(s, p, i);
    OwnLateKeeps(s, p, i);
    CheckFalls(TakeOwn(s, p, i), p);
    RankFacts(s, i, p);
  }

  lemma HeardStep(s: State, i: Id, p: Id, j: Id)
    requires Inv(s) && Known(s) && Enabled(s, Process(j)) && i < |s| && s[i].owner == Some(p) && p < |s|
    requires Heard(s, i, p)
    ensures i < |Deliver(s, j)| && p < |Deliver(s, j)| && Heard(Deliver(s, j), i, p)
    ensures Deliver(s, j)[i].owner == Some(p)
  {
    StepFlags(s, Process(j), i);
    DeliverFalls(s, j);
    if RankAt(s, i) > 3 {
      var k :| InTime(s[p], i, k);
      if j == p {
        HeardByOwner(s, i, p, k);
      } else {
        DeliverEffect(s, j);
        var t := Deliver(s, j);
        assert Grown(s[p], t[p]);
        if i !in s[p].owned {
          var m :| 0 <= m < k && s[p].inbox[m] == Own(i);
          assert t[p].inbox[m] == Own(i);
        }
        assert InTime(t[p], i, k);
      }
    }
  }

  lemma {:induction false} HeardRun(s: State, es: seq<Event>, t: State, i: Id, p: Id)
    requires Inv(s) && Known(s) && Run(s, es, t) && OnlyDeliveries(es)
    requires i < |s| && s[i].owner == Some(p) && p < |s| && Heard(s, i, p)
    ensures i < |t| && p < |t| && t[i].owner == Some(p) && Heard(t, i, p)
    decreases |es|
  {
    if es != [] {
      HeardStep(s, i, p, es[0].i);
      StepKeeps(s, es[0]);
      HeardRun(Next(s, es[0]), es[1..], t, i, p);
    }
  }

  lemma HeardAndQuiet(t: State, i: Id, p: Id)
    requires Inv(t) && Quiet(t) && i < |t| && t[i].owner == Some(p) && p < |t| && Heard(t, i, p)
    ensures !t[i].alive
  {
    assert t[p].inbox == [] && t[i].inbox == [];
    assert LinkOk(t, i);
    NoneStuck(t, i);
  }

  /* A child that nobody tells to terminate, unless its owner is told. */

  // Own(i) comes after request k of the inbox.
  ghost predicate Behind(o: Obj, i: Id, k: nat)
  {
    exists m :: k < m < |o.inbox| && o.inbox[m] == Own(i)
  }

  // Its owner has child i, or will have it when all requests for it are past.
  ghost predicate Late(s: State, i: Id, p: Id)
    requires p < |s|
  {
    && (i in s[p].owned || Own(i) in s[p].inbox)
    && (forall k | 0 <= k < |s[p].inbox| && s[p].inbox[k] == TermReq(i) :: Behind(s[p], i, k))
  }

  lemma NotHeardIsLate(s: State, i: Id, p: Id)
    requires Inv(s) && i < |s| && s[i].owner == Some(p) && p < |s| && s[p].launching == None
    ensures Heard(s, i, p) <==> !Late(s, i, p)
  {
    RankFacts(s, i, p);
    assert LinkOk(s, i);
    if Heard(s, i, p) && Late(s, i, p) {
      var k :| InTime(s[p], i, k);
      OwnOnce(s, i, p, k);
    }
    if !Heard(s, i, p) {
      forall k | 0 <= k < |s[p].inbox| && s[p].inbox[k] == TermReq(i) ensures Behind(s[p], i, k) {
        assert !InTime(s[p], i, k);
        var m :| 0 <= m < |s[p].inbox| && s[p].inbox[m] == Own(i);
      }
    }
  }

  // A request that comes in time has no Own(i) behind it.
  lemma OwnOnce(s: State, i: Id, p: Id, k: int)
    requires Inv(s) && i < |s| && s[i].owner == Some(p) && p < |s| && InTime(s[p], i, k)
    ensures !Behind(s[p], i, k)
  {
    RankFacts(s, i, p);
    assert LinkOk(s, i);
    if Behind(s[p], i, k) {
      var n :| k < n < |s[p].inbox| && s[p].inbox[n] == Own(i);
      var m :| 0 <= m < k && s[p].inbox[m] == Own(i);
      Twice(s[p].inbox, m, n);
    }
  }

  lemma {:induction false} Twice(box: seq<Cmd>, m: nat, n: nat)
    requires m < n < |box| && box[m] == box[n]
    ensures Times(box[m], box) >= 2
  {
    assert box == box[..n] + box[n..];
    assert box[m] in box[..n] && box[n] in box[n..];
  }

  lemma LateByOwner(s: State, i: Id, p: Id)
    requires Inv(s) && Known(s) && Enabled(s, Process(p)) && i < |s| && s[i].owner == Some(p)
    requires Late(s, i, p) && p < |Deliver(s, p)| && !Deliver(s, p)[p].terminating
    ensures Late(Deliver(s, p), i, p)
  {
    var t := Deliver(s, p);
    StepFlags(s, Process(p), p);
    DeliverEffect(s, p);
    RankFacts(s, i, p);
    if s[p].inbox[0] == TermReq(i) {
      assert Behind(s[p], i, 0);
    }
    if i !in s[p].owned && s[p].inbox[0] != Own(i) {
      var m :| 0 <= m < |s[p].inbox| && s[p].inbox[m] == Own(i);
      assert t[p].inbox[m - 1] == Own(i);
    }
    forall k | 0 <= k < |t[p].inbox| && t[p].inbox[k] == TermReq(i) ensures Behind(t[p], i, k) {
      assert s[p].inbox[k + 1] == TermReq(i);
      var m :| k + 1 < m < |s[p].inbox| && s[p].inbox[m] == Own(i);
      assert t[p].inbox[m - 1] == Own(i);
    }
  }

  lemma LateStep(s: State, i: Id, p: Id, j: Id)
    requires Inv(s) && Known(s) && Enabled(s, Process(j)) && i < |s| && s[i].owner == Some(p) && p < |s|
    requires Late(s, i, p) && p < |Deliver(s, j)| && !Deliver(s, j)[p].terminating
    ensures Late(Deliver(s, j), i, p)
  {
    if j == p {
      LateByOwner(s, i, p);
    } else {
      var t := Deliver(s, j);
      DeliverEffect(s, j);
      assert Grown(s[p], t[p]);
      forall k | 0 <= k < |t[p].inbox| && t[p].inbox[k] == TermReq(i) ensures Behind(t[p], i, k) {
        assert s[p].inbox[k] == TermReq(i);
        var m :| k < m < |s[p].inbox| && s[p].inbox[m] == Own(i);
        assert t[p].inbox[m] == Own(i);
      }
    }
  }

  lemma {:induction false} LateRun(s: State, es: seq<Event>, t: State, i: Id, p: Id)
    requires Inv(s) && Known(s) && Run(s, es, t) && OnlyDeliveries(es)
    requires i < |s| && s[i].owner == Some(p) && p < |s| && Late(s, i, p)
    requires p < |t| && !t[p].terminating
    ensures i < |t| && t[i].owner == Some(p) && Late(t, i, p)
    decreases |es|
  {
    if es != [] {
      var u := Next(s, es[0]);
      StepKeeps(s, es[0]);
      StepFlags(s, es[0], i);
      StepFlags(s, es[0], p);
      if u[p].terminating {
        TerminatingStays(u, es[1..], t, p);
      }
      LateStep(s, i, p, es[0].i);
      LateRun(u, es[1..], t, i, p);
    }
  }

  lemma LateLives(t: State, i: Id, p: Id)
    requires Inv(t) && i < |t| && t[i].owner == Some(p) && p < |t| && Late(t, i, p)
    ensures t[i].alive
  {
    RankFacts(t, i, p);
    assert LinkOk(t, i);
  }

  // Only terminate() makes a root terminate, no command does.
  lemma {:induction false} RootStays(s: State, es: seq<Event>, t: State, r: Id)
    requires Inv(s) && Known(s) && Run(s, es, t) && OnlyDeliveries(es)
    requires r < |s| && s[r].owner == None && !s[r].terminating
    ensures r < |t| && !t[r].terminating && t[r].alive
    decreases |es|
  {
    if es == [] {
      assert ObjOk(s[r]);
    } else {
      StepKeeps(s, es[0]);
      StepFlags(s, es[0], r);
      if es[0].i == r {
        assert ObjOk(s[r]);
        NoTimes(s[r].inbox, Term);
      }
      RootStays(Next(s, es[0]), es[1..], t, r);
    }
  }

  /* The fate of an object. */

  // It terminates already, its owner was or will be told in time, or its owner is doomed.
  ghost predicate Doomed(s: State, c: Id)
    requires c < |s|
    decreases c
  {
    || s[c].terminating
    || (s[c].owner.Some? && s[c].owner.value < c && (Heard(s, c, s[c].owner.value) || Doomed(s, s[c].owner.value)))
  }

  // When all commands have been delivered, in whatever order, exactly the doomed are gone.
  lemma {:induction false} Fate(s: State, es: seq<Event>, t: State, c: Id)
    requires Inv(s) && Known(s) && Settled(s) && c < |s|
    requires Run(s, es, t) && OnlyDeliveries(es) && Exhausted(t)
    ensures c < |t| && (t[c].alive <==> !Doomed(s, c))
    decreases c
  {
    RunKeeps(s, es, t);
    DeliveriesRunOut(s, es, t);
    ExhaustedIsQuiet(t);
    NoneStuck(t, c);
    assert NamesOk(s, c);
    if s[c].terminating {
      TerminatingStays(s, es, t, c);
    } else if s[c].owner == None {
      RootStays(s, es, t, c);
    } else {
      ChildFate(s, es, t, c, s[c].owner.value);
    }
  }

  lemma {:induction false} ChildFate(s: State, es: seq<Event>, t: State, c: Id, p: Id)
    requires Inv(s) && Known(s) && Settled(s) && c < |s| && s[c].owner == Some(p) && p < c && !s[c].terminating
    requires Run(s, es, t) && OnlyDeliveries(es) && Exhausted(t) && Inv(t) && Quiet(t)
    ensures c < |t| && (t[c].alive <==> !Doomed(s, c))
    decreases c, 0
  {
    OwnersStay(s, es, t, c);
    Fate(s, es, t, p);
    NotHeardIsLate(s, c, p);
    NoneStuck(t, p);
    if Heard(s, c, p) {
      HeardRun(s, es, t, c, p);
      HeardAndQuiet(t, c, p);
    } else if Doomed(s, p) {
      if t[c].alive {
        OwnerAlive(t, c);
      }
    } else {
      LateRun(s, es, t, c, p);
      LateLives(t, c, p);
    }
  }

  lemma {:induction false} OwnersStay(s: State, es: seq<Event>, t: State, c: Id)
    requires Inv(s) && Known(s) && Run(s, es, t) && c < |s|
    ensures c < |t| && t[c].owner == s[c].owner
    decreases |es|
  {
    if es != [] {
      StepKeeps(s, es[0]);
      StepFlags(s, es[0], c);
      OwnersStay(Next(s, es[0]), es[1..], t, c);
    }
  }
}
