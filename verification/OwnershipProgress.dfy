/** The shutdown of an ownership tree always comes to its end. */
module OwnershipProgress {
  import opened Bytes
  import opened Ownership
  import opened OwnershipInvariant
  import opened OwnershipSteps
  import opened OwnershipEnds
  import opened OwnershipRuns

  // Nothing is in flight, and nobody is about to send.
  predicate Quiet(s: State)
  {
    forall i | 0 <= i < |s| :: s[i].inbox == [] && s[i].reserved == 0 && s[i].launching == None
  }

  // When nothing is in flight, nobody is left waiting: a waiting object would have a waiting child.
  lemma {:induction false} NoneStuck(s: State, i: Id)
    requires Inv(s) && Quiet(s) && i < |s|
    ensures !(s[i].alive && s[i].terminating)
    decreases |s| - i
  {
    if s[i].alive && s[i].terminating {
      assert ObjOk(s[i]) && CountOk(s, i) && !MayGo(s[i]);
      var c :| c in AwaitedBy(s, i);
      assert NamesOk(s, c);
      NoneStuck(s, c);
    }
  }

  /* A measure that every delivered command makes smaller. */

  predicate IsMisc(cmd: Cmd)
  {
    cmd.Plug? || cmd.Counted? || cmd.TermReq?
  }

  ghost function NumMisc(box: seq<Cmd>): nat
  {
    if box == [] then 0 else One(IsMisc(box[0])) + NumMisc(box[1..])
  }

  lemma {:induction false} MiscAppend(box: seq<Cmd>, cmd: Cmd)
    ensures NumMisc(box + [cmd]) == NumMisc(box) + One(IsMisc(cmd))
  {
    if box != [] {
      assert (box + [cmd])[1..] == box[1..] + [cmd];
      MiscAppend(box[1..], cmd);
    }
  }

  // How many places a child has still to go through.
  function Rank(l: Link): nat
  {
    if l.launching then 6
    else if l.own > 0 then 5
    else if l.owned then 4
    else if l.term > 0 then 3
    else if l.going then 2
    else if l.ack > 0 then 1
    else 0
  }

  ghost function RankAt(s: State, j: Id): nat
    requires j < |s|
  {
    if s[j].owner.Some? && s[j].owner.value < |s| then Rank(View(s[s[j].owner.value], s[j], j))
    else One(s[j].alive)
  }

  ghost function Work(s: State, j: Id): nat
    requires j < |s|
  {
    NumMisc(s[j].inbox) + RankAt(s, j)
  }

  ghost function TotalWork(s: State, n: nat): nat
    requires n <= |s|
  {
    if n == 0 then 0 else TotalWork(s, n - 1) + Work(s, n - 1)
  }

  // No child moves back.
  ghost predicate NoneBack(s: State, t: State)
  {
    |t| == |s| && forall k | 0 <= k < |s| :: RankAt(t, k) <= RankAt(s, k)
  }

  // No object has more to do, and the one at j has less.
  ghost predicate Falls(s: State, t: State, j: int)
  {
    && NoneBack(s, t)
    && forall k | 0 <= k < |s| :: Work(t, k) <= Work(s, k) && (k == j ==> Work(t, k) < Work(s, k))
  }

  lemma {:induction false} FallsTotal(s: State, t: State, j: int, n: nat)
    requires Falls(s, t, j) && n <= |s|
    ensures TotalWork(t, n) <= TotalWork(s, n)
    ensures 0 <= j < n ==> TotalWork(t, n) < TotalWork(s, n)
  {
    if n > 0 {
      FallsTotal(s, t, j, n - 1);
    }
  }

  lemma MovesFall(s: State, t: State, c: Id, p: Id)
    requires MovesOnly(s, t, c, p)
    requires NumMisc(t[p].inbox) <= NumMisc(s[p].inbox) && NumMisc(t[c].inbox) <= NumMisc(s[c].inbox)
    requires Rank(View(t[p], t[c], c)) < Rank(View(s[p], s[c], c))
    ensures Falls(s, t, c)
  {
    PairViews(s, t, c, p);
    forall k | 0 <= k < |s|
      ensures RankAt(t, k) <= RankAt(s, k) && Work(t, k) <= Work(s, k) && (k == c ==> Work(t, k) < Work(s, k))
    {
      assert t[k].owner == s[k].owner;
    }
  }

  lemma QuietFalls(s: State, t: State, i: Id)
    requires |t| == |s| && i < |s| && forall j | 0 <= j < |s| :: SaysSame(s[j], t[j])
    requires forall j | 0 <= j < |s| :: NumMisc(t[j].inbox) <= NumMisc(s[j].inbox)
    requires NumMisc(t[i].inbox) < NumMisc(s[i].inbox)
    ensures Falls(s, t, i)
  {
    QuietViews(s, t);
    forall k | 0 <= k < |s|
      ensures RankAt(t, k) <= RankAt(s, k) && Work(t, k) <= Work(s, k) && (k == i ==> Work(t, k) < Work(s, k))
    {
      assert t[k].owner == s[k].owner && SaysSame(s[k], t[k]);
    }
  }

  lemma GoneFalls(s: State, i: Id)
    requires Leaving(s, i) && OwnerKnown(s, i)
    ensures Falls(s, Gone(s, i), i)
  {
    var t := Gone(s, i);
    assert NamesOk(s, i) && LinkOk(s, i);
    if s[i].owner.Some? {
      var p := s[i].owner.value;
      GoneViews(s, i, p);
      MiscAppend(s[p].inbox, TermAck(i));
    } else {
      MoveViews(s, t, i);
    }
    forall k | 0 <= k < |s|
      ensures RankAt(t, k) <= RankAt(s, k) && Work(t, k) <= Work(s, k) && (k == i ==> Work(t, k) < Work(s, k))
    {
      assert t[k].owner == s[k].owner;
    }
  }

  lemma CheckFalls(s: State, i: Id)
    requires InvBut(s, i) && i < |s| && s[i].alive && s[i].launching == None && OwnerKnown(s, i)
    ensures NoneBack(s, CheckTermAcks(s, i))
    ensures TotalWork(CheckTermAcks(s, i), |s|) <= TotalWork(s, |s|)
  {
    if MayGo(s[i]) {
      GoneFalls(s, i);
      FallsTotal(s, Gone(s, i), i, |s|);
    }
  }

  // A check that follows a step that falls.
  lemma ThenCheck(s: State, mid: State, i: Id, j: Id)
    requires Falls(s, mid, j) && j < |s| && InvBut(mid, i) && i < |s|
    requires mid[i].alive && mid[i].launching == None && OwnerKnown(mid, i)
    ensures NoneBack(s, CheckTermAcks(mid, i))
    ensures TotalWork(CheckTermAcks(mid, i), |s|) < TotalWork(s, |s|)
  {
    FallsTotal(s, mid, j, |s|);
    CheckFalls(mid, i);
  }

  lemma CountedFalls(s: State, i: Id)
    requires Inv(s) && Known(s) && Free(s, i) && s[i].inbox != []
    requires s[i].inbox[0] == Plug || s[i].inbox[0] == Counted
    ensures NoneBack(s, Deliver(s, i)) && TotalWork(Deliver(s, i), |s|) < TotalWork(s, |s|)
  {
    PopCountedKeeps(s, i);
    DeliverCountedIs(s, i);
    QuietFalls(s, PopCounted(s, i), i);
    ThenCheck(s, PopCounted(s, i), i, i);
  }

  lemma OwnFalls(s: State, i: Id, c: Id)
    requires Inv(s) && Known(s) && Free(s, i) && s[i].inbox != [] && s[i].inbox[0] == Own(c) && c < |s|
    ensures NoneBack(s, Deliver(s, i)) && TotalWork(Deliver(s, i), |s|) < TotalWork(s, |s|)
  {
    HeadChild(s, i, c);
    DeliverOwnIs(s, i, c);
    OwnRank(s, i, c);
    if s[i].terminating {
      OwnLateKeeps(s, i, c);
      MiscAppend(s[c].inbox, Term);
    } else {
      OwnKeeps(s, i, c);
    }
    MovesFall(s, TakeOwn(s, i, c), c, i);
    ThenCheck(s, TakeOwn(s, i, c), i, c);
  }

  lemma OwnRank(s: State, i: Id, c: Id)
    requires Inv(s) && Known(s) && Free(s, i) && s[i].inbox != [] && s[i].inbox[0] == Own(c)
    requires ChildOf(s, c, i) && c > i
    ensures var t := TakeOwn(s, i, c);
            Rank(View(t[i], t[c], c)) < Rank(View(s[i], s[c], c))
  {
    var t := TakeOwn(s, i, c);
    assert LinkOk(s, c);
    NoTimes(s[i].inbox, Own(c));
    PopChild(s[i].inbox, c);
    if s[i].terminating {
      AppendFacts(s[c].inbox, Term);
    }
  }

  lemma ReqFalls(s: State, i: Id, c: Id)
    requires Inv(s) && Known(s) && Free(s, i) && s[i].inbox != [] && s[i].inbox[0] == TermReq(c) && c < |s|
    ensures NoneBack(s, Deliver(s, i)) && TotalWork(Deliver(s, i), |s|) < TotalWork(s, |s|)
  {
    HeadChild(s, i, c);
    DeliverReqIs(s, i, c);
    if s[i].terminating || c !in s[i].owned {
      IgnoreReqKeeps(s, i);
      QuietFalls(s, PopReq(s, i), i);
      FallsTotal(s, PopReq(s, i), i, |s|);
    } else {
      AcceptReqKeeps(s, i, c);
      AcceptRank(s, i, c);
      MiscAppend(s[c].inbox, Term);
      MovesFall(s, AcceptReq(s, i, c), c, i);
      FallsTotal(s, AcceptReq(s, i, c), c, |s|);
    }
  }

  lemma AcceptRank(s: State, i: Id, c: Id)
    requires Inv(s) && Free(s, i) && s[i].inbox != [] && s[i].inbox[0] == TermReq(c)
    requires ChildOf(s, c, i) && c > i && c in s[i].owned
    ensures var t := AcceptReq(s, i, c);
            Rank(View(t[i], t[c], c)) < Rank(View(s[i], s[c], c))
  {
    var t := AcceptReq(s, i, c);
    assert t[i] == s[i].(inbox := s[i].inbox[1..], owned := s[i].owned - {c}, termAcks := s[i].termAcks + 1);
    assert t[c] == s[c].(inbox := s[c].inbox + [Term]);
    assert LinkOk(s, c);
    PopSaysSame(s, i);
    AppendFacts(s[c].inbox, Term);
  }

  lemma AckRank(s: State, i: Id, c: Id)
    requires Inv(s) && Free(s, i) && s[i].inbox != [] && s[i].inbox[0] == TermAck(c) && ChildOf(s, c, i) && c > i
    ensures var t := PopAck(s, i);
            Rank(View(t[i], t[c], c)) < Rank(View(s[i], s[c], c))
  {
    assert LinkOk(s, c);
    NoTimes(s[i].inbox, TermAck(c));
    PopChild(s[i].inbox, c);
  }

  lemma AckFalls(s: State, i: Id, c: Id)
    requires Inv(s) && Known(s) && Free(s, i) && s[i].inbox != [] && s[i].inbox[0] == TermAck(c)
    ensures NoneBack(s, Deliver(s, i)) && TotalWork(Deliver(s, i), |s|) < TotalWork(s, |s|)
  {
    HeadChild(s, i, c);
    AckKeeps(s, i, c);
    DeliverAckIs(s, i);
    AckRank(s, i, c);
    MovesFall(s, PopAck(s, i), c, i);
    ThenCheck(s, PopAck(s, i), i, c);
  }

  lemma StartedFalls(s: State, i: Id)
    requires Inv(s) && Free(s, i) && s[i].inbox != [] && s[i].inbox[0] == Term
    ensures s[i].owner.Some? && s[i].owner.value < |s|
    ensures Falls(s, Started(s, i, s[i].inbox[1..]), i)
  {
    var box := s[i].inbox[1..];
    var t := Started(s, i, box);
    TermStarts(s, i);
    NoTimes(s[i].inbox, Term);
    assert ObjOk(s[i]) && NamesOk(s, i);
    StartedRecords(s, i, box);
    forall k | 0 <= k < |s|
      ensures RankAt(t, k) <= RankAt(s, k) && Work(t, k) <= Work(s, k) && (k == i ==> Work(t, k) < Work(s, k))
    {
      StartedWork(s, i, k);
    }
  }

  lemma StartedWork(s: State, i: Id, k: Id)
    requires Inv(s) && Free(s, i) && s[i].inbox != [] && s[i].inbox[0] == Term && k < |s|
    requires Starting(s, i, s[i].inbox[1..]) && s[i].owner.Some? && s[i].owner.value < |s|
    ensures RankAt(Started(s, i, s[i].inbox[1..]), k) <= RankAt(s, k)
    ensures Work(Started(s, i, s[i].inbox[1..]), k) <= Work(s, k)
    ensures k == i ==> Work(Started(s, i, s[i].inbox[1..]), k) < Work(s, k)
  {
    var box := s[i].inbox[1..];
    StartedRecords(s, i, box);
    MiscAppend(s[k].inbox, Term);
    assert LinkOk(s, k) && NamesOk(s, k) && NamesOk(s, i);
    if k == i {
      StartedSelf(s, i, box);
      NoTimes(s[i].inbox, Term);
    } else if s[k].owner.Some? {
      StartedView(s, i, box, k);
    }
  }

  lemma TermFalls(s: State, i: Id)
    requires Inv(s) && Known(s) && Free(s, i) && s[i].inbox != [] && s[i].inbox[0] == Term
    ensures NoneBack(s, Deliver(s, i)) && TotalWork(Deliver(s, i), |s|) < TotalWork(s, |s|)
  {
    var box := s[i].inbox[1..];
    TermStarts(s, i);
    StartedFalls(s, i);
    StartedKeeps(s, i, box);
    StartedRecords(s, i, box);
    ThenCheck(s, Started(s, i, box), i, i);
  }

  lemma DeliverFalls(s: State, i: Id)
    requires Inv(s) && Known(s) && Free(s, i) && s[i].inbox != []
    ensures NoneBack(s, Deliver(s, i)) && TotalWork(Deliver(s, i), |s|) < TotalWork(s, |s|)
  {
    assert ChildKnown(s, s[i].inbox[0]);
    match s[i].inbox[0] {
      case Plug => CountedFalls(s, i);
      case Counted => CountedFalls(s, i);
      case Own(c) => OwnFalls(s, i, c);
      case TermReq(c) => ReqFalls(s, i, c);
      case Term => TermFalls(s, i);
      case TermAck(c) => AckFalls(s, i, c);
    }
  }

  /* Runs in which commands are delivered and nothing else happens. */

  predicate OnlyDeliveries(es: seq<Event>)
  {
    forall k | 0 <= k < |es| :: es[k].Process?
  }

  // No launch is half done and no sequence number is taken ahead of its command.
  predicate Settled(s: State)
  {
    forall i | 0 <= i < |s| :: s[i].reserved == 0 && s[i].launching == None
  }

  predicate Exhausted(s: State)
  {
    forall i | 0 <= i < |s| :: !Enabled(s, Process(i))
  }

  // Delivering a command neither launches nor reserves.
  predicate SameCalls(s: State, t: State)
  {
    && |t| == |s|
    && forall j | 0 <= j < |s| :: t[j].reserved == s[j].reserved && t[j].launching == s[j].launching
  }

  lemma CheckCalls(s: State, i: Id)
    requires i < |s| && OwnerKnown(s, i)
    ensures SameCalls(s, CheckTermAcks(s, i))
  {
  }

  lemma MidCalls(s: State, mid: State, i: Id)
    requires SameCalls(s, mid) && i < |s| && OwnerKnown(mid, i)
    ensures SameCalls(s, CheckTermAcks(mid, i))
  {
    CheckCalls(mid, i);
  }

  lemma OwnCalls(s: State, i: Id, c: Id)
    requires Known(s) && Free(s, i) && s[i].inbox != [] && s[i].inbox[0] == Own(c) && c < |s| && c != i
    ensures SameCalls(s, Deliver(s, i))
  {
    DeliverOwnIs(s, i, c);
    assert SameCalls(s, TakeOwn(s, i, c));
    MidCalls(s, TakeOwn(s, i, c), i);
  }

  lemma ReqCalls(s: State, i: Id, c: Id)
    requires Known(s) && Free(s, i) && s[i].inbox != [] && s[i].inbox[0] == TermReq(c) && c < |s| && c != i
    ensures SameCalls(s, Deliver(s, i))
  {
    DeliverReqIs(s, i, c);
  }

  lemma TermCalls(s: State, i: Id)
    requires Inv(s) && Known(s) && Free(s, i) && s[i].inbox != [] && s[i].inbox[0] == Term
    ensures SameCalls(s, Deliver(s, i))
  {
    var box := s[i].inbox[1..];
    TermStarts(s, i);
    StartedRecords(s, i, box);
    assert OwnerKnown(s, i);
    MidCalls(s, Started(s, i, box), i);
  }

  lemma DeliverCalls(s: State, i: Id)
    requires Inv(s) && Known(s) && Free(s, i) && s[i].inbox != []
    ensures SameCalls(s, Deliver(s, i))
  {
    assert ChildKnown(s, s[i].inbox[0]);
    match s[i].inbox[0] {
      case Plug => DeliverCountedIs(s, i); MidCalls(s, PopCounted(s, i), i);
      case Counted => DeliverCountedIs(s, i); MidCalls(s, PopCounted(s, i), i);
      case Own(c) => HeadChild(s, i, c); OwnCalls(s, i, c);
      case TermReq(c) => HeadChild(s, i, c); ReqCalls(s, i, c);
      case Term => TermCalls(s, i);
      case TermAck(_) => DeliverAckIs(s, i); MidCalls(s, PopAck(s, i), i);
    }
  }

  lemma DeliveryStep(s: State, i: Id)
    requires Inv(s) && Known(s) && Enabled(s, Process(i))
    ensures var u := Next(s, Process(i));
            && Inv(u) && Known(u) && |u| == |s|
            && TotalWork(u, |u|) < TotalWork(s, |s|)
            && (Settled(s) ==> Settled(u))
  {
    DeliverFalls(s, i);
    DeliverCalls(s, i);
    StepKeeps(s, Process(i));
  }

  // However the deliveries are scheduled, there are only so many of them.
  lemma {:induction false} DeliveriesRunOut(s: State, es: seq<Event>, t: State)
    requires Inv(s) && Known(s) && Run(s, es, t) && OnlyDeliveries(es)
    ensures |t| == |s|
    ensures |es| + TotalWork(t, |t|) <= TotalWork(s, |s|)
    ensures Settled(s) ==> Settled(t)
    decreases |es|
  {
    if es != [] {
      var u := Next(s, es[0]);
      DeliveryStep(s, es[0].i);
      DeliveriesRunOut(u, es[1..], t);
    }
  }

  // And as long as a command waits, one can be delivered.
  lemma {:induction false} DeliveriesGoOn(s: State) returns (es: seq<Event>, t: State)
    requires Inv(s) && Known(s)
    ensures Run(s, es, t) && OnlyDeliveries(es) && Exhausted(t)
    decreases TotalWork(s, |s|)
  {
    if Exhausted(s) {
      es, t := [], s;
    } else {
      var i :| 0 <= i < |s| && Enabled(s, Process(i));
      DeliveryStep(s, i);
      var rest, last := DeliveriesGoOn(Next(s, Process(i)));
      es, t := [Process(i)] + rest, last;
      assert es[1..] == rest;
    }
  }

  lemma ExhaustedIsQuiet(s: State)
    requires Inv(s) && Settled(s) && Exhausted(s)
    ensures Quiet(s)
  {
    forall i | 0 <= i < |s| ensures s[i].inbox == [] && s[i].reserved == 0 && s[i].launching == None {
      assert ObjOk(s[i]);
      assert !Enabled(s, Process(i));
    }
  }

  // c is r or one of its descendants.
  predicate InTree(s: State, c: Id, r: Id)
    requires c < |s|
    decreases c
  {
    c == r || (s[c].owner.Some? && s[c].owner.value < c && InTree(s, s[c].owner.value, r))
  }

  lemma {:induction false} TreeGone(s: State, c: Id, r: Id)
    requires Inv(s) && c < |s| && r < |s| && InTree(s, c, r) && !s[r].alive
    ensures !s[c].alive
    decreases c
  {
    if c != r {
      TreeGone(s, s[c].owner.value, r);
      if s[c].alive {
        OwnerAlive(s, c);
      }
    }
  }

  lemma {:induction false} TerminatingStays(s: State, es: seq<Event>, t: State, r: Id)
    requires Inv(s) && Known(s) && Run(s, es, t) && r < |s| && s[r].terminating
    ensures r < |t| && t[r].terminating
    decreases |es|
  {
    if es != [] {
      StepKeeps(s, es[0]);
      StepFlags(s, es[0], r);
      TerminatingStays(Next(s, es[0]), es[1..], t, r);
    }
  }

  // Once r has started to terminate and nobody launches, reserves or asks any more, every way of
  // delivering the commands ends after at most TotalWork deliveries, with r and all below it destroyed.
  lemma ShutdownCompletes(s: State, es: seq<Event>, t: State, r: Id)
    requires Reachable(s) && Settled(s) && r < |s| && s[r].terminating
    requires Run(s, es, t) && OnlyDeliveries(es)
    ensures |es| <= TotalWork(s, |s|)
    ensures Exhausted(t) ==> forall c | 0 <= c < |t| && InTree(t, c, r) :: !t[c].alive
  {
    ReachableInv(s);
    RunKeeps(s, es, t);
    DeliveriesRunOut(s, es, t);
    if Exhausted(t) {
      ExhaustedIsQuiet(t);
      TerminatingStays(s, es, t, r);
      NoneStuck(t, r);
      forall c | 0 <= c < |t| && InTree(t, c, r) ensures !t[c].alive {
        TreeGone(t, c, r);
      }
    }
  }
}
