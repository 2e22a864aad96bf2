/** The steps in which objects appear, start to shut down, and go. */
module OwnershipEnds {
  import opened Bytes
  import opened Ownership
  import opened OwnershipInvariant
  import opened OwnershipSteps

  /* Going. */

  lemma {:induction false} NoneCounted(box: seq<Cmd>)
    requires NumCounted(box) == 0
    ensures forall k | 0 <= k < |box| :: !IsCounted(box[k])
  {
    if box != [] {
      NoneCounted(box[1..]);
      forall k | 0 < k < |box| ensures !IsCounted(box[k]) {
        assert box[k] == box[1..][k - 1];
      }
    }
  }

  lemma NoTimes(box: seq<Cmd>, x: Cmd)
    ensures Times(x, box) == 0 <==> x !in box
  {
  }

  // A child of an object that may go is gone itself, and its acknowledgement was seen.
  lemma ChildGone(s: State, i: Id, c: Id)
    requires InvBut(s, i) && i < |s| && s[i].alive && s[i].launching == None && MayGo(s[i])
    requires c < |s| && s[c].owner == Some(i)
    ensures !s[c].alive && Times(TermAck(c), s[i].inbox) == 0
  {
    assert ObjOk(s[i]) && CountOk(s, i) && LinkOk(s, c);
    NoneCounted(s[i].inbox);
    NoTimes(s[i].inbox, Own(c));
    assert Awaited(View(s[i], s[c], c)) <==> c in AwaitedBy(s, i);
  }

  // An object that may go has nothing left to read.
  lemma NothingLeft(s: State, i: Id)
    requires InvBut(s, i) && i < |s| && s[i].alive && s[i].launching == None && MayGo(s[i])
    ensures s[i].inbox == [] && s[i].reserved == 0 && s[i].owned == {}
  {
    assert ObjOk(s[i]) && LinkOk(s, i) && NamesOk(s, i);
    NoneCounted(s[i].inbox);
    if s[i].inbox != [] {
      var cmd := s[i].inbox[0];
      assert NamesIn(s, i, cmd);
      NoTimes(s[i].inbox, cmd);
      if cmd.TermAck? {
        ChildGone(s, i, cmd.from);
      } else if cmd.TermReq? {
        ChildGone(s, i, cmd.child);
        assert LinkOk(s, cmd.child);
        NoTimes(s[i].inbox, TermAck(cmd.child));
      }
    }
  }

  // What destroying i does to the table.
  function Gone(s: State, i: Id): State
    requires i < |s| && OwnerKnown(s, i)
  {
    var t := if s[i].owner.Some? then Send(s, s[i].owner.value, TermAck(i)) else s;
    t[i := t[i].(alive := false)]
  }

  ghost predicate Leaving(s: State, i: Id)
  {
    InvBut(s, i) && i < |s| && s[i].alive && s[i].launching == None && MayGo(s[i])
  }

  lemma GoneOthers(s: State, i: Id, p: Id)
    requires i < |s| && s[i].owner == Some(p) && p < i
    ensures SameViews(s, Gone(s, i), i)
    ensures Gone(s, i)[p].inbox == s[p].inbox + [TermAck(i)] && Gone(s, i)[i].inbox == s[i].inbox
  {
    var t := Gone(s, i);
    AppendFacts(s[p].inbox, TermAck(i));
    assert t[p] == s[p].(inbox := s[p].inbox + [TermAck(i)]);
    PairViews(s, t, i, p);
  }

  lemma GoneViews(s: State, i: Id, p: Id)
    requires Leaving(s, i) && s[i].owner == Some(p) && p < i
    ensures SameViews(s, Gone(s, i), i)
    ensures Gone(s, i)[p].inbox == s[p].inbox + [TermAck(i)]
    ensures PhaseOk(View(Gone(s, i)[p], Gone(s, i)[i], i))
    ensures Awaited(View(Gone(s, i)[p], Gone(s, i)[i], i)) && Awaited(View(s[p], s[i], i))
  {
    GoneOthers(s, i, p);
    AppendFacts(s[p].inbox, TermAck(i));
    assert LinkOk(s, i);
  }

  lemma GoneLinks(s: State, i: Id, p: Id)
    requires Leaving(s, i) && s[i].owner == Some(p) && p < i
    ensures forall j | 0 <= j < |s| :: LinkOk(Gone(s, i), j)
  {
    var t := Gone(s, i);
    GoneViews(s, i, p);
    forall j | 0 <= j < |s| ensures LinkOk(t, j) {
      assert LinkOk(s, j);
      if j == i {
        ReqDeath(s[p], i, t[p], t[i]);
      } else if s[j].owner == Some(p) {
        ReqAppend(s[p], s[j], j, TermAck(i), t[p]);
      }
    }
  }

  lemma OwnerStillThere(s: State, i: Id)
    requires InvBut(s, i) && i < |s| && s[i].alive && s[i].owner.Some?
    ensures s[i].owner.value < i && s[s[i].owner.value].alive
  {
    assert NamesOk(s, i) && LinkOk(s, i);
    var p := s[i].owner.value;
    assert ObjOk(s[p]) && CountOk(s, p);
    assert Awaited(View(s[p], s[i], i)) <==> i in AwaitedBy(s, p);
  }

  lemma GoneKeeps(s: State, i: Id)
    requires Leaving(s, i) && OwnerKnown(s, i)
    ensures Inv(Gone(s, i))
  {
    var t := Gone(s, i);
    NothingLeft(s, i);
    assert ObjOk(s[i]) && NamesOk(s, i);
    if s[i].owner.None? {
      assert forall j | 0 <= j < |s| && j != i :: t[j] == s[j];
      MoveViews(s, t, i);
      CountsKept(s, t, i, -1);
      forall j | 0 <= j < |s| ensures NamesOk(t, j) && ObjOk(t[j]) && LinkOk(t, j) {
        assert NamesOk(s, j) && ObjOk(s[j]) && LinkOk(s, j);
        NamesKept(s, t, j);
      }
    } else {
      GoneKeepsChild(s, i, s[i].owner.value);
    }
  }

  lemma GoneKeepsChild(s: State, i: Id, p: Id)
    requires Leaving(s, i) && s[i].owner == Some(p) && p < |s|
    requires s[i].inbox == [] && s[i].reserved == 0 && s[i].owned == {}
    ensures Inv(Gone(s, i))
  {
    var t := Gone(s, i);
    OwnerStillThere(s, i);
    AppendFacts(s[p].inbox, TermAck(i));
    GoneViews(s, i, p);
    GoneLinks(s, i, p);
    CountsKept(s, t, i, p);
    forall j | 0 <= j < |s| ensures NamesOk(t, j) && ObjOk(t[j]) {
      assert NamesOk(s, j) && ObjOk(s[j]);
      NamesKept(s, t, j);
    }
  }

  lemma CheckKeeps(s: State, i: Id)
    requires InvBut(s, i) && i < |s| && s[i].alive && s[i].launching == None && OwnerKnown(s, i)
    ensures Inv(CheckTermAcks(s, i))
    ensures s[i].alive && !CheckTermAcks(s, i)[i].alive ==> s[i].owned == {}
  {
    if MayGo(s[i]) {
      GoneKeeps(s, i);
      NothingLeft(s, i);
    }
  }

  /* Starting to shut down. */

  // The table after i started, its inbox being box by then.
  function Started(s: State, i: Id, box: seq<Cmd>): State
    requires i < |s|
  {
    StartTerm(s[i := s[i].(inbox := box)], i)
  }

  // Box is what i's inbox holds when it starts: all of it for a root, the rest behind `term` for a child.
  predicate Starting(s: State, i: Id, box: seq<Cmd>)
  {
    && Free(s, i) && !s[i].terminating
    && (if s[i].owner.None? then box == s[i].inbox
        else s[i].inbox != [] && s[i].inbox[0] == Term && box == s[i].inbox[1..])
  }

  lemma StartedRecords(s: State, i: Id, box: seq<Cmd>)
    requires Inv(s) && Starting(s, i, box)
    ensures |Started(s, i, box)| == |s|
    ensures Started(s, i, box)[i] ==
            s[i].(inbox := box, termAcks := s[i].termAcks + |s[i].owned|, owned := {}, terminating := true)
    ensures forall j | 0 <= j < |s| && j != i ::
              Started(s, i, box)[j] == if j in s[i].owned then s[j].(inbox := s[j].inbox + [Term]) else s[j]
  {
    assert NamesOk(s, i);
    forall c | c in s[i].owned ensures c > i {
      assert NamesOk(s, c);
    }
  }

  lemma BoxFacts(s: State, i: Id, box: seq<Cmd>)
    requires Starting(s, i, box)
    ensures forall x: Cmd :: x != Term ==> Times(x, box) == Times(x, s[i].inbox)
    ensures s[i].owner.Some? ==> Times(Term, box) == Times(Term, s[i].inbox) - 1
    ensures NumCounted(box) == NumCounted(s[i].inbox)
  {
    if s[i].owner.Some? {
      forall x ensures Times(x, s[i].inbox) == Times(x, box) + One(x == Term) {
        TimesPop(s[i].inbox, x);
      }
    }
  }

  lemma StartedTimes(s: State, i: Id, box: seq<Cmd>, j: Id, x: Cmd)
    requires Inv(s) && Starting(s, i, box) && j < |s|
    ensures x != Term ==> Times(x, Started(s, i, box)[j].inbox) == Times(x, s[j].inbox)
    ensures j != i ==> Times(Term, Started(s, i, box)[j].inbox) == Times(Term, s[j].inbox) + One(j in s[i].owned)
  {
    StartedRecords(s, i, box);
    BoxFacts(s, i, box);
    AppendFacts(s[j].inbox, Term);
  }

  // The children of i that were owned are asked now; every other pair but i's own stays as it was.
  lemma StartedView(s: State, i: Id, box: seq<Cmd>, c: Id)
    requires Inv(s) && Starting(s, i, box) && c < |s| && c != i && s[c].owner.Some? && s[c].owner.value < |s|
    ensures var p := s[c].owner.value;
            var t := Started(s, i, box);
            View(t[p], t[c], c) ==
              if c in s[i].owned then View(s[p], s[c], c).(owned := false, term := View(s[p], s[c], c).term + 1)
                                   else View(s[p], s[c], c)
  {
    var p := s[c].owner.value;
    StartedRecords(s, i, box);
    StartedTimes(s, i, box, p, Own(c));
    StartedTimes(s, i, box, p, TermAck(c));
    StartedTimes(s, i, box, c, Term);
    assert NamesOk(s, i);
    assert c in s[i].owned ==> p == i;
  }

  lemma StartedSelf(s: State, i: Id, box: seq<Cmd>)
    requires Inv(s) && Starting(s, i, box) && s[i].owner.Some? && s[i].owner.value < |s|
    ensures var p := s[i].owner.value;
            var t := Started(s, i, box);
            View(t[p], t[i], i) == View(s[p], s[i], i).(term := View(s[p], s[i], i).term - 1, going := true)
  {
    StartedRecords(s, i, box);
    BoxFacts(s, i, box);
    assert NamesOk(s, i);
    AppendFacts(s[s[i].owner.value].inbox, Term);
  }

  lemma StartedMoved(s: State, i: Id, box: seq<Cmd>, j: Id)
    requires Inv(s) && Starting(s, i, box) && j < |s|
    ensures Moved(s, s[j], Started(s, i, box)[j]) && Started(s, i, box)[j].alive == s[j].alive
    ensures Started(s, i, box)[j].owner == s[j].owner
  {
    StartedRecords(s, i, box);
    AppendFacts(s[j].inbox, Term);
  }

  lemma StartedPhase(s: State, i: Id, box: seq<Cmd>, j: Id)
    requires Inv(s) && Starting(s, i, box) && j < |s| && s[j].owner.Some? && s[j].owner.value < |s|
    ensures PhaseOk(View(Started(s, i, box)[s[j].owner.value], Started(s, i, box)[j], j))
  {
    assert LinkOk(s, j) && NamesOk(s, i);
    if j == i {
      StartedSelf(s, i, box);
    } else {
      StartedView(s, i, box, j);
    }
  }

  lemma StartedLinks(s: State, i: Id, box: seq<Cmd>)
    requires Inv(s) && Starting(s, i, box)
    ensures forall j | 0 <= j < |s| :: LinkOk(Started(s, i, box), j)
  {
    var t := Started(s, i, box);
    forall j | 0 <= j < |s| ensures LinkOk(t, j) {
      assert LinkOk(s, j);
      StartedMoved(s, i, box, j);
      if s[j].owner.Some? && s[j].owner.value < |s| {
        StartedPhase(s, i, box, j);
        StartedMoved(s, i, box, s[j].owner.value);
        ReqKept(s, s[s[j].owner.value], j, t[s[j].owner.value], t[j]);
      }
    }
  }

  lemma StartedCounts(s: State, i: Id, box: seq<Cmd>)
    requires Inv(s) && Starting(s, i, box)
    ensures forall p | 0 <= p < |s| :: CountOk(Started(s, i, box), p)
  {
    var t := Started(s, i, box);
    StartedRecords(s, i, box);
    forall p | 0 <= p < |s| ensures CountOk(t, p) {
      assert CountOk(s, p);
      StartedAwaited(s, i, box, p);
      if p == i {
        Disjoint(AwaitedBy(s, i), s[i].owned);
      }
    }
  }

  lemma StartedAwaitedOne(s: State, i: Id, box: seq<Cmd>, p: Id, c: Id)
    requires Inv(s) && Starting(s, i, box) && p < |s| && c < |s| && s[c].owner == Some(p)
    ensures var t := Started(s, i, box);
            Awaited(View(t[p], t[c], c)) == (Awaited(View(s[p], s[c], c)) || c in s[i].owned)
    ensures c in s[i].owned ==> p == i && !Awaited(View(s[p], s[c], c))
  {
    assert NamesOk(s, i) && LinkOk(s, c);
    if c == i {
      StartedSelf(s, i, box);
      NoTimes(s[i].inbox, Term);
    } else {
      StartedView(s, i, box, c);
    }
  }

  lemma StartedAwaited(s: State, i: Id, box: seq<Cmd>, p: Id)
    requires Inv(s) && Starting(s, i, box) && p < |s|
    ensures AwaitedBy(Started(s, i, box), p) == if p == i then AwaitedBy(s, i) + s[i].owned else AwaitedBy(s, p)
    ensures AwaitedBy(s, i) !! s[i].owned
  {
    var t := Started(s, i, box);
    StartedRecords(s, i, box);
    forall c | 0 <= c < |s| && s[c].owner == Some(p)
      ensures c in AwaitedBy(t, p) <==> c in AwaitedBy(s, p) || c in s[i].owned
      ensures c in s[i].owned ==> p == i
    {
      StartedAwaitedOne(s, i, box, p, c);
    }
    forall c | c in s[i].owned ensures c < |s| && s[c].owner == Some(i) && c !in AwaitedBy(s, i) {
      assert NamesOk(s, i);
      StartedAwaitedOne(s, i, box, i, c);
    }
  }

  lemma Disjoint(a: set<Id>, b: set<Id>)
    requires a !! b
    ensures |a + b| == |a| + |b|
  {
  }

  lemma StartedKeeps(s: State, i: Id, box: seq<Cmd>)
    requires Inv(s) && Starting(s, i, box)
    ensures InvBut(Started(s, i, box), i)
  {
    var t := Started(s, i, box);
    StartedRecords(s, i, box);
    BoxFacts(s, i, box);
    StartedLinks(s, i, box);
    StartedCounts(s, i, box);
    forall j | 0 <= j < |s| ensures NamesOk(t, j) && ObjOk(t[j]) {
      assert NamesOk(s, j) && ObjOk(s[j]);
      StartedRecord(s, i, box, j);
    }
  }

  lemma StartedOwned(s: State, i: Id, box: seq<Cmd>, j: Id)
    requires Inv(s) && Starting(s, i, box) && j in s[i].owned
    ensures j < |s| && ObjOk(Started(s, i, box)[j])
  {
    assert NamesOk(s, i) && LinkOk(s, j) && ObjOk(s[j]);
    StartedRecords(s, i, box);
    AppendFacts(s[j].inbox, Term);
  }

  lemma StartedStarter(s: State, i: Id, box: seq<Cmd>)
    requires Inv(s) && Starting(s, i, box)
    ensures ObjOk(Started(s, i, box)[i])
  {
    assert ObjOk(s[i]);
    StartedRecords(s, i, box);
    BoxFacts(s, i, box);
  }

  lemma StartedRecord(s: State, i: Id, box: seq<Cmd>, j: Id)
    requires Inv(s) && Starting(s, i, box) && j < |s|
    ensures NamesOk(Started(s, i, box), j) && ObjOk(Started(s, i, box)[j])
  {
    var t := Started(s, i, box);
    StartedRecords(s, i, box);
    assert NamesOk(s, j) && ObjOk(s[j]);
    if j == i {
      StartedStarter(s, i, box);
    } else if j in s[i].owned {
      StartedOwned(s, i, box, j);
    }
    forall k | 0 <= k < |t[j].inbox| ensures t[j].inbox[k] in s[j].inbox || t[j].inbox[k] == Term {
      AppendFacts(s[j].inbox, Term);
    }
    NamesKept(s, t, j);
  }

  /* Appearing. */

  predicate MayBear(s: State, owner: Option<Id>)
  {
    owner.Some? ==> Free(s, owner.value)
  }

  // Nothing names an object that does not exist yet.
  lemma Unnamed(s: State, p: Id)
    requires Inv(s) && p < |s|
    ensures |s| !in s[p].owned
    ensures Times(Own(|s|), s[p].inbox) == 0 && Times(TermAck(|s|), s[p].inbox) == 0
    ensures forall k | 0 <= k < |s[p].inbox| :: s[p].inbox[k] != TermReq(|s|)
  {
    assert NamesOk(s, p);
    NoTimes(s[p].inbox, Own(|s|));
    NoTimes(s[p].inbox, TermAck(|s|));
    forall k | 0 <= k < |s[p].inbox|
      ensures s[p].inbox[k] != TermReq(|s|) && s[p].inbox[k] != Own(|s|) && s[p].inbox[k] != TermAck(|s|)
    {
      assert NamesIn(s, p, s[p].inbox[k]);
    }
  }

  lemma BornRecords(s: State, owner: Option<Id>)
    requires MayBear(s, owner)
    ensures |Born(s, owner)| == |s| + 1
    ensures Born(s, owner)[|s|] == Newborn(owner)
    ensures forall j | 0 <= j < |s| ::
              Born(s, owner)[j] == if owner == Some(j) then s[j].(launching := Some(|s|)) else s[j]
  {
  }

  lemma BornLink(s: State, owner: Option<Id>, j: Id)
    requires Inv(s) && MayBear(s, owner) && j < |s| && s[j].owner.Some? && s[j].owner.value < |s|
    ensures var p := s[j].owner.value;
            View(Born(s, owner)[p], Born(s, owner)[j], j) == View(s[p], s[j], j)
    ensures LinkOk(Born(s, owner), j)
  {
    BornRecords(s, owner);
    assert LinkOk(s, j);
  }

  lemma BornNewLink(s: State, p: Id)
    requires Inv(s) && Free(s, p)
    ensures var t := Born(s, Some(p));
            var l := View(t[p], t[|s|], |s|);
            PhaseOk(l) && !Awaited(l) && ReqOk(t[p], t[|s|], |s|)
  {
    BornRecords(s, Some(p));
    Unnamed(s, p);
  }

  lemma BornLinks(s: State, owner: Option<Id>)
    requires Inv(s) && MayBear(s, owner)
    ensures SameViews(s, Born(s, owner), -1)
    ensures forall j | 0 <= j <= |s| :: LinkOk(Born(s, owner), j)
    ensures owner.Some? ==> !Awaited(View(Born(s, owner)[owner.value], Born(s, owner)[|s|], |s|))
  {
    var t := Born(s, owner);
    BornRecords(s, owner);
    forall j | 0 <= j < |s| && s[j].owner.Some? && s[j].owner.value < |s|
      ensures View(t[s[j].owner.value], t[j], j) == View(s[s[j].owner.value], s[j], j) && LinkOk(t, j)
    {
      BornLink(s, owner, j);
    }
    forall j | 0 <= j < |s| ensures s[j].owner.Some? ==> s[j].owner.value < |s| {
      assert NamesOk(s, j);
    }
    if owner.Some? {
      BornNewLink(s, owner.value);
    }
  }

  lemma BornOldCount(s: State, owner: Option<Id>, p: Id)
    requires Inv(s) && MayBear(s, owner) && p < |s|
    ensures CountOk(Born(s, owner), p)
  {
    var t := Born(s, owner);
    BornLinks(s, owner);
    assert CountOk(s, p);
    forall c | 0 <= c < |s| && s[c].owner == Some(p) ensures View(t[p], t[c], c) == View(s[p], s[c], c) {
      assert t[c].owner == s[c].owner;
    }
    assert AwaitedBy(t, p) == AwaitedBy(s, p);
  }

  lemma BornCounts(s: State, owner: Option<Id>)
    requires Inv(s) && MayBear(s, owner)
    ensures forall p | 0 <= p <= |s| :: CountOk(Born(s, owner), p)
  {
    var t := Born(s, owner);
    forall p | 0 <= p < |s| ensures CountOk(t, p) {
      BornOldCount(s, owner, p);
    }
    forall c | 0 <= c < |t| ensures t[c].owner != Some(|s|) {
      if c < |s| {
        assert NamesOk(s, c) && t[c].owner == s[c].owner;
      }
    }
    assert AwaitedBy(t, |s|) == {};
  }

  lemma BornOldRecord(s: State, owner: Option<Id>, j: Id)
    requires Inv(s) && MayBear(s, owner) && j < |s|
    ensures NamesOk(Born(s, owner), j) && ObjOk(Born(s, owner)[j])
    ensures Born(s, owner)[j].alive ==> !MayGo(Born(s, owner)[j])
  {
    BornRecords(s, owner);
    assert NamesOk(s, j) && ObjOk(s[j]);
    NamesKept(s, Born(s, owner), j);
  }

  lemma NewbornOk(owner: Option<Id>)
    ensures ObjOk(Newborn(owner)) && !MayGo(Newborn(owner))
  {
    var o := Newborn(owner);
    NoTimes(o.inbox, Term);
    if o.inbox != [] {
      assert NumCounted(o.inbox) == 1 + NumCounted(o.inbox[1..]);
    }
  }

  lemma BornNewRecord(s: State, owner: Option<Id>)
    requires MayBear(s, owner)
    ensures var t := Born(s, owner);
            |t| == |s| + 1 && NamesOk(t, |s|) && ObjOk(t[|s|]) && !MayGo(t[|s|])
  {
    BornRecords(s, owner);
    NewbornOk(owner);
  }

  lemma BornKeeps(s: State, owner: Option<Id>)
    requires Inv(s) && MayBear(s, owner)
    ensures Inv(Born(s, owner))
  {
    BornNames(s, owner);
    BornLinks(s, owner);
    BornCounts(s, owner);
  }

  lemma BornNames(s: State, owner: Option<Id>)
    requires Inv(s) && MayBear(s, owner)
    ensures var t := Born(s, owner);
            && |t| == |s| + 1
            && (forall j | 0 <= j < |t| :: NamesOk(t, j) && ObjOk(t[j]))
            && WaitOk(t, -1)
  {
    var t := Born(s, owner);
    BornNewRecord(s, owner);
    forall j | 0 <= j < |t| ensures NamesOk(t, j) && ObjOk(t[j]) && (t[j].alive ==> !MayGo(t[j])) {
      if j < |s| {
        BornOldRecord(s, owner, j);
      } else {
        assert j == |s|;
      }
    }
  }
}
