/** Each step of the ownership protocol keeps the invariant. */
module OwnershipSteps {
  import opened Bytes
  import opened Ownership
  import opened OwnershipInvariant

  // Names stay good when records keep their owners and nobody new is named.
  lemma NamesKept(s: State, t: State, i: Id)
    requires i < |s| && |s| <= |t|
    requires forall c | 0 <= c < |s| :: t[c].owner == s[c].owner
    requires NamesOk(s, i)
    requires t[i].launching.Some? ==> ChildOf(t, t[i].launching.value, i)
    requires forall c | c in t[i].owned :: ChildOf(s, c, i)
    requires forall k | 0 <= k < |t[i].inbox| :: t[i].inbox[k] in s[i].inbox || NamesIn(t, i, t[i].inbox[k])
    ensures NamesOk(t, i)
  {
    forall k | 0 <= k < |t[i].inbox| ensures NamesIn(t, i, t[i].inbox[k]) {
      if t[i].inbox[k] in s[i].inbox {
        var j :| 0 <= j < |s[i].inbox| && s[i].inbox[j] == t[i].inbox[k];
        assert NamesIn(s, i, s[i].inbox[j]);
      }
    }
  }

  // The command at the head of i's inbox is taken out and counted.
  function PopCounted(s: State, i: Id): State
    requires i < |s| && s[i].inbox != []
  {
    s[i := s[i].(inbox := s[i].inbox[1..], processed := s[i].processed + 1)]
  }

  lemma PopSaysSame(s: State, i: Id)
    requires i < |s| && s[i].inbox != [] && (s[i].inbox[0].Plug? || s[i].inbox[0].Counted? || s[i].inbox[0].TermReq?)
    ensures forall x: Cmd :: x.Own? || x.Term? || x.TermAck? ==> Times(x, s[i].inbox[1..]) == Times(x, s[i].inbox)
  {
    forall x: Cmd | x.Own? || x.Term? || x.TermAck? ensures Times(x, s[i].inbox[1..]) == Times(x, s[i].inbox) {
      TimesPop(s[i].inbox, x);
    }
  }

  // Steps that move no child to another place.
  lemma QuietKeeps(s: State, t: State, but: int)
    requires Inv(s) && |t| == |s| && WaitOk(t, but)
    requires forall j | 0 <= j < |s| :: SaysSame(s[j], t[j]) && Moved(s, s[j], t[j]) && t[j].termAcks == s[j].termAcks
    requires forall j | 0 <= j < |s| :: NamesOk(t, j) && ObjOk(t[j])
    ensures InvBut(t, but)
  {
    QuietViews(s, t);
    CountsKept(s, t, -1, -1);
    LinksKept(s, t, -1);
  }

  /* The tables after the steps, before check_term_acks looks at them. */

  function PopReq(s: State, i: Id): State
    requires i < |s| && s[i].inbox != []
  {
    s[i := s[i].(inbox := s[i].inbox[1..])]
  }

  function PopAck(s: State, i: Id): State
    requires i < |s| && s[i].inbox != []
  {
    s[i := s[i].(inbox := s[i].inbox[1..], termAcks := s[i].termAcks - 1)]
  }

  function PopOwn(s: State, i: Id, c: Id): State
    requires i < |s| && s[i].inbox != []
  {
    s[i := s[i].(inbox := s[i].inbox[1..], processed := s[i].processed + 1, owned := s[i].owned + {c})]
  }

  function PassOn(s: State, i: Id, c: Id): State
    requires i < |s| && s[i].inbox != [] && c < |s|
  {
    Send(s[i := s[i].(inbox := s[i].inbox[1..], processed := s[i].processed + 1, termAcks := s[i].termAcks + 1)],
         c, Term)
  }

  function AcceptReq(s: State, i: Id, c: Id): State
    requires i < |s| && s[i].inbox != [] && c < |s|
  {
    Send(s[i := s[i].(inbox := s[i].inbox[1..], owned := s[i].owned - {c}, termAcks := s[i].termAcks + 1)], c, Term)
  }

  lemma PopCountedKeeps(s: State, i: Id)
    requires Inv(s) && Free(s, i) && s[i].inbox != []
    requires s[i].inbox[0].Plug? || s[i].inbox[0].Counted?
    ensures InvBut(PopCounted(s, i), i)
    ensures forall j | 0 <= j < |s| :: SaysSame(s[j], PopCounted(s, i)[j])
  {
    var t := PopCounted(s, i);
    PopSaysSame(s, i);
    forall j | 0 <= j < |t| ensures NamesOk(t, j) && ObjOk(t[j]) {
      assert NamesOk(s, j) && ObjOk(s[j]);
      NamesKept(s, t, j);
    }
    QuietKeeps(s, t, i);
  }

  // A request that comes too late.
  lemma IgnoreReqKeeps(s: State, i: Id)
    requires Inv(s) && Free(s, i) && s[i].inbox != [] && s[i].inbox[0].TermReq?
    ensures Inv(PopReq(s, i))
    ensures forall j | 0 <= j < |s| :: SaysSame(s[j], PopReq(s, i)[j])
  {
    var t := PopReq(s, i);
    PopSaysSame(s, i);
    forall j | 0 <= j < |t| ensures NamesOk(t, j) && ObjOk(t[j]) {
      assert NamesOk(s, j) && ObjOk(s[j]);
      NamesKept(s, t, j);
    }
    QuietKeeps(s, t, -1);
  }

  lemma ReserveKeeps(s: State, i: Id)
    requires Inv(s) && i < |s| && s[i].alive
    ensures Inv(s[i := s[i].(sent := s[i].sent + 1, reserved := s[i].reserved + 1)])
  {
    var t := s[i := s[i].(sent := s[i].sent + 1, reserved := s[i].reserved + 1)];
    forall j | 0 <= j < |t| ensures NamesOk(t, j) && ObjOk(t[j]) {
      assert NamesOk(s, j) && ObjOk(s[j]);
      NamesKept(s, t, j);
    }
    QuietKeeps(s, t, -1);
  }

  lemma RedeemKeeps(s: State, i: Id)
    requires Inv(s) && i < |s| && s[i].reserved > 0
    ensures Inv(Send(s[i := s[i].(reserved := s[i].reserved - 1)], i, Counted))
  {
    var t := Send(s[i := s[i].(reserved := s[i].reserved - 1)], i, Counted);
    AppendFacts(s[i].inbox, Counted);
    forall j | 0 <= j < |t| ensures NamesOk(t, j) && ObjOk(t[j]) {
      assert NamesOk(s, j) && ObjOk(s[j]);
      NamesKept(s, t, j);
    }
    QuietKeeps(s, t, -1);
  }

  ghost predicate MayRequest(s: State, i: Id)
  {
    Free(s, i) && s[i].owner.Some? && s[i].owner.value < |s| && !s[i].terminating
  }

  lemma RequestNames(s: State, i: Id)
    requires Inv(s) && MayRequest(s, i)
    ensures var t := Send(s, s[i].owner.value, TermReq(i));
            forall j | 0 <= j < |t| :: NamesOk(t, j) && ObjOk(t[j])
  {
    var p := s[i].owner.value;
    var t := Send(s, p, TermReq(i));
    AppendFacts(s[p].inbox, TermReq(i));
    OwnerAlive(s, i);
    forall j | 0 <= j < |t| ensures NamesOk(t, j) && ObjOk(t[j]) {
      assert NamesOk(s, j) && ObjOk(s[j]);
      NamesKept(s, t, j);
    }
  }

  lemma RequestKeeps(s: State, i: Id)
    requires Inv(s) && MayRequest(s, i)
    ensures Inv(Send(s, s[i].owner.value, TermReq(i)))
  {
    var p := s[i].owner.value;
    AppendFacts(s[p].inbox, TermReq(i));
    RequestNames(s, i);
    QuietKeeps(s, Send(s, p, TermReq(i)), -1);
  }

  // The owner of a living object lives.
  lemma OwnerAlive(s: State, i: Id)
    requires Inv(s) && i < |s| && s[i].alive && s[i].owner.Some?
    ensures s[i].owner.value < |s| && s[s[i].owner.value].alive
  {
    assert NamesOk(s, i) && LinkOk(s, i);
    var p := s[i].owner.value;
    assert ObjOk(s[p]) && CountOk(s, p);
    assert Awaited(View(s[p], s[i], i)) <==> i in AwaitedBy(s, p);
  }

  /* Steps in which child c of p moves to its next place. */

  // Only the records of c and its owner p differ, and what they say differs about c alone.
  ghost predicate MovesOnly(s: State, t: State, c: Id, p: Id)
  {
    && |t| == |s| && c < |s| && p < |s| && s[c].owner == Some(p) && c != p
    && (forall j | 0 <= j < |s| && j != c && j != p :: t[j] == s[j])
    && t[p].owner == s[p].owner && t[c].owner == s[c].owner && t[c].alive == s[c].alive
    && OwnerSame(s[p], t[p], c) && OwnerSame(s[c], t[c], c) && ChildSame(s[p], t[p])
    && Moved(s, s[p], t[p]) && Moved(s, s[c], t[c])
  }

  lemma MoveKeeps(s: State, t: State, c: Id, p: Id, but: int)
    requires Inv(s) && WaitOk(t, but)
    requires MovesOnly(s, t, c, p)
    requires PhaseOk(View(t[p], t[c], c))
    requires t[c].termAcks == s[c].termAcks
    requires t[p].termAcks - One(Awaited(View(t[p], t[c], c))) == s[p].termAcks - One(Awaited(View(s[p], s[c], c)))
    requires NamesOk(t, p) && ObjOk(t[p]) && NamesOk(t, c) && ObjOk(t[c])
    ensures InvBut(t, but)
  {
    PairViews(s, t, c, p);
    CountsKept(s, t, c, p);
    LinksKept(s, t, c);
    assert LinkOk(s, c);
    ReqKept(s, s[p], c, t[p], t[c]);
    forall j | 0 <= j < |t| && j != c && j != p ensures NamesOk(t, j) && ObjOk(t[j]) {
      assert NamesOk(s, j) && ObjOk(s[j]);
      NamesKept(s, t, j);
    }
  }

  // The facts about taking `own` or `term_ack` for child c out of an inbox.
  lemma PopChild(box: seq<Cmd>, c: Id)
    requires box != [] && (box[0] == Own(c) || box[0] == TermAck(c))
    ensures forall x :: Times(x, box[1..]) == Times(x, box) - One(x == box[0])
  {
    forall x ensures Times(x, box[1..]) == Times(x, box) - One(x == box[0]) {
      TimesPop(box, x);
    }
  }

  // A child is asked to terminate.
  lemma AskedChild(s: State, t: State, c: Id)
    requires Inv(s) && |t| == |s| && c < |s| && s[c].alive && s[c].owner.Some?
    requires forall j | 0 <= j < |s| :: t[j].owner == s[j].owner
    requires t[c] == s[c].(inbox := s[c].inbox + [Term])
    ensures NamesOk(t, c) && ObjOk(t[c])
    ensures OwnerSame(s[c], t[c], c) && Moved(s, s[c], t[c])
    ensures Times(Term, t[c].inbox) == Times(Term, s[c].inbox) + 1
  {
    AppendFacts(s[c].inbox, Term);
    assert NamesOk(s, c) && ObjOk(s[c]);
    NamesKept(s, t, c);
  }

  lemma AckNames(s: State, i: Id, c: Id)
    requires Inv(s) && Free(s, i) && s[i].inbox != [] && s[i].inbox[0] == TermAck(c)
    ensures s[i].termAcks > 0 && c < |s| && c != i && LinkOk(s, c)
    ensures var t := PopAck(s, i); NamesOk(t, i) && ObjOk(t[i]) && NamesOk(t, c) && ObjOk(t[c])
  {
    var t := PopAck(s, i);
    PopChild(s[i].inbox, c);
    assert NamesIn(s, i, s[i].inbox[0]) by { assert NamesOk(s, i); }
    assert LinkOk(s, c) && CountOk(s, i);
    assert c in AwaitedBy(s, i);
    assert NamesOk(s, i) && ObjOk(s[i]) && NamesOk(s, c) && ObjOk(s[c]);
    NamesKept(s, t, i);
    NamesKept(s, t, c);
  }

  lemma AckKeeps(s: State, i: Id, c: Id)
    requires Inv(s) && Free(s, i) && s[i].inbox != [] && s[i].inbox[0] == TermAck(c)
    ensures s[i].termAcks > 0
    ensures InvBut(PopAck(s, i), i)
    ensures MovesOnly(s, PopAck(s, i), c, i)
  {
    AckNames(s, i, c);
    PopChild(s[i].inbox, c);
    assert NamesIn(s, i, s[i].inbox[0]) by { assert NamesOk(s, i); }
    MoveKeeps(s, PopAck(s, i), c, i, i);
  }

  lemma OwnKeeps(s: State, i: Id, c: Id)
    requires Inv(s) && Free(s, i) && s[i].inbox != [] && s[i].inbox[0] == Own(c) && !s[i].terminating
    ensures InvBut(PopOwn(s, i, c), i)
    ensures MovesOnly(s, PopOwn(s, i, c), c, i)
  {
    var t := PopOwn(s, i, c);
    PopChild(s[i].inbox, c);
    assert NamesIn(s, i, s[i].inbox[0]) by { assert NamesOk(s, i); }
    assert LinkOk(s, c);
    assert NamesOk(s, i) && ObjOk(s[i]) && NamesOk(s, c) && ObjOk(s[c]);
    NamesKept(s, t, i);
    NamesKept(s, t, c);
    MoveKeeps(s, t, c, i, i);
  }

  // What the owner's record says after it took a command about child c out of its inbox.
  ghost predicate OwnerSide(s: State, t: State, i: Id, c: Id)
    requires i < |s| && i < |t|
  {
    && NamesOk(t, i) && ObjOk(t[i])
    && OwnerSame(s[i], t[i], c) && ChildSame(s[i], t[i]) && Moved(s, s[i], t[i])
  }

  // An object that is shutting down passes the termination on.
  lemma OwnLateKeeps(s: State, i: Id, c: Id)
    requires Inv(s) && Free(s, i) && s[i].inbox != [] && s[i].inbox[0] == Own(c) && s[i].terminating
    requires c < |s|
    ensures InvBut(PassOn(s, i, c), i)
    ensures MovesOnly(s, PassOn(s, i, c), c, i)
  {
    var t := PassOn(s, i, c);
    HeadChild(s, i, c);
    assert t[i] == s[i].(inbox := s[i].inbox[1..], processed := s[i].processed + 1, termAcks := s[i].termAcks + 1);
    PopChild(s[i].inbox, c);
    assert OwnerSide(s, t, i, c) by {
      assert NamesOk(s, i) && ObjOk(s[i]);
      NamesKept(s, t, i);
    }
    assert LinkOk(s, c);
    AskedChild(s, t, c);
    MoveKeeps(s, t, c, i, i);
  }

  lemma HeadChild(s: State, i: Id, c: Id)
    requires Inv(s) && i < |s| && s[i].inbox != []
    requires s[i].inbox[0] == Own(c) || s[i].inbox[0] == TermReq(c) || s[i].inbox[0] == TermAck(c)
    ensures ChildOf(s, c, i) && c > i
  {
    assert NamesOk(s, i);
    assert NamesIn(s, i, s[i].inbox[0]);
    assert NamesOk(s, c);
  }

  lemma AcceptReqOwner(s: State, i: Id, c: Id)
    requires Inv(s) && Free(s, i) && s[i].inbox != [] && s[i].inbox[0] == TermReq(c)
    requires !s[i].terminating && ChildOf(s, c, i) && c > i
    ensures OwnerSide(s, AcceptReq(s, i, c), i, c)
  {
    var t := AcceptReq(s, i, c);
    assert t[i] == s[i].(inbox := s[i].inbox[1..], owned := s[i].owned - {c}, termAcks := s[i].termAcks + 1);
    PopSaysSame(s, i);
    assert NamesOk(s, i) && ObjOk(s[i]);
    NamesKept(s, t, i);
  }

  lemma AcceptReqKeeps(s: State, i: Id, c: Id)
    requires Inv(s) && Free(s, i) && s[i].inbox != [] && s[i].inbox[0] == TermReq(c)
    requires !s[i].terminating && c in s[i].owned && c < |s|
    ensures Inv(AcceptReq(s, i, c))
    ensures MovesOnly(s, AcceptReq(s, i, c), c, i)
  {
    var t := AcceptReq(s, i, c);
    HeadChild(s, i, c);
    AcceptReqOwner(s, i, c);
    assert t[i] == s[i].(inbox := s[i].inbox[1..], owned := s[i].owned - {c}, termAcks := s[i].termAcks + 1);
    PopSaysSame(s, i);
    assert LinkOk(s, c);
    AskedChild(s, t, c);
    MoveKeeps(s, t, c, i, -1);
  }

  lemma TermChildKeeps(s: State, i: Id, c: Id)
    requires Inv(s) && Free(s, i) && c < |s|
    ensures Inv(ProcessTermReq(s, i, c))
  {
    if !s[i].terminating && c in s[i].owned {
      var t := ProcessTermReq(s, i, c);
      OwnedChild(s, i, c);
      TermChildOwner(s, i, c);
      AskedChild(s, t, c);
      assert View(t[i], t[c], c) == View(s[i], s[c], c).(owned := false, term := 1);
      MoveKeeps(s, t, c, i, -1);
    }
  }

  lemma OwnedChild(s: State, i: Id, c: Id)
    requires Inv(s) && i < |s| && c in s[i].owned
    ensures ChildOf(s, c, i) && c > i && s[c].alive
    ensures View(s[i], s[c], c) == Link(false, 0, true, 0, false, 0, true)
  {
    assert NamesOk(s, i);
    assert NamesOk(s, c) && LinkOk(s, c);
  }

  lemma TermChildOwner(s: State, i: Id, c: Id)
    requires Inv(s) && Free(s, i) && !s[i].terminating && ChildOf(s, c, i) && c > i && c in s[i].owned
    ensures OwnerSide(s, ProcessTermReq(s, i, c), i, c)
  {
    var t := ProcessTermReq(s, i, c);
    assert t[i] == s[i].(owned := s[i].owned - {c}, termAcks := s[i].termAcks + 1);
    assert NamesOk(s, i) && ObjOk(s[i]);
    NamesKept(s, t, i);
  }

  lemma LaunchOwnKeeps(s: State, p: Id, c: Id)
    requires Inv(s) && p < |s| && s[p].launching == Some(c)
    ensures Inv(Send(s[p := s[p].(launching := None, sent := s[p].sent + 1)], p, Own(c)))
  {
    var t := Send(s[p := s[p].(launching := None, sent := s[p].sent + 1)], p, Own(c));
    AppendFacts(s[p].inbox, Own(c));
    assert NamesOk(s, p) && LinkOk(s, c) && ObjOk(s[p]);
    assert NamesOk(s, p) && ObjOk(s[p]) && NamesOk(s, c) && ObjOk(s[c]);
    NamesKept(s, t, p);
    NamesKept(s, t, c);
    MoveKeeps(s, t, c, p, -1);
  }
}
