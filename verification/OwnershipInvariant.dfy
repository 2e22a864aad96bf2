/** What every step of the ownership protocol keeps. */
module OwnershipInvariant {
  import opened Bytes
  import opened Ownership

  predicate IsCounted(cmd: Cmd)
  {
    cmd.Plug? || cmd.Own? || cmd.Counted?
  }

  // How many commands of an inbox take part in the sequence numbers.
  ghost function NumCounted(box: seq<Cmd>): nat
  {
    if box == [] then 0 else (if IsCounted(box[0]) then 1 else 0) + NumCounted(box[1..])
  }

  ghost function Times(cmd: Cmd, box: seq<Cmd>): nat
  {
    multiset(box)[cmd]
  }

  predicate ChildOf(s: State, c: Id, p: Id)
  {
    c < |s| && s[c].owner == Some(p)
  }

  /* Who may be named where. */

  predicate NamesIn(s: State, p: Id, cmd: Cmd)
  {
    match cmd
    case Own(c) => ChildOf(s, c, p)
    case TermReq(c) => ChildOf(s, c, p)
    case TermAck(c) => ChildOf(s, c, p)
    case _ => true
  }

  ghost predicate NamesOk(s: State, p: Id)
    requires p < |s|
  {
    && (s[p].owner.Some? ==> s[p].owner.value < p)
    && (s[p].launching.Some? ==> ChildOf(s, s[p].launching.value, p))
    && (forall c | c in s[p].owned :: ChildOf(s, c, p))
    && (forall k | 0 <= k < |s[p].inbox| :: NamesIn(s, p, s[p].inbox[k]))
  }

  /* Sequence numbers: sent minus processed is what is still on its way. */

  ghost predicate SeqOk(o: Obj)
  {
    o.sent == o.processed + NumCounted(o.inbox) + o.reserved
  }

  /* Where a child stands with its owner: all that the two records say about the pair. */

  datatype Link = Link(launching: bool, own: nat, owned: bool, term: nat, going: bool, ack: nat, alive: bool)

  ghost function View(p: Obj, c: Obj, id: Id): Link
  {
    Link(p.launching == Some(id), Times(Own(id), p.inbox), id in p.owned, Times(Term, c.inbox),
         c.alive && c.terminating, Times(TermAck(id), p.inbox), c.alive)
  }

  function One(b: bool): nat { if b then 1 else 0 }

  // A child is in exactly one place: launching, own in flight, owned, term in flight, terminating,
  // acknowledgement in flight, or gone.
  predicate PhaseOk(l: Link)
  {
    && One(l.launching) + l.own + One(l.owned) + l.term + One(l.going) + l.ack + One(!l.alive && l.ack == 0) == 1
    && (l.ack > 0 ==> !l.alive)
    && (l.going ==> l.alive)
  }

  // Asked to terminate and not yet known to have done so.
  predicate Awaited(l: Link)
  {
    l.term > 0 || l.going || l.ack > 0
  }

  ghost function AwaitedBy(s: State, p: Id): set<Id>
    requires p < |s|
  {
    set c | 0 <= c < |s| && s[c].owner == Some(p) && Awaited(View(s[p], s[c], c))
  }

  // A termination request is never behind the acknowledgement that ends the child.
  ghost predicate ReqOk(p: Obj, c: Obj, id: Id)
  {
    forall k | 0 <= k < |p.inbox| && p.inbox[k] == TermReq(id) ::
      c.alive || exists m :: k < m < |p.inbox| && p.inbox[m] == TermAck(id)
  }

  ghost predicate DeadOk(o: Obj)
  {
    !o.alive ==>
      o.terminating && o.termAcks == 0 && o.inbox == [] && o.reserved == 0 && o.launching == None && o.owned == {}
  }

  ghost predicate ObjOk(o: Obj)
  {
    && SeqOk(o)
    && DeadOk(o)
    && (o.terminating ==> o.owned == {})
    && (o.owner == None ==> Times(Term, o.inbox) == 0)
  }

  ghost predicate LinkOk(s: State, c: Id)
    requires c < |s|
  {
    s[c].owner.Some? && s[c].owner.value < |s| ==>
      PhaseOk(View(s[s[c].owner.value], s[c], c)) && ReqOk(s[s[c].owner.value], s[c], c)
  }

  ghost predicate CountOk(s: State, p: Id)
    requires p < |s|
  {
    s[p].termAcks == |AwaitedBy(s, p)|
  }

  // A terminating object still waits for something; the object `but` not looked at.
  ghost predicate WaitOk(s: State, but: int)
  {
    forall i {:trigger s[i].alive} {:trigger MayGo(s[i])} | 0 <= i < |s| && i != but :: s[i].alive ==> !MayGo(s[i])
  }

  ghost predicate InvBut(s: State, but: int)
  {
    && (forall i | 0 <= i < |s| :: NamesOk(s, i))
    && (forall i {:trigger ObjOk(s[i])} | 0 <= i < |s| :: ObjOk(s[i]))
    && (forall i | 0 <= i < |s| :: LinkOk(s, i))
    && (forall i | 0 <= i < |s| :: CountOk(s, i))
    && WaitOk(s, but)
  }

  ghost predicate Inv(s: State)
  {
    InvBut(s, -1)
  }

  lemma InvKnown(s: State, but: int)
    requires InvBut(s, but)
    ensures Known(s)
  {
    forall i, k | 0 <= i < |s| && 0 <= k < |s[i].inbox| ensures ChildKnown(s, s[i].inbox[k]) {
      assert NamesOk(s, i);
      assert NamesIn(s, i, s[i].inbox[k]);
    }
    forall i | 0 <= i < |s| ensures OwnerKnown(s, i) && (s[i].launching.Some? ==> s[i].launching.value < |s|) {
      assert NamesOk(s, i);
    }
  }

  lemma {:induction false} NumAppend(box: seq<Cmd>, cmd: Cmd)
    ensures NumCounted(box + [cmd]) == NumCounted(box) + One(IsCounted(cmd))
  {
    if box != [] {
      assert (box + [cmd])[1..] == box[1..] + [cmd];
      NumAppend(box[1..], cmd);
    }
  }

  lemma AppendFacts(box: seq<Cmd>, cmd: Cmd)
    ensures (box + [cmd])[..|box|] == box
    ensures forall k | 0 <= k < |box + [cmd]| :: (box + [cmd])[k] in box || (box + [cmd])[k] == cmd
    ensures forall x :: Times(x, box + [cmd]) == Times(x, box) + One(x == cmd)
    ensures NumCounted(box + [cmd]) == NumCounted(box) + One(IsCounted(cmd))
  {
    NumAppend(box, cmd);
  }

  lemma TimesPop(box: seq<Cmd>, x: Cmd)
    requires box != []
    ensures Times(x, box) == Times(x, box[1..]) + One(x == box[0])
  {
    assert box == [box[0]] + box[1..];
  }

  /* Two tables that differ in the place of one child at most. */

  ghost predicate SameViews(s: State, t: State, but: int)
  {
    && |s| <= |t|
    && (forall c | 0 <= c < |s| :: t[c].owner == s[c].owner)
    && (forall c | 0 <= c < |s| && c != but && s[c].owner.Some? && s[c].owner.value < |s| ::
          View(t[s[c].owner.value], t[c], c) == View(s[s[c].owner.value], s[c], c))
  }

  lemma AwaitedKept(s: State, t: State, but: int, p: Id)
    requires SameViews(s, t, but) && |t| == |s| && p < |s|
    ensures AwaitedBy(t, p) - {but} == AwaitedBy(s, p) - {but}
    ensures 0 <= but < |s| && s[but].owner != Some(p) ==> but !in AwaitedBy(t, p) && but !in AwaitedBy(s, p)
  {
    forall c | 0 <= c < |s| && c != but && s[c].owner == Some(p)
      ensures View(t[p], t[c], c) == View(s[p], s[c], c)
    {
      assert t[c].owner == s[c].owner;
    }
  }

  // Owners other than that of `but` wait for the same children.
  lemma CountsKept(s: State, t: State, but: int, owner: int)
    requires SameViews(s, t, but) && |t| == |s|
    requires 0 <= but < |s| ==> s[but].owner == if owner < 0 then None else Some(owner)
    requires forall p | 0 <= p < |s| :: CountOk(s, p)
    requires forall p | 0 <= p < |s| && p != owner :: t[p].termAcks == s[p].termAcks
    requires 0 <= owner < |s| ==>
               t[owner].termAcks - One(0 <= but < |s| && Awaited(View(t[owner], t[but], but)))
               == s[owner].termAcks - One(0 <= but < |s| && Awaited(View(s[owner], s[but], but)))
    ensures forall p | 0 <= p < |s| :: CountOk(t, p)
  {
    forall p | 0 <= p < |s| ensures CountOk(t, p) {
      assert CountOk(s, p);
      AwaitedKept(s, t, but, p);
      if p == owner && 0 <= but < |s| {
        assert but in AwaitedBy(s, p) <==> Awaited(View(s[p], s[but], but));
        assert but in AwaitedBy(t, p) <==> Awaited(View(t[p], t[but], but));
        Minus(AwaitedBy(s, p), but);
        Minus(AwaitedBy(t, p), but);
      } else {
        Minus(AwaitedBy(s, p), but);
        Minus(AwaitedBy(t, p), but);
      }
    }
  }

  lemma Minus(a: set<Id>, x: int)
    ensures |a| == |a - {x}| + One(x in a)
  {
    if x in a {
      assert a == (a - {x}) + {x};
    } else {
      assert a - {x} == a;
    }
  }

  lemma ReqAppend(p: Obj, c: Obj, id: Id, cmd: Cmd, p': Obj)
    requires ReqOk(p, c, id) && p'.inbox == p.inbox + [cmd]
    requires cmd == TermReq(id) ==> c.alive
    ensures ReqOk(p', c, id)
  {
    forall k | 0 <= k < |p'.inbox| && p'.inbox[k] == TermReq(id)
      ensures c.alive || exists m :: k < m < |p'.inbox| && p'.inbox[m] == TermAck(id)
    {
      if k < |p.inbox| && !c.alive {
        var m :| k < m < |p.inbox| && p.inbox[m] == TermAck(id);
        assert p'.inbox[m] == TermAck(id);
      }
    }
  }

  lemma ReqPop(p: Obj, c: Obj, id: Id, p': Obj)
    requires ReqOk(p, c, id) && p.inbox != [] && p'.inbox == p.inbox[1..]
    ensures ReqOk(p', c, id)
  {
    forall k | 0 <= k < |p'.inbox| && p'.inbox[k] == TermReq(id)
      ensures c.alive || exists m :: k < m < |p'.inbox| && p'.inbox[m] == TermAck(id)
    {
      assert p.inbox[k + 1] == TermReq(id);
      if !c.alive {
        var m :| k + 1 < m < |p.inbox| && p.inbox[m] == TermAck(id);
        assert p'.inbox[m - 1] == TermAck(id);
      }
    }
  }

  // A record says the same about every pair it takes part in.
  ghost predicate SaysSame(a: Obj, b: Obj)
  {
    && b.owner == a.owner && b.launching == a.launching && b.owned == a.owned
    && b.alive == a.alive && b.terminating == a.terminating
    && (forall x: Cmd :: x.Own? || x.Term? || x.TermAck? ==> Times(x, b.inbox) == Times(x, a.inbox))
  }

  lemma QuietViews(s: State, t: State)
    requires |t| == |s| && forall j | 0 <= j < |s| :: SaysSame(s[j], t[j])
    ensures SameViews(s, t, -1)
  {
    forall j | 0 <= j < |s| ensures t[j].owner == s[j].owner {
      assert SaysSame(s[j], t[j]);
    }
    forall c | 0 <= c < |s| && s[c].owner.Some? && s[c].owner.value < |s|
      ensures View(t[s[c].owner.value], t[c], c) == View(s[s[c].owner.value], s[c], c)
    {
      assert SaysSame(s[c], t[c]) && SaysSame(s[s[c].owner.value], t[s[c].owner.value]);
    }
  }

  // The same about every child but one, as an owner; the same as a child.
  ghost predicate OwnerSame(a: Obj, b: Obj, but: int)
  {
    forall id: Id | id != but ::
      && (b.launching == Some(id)) == (a.launching == Some(id))
      && (id in b.owned) == (id in a.owned)
      && Times(Own(id), b.inbox) == Times(Own(id), a.inbox)
      && Times(TermAck(id), b.inbox) == Times(TermAck(id), a.inbox)
  }

  ghost predicate ChildSame(a: Obj, b: Obj)
  {
    b.alive == a.alive && b.terminating == a.terminating && Times(Term, b.inbox) == Times(Term, a.inbox)
  }

  lemma MoveViews(s: State, t: State, but: int)
    requires |t| == |s|
    requires forall j | 0 <= j < |s| :: t[j].owner == s[j].owner && OwnerSame(s[j], t[j], but)
    requires forall j | 0 <= j < |s| && j != but :: ChildSame(s[j], t[j])
    ensures SameViews(s, t, but)
  {
    forall c | 0 <= c < |s| && c != but && s[c].owner.Some? && s[c].owner.value < |s|
      ensures View(t[s[c].owner.value], t[c], c) == View(s[s[c].owner.value], s[c], c)
    {
      assert ChildSame(s[c], t[c]) && OwnerSame(s[s[c].owner.value], t[s[c].owner.value], but);
    }
  }

  lemma PairViews(s: State, t: State, c: Id, p: Id)
    requires |t| == |s| && c < |s| && p < |s|
    requires forall j | 0 <= j < |s| && j != c && j != p :: t[j] == s[j]
    requires t[p].owner == s[p].owner && t[c].owner == s[c].owner
    requires OwnerSame(s[p], t[p], c) && OwnerSame(s[c], t[c], c) && ChildSame(s[p], t[p])
    ensures SameViews(s, t, c)
  {
    forall j | 0 <= j < |s| ensures t[j].owner == s[j].owner && OwnerSame(s[j], t[j], c) {
      if j != c && j != p {
        assert t[j] == s[j];
      }
    }
    forall j | 0 <= j < |s| && j != c ensures ChildSame(s[j], t[j]) {
      if j != p {
        assert t[j] == s[j];
      }
    }
    MoveViews(s, t, c);
  }

  predicate Popped(p: Obj, p': Obj)
  {
    p.inbox != [] && p'.inbox == p.inbox[1..]
  }

  predicate Appended(p: Obj, p': Obj)
  {
    p'.inbox != [] && p'.inbox[..|p'.inbox| - 1] == p.inbox
  }

  // An inbox lost its head, or got one command that is no request of a dead object, or neither.
  predicate Moved(s: State, p: Obj, p': Obj)
  {
    || p'.inbox == p.inbox
    || Popped(p, p')
    || (Appended(p, p') &&
        var cmd := p'.inbox[|p'.inbox| - 1];
        cmd.TermReq? ==> cmd.child < |s| && s[cmd.child].alive)
  }

  lemma ReqKept(s: State, p: Obj, id: Id, p': Obj, c': Obj)
    requires id < |s| && ReqOk(p, s[id], id) && Moved(s, p, p') && c'.alive == s[id].alive
    ensures ReqOk(p', c', id)
  {
    if p'.inbox == p.inbox {
    } else if Popped(p, p') {
      ReqPop(p, s[id], id, p');
    } else {
      ReqAppend(p, s[id], id, p'.inbox[|p'.inbox| - 1], p');
    }
  }

  lemma LinksKept(s: State, t: State, but: int)
    requires |t| == |s| && SameViews(s, t, but)
    requires forall j | 0 <= j < |s| :: LinkOk(s, j) && Moved(s, s[j], t[j])
    ensures forall j | 0 <= j < |s| && j != but :: LinkOk(t, j)
  {
    forall j | 0 <= j < |s| && j != but ensures LinkOk(t, j) {
      assert LinkOk(s, j);
      if s[j].owner.Some? && s[j].owner.value < |s| {
        var p := s[j].owner.value;
        assert View(t[p], t[j], j) == View(s[p], s[j], j);
        assert Moved(s, s[p], t[p]);
        ReqKept(s, s[p], j, t[p], t[j]);
      }
    }
  }

  // The child goes, and its acknowledgement joins the queue behind all its requests.
  lemma ReqDeath(p: Obj, id: Id, p': Obj, c': Obj)
    requires p'.inbox == p.inbox + [TermAck(id)]
    ensures ReqOk(p', c', id)
  {
    forall k | 0 <= k < |p'.inbox| && p'.inbox[k] == TermReq(id)
      ensures c'.alive || exists m :: k < m < |p'.inbox| && p'.inbox[m] == TermAck(id)
    {
      assert p'.inbox[|p.inbox|] == TermAck(id);
    }
  }
}
