/** Messages over whole runs: a content is given back exactly once, when the last reference to it goes. */
module MessageRuns {
  import opened Bytes
  import opened MessageHands
  import opened Messages
  import opened Sequences

  function Refusals(takes: seq<bool>, n: nat): nat
    requires n <= |takes|
  {
    if n == 0 then 0 else Refusals(takes, n - 1) + if takes[n - 1] then 0 else 1
  }

  lemma {:induction false} TakenOrRefused(takes: seq<bool>, n: nat)
    requires n <= |takes|
    ensures Trues(takes[..n]) + Refusals(takes, n) == n
  {
    if n > 0 {
      TakenOrRefused(takes, n - 1);
      assert takes[..n][..n - 1] == takes[..n - 1];
    }
  }

  // All the handles there are, and every content block there ever was.
  class Pool {
    var msgs: seq<Msg>
    ghost var contents: set<Content>
    ghost var made: seq<Content> // the contents in the order in which they were made

    ghost predicate Valid()
      reads this, msgs, contents
    {
      && (forall i, j | 0 <= i < j < |msgs| :: msgs[i] != msgs[j])
      && (forall m | m in msgs :: m.Held() <= contents && m.Valid())
      && (forall c | c in contents :: c.Valid() && c.owed == 0)
      && (forall c, m | c in contents && m in c.holders :: m in msgs && c in m.Held())
    }

    constructor ()
      ensures Valid() && msgs == [] && contents == {} && made == []
    {
      msgs, contents, made := [], {}, [];
    }

    // What the handles are, and hold.
    ghost function Shots(): (hs: seq<Hand<Content>>)
      reads this, msgs
      ensures |hs| == |msgs| && forall k | 0 <= k < |msgs| :: hs[k] == Shot(msgs[k])
    {
      seq(|msgs|, k requires 0 <= k < |msgs| reads this, msgs => Shot(msgs[k]))
    }

    static ghost function Shot(m: Msg): Hand<Content>
      reads m
    {
      if m.IsLong() && m.content != null then
        var c: Content := m.content;
        Hand(m.kind, Some(c))
      else
        Hand(m.kind, None)
    }

    // The handles that hold a content.
    ghost function Holding(c: Content): set<Msg>
      reads this, msgs
    {
      set m | m in msgs && c in m.Held()
    }

    // These contents nobody refers to any more.
    ghost predicate Gone(dead: set<Content>)
      reads this, contents
    {
      dead <= contents && forall c | c in dead :: c.References() == 0
    }

    ghost function Dead(): set<Content>
      reads this, contents
    {
      set c | c in contents && c.References() == 0
    }

    lemma NobodyHolds(dead: set<Content>)
      requires Valid() && Gone(dead)
      ensures forall m | m in msgs :: m.Held() !! dead
    {
      forall m, c | m in msgs && c in m.Held() ensures c !in dead {
        assert m in c.holders;
      }
    }

    // A handle that holds something is not initialised over.
    predicate Enabled(op: Op)
      reads this, msgs
    {
      match op
      case New => true
      case Init(i) => i < |msgs| && !msgs[i].IsLong()
      case InitLong(i, _) => i < |msgs| && !msgs[i].IsLong()
      case InitExternal(i) => i < |msgs| && !msgs[i].IsLong()
      case Close(i) => i < |msgs|
      case Move(to, from) => to < |msgs| && from < |msgs| && to != from
      case Copy(to, from) => to < |msgs| && from < |msgs| && to != from
      case Distribute(i, takes, readers) => i < |msgs| && !msgs[i].kind.Closed? && |takes| == |readers| > 0
    }

    lemma EnabledIff(op: Op)
      ensures Enabled(op) <==> Can(Shots(), op)
    {
    }

    method DoNew()
      requires Valid()
      modifies this`msgs
      ensures Valid() && |msgs| == |old(msgs)| + 1 && msgs[..|old(msgs)|] == old(msgs)
      ensures fresh(msgs[|old(msgs)|]) && Shots() == old(Shots()) + [Blank()]
    {
      var m := new Msg();
      msgs := msgs + [m];
    }

    method DoInit(i: nat)
      requires Valid() && i < |msgs| && !msgs[i].IsLong()
      modifies msgs[i]
      ensures Valid() && msgs[i].kind == Plain && Shots() == old(Shots())[i := Blank()]
    {
      msgs[i].Init();
    }

    method DoInitLong(i: nat, hasFree: bool)
      requires Valid() && i < |msgs| && !msgs[i].IsLong()
      modifies this`contents, this`made, msgs[i]
      ensures Valid() && msgs[i].kind == Long && contents == old(contents) + {msgs[i].content}
      ensures fresh(msgs[i].content) && made == old(made) + [msgs[i].content]
      ensures Shots() == old(Shots())[i := Hand(Long, Some(msgs[i].content))]
    {
      assert msgs[i].Held() == {};
      assert forall c | c in contents :: msgs[i] !in c.holders;
      msgs[i].InitLong(hasFree);
      contents, made := contents + {msgs[i].content}, made + [msgs[i].content];
      forall m | m in msgs ensures m.Held() <= contents && m.Valid() {
        assert m != msgs[i] ==> old(m.Held() <= contents && m.Valid());
      }
    }

    // The block is a slot of a receive buffer that no message has used yet.
    method DoInitExternal(i: nat)
      requires Valid() && i < |msgs| && !msgs[i].IsLong()
      modifies this`contents, this`made, msgs[i]
      ensures Valid() && msgs[i].kind == ZeroCopy && contents == old(contents) + {msgs[i].content}
      ensures fresh(msgs[i].content) && made == old(made) + [msgs[i].content]
      ensures Shots() == old(Shots())[i := Hand(ZeroCopy, Some(msgs[i].content))]
    {
      assert msgs[i].Held() == {};
      assert forall c | c in contents :: msgs[i] !in c.holders;
      var slot := new Content(true);
      msgs[i].InitExternal(slot);
      contents, made := contents + {slot}, made + [slot];
      forall m | m in msgs ensures m.Held() <= contents && m.Valid() {
        assert m != msgs[i] ==> old(m.Held() <= contents && m.Valid());
      }
    }

    method DoClose(i: nat)
      requires Valid() && i < |msgs|
      modifies msgs[i], msgs[i].Held()
      ensures Valid() && msgs[i].kind == Closed && Shots() == old(Shots())[i := Shut()]
    {
      var ok := msgs[i].Close();
      ClosedValid(i);
    }

    // One handle has been closed.
    twostate lemma ClosedValid(i: nat)
      requires old(Valid()) && msgs == old(msgs) && contents == old(contents) && i < |msgs|
      requires forall m | m in msgs && m != msgs[i] :: unchanged(m)
      requires forall c | c in contents && c !in old(msgs[i].Held()) :: unchanged(c)
      requires msgs[i].kind == Closed && msgs[i].Went(old(msgs[i].Held()))
      ensures Valid()
    {
      forall c | c in contents
        ensures c.Valid() && c.owed == 0 && c.shared == old(c.shared) && c.holders == old(c.holders) - {msgs[i]}
      {
        assert old(c.Valid() && (msgs[i] in c.holders ==> c in msgs[i].Held()));
      }
      forall c, m | c in contents && m in c.holders ensures m in msgs && c in m.Held() {
        assert m in old(c.holders) && m != msgs[i];
      }
      forall m | m in msgs ensures m.Held() <= contents && m.Valid() {
        assert old(m.Held() <= contents && m.Valid());
      }
    }

    // Two handles and what they hold have changed.
    twostate predicate TwoChanged(pair: (nat, nat))
      reads this, msgs, contents
    {
      && old(Valid()) && msgs == old(msgs) && contents == old(contents) && pair.0 < |msgs| && pair.1 < |msgs|
      && (forall m | m in msgs && m != msgs[pair.0] && m != msgs[pair.1] :: unchanged(m))
      && (forall c | c in contents && c !in old(msgs[pair.0].Held() + msgs[pair.1].Held()) :: unchanged(c))
      && msgs[pair.0].Held() + msgs[pair.1].Held() <= old(msgs[pair.0].Held() + msgs[pair.1].Held()) <= contents
      && msgs[pair.0].Valid() && msgs[pair.1].Valid()
      && msgs[pair.0].OnlyBetween(msgs[pair.1], old(msgs[pair.0].Held() + msgs[pair.1].Held()))
    }

    twostate lemma StillValid(pair: (nat, nat))
      requires TwoChanged(pair)
      ensures Valid()
    {
      ContentsValid(pair);
      HoldersValid(pair);
      HandlesValid(pair);
    }

    twostate lemma ContentsValid(pair: (nat, nat))
      requires TwoChanged(pair)
      ensures forall c | c in contents :: c.Valid() && c.owed == 0
    {
      forall c | c in contents ensures c.Valid() && c.owed == 0 {
        assert old(c.Valid() && c.owed == 0);
      }
    }

    twostate lemma HoldersValid(pair: (nat, nat))
      requires TwoChanged(pair)
      ensures forall c, m | c in contents && m in c.holders :: m in msgs && c in m.Held()
    {
      var a, b := msgs[pair.0], msgs[pair.1];
      var touched := old(a.Held() + b.Held());
      forall c | c in contents
        ensures old(c.holders) - {a, b} <= c.holders <= old(c.holders) + {a, b}
        ensures (a in c.holders ==> c in a.Held()) && (b in c.holders ==> c in b.Held())
      {
        assert c !in touched ==> unchanged(c);
      }
      forall c, m | c in contents && m in c.holders ensures m in msgs && c in m.Held() {
        if m != a && m != b {
          assert m in old(c.holders) && c in old(m.Held());
        }
      }
    }

    twostate lemma HandlesValid(pair: (nat, nat))
      requires TwoChanged(pair)
      ensures forall m | m in msgs :: m.Held() <= contents && m.Valid()
    {
      var a, b := msgs[pair.0], msgs[pair.1];
      forall m | m in msgs && m != a && m != b ensures m.Held() <= contents && m.Valid() {
        assert old(m.Held()) <= contents && old(m.Valid());
      }
    }

    lemma PairReady(to: nat, from: nat)
      requires Valid() && to < |msgs| && from < |msgs| && to != from
      ensures msgs[to] != msgs[from] && msgs[to].Valid() && msgs[from].Valid()
      ensures msgs[to].Apart(msgs[from]) && msgs[from].Apart(msgs[to])
      ensures msgs[to].Held() + msgs[from].Held() <= contents
    {
      assert msgs[to] in msgs && msgs[from] in msgs;
    }

    method DoMove(to: nat, from: nat)
      requires Valid() && to < |msgs| && from < |msgs| && to != from
      modifies msgs[to], msgs[to].Held(), msgs[from], msgs[from].Held()
      ensures Valid()
      ensures Shots() == if old(msgs[to].kind.Closed? || msgs[from].kind.Closed?) then old(Shots())
                         else old(Shots())[to := old(Shots())[from]][from := Blank()]
    {
      var ok := MoveOver(to, from);
      StillValid((to, from));
      if ok {
        MoveShown((to, from));
      } else {
        NothingShown((to, from));
      }
    }

    method MoveOver(to: nat, from: nat) returns (ok: bool)
      requires Valid() && to < |msgs| && from < |msgs| && to != from
      modifies msgs[to], msgs[to].Held(), msgs[from], msgs[from].Held()
      ensures TwoChanged((to, from)) && ok == !old(msgs[to].kind.Closed? || msgs[from].kind.Closed?)
      ensures ok ==> Shot(msgs[to]) == old(Shot(msgs[from])) && msgs[from].kind == Plain
      ensures !ok ==> unchanged(msgs[to]) && unchanged(msgs[from])
    {
      PairReady(to, from);
      ok := msgs[to].Move(msgs[from]);
    }

    twostate lemma MoveShown(pair: (nat, nat))
      requires TwoChanged(pair) && pair.0 != pair.1
      requires Shot(msgs[pair.0]) == old(Shot(msgs[pair.1])) && msgs[pair.1].kind == Plain
      ensures Shots() == old(Shots())[pair.0 := old(Shots())[pair.1]][pair.1 := Blank()]
    {
      forall k | 0 <= k < |msgs| && k != pair.0 && k != pair.1 ensures Shots()[k] == old(Shots())[k] {
        assert msgs[k] in msgs && msgs[k] != msgs[pair.0] && msgs[k] != msgs[pair.1];
      }
    }

    twostate lemma CopyShown(pair: (nat, nat))
      requires TwoChanged(pair) && pair.0 != pair.1
      requires Shot(msgs[pair.0]) == Shot(msgs[pair.1]) == old(Shot(msgs[pair.1]))
      ensures Shots() == old(Shots())[pair.0 := old(Shots())[pair.1]]
    {
      forall k | 0 <= k < |msgs| && k != pair.0 && k != pair.1 ensures Shots()[k] == old(Shots())[k] {
        assert msgs[k] in msgs && msgs[k] != msgs[pair.0] && msgs[k] != msgs[pair.1];
      }
    }

    twostate lemma NothingShown(pair: (nat, nat))
      requires TwoChanged(pair) && unchanged(msgs[pair.0]) && unchanged(msgs[pair.1])
      ensures Shots() == old(Shots())
    {
      forall k | 0 <= k < |msgs| ensures Shots()[k] == old(Shots())[k] {
        assert msgs[k] in msgs;
      }
    }

    method DoCopy(to: nat, from: nat)
      requires Valid() && to < |msgs| && from < |msgs| && to != from
      modifies msgs[to], msgs[to].Held(), msgs[from], msgs[from].Held()
      ensures Valid()
      ensures Shots() == if old(msgs[to].kind.Closed? || msgs[from].kind.Closed?) then old(Shots())
                         else old(Shots())[to := old(Shots())[from]]
    {
      var ok := CopyOver(to, from);
      StillValid((to, from));
      if ok {
        CopyShown((to, from));
      } else {
        NothingShown((to, from));
      }
    }

    method CopyOver(to: nat, from: nat) returns (ok: bool)
      requires Valid() && to < |msgs| && from < |msgs| && to != from
      modifies msgs[to], msgs[to].Held(), msgs[from], msgs[from].Held()
      ensures TwoChanged((to, from)) && ok == !old(msgs[to].kind.Closed? || msgs[from].kind.Closed?)
      ensures ok ==> Shot(msgs[to]) == Shot(msgs[from]) == old(Shot(msgs[from]))
      ensures !ok ==> unchanged(msgs[to]) && unchanged(msgs[from])
    {
      PairReady(to, from);
      ok := msgs[to].Copy(msgs[from]);
    }

    /* A message is distributed over pipes.  Its own reference and those taken in advance are lent out one by
       one, while readers close the handles they have. */

    ghost predicate Lending(i: nat, n: nat)
      reads this, msgs, contents
    {
      && i < |msgs| && !msgs[i].kind.Closed?
      && (forall j, k | 0 <= j < k < |msgs| :: msgs[j] != msgs[k])
      && (forall m | m in msgs && m != msgs[i] :: m.Held() <= contents && m.Valid())
      && msgs[i].Held() <= contents && msgs[i].Detached()
      && (forall c | c in contents :: c.Valid() && c.owed == if c in msgs[i].Held() then n else 0)
      && (forall c, m | c in contents && m in c.holders :: m in msgs && m != msgs[i] && c in m.Held())
    }

    // The references to what the i-th handle holds.
    ghost function References(i: nat): nat
      requires i < |msgs|
      reads this, msgs, msgs[i].Held()
    {
      if msgs[i].IsLong() && msgs[i].content != null then msgs[i].content.References() else 0
    }

    static predicate Quiet(readers: seq<seq<nat>>)
    {
      forall k | 0 <= k < |readers| :: readers[k] == []
    }

    method Lend(i: nat, n: nat)
      requires Valid() && i < |msgs| && !msgs[i].kind.Closed? && n > 0
      modifies msgs[i], msgs[i].Held()
      ensures Lending(i, n) && Shots() == old(Shots())
      ensures msgs[i].IsLong() ==> References(i) == old(References(i)) + n - 1
    {
      msgs[i].AddRefs(n - 1);
      if msgs[i].IsLong() {
        msgs[i].Detach();
      }
    }

    method HandOver(i: nat, ghost n: nat)
      requires Lending(i, n) && n > 0
      modifies this`msgs, msgs[i].Held()
      ensures Lending(i, n - 1) && |msgs| == |old(msgs)| + 1 && msgs[..|old(msgs)|] == old(msgs)
      ensures fresh(msgs[|old(msgs)|]) && Shots() == old(Shots()) + [old(Shots())[i]]
      ensures References(i) == old(References(i))
    {
      var m := msgs[i].HandOut();
      msgs := msgs + [m];
    }

    method CloseOther(k: nat, ghost i: nat, ghost n: nat, ghost dead: set<Content>)
      requires Lending(i, n) && k < |msgs| && k != i && Gone(dead)
      modifies msgs[k], msgs[k].Held()
      ensures Lending(i, n) && msgs[k].kind == Closed && Gone(dead) && Shots() == old(Shots())[k := Shut()]
    {
      assert forall c | c in msgs[k].Held() :: msgs[k] in c.holders;
      var ok := msgs[k].Close();
      StillLending((k, i, n));
    }

    // Of the others, `o.0` has been closed.
    twostate predicate OtherClosed(o: (nat, nat, nat))
      reads this, msgs, contents
    {
      && old(Lending(o.1, o.2)) && msgs == old(msgs) && contents == old(contents) && o.0 < |msgs| && o.0 != o.1
      && (forall m | m in msgs && m != msgs[o.0] :: unchanged(m))
      && (forall c | c in contents && c !in old(msgs[o.0].Held()) :: unchanged(c))
      && msgs[o.0].kind == Closed && msgs[o.0].Went(old(msgs[o.0].Held()))
    }

    twostate lemma StillLending(o: (nat, nat, nat))
      requires OtherClosed(o)
      ensures Lending(o.1, o.2)
    {
      HandlesLending(o);
      ContentsLending(o);
      HoldersLending(o);
    }

    twostate lemma HandlesLending(o: (nat, nat, nat))
      requires OtherClosed(o)
      ensures msgs[o.1] in msgs && msgs[o.1] != msgs[o.0]
      ensures !msgs[o.1].kind.Closed? && msgs[o.1].Held() == old(msgs[o.1].Held()) && msgs[o.1].Detached()
      ensures forall m | m in msgs && m != msgs[o.1] :: m.Held() <= contents && m.Valid()
    {
      assert msgs[o.1] in msgs && msgs[o.1] != msgs[o.0];
      forall m | m in msgs && m != msgs[o.1] ensures m.Held() <= contents && m.Valid() {
        assert old(m.Held() <= contents && m.Valid());
      }
    }

    twostate lemma ContentsLending(o: (nat, nat, nat))
      requires OtherClosed(o)
      ensures forall c | c in contents :: c.Valid() && c.owed == old(c.owed)
    {
      forall c | c in contents ensures c.Valid() && c.owed == old(c.owed) {
        assert old(c.Valid());
      }
    }

    twostate lemma HoldersLending(o: (nat, nat, nat))
      requires OtherClosed(o)
      ensures forall c, m | c in contents && m in c.holders :: m in msgs && m != msgs[o.1] && c in m.Held()
    {
      forall c, m | c in contents && m in c.holders ensures m in msgs && m != msgs[o.1] && c in m.Held() {
        assert msgs[o.0] in old(c.holders) ==> old(c in msgs[o.0].Held());
        assert m in old(c.holders) && m != msgs[o.0] && old(m in msgs && m != msgs[o.1] && c in m.Held());
      }
    }

    method GiveBack(i: nat, n: nat)
      requires Lending(i, n)
      modifies msgs[i], msgs[i].Held()
      ensures Valid() && msgs[i].kind == Plain && Shots() == old(Shots())[i := Blank()]
      ensures forall c | c in old(msgs[i].Held()) :: c.References() == old(References(i)) - n
    {
      var left := msgs[i].RmRefs(n);
      msgs[i].kind := Closed;
      msgs[i].Init();
    }

    method CloseOthers(ks: seq<nat>, i: nat, ghost n: nat, ghost dead: set<Content>, ghost now: seq<Hand<Content>>)
      requires Lending(i, n) && Gone(dead) && Shots() == now
      modifies msgs, contents
      ensures Lending(i, n) && Gone(dead) && Shots() == CloseEach(now, ks, i, |ks|)
      ensures ks == [] ==> References(i) == old(References(i))
    {
      var j := 0;
      while j < |ks|
        invariant j <= |ks| && Lending(i, n) && Gone(dead) && Shots() == CloseEach(now, ks, i, j)
        invariant ks == [] ==> References(i) == old(References(i))
      {
        if ks[j] < |msgs| && ks[j] != i {
          CloseOther(ks[j], i, n, dead);
        }
        j := j + 1;
      }
    }

    // One pipe is offered the message; some other handles are closed.
    method Offer(i: nat, take: bool, ks: seq<nat>, ghost n: nat, ghost dead: set<Content>,
                 ghost now: seq<Hand<Content>>)
      requires Lending(i, n) && n > 0 && Gone(dead) && Shots() == now
      modifies this`msgs, msgs, contents
      ensures Lending(i, if take then n - 1 else n) && Gone(dead)
      ensures |msgs| == |old(msgs)| + (if take then 1 else 0) && msgs[..|old(msgs)|] == old(msgs)
      ensures take ==> fresh(msgs[|old(msgs)|])
      ensures i < |now| && Shots() == OfferOne(now, i, take, ks)
      ensures ks == [] ==> References(i) == old(References(i))
    {
      assert forall c | c in msgs[i].Held() :: c.owed > 0;
      if take {
        HandOver(i, n);
      }
      CloseOthers(ks, i, if take then n - 1 else n, dead, Give(now, i, take));
    }

    // The same as a step of a run over the pipes, `failed` of which have refused the message so far.
    method OfferNext(i: nat, takes: seq<bool>, readers: seq<seq<nat>>, a: nat, failed: nat, ghost dead: set<Content>,
                     ghost was: seq<Hand<Content>>, ghost first: seq<Msg>, ghost joined: seq<Msg>, ghost left: nat)
      returns (missed: nat, ghost more: seq<Msg>, ghost rest: nat)
      requires |takes| == |readers| && a < |takes|
      requires failed == Refusals(takes, a) && left == |takes| - a + failed
      requires Lending(i, left) && Gone(dead) && msgs == first + joined
      requires i < |was| && Shots() == OfferEach(was, i, takes, readers, a)
      modifies this`msgs, msgs, contents
      ensures missed == Refusals(takes, a + 1) && rest == |takes| - (a + 1) + missed
      ensures Lending(i, rest) && Gone(dead)
      ensures msgs == first + (joined + more) && fresh(more)
      ensures Shots() == OfferEach(was, i, takes, readers, a + 1)
      ensures readers[a] == [] ==> References(i) == old(References(i))
    {
      ghost var n := |msgs|;
      Offer(i, takes[a], readers[a], left, dead, OfferEach(was, i, takes, readers, a));
      missed, more := if takes[a] then failed else failed + 1, msgs[n..];
      rest := |takes| - (a + 1) + missed;
      assert msgs == msgs[..n] + more;
      Assoc(first, joined, more);
    }

    method OfferAll(i: nat, takes: seq<bool>, readers: seq<seq<nat>>, ghost dead: set<Content>,
                    ghost was: seq<Hand<Content>>) returns (failed: nat, ghost joined: seq<Msg>)
      requires Lending(i, |takes|) && |takes| == |readers| && Gone(dead) && Shots() == was
      modifies this`msgs, msgs, contents
      ensures msgs == old(msgs) + joined && fresh(joined) && failed == Refusals(takes, |takes|)
      ensures Lending(i, failed) && Gone(dead) && Shots() == OfferEach(was, i, takes, readers, |takes|)
      ensures Quiet(readers) ==> References(i) == old(References(i))
    {
      failed, joined := 0, [];
      var a := 0;
      ghost var left: nat := |takes|;
      while a < |takes|
        invariant a <= |takes| && Lending(i, left) && Gone(dead)
        invariant Quiet(readers) ==> References(i) == old(References(i))
        invariant msgs == old(msgs) + joined && fresh(joined)
        invariant failed == Refusals(takes, a) && left == |takes| - a + failed
        invariant Shots() == OfferEach(was, i, takes, readers, a)
      {
        ghost var more;
        failed, more, left := OfferNext(i, takes, readers, a, failed, dead, was, old(msgs), joined, left);
        a, joined := a + 1, joined + more;
      }
    }

    // Each pipe a message matches is offered it once; `takes` tells which took it, and `readers` what other
    // handles were closed meanwhile.
    method DoDistribute(i: nat, takes: seq<bool>, readers: seq<seq<nat>>)
      requires Valid() && i < |msgs| && !msgs[i].kind.Closed? && |takes| == |readers| > 0
      modifies this`msgs, msgs, contents
      ensures |msgs| == |old(msgs)| + Trues(takes) && msgs[..|old(msgs)|] == old(msgs)
      ensures forall k | |old(msgs)| <= k < |msgs| :: fresh(msgs[k])
      ensures Valid() && msgs[i].kind == Plain
      ensures Gone(old(Dead())) && contents == old(contents)
      ensures Shots() == OfferEach(old(Shots()), i, takes, readers, |takes|)[i := Blank()]
      ensures forall c | c in old(msgs[i].Held()) ::
                c.References() == |StillOpen(old(Holding(c)) - {msgs[i]}, |old(msgs)|)|
      ensures Quiet(readers) ==>
                forall c | c in old(msgs[i].Held()) :: c.References() == old(References(i)) - 1 + Trues(takes)
    {
      Share(i, takes, readers);
      CountedOpen((i, takes, readers));
    }

    method Share(i: nat, takes: seq<bool>, readers: seq<seq<nat>>)
      requires Valid() && i < |msgs| && !msgs[i].kind.Closed? && |takes| == |readers| > 0
      modifies this`msgs, msgs, contents
      ensures |msgs| == |old(msgs)| + Trues(takes) && msgs[..|old(msgs)|] == old(msgs)
      ensures forall k | |old(msgs)| <= k < |msgs| :: fresh(msgs[k])
      ensures Valid() && msgs[i].kind == Plain && Gone(old(Dead()))
      ensures Shots() == OfferEach(old(Shots()), i, takes, readers, |takes|)[i := Blank()]
      ensures Quiet(readers) ==>
                forall c | c in old(msgs[i].Held()) :: c.References() == old(References(i)) - 1 + Trues(takes)
    {
      ghost var dead, was := Dead(), Shots();
      NobodyHolds(dead);
      Lend(i, |takes|);
      HeldShown(i, was);
      var failed, joined := OfferAll(i, takes, readers, dead, was);
      OfferSize(was, i, takes, readers, |takes|);
      TakenOrRefused(takes, |takes|);
      assert takes[..|takes|] == takes;
      OfferFacts(was, i, takes, readers, |takes|, i);
      HeldShown(i, Shots());
      GiveBack(i, failed);
    }

    lemma HeldShown(i: nat, now: seq<Hand<Content>>)
      requires i < |msgs| && Shots() == now
      ensures msgs[i].Held() == match now[i].block case None => {} case Some(c) => {c}
    {
      assert now[i] == Shot(msgs[i]);
    }

    // Of these handles and of those from the n-th on, the ones nobody has closed.
    ghost function StillOpen(before: set<Msg>, n: nat): set<Msg>
      requires n <= |msgs|
      reads this, msgs, before
    {
      set m | m in before + (set k | n <= k < |msgs| :: msgs[k]) && !m.kind.Closed?
    }

    lemma HoldersAre(c: Content)
      requires Valid() && c in contents
      ensures c.References() == |Holding(c)|
    {
      assert c.holders == Holding(c);
    }

    // A content the i-th handle had is held by the handles that had it before and those made since, without the
    // closed ones.
    twostate lemma OpenHold(o: (nat, seq<bool>, seq<seq<nat>>))
      requires old(Valid()) && Valid() && o.0 < |old(msgs)| && old(msgs) <= msgs && |o.1| == |o.2|
      requires Shots() == OfferEach(old(Shots()), o.0, o.1, o.2, |o.1|)[o.0 := Blank()]
      ensures forall c | c in old(msgs[o.0].Held()) ::
                Holding(c) == StillOpen(old(Holding(c)) - {msgs[o.0]}, |old(msgs)|)
    {
      forall c | c in old(msgs[o.0].Held())
        ensures Holding(c) == StillOpen(old(Holding(c)) - {msgs[o.0]}, |old(msgs)|)
      {
        var open := StillOpen(old(Holding(c)) - {msgs[o.0]}, |old(msgs)|);
        assert old(Shots())[o.0].block == Some(c);
        forall k | 0 <= k < |msgs| ensures msgs[k] in Holding(c) <==> msgs[k] in open {
          OfferFacts(old(Shots()), o.0, o.1, o.2, |o.1|, k);
          assert Shots()[k] == Shot(msgs[k]);
          if k < |old(msgs)| {
            assert msgs[k] == old(msgs)[k] && old(Shots())[k] == old(Shot(msgs[k]));
            assert msgs[k] in old(Holding(c)) <==> old(c in msgs[k].Held());
          }
        }
      }
    }

    twostate lemma CountedOpen(o: (nat, seq<bool>, seq<seq<nat>>))
      requires old(Valid()) && Valid() && o.0 < |old(msgs)| && old(msgs) <= msgs && |o.1| == |o.2|
      requires Shots() == OfferEach(old(Shots()), o.0, o.1, o.2, |o.1|)[o.0 := Blank()]
      requires old(contents) <= contents
      ensures forall c | c in old(msgs[o.0].Held()) ::
                c.References() == |StillOpen(old(Holding(c)) - {msgs[o.0]}, |old(msgs)|)|
    {
      OpenHold(o);
      forall c | c in old(msgs[o.0].Held())
        ensures c.References() == |StillOpen(old(Holding(c)) - {msgs[o.0]}, |old(msgs)|)|
      {
        assert old(msgs[o.0] in msgs && msgs[o.0].Held() <= contents);
        HoldersAre(c);
      }
    }

    method Make(op: Op) returns (ghost block: Option<Content>)
      requires Valid() && Enabled(op) && Makes(op)
      modifies this`contents, this`made, msgs[op.i]
      ensures Valid() && Can(old(Shots()), op) && Shots() == After(old(Shots()), op, block)
      ensures block.Some? && fresh(block.value)
      ensures made == old(made) + [block.value] && contents == old(contents) + {block.value}
    {
      EnabledIff(op);
      if op.InitLong? {
        DoInitLong(op.i, op.hasFree);
      } else {
        DoInitExternal(op.i);
      }
      block := Some(msgs[op.i].content);
    }

    // This content has been made, if any.
    twostate predicate Wrote(new block: Option<Content>)
      reads this
    {
      match block
      case None => made == old(made) && contents == old(contents)
      case Some(c) => made == old(made) + [c] && contents == old(contents) + {c} && fresh(c)
    }

    method Pass(op: Op)
      requires Valid() && Enabled(op) && !Makes(op)
      modifies this`msgs, msgs, contents
      ensures Valid() && |msgs| >= |old(msgs)| && msgs[..|old(msgs)|] == old(msgs)
      ensures forall k | |old(msgs)| <= k < |msgs| :: fresh(msgs[k])
      ensures Gone(old(Dead()))
      ensures Can(old(Shots()), op) && Shots() == After(old(Shots()), op, None)
    {
      NobodyHolds(Dead());
      EnabledIff(op);
      match op {
        case New => DoNew();
        case Init(i) => DoInit(i);
        case Close(i) => DoClose(i);
        case Move(to, from) => DoMove(to, from);
        case Copy(to, from) => DoCopy(to, from);
        case Distribute(i, takes, readers) => DoDistribute(i, takes, readers);
      }
    }

    method Step(op: Op) returns (ghost block: Option<Content>)
      requires Valid() && Enabled(op)
      modifies this, msgs, contents
      ensures Valid() && |msgs| >= |old(msgs)| && msgs[..|old(msgs)|] == old(msgs)
      ensures forall k | |old(msgs)| <= k < |msgs| :: fresh(msgs[k])
      ensures Gone(old(Dead()))
      ensures Can(old(Shots()), op) && Shots() == After(old(Shots()), op, block)
      ensures block.Some? <==> Makes(op)
      ensures Wrote(block)
    {
      block := None;
      if Makes(op) {
        block := Make(op);
      } else {
        Pass(op);
      }
    }

    // The handles are what these operations have made of them.
    ghost predicate Follows(ops: seq<Op>)
      reads this, msgs
    {
      && |made| == Made(ops) && Agree(Shots(), Hands(ops), made)
      && Distinct(made) && contents == set c | c in made
    }

    method Next(op: Op, ghost before: seq<Op>)
      requires Valid() && Follows(before)
      modifies this, msgs, contents
      ensures Valid() && Follows(before + [op])
      ensures forall j | 0 <= j < |msgs| :: msgs[j] in old(msgs) || fresh(msgs[j])
      ensures fresh(contents - old(contents))
    {
      ghost var hs, first := Shots(), made;
      HandsSnoc(before, op);
      EnabledIff(op);
      AgreeCan(hs, Hands(before), first, op);
      if Enabled(op) {
        ghost var block := Step(op);
        AgreeAfter(hs, Hands(before), first, op, block);
      }
    }

    // Operations that make no sense where they come are passed over.
    method Run(ops: seq<Op>)
      requires Valid() && Follows([])
      modifies this, msgs, contents
      ensures Valid() && Follows(ops)
    {
      var k := 0;
      while k < |ops|
        invariant k <= |ops| && Valid() && Follows(ops[..k])
        invariant forall j | 0 <= j < |msgs| :: msgs[j] in old(msgs) || fresh(msgs[j])
        invariant fresh(contents - old(contents))
      {
        assert ops[..k + 1] == ops[..k] + [ops[k]];
        Next(ops[k], ops[..k]);
        k := k + 1;
      }
      assert ops[..k] == ops;
    }

    // A content is given back if and only if no handle holds it any more, and that was once; while it is shared its
    // counter is the number of handles that hold it.
    ghost predicate Accounted(c: Content)
      reads this, msgs, c
    {
      var holding := Holding(c);
      && c.released == (if holding == {} then 1 else 0)
      && (forall m | m in holding :: m.shared ==> c.refcnt == |holding|)
      && (forall m | m in holding :: !m.shared ==> holding == {m})
    }

    lemma AccountedFor(c: Content)
      requires Valid() && c in contents
      ensures Accounted(c)
    {
      var holding := Holding(c);
      assert c.holders == holding;
      forall m | m in holding && !m.shared ensures holding == {m} {
        Only(m, holding);
      }
    }

    // As many handles hold a content as there are places that say so.
    lemma HoldingCount(c: Content)
      requires Valid()
      ensures |Holding(c)| == |Keeping(Shots(), c)|
    {
      var ks := Keeping(Shots(), c);
      PlacesCount(msgs, ks);
      forall m | m in Holding(c) ensures m in set k | k in ks :: msgs[k] {
        var k :| 0 <= k < |msgs| && msgs[k] == m;
        assert k in ks;
      }
      assert Holding(c) == set k | k in ks :: msgs[k];
    }

    lemma HeldAs(ops: seq<Op>)
      requires Valid() && Follows(ops)
      ensures AsHeld(made, Hands(ops))
    {
      forall n | 0 <= n < |made|
        ensures made[n] in contents && |Keeping(Hands(ops), n)| == made[n].References()
      {
        HoldersAre(made[n]);
        HoldingCount(made[n]);
        assert Keeping(Shots(), made[n]) == Keeping(Hands(ops), n);
      }
    }
  }

  // Of these contents, in the order in which they were made, each is given back, once, if and only if no handle
  // holds it after the operations; and while it is shared its counter says how many do.
  ghost predicate AsHeld(made: seq<Content>, hs: seq<Hand<nat>>)
    reads made
  {
    forall n | 0 <= n < |made| ::
      && made[n].released == (if Keeping(hs, n) == {} then 1 else 0)
      && (Keeping(hs, n) != {} ==> if made[n].shared then made[n].refcnt == |Keeping(hs, n)| else |Keeping(hs, n)| == 1)
  }

  // So it is with every content there ever was, after any run.
  method GivenBackOnce(ops: seq<Op>) returns (p: Pool)
    ensures p.Valid() && p.Follows(ops) && AsHeld(p.made, Hands(ops))
    ensures forall c | c in p.contents :: p.Accounted(c)
  {
    p := new Pool();
    p.Run(ops);
    p.HeldAs(ops);
    forall c | c in p.contents ensures p.Accounted(c) {
      p.AccountedFor(c);
    }
  }
}
