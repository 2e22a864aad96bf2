/** What operations on messages do to the handles, told without counters: which handle holds which block. */
module MessageHands {
  import opened Bytes
  import opened Messages
  import opened Sequences

  datatype Op =
    | New                                   // a handle is made
    | Init(i: nat)
    | InitLong(i: nat, hasFree: bool)
    | InitExternal(i: nat)
    | Close(i: nat)
    | Move(to: nat, from: nat)
    | Copy(to: nat, from: nat)
    | Distribute(i: nat, takes: seq<bool>, readers: seq<seq<nat>>)

  // A handle, with the block it holds, if any.
  datatype Hand<C> = Hand(kind: Kind, block: Option<C>)

  predicate IsLong(kind: Kind)
  {
    kind.Long? || kind.ZeroCopy?
  }

  function Blank<C>(): Hand<C>
  {
    Hand(Plain, None)
  }

  function Shut<C>(): Hand<C>
  {
    Hand(Closed, None)
  }

  // A handle that holds something is not initialised over.
  predicate Can<C(==)>(hs: seq<Hand<C>>, op: Op)
  {
    match op
    case New => true
    case Init(i) => i < |hs| && !IsLong(hs[i].kind)
    case InitLong(i, _) => i < |hs| && !IsLong(hs[i].kind)
    case InitExternal(i) => i < |hs| && !IsLong(hs[i].kind)
    case Close(i) => i < |hs|
    case Move(to, from) => to < |hs| && from < |hs| && to != from
    case Copy(to, from) => to < |hs| && from < |hs| && to != from
    case Distribute(i, takes, readers) => i < |hs| && !hs[i].kind.Closed? && |takes| == |readers| > 0
  }

  // Readers close handles, the first n of these, but not the i-th.
  function CloseEach<C>(hs: seq<Hand<C>>, ks: seq<nat>, i: nat, n: nat): (r: seq<Hand<C>>)
    requires n <= |ks|
    ensures |r| == |hs|
  {
    if n == 0 then hs
    else
      var t := CloseEach(hs, ks, i, n - 1);
      if ks[n - 1] < |t| && ks[n - 1] != i then t[ks[n - 1] := Shut()] else t
  }

  function Give<C>(hs: seq<Hand<C>>, i: nat, take: bool): seq<Hand<C>>
    requires i < |hs|
  {
    if take then hs + [hs[i]] else hs
  }

  // A pipe takes the message or not, and readers close handles meanwhile.
  function OfferOne<C>(hs: seq<Hand<C>>, i: nat, take: bool, ks: seq<nat>): (r: seq<Hand<C>>)
    requires i < |hs|
    ensures |r| == |hs| + if take then 1 else 0
  {
    CloseEach(Give(hs, i, take), ks, i, |ks|)
  }

  // One pipe after the other, up to the n-th.
  function OfferEach<C>(hs: seq<Hand<C>>, i: nat, takes: seq<bool>, readers: seq<seq<nat>>, n: nat): (r: seq<Hand<C>>)
    requires i < |hs| && n <= |takes| == |readers|
    ensures |r| >= |hs|
  {
    if n == 0 then hs else OfferOne(OfferEach(hs, i, takes, readers, n - 1), i, takes[n - 1], readers[n - 1])
  }

  lemma {:induction false} OfferSize<C>(hs: seq<Hand<C>>, i: nat, takes: seq<bool>, readers: seq<seq<nat>>, n: nat)
    requires i < |hs| && n <= |takes| == |readers|
    ensures |OfferEach(hs, i, takes, readers, n)| == |hs| + Trues(takes[..n])
  {
    if n > 0 {
      OfferSize(hs, i, takes, readers, n - 1);
      assert takes[..n][..n - 1] == takes[..n - 1];
    }
  }

  predicate Makes(op: Op)
  {
    op.InitLong? || op.InitExternal?
  }

  // `block` is the one that is made, if one is.
  function After<C>(hs: seq<Hand<C>>, op: Op, block: Option<C>): seq<Hand<C>>
    requires Can(hs, op)
  {
    match op
    case New => hs + [Blank()]
    case Init(i) => hs[i := Blank()]
    case InitLong(i, _) => hs[i := Hand(Long, block)]
    case InitExternal(i) => hs[i := Hand(ZeroCopy, block)]
    case Close(i) => hs[i := Shut()]
    case Move(to, from) =>
      if hs[to].kind.Closed? || hs[from].kind.Closed? then hs else hs[to := hs[from]][from := Blank()]
    case Copy(to, from) =>
      if hs[to].kind.Closed? || hs[from].kind.Closed? then hs else hs[to := hs[from]]
    case Distribute(i, takes, readers) => OfferEach(hs, i, takes, readers, |takes|)[i := Blank()]
  }

  lemma {:induction false} CloseFacts<C>(hs: seq<Hand<C>>, ks: seq<nat>, i: nat, n: nat, k: nat)
    requires k < |hs| && n <= |ks|
    ensures CloseEach(hs, ks, i, n)[k] == if k != i && k in ks[..n] then Shut() else hs[k]
  {
    if n > 0 {
      CloseFacts(hs, ks, i, n - 1, k);
      assert ks[..n] == ks[..n - 1] + [ks[n - 1]];
    }
  }

  // A reader has closed this handle while the message was offered to the first n pipes.
  predicate Shutting(size: nat, takes: seq<bool>, readers: seq<seq<nat>>, n: nat, k: nat)
    requires n <= |takes| == |readers|
  {
    exists a | 0 <= a < n :: k in readers[a] && k < size + Trues(takes[..a + 1])
  }

  // The i-th handle stays; others are as before, or like it if they have been handed out, unless readers close them.
  lemma {:induction false} OfferFacts<C>(hs: seq<Hand<C>>, i: nat, takes: seq<bool>, readers: seq<seq<nat>>, n: nat,
                                         k: nat)
    requires i < |hs| && n <= |takes| == |readers|
    requires k < |OfferEach(hs, i, takes, readers, n)|
    ensures OfferEach(hs, i, takes, readers, n)[k] ==
            if k == i then hs[i]
            else if Shutting(|hs|, takes, readers, n, k) then Shut()
            else if k < |hs| then hs[k]
            else hs[i]
  {
    if n > 0 {
      var before := OfferEach(hs, i, takes, readers, n - 1);
      OfferSize(hs, i, takes, readers, n - 1);
      OfferSize(hs, i, takes, readers, n);
      OfferFacts(hs, i, takes, readers, n - 1, i);
      if k < |before| {
        OfferFacts(hs, i, takes, readers, n - 1, k);
      } else {
        NotYet(|hs|, takes, readers, n - 1, k);
      }
      CloseFacts(Give(before, i, takes[n - 1]), readers[n - 1], i, |readers[n - 1]|, k);
      assert readers[n - 1][..|readers[n - 1]|] == readers[n - 1];
      ShuttingMore(|hs|, takes, readers, n, k);
    }
  }

  lemma ShuttingMore(size: nat, takes: seq<bool>, readers: seq<seq<nat>>, n: nat, k: nat)
    requires 0 < n <= |takes| == |readers|
    ensures Shutting(size, takes, readers, n, k) <==>
            Shutting(size, takes, readers, n - 1, k) || (k in readers[n - 1] && k < size + Trues(takes[..n]))
  {
  }

  // A handle that is not there yet is not closed.
  lemma {:induction false} NotYet(size: nat, takes: seq<bool>, readers: seq<seq<nat>>, n: nat, k: nat)
    requires n <= |takes| == |readers| && k >= size + Trues(takes[..n])
    ensures !Shutting(size, takes, readers, n, k)
  {
    if n > 0 {
      assert takes[..n][..n - 1] == takes[..n - 1];
      NotYet(size, takes, readers, n - 1, k);
    }
  }

  /* Whole runs, the blocks being numbered as they are made. */

  // Operations that make no sense where they come are passed over.
  function Hands(ops: seq<Op>): seq<Hand<nat>>
  {
    if ops == [] then []
    else
      var n := |ops| - 1;
      var hs := Hands(ops[..n]);
      if Can(hs, ops[n]) then After(hs, ops[n], Some(Made(ops[..n]))) else hs
  }

  function Made(ops: seq<Op>): nat
  {
    if ops == [] then 0
    else
      var n := |ops| - 1;
      Made(ops[..n]) + if Makes(ops[n]) && Can(Hands(ops[..n]), ops[n]) then 1 else 0
  }

  lemma HandsSnoc(ops: seq<Op>, op: Op)
    ensures Hands(ops + [op]) ==
            if Can(Hands(ops), op) then After(Hands(ops), op, Some(Made(ops))) else Hands(ops)
    ensures Made(ops + [op]) == Made(ops) + if Makes(op) && Can(Hands(ops), op) then 1 else 0
  {
    assert (ops + [op])[..|ops|] == ops;
  }

  // The handles that hold the block.
  function Keeping<C(==)>(hs: seq<Hand<C>>, c: C): set<nat>
  {
    set k: nat | k < |hs| && hs[k].block == Some(c)
  }

  predicate Sound(hs: seq<Hand<nat>>, made: nat)
  {
    forall k | 0 <= k < |hs| && hs[k].block.Some? :: IsLong(hs[k].kind) && hs[k].block.value < made
  }

  lemma {:induction false} HandsSound(ops: seq<Op>)
    ensures Sound(Hands(ops), Made(ops))
  {
    if ops != [] {
      var n := |ops| - 1;
      HandsSound(ops[..n]);
      if Can(Hands(ops[..n]), ops[n]) {
        AfterSound(Hands(ops[..n]), ops[n], Made(ops[..n]));
      }
    }
  }

  lemma AfterSound(hs: seq<Hand<nat>>, op: Op, made: nat)
    requires Sound(hs, made) && Can(hs, op)
    ensures Sound(After(hs, op, Some(made)), if Makes(op) then made + 1 else made)
  {
    if op.Distribute? {
      var r := OfferEach(hs, op.i, op.takes, op.readers, |op.takes|);
      forall k | 0 <= k < |r| && r[k].block.Some? ensures IsLong(r[k].kind) && r[k].block.value < made {
        OfferFacts(hs, op.i, op.takes, op.readers, |op.takes|, k);
      }
    }
  }

  predicate Open<C>(hs: seq<Hand<C>>, k: nat)
  {
    k < |hs| && !hs[k].kind.Closed?
  }

  // Those who hold the n-th block after an operation, given those who held it before.
  function Heirs(hs: seq<Hand<nat>>, was: set<nat>, op: Op, made: nat, n: nat): set<nat>
    requires Can(hs, op)
  {
    match op
    case New => was
    case Init(_) => was
    case InitLong(i, _) => if n == made then {i} else was
    case InitExternal(i) => if n == made then {i} else was
    case Close(i) => was - {i}
    case Move(to, from) =>
      if !Open(hs, to) || !Open(hs, from) then was else if from in was then was - {from} + {to} else was - {to}
    case Copy(to, from) =>
      if !Open(hs, to) || !Open(hs, from) then was else if from in was then was + {to} else was - {to}
    case Distribute(i, takes, readers) =>
      set k | k in Given(was, i, |hs|, takes) && !Shutting(|hs|, takes, readers, |takes|, k)
  }

  predicate HandedOut(k: nat, size: nat, takes: seq<bool>)
  {
    size <= k < size + Trues(takes)
  }

  // Each pipe that takes the message gets a handle, and the i-th gives up its own.
  function Given(was: set<nat>, i: nat, size: nat, takes: seq<bool>): set<nat>
  {
    if i in was then was - {i} + set k: nat | k < size + Trues(takes) && HandedOut(k, size, takes) else was
  }

  lemma Holders(ops: seq<Op>, op: Op, n: nat)
    requires Can(Hands(ops), op)
    ensures Keeping(Hands(ops + [op]), n) == Heirs(Hands(ops), Keeping(Hands(ops), n), op, Made(ops), n)
  {
    HandsSnoc(ops, op);
    HandsSound(ops);
    HoldersAfter(Hands(ops), op, Made(ops), n);
  }

  lemma HoldersAfter(hs: seq<Hand<nat>>, op: Op, made: nat, n: nat)
    requires Can(hs, op) && Sound(hs, made)
    ensures Keeping(After(hs, op, Some(made)), n) == Heirs(hs, Keeping(hs, n), op, made, n)
  {
    if op.Distribute? {
      HoldersShared(hs, op.i, op.takes, op.readers, n);
    }
  }

  lemma HoldersShared(hs: seq<Hand<nat>>, i: nat, takes: seq<bool>, readers: seq<seq<nat>>, n: nat)
    requires i < |hs| && |takes| == |readers|
    ensures Keeping(OfferEach(hs, i, takes, readers, |takes|)[i := Blank()], n) ==
            set k | k in Given(Keeping(hs, n), i, |hs|, takes) && !Shutting(|hs|, takes, readers, |takes|, k)
  {
    var r := OfferEach(hs, i, takes, readers, |takes|);
    OfferSize(hs, i, takes, readers, |takes|);
    assert takes[..|takes|] == takes;
    forall k: nat | k < |r|
      ensures k in Keeping(r[i := Blank()], n) <==>
              k in Given(Keeping(hs, n), i, |hs|, takes) && !Shutting(|hs|, takes, readers, |takes|, k)
    {
      OfferFacts(hs, i, takes, readers, |takes|, k);
    }
  }

  /* The same with blocks in place of their numbers. */

  predicate Same<C(==)>(a: Hand<C>, b: Hand<nat>, made: seq<C>)
  {
    && a.kind == b.kind
    && match b.block
       case None => a.block == None
       case Some(n) => n < |made| && a.block == Some(made[n])
  }

  predicate Agree<C(==)>(hs: seq<Hand<C>>, ns: seq<Hand<nat>>, made: seq<C>)
  {
    |hs| == |ns| && forall k | 0 <= k < |hs| :: Same(hs[k], ns[k], made)
  }

  lemma {:induction false} AgreeClose<C>(hs: seq<Hand<C>>, ns: seq<Hand<nat>>, made: seq<C>, ks: seq<nat>, i: nat,
                                         n: nat)
    requires Agree(hs, ns, made) && n <= |ks|
    ensures Agree(CloseEach(hs, ks, i, n), CloseEach(ns, ks, i, n), made)
  {
    if n > 0 {
      AgreeClose(hs, ns, made, ks, i, n - 1);
    }
  }

  lemma {:induction false} AgreeOffer<C>(hs: seq<Hand<C>>, ns: seq<Hand<nat>>, made: seq<C>, i: nat,
                                         takes: seq<bool>, readers: seq<seq<nat>>, n: nat)
    requires Agree(hs, ns, made) && i < |hs| && n <= |takes| == |readers|
    ensures Agree(OfferEach(hs, i, takes, readers, n), OfferEach(ns, i, takes, readers, n), made)
  {
    if n > 0 {
      AgreeOffer(hs, ns, made, i, takes, readers, n - 1);
      var h, m := OfferEach(hs, i, takes, readers, n - 1), OfferEach(ns, i, takes, readers, n - 1);
      assert Agree(Give(h, i, takes[n - 1]), Give(m, i, takes[n - 1]), made);
      AgreeClose(Give(h, i, takes[n - 1]), Give(m, i, takes[n - 1]), made, readers[n - 1], i, |readers[n - 1]|);
    }
  }

  lemma AgreeAfter<C>(hs: seq<Hand<C>>, ns: seq<Hand<nat>>, made: seq<C>, op: Op, block: Option<C>)
    requires Agree(hs, ns, made) && Can(hs, op) && (Makes(op) ==> block.Some?)
    ensures Can(ns, op)
    ensures Agree(After(hs, op, block), After(ns, op, Some(|made|)),
                  if Makes(op) then made + [block.value] else made)
  {
    if op.Distribute? {
      AgreeOffer(hs, ns, made, op.i, op.takes, op.readers, |op.takes|);
    }
  }

  lemma AgreeCan<C>(hs: seq<Hand<C>>, ns: seq<Hand<nat>>, made: seq<C>, op: Op)
    requires Agree(hs, ns, made)
    ensures Can(hs, op) <==> Can(ns, op)
  {
  }
}
