/** What the decoder and the handles make of the receive buffers, told without counters: which handle holds a message
    in which block. */
module ReceivedHands {
  import opened Bytes
  import opened MessageHands
  import opened Messages
  import opened Sequences

  datatype Step =
    | Handle(op: Op)                        // something is done with messages, whoever does it
    | Allocate
    | Resize(size: nat)
    | Receive(i: nat, off: nat, len: nat)   // the i-th handle gets the bytes of a message that lies in the buffer
    | Deallocate

  // The handles, the block of each content received in place, the decoder's block, and how far it is filled and taken.
  datatype Desk<C, B> = Desk(hs: seq<Hand<C>>, where: map<C, B>, buf: Option<B>, size: nat, end: nat)

  // The contents in a block that some handle holds.
  function In<C, B(==)>(d: Desk<C, B>, b: B): set<C>
  {
    set c | c in d.where && d.where[c] == b && Keeping(d.hs, c) != {}
  }

  // Messages are laid one behind the other in the bytes that were read.
  predicate May<C(==), B>(d: Desk<C, B>, s: Step, maxSize: nat)
  {
    match s
    case Handle(op) => Can(d.hs, op) && !op.InitExternal?
    case Allocate => true
    case Resize(size) => size <= maxSize && d.end == 0
    case Receive(i, off, len) =>
      i < |d.hs| && !IsLong(d.hs[i].kind) && d.buf.Some? && d.end <= off && off + len <= d.size
    case Deallocate => true
  }

  predicate Fills<C, B>(d: Desk<C, B>, s: Step)
  {
    match s
    case Handle(op) => Makes(op)
    case Receive(i, off, len) => len >= MAX_VSM_SIZE
    case _ => false
  }

  // The decoder's block is used again only if no handle holds a message in it.
  predicate Renews<C, B(==)>(d: Desk<C, B>, s: Step)
  {
    s.Allocate? && (d.buf.Some? ==> In(d, d.buf.value) != {})
  }

  // `c` is the content that is made, and `b` the block that is taken, if any.
  function Act<C, B(==)>(d: Desk<C, B>, s: Step, maxSize: nat, c: Option<C>, b: Option<B>): Desk<C, B>
    requires May(d, s, maxSize) && (Fills(d, s) ==> c.Some?)
  {
    match s
    case Handle(op) => d.(hs := After(d.hs, op, c))
    case Allocate => d.(buf := if Renews(d, s) then b else d.buf, size := maxSize, end := 0)
    case Resize(size) => d.(size := size)
    case Receive(i, off, len) =>
      if len < MAX_VSM_SIZE then d.(hs := d.hs[i := Blank()])
      else d.(hs := d.hs[i := Hand(ZeroCopy, c)], where := d.where[c.value := d.buf.value], end := off + len)
    case Deallocate => d.(buf := None, size := 0, end := 0)
  }

  /* Whole runs, contents and blocks being numbered as they are made. */

  datatype Tale = Tale(desk: Desk<nat, nat>, made: nat, blocks: nat)

  function Next(t: Tale, s: Step, maxSize: nat): Tale
  {
    if !May(t.desk, s, maxSize) then t
    else Tale(Act(t.desk, s, maxSize, Some(t.made), Some(t.blocks)), t.made + if Fills(t.desk, s) then 1 else 0,
              t.blocks + if Renews(t.desk, s) then 1 else 0)
  }

  // Steps that make no sense where they come are passed over.
  function Told(steps: seq<Step>, maxSize: nat): Tale
  {
    if steps == [] then Tale(Desk([], map[], None, 0, 0), 0, 0)
    else Next(Told(steps[..|steps| - 1], maxSize), steps[|steps| - 1], maxSize)
  }

  lemma ToldSnoc(steps: seq<Step>, s: Step, maxSize: nat)
    ensures Told(steps + [s], maxSize) == Next(Told(steps, maxSize), s, maxSize)
  {
    assert (steps + [s])[..|steps|] == steps;
  }

  predicate Ordered(t: Tale)
  {
    && Sound(t.desk.hs, t.made)
    && (forall n | n in t.desk.where :: n < t.made && t.desk.where[n] < t.blocks)
    && (t.desk.buf.Some? ==> t.desk.buf.value < t.blocks)
  }

  lemma {:induction false} ToldOrdered(steps: seq<Step>, maxSize: nat)
    ensures Ordered(Told(steps, maxSize))
  {
    if steps != [] {
      var t, s := Told(steps[..|steps| - 1], maxSize), steps[|steps| - 1];
      ToldOrdered(steps[..|steps| - 1], maxSize);
      if s.Handle? && May(t.desk, s, maxSize) {
        AfterSound(t.desk.hs, s.op, t.made);
      }
    }
  }

  // The decoder never gets a block in which a message lies that some handle holds; and it gets its own again if it can.
  lemma NothingOverwritten(steps: seq<Step>, maxSize: nat)
    ensures var d, e := Told(steps, maxSize).desk, Told(steps + [Allocate], maxSize).desk;
            && e.buf.Some? && In(e, e.buf.value) == {}
            && (e.buf == d.buf <==> d.buf.Some? && In(d, d.buf.value) == {})
            && e.where == d.where && e.hs == d.hs
  {
    ToldSnoc(steps, Allocate, maxSize);
    ToldOrdered(steps, maxSize);
  }

  // A message received in place lies in the decoder's block, and the handle that got it is the only one to hold it.
  lemma LaidInBlock(steps: seq<Step>, i: nat, off: nat, len: nat, maxSize: nat)
    requires May(Told(steps, maxSize).desk, Receive(i, off, len), maxSize)
    ensures var t, e := Told(steps, maxSize), Told(steps + [Receive(i, off, len)], maxSize).desk;
            if len >= MAX_VSM_SIZE
            then In(e, t.desk.buf.value) == In(t.desk, t.desk.buf.value) + {t.made} && Keeping(e.hs, t.made) == {i}
            else In(e, t.desk.buf.value) == In(t.desk, t.desk.buf.value)
    ensures var t, e := Told(steps, maxSize), Told(steps + [Receive(i, off, len)], maxSize).desk;
            forall n :: n != t.made ==> Keeping(e.hs, n) == Keeping(t.desk.hs, n)
  {
    var t, e := Told(steps, maxSize), Told(steps + [Receive(i, off, len)], maxSize).desk;
    ToldSnoc(steps, Receive(i, off, len), maxSize);
    ToldOrdered(steps, maxSize);
    forall n | n != t.made ensures Keeping(e.hs, n) == Keeping(t.desk.hs, n) {
      assert forall k: nat | k < |e.hs| :: e.hs[k].block == Some(n) <==> t.desk.hs[k].block == Some(n);
    }
    if len >= MAX_VSM_SIZE {
      assert i in Keeping(e.hs, t.made);
      assert In(e, t.desk.buf.value) == In(t.desk, t.desk.buf.value) + {t.made};
    }
  }

  /* The same with contents and blocks in place of their numbers. */

  ghost predicate Alike<C, B>(d: Desk<C, B>, t: Tale, made: seq<C>, blocks: seq<B>)
  {
    && |made| == t.made && |blocks| == t.blocks && Distinct(made) && Distinct(blocks)
    && Agree(d.hs, t.desk.hs, made)
    && (forall n | n in t.desk.where ::
          n < |made| && t.desk.where[n] < |blocks| && made[n] in d.where && d.where[made[n]] == blocks[t.desk.where[n]])
    && (forall c | c in d.where :: exists n :: n in t.desk.where && n < |made| && made[n] == c)
    && (match t.desk.buf
        case None => d.buf == None
        case Some(b) => b < |blocks| && d.buf == Some(blocks[b]))
    && d.size == t.desk.size && d.end == t.desk.end
  }

  lemma AlikeKeeping<C, B>(d: Desk<C, B>, t: Tale, made: seq<C>, blocks: seq<B>, n: nat)
    requires Alike(d, t, made, blocks) && n < |made|
    ensures Keeping(d.hs, made[n]) == Keeping(t.desk.hs, n)
  {
  }

  // What lies in a block is numbered.
  lemma AlikeIn<C, B>(d: Desk<C, B>, t: Tale, made: seq<C>, blocks: seq<B>, b: nat)
    requires Alike(d, t, made, blocks) && b < |blocks|
    ensures forall n | n in In(t.desk, b) :: n < |made|
    ensures In(d, blocks[b]) == set n | n in In(t.desk, b) :: made[n]
    ensures |In(d, blocks[b])| == |In(t.desk, b)|
  {
    forall n | n in t.desk.where ensures Keeping(d.hs, made[n]) == Keeping(t.desk.hs, n) {
      AlikeKeeping(d, t, made, blocks, n);
    }
    forall c | c in In(d, blocks[b]) ensures c in set n | n in In(t.desk, b) :: made[n] {
      var n :| n in t.desk.where && n < |made| && made[n] == c;
      assert n in In(t.desk, b);
    }
    assert In(d, blocks[b]) == set n | n in In(t.desk, b) :: made[n];
    PlacesCount(made, In(t.desk, b));
  }

  lemma AlikeMay<C, B>(d: Desk<C, B>, t: Tale, made: seq<C>, blocks: seq<B>, s: Step, maxSize: nat)
    requires Alike(d, t, made, blocks)
    ensures May(d, s, maxSize) <==> May(t.desk, s, maxSize)
    ensures Fills(d, s) <==> Fills(t.desk, s)
    ensures Renews(d, s) <==> Renews(t.desk, s)
  {
    if s.Handle? {
      AgreeCan(d.hs, t.desk.hs, made, s.op);
    }
    if s.Allocate? && t.desk.buf.Some? {
      AlikeIn(d, t, made, blocks, t.desk.buf.value);
    }
  }

  lemma AlikeAct<C, B>(d: Desk<C, B>, t: Tale, made: seq<C>, blocks: seq<B>, s: Step, maxSize: nat, c: Option<C>,
                       b: Option<B>)
    requires Alike(d, t, made, blocks) && May(d, s, maxSize)
    requires Fills(d, s) ==> c.Some? && c.value !in made
    requires Renews(d, s) ==> b.Some? && b.value !in blocks
    ensures Alike(Act(d, s, maxSize, c, b), Next(t, s, maxSize), if Fills(d, s) then made + [c.value] else made,
                  if Renews(d, s) then blocks + [b.value] else blocks)
  {
    AlikeMay(d, t, made, blocks, s, maxSize);
    match s
    case Handle(_) => AlikeHandle(d, t, made, blocks, s, maxSize, c);
    case Allocate => AlikeAllocate(d, t, made, blocks, s, maxSize, b);
    case Receive(_, _, len) => AlikeReceive(d, t, made, blocks, s, maxSize, c);
    case _ =>
  }

  lemma AlikeHandle<C, B>(d: Desk<C, B>, t: Tale, made: seq<C>, blocks: seq<B>, s: Step, maxSize: nat, c: Option<C>)
    requires Alike(d, t, made, blocks) && May(d, s, maxSize) && May(t.desk, s, maxSize)
    requires s.Handle? && (Fills(d, s) ==> c.Some? && c.value !in made)
    ensures Alike(Act(d, s, maxSize, c, None), Next(t, s, maxSize), if Fills(d, s) then made + [c.value] else made,
                  blocks)
  {
    AgreeAfter(d.hs, t.desk.hs, made, s.op, c);
    var all := if Fills(d, s) then made + [c.value] else made;
    forall x | x in d.where ensures exists n :: n in t.desk.where && n < |all| && all[n] == x {
      var n :| n in t.desk.where && n < |made| && made[n] == x;
      assert all[n] == x;
    }
  }

  lemma AlikeAllocate<C, B>(d: Desk<C, B>, t: Tale, made: seq<C>, blocks: seq<B>, s: Step, maxSize: nat, b: Option<B>)
    requires Alike(d, t, made, blocks) && May(d, s, maxSize)
    requires s.Allocate? && (Renews(d, s) <==> Renews(t.desk, s)) && (Renews(d, s) ==> b.Some? && b.value !in blocks)
    ensures Alike(Act(d, s, maxSize, None, b), Next(t, s, maxSize), made,
                  if Renews(d, s) then blocks + [b.value] else blocks)
  {
  }

  lemma AlikeReceive<C, B>(d: Desk<C, B>, t: Tale, made: seq<C>, blocks: seq<B>, s: Step, maxSize: nat, c: Option<C>)
    requires Alike(d, t, made, blocks) && May(d, s, maxSize) && May(t.desk, s, maxSize)
    requires s.Receive? && (Fills(d, s) ==> c.Some? && c.value !in made)
    ensures Alike(Act(d, s, maxSize, c, None), Next(t, s, maxSize), if Fills(d, s) then made + [c.value] else made,
                  blocks)
  {
    if Fills(d, s) {
      var e, u, all := Act(d, s, maxSize, c, None), Next(t, s, maxSize), made + [c.value];
      assert all[|made|] == c.value && |made| in u.desk.where;
      forall x | x in e.where ensures exists n :: n in u.desk.where && n < |all| && all[n] == x {
        if x != c.value {
          var n :| n in t.desk.where && n < |made| && made[n] == x;
          assert all[n] == x;
        }
      }
    }
  }
}
