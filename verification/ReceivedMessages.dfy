/** Receive buffers and the messages that lie in them, from the decoder to the last handle. */
module ReceivedMessages {
  import opened Bytes
  import opened MessageHands
  import opened MessageRuns
  import opened Messages
  import opened ReceiveBuffers
  import opened ReceivedHands
  import opened Sequences
  import R = ReceiveBufferRuns

  class Inbox {
    const pool: Pool
    const allocator: Allocator
    var where: map<Content, Buffer>         // the block of each content received in place
    var told: set<Content>                  // the contents whose free function has been called
    var end: nat                            // how far the bytes of the buffer are taken
    ghost var blocks: seq<Buffer>           // the blocks in the order in which they were taken

    // What lies in a block and has not been freed.
    ghost function Lying(b: Buffer): set<Content>
      reads this`where, this`told
    {
      set c | c in where && where[c] == b && c !in told
    }

    // A block counts what lies in it.
    ghost predicate Counted()
      reads this`where, this`told, allocator, allocator.buffers
    {
      && allocator.Valid()
      && (forall c | c in where :: where[c] in allocator.buffers)
      && (forall b | b in allocator.buffers :: b.live == |Lying(b)|)
    }

    ghost predicate Placed()
      reads this`where, pool, pool.msgs, pool.contents
    {
      pool.Valid() && where.Keys <= pool.contents
    }

    // The contents received in place that nobody refers to any more.
    ghost function Freed(): set<Content>
      reads this`where, where.Keys
    {
      set c | c in where && c.References() == 0
    }

    ghost predicate Valid()
      reads this, pool, pool.msgs, pool.contents, where.Keys, allocator, allocator.buffers
    {
      Counted() && Placed() && told == Freed() && Ended() && Listed()
    }

    ghost predicate Listed()
      reads this`blocks, allocator
    {
      Distinct(blocks) && allocator.buffers == set b | b in blocks
    }

    ghost function Look(): Desk<Content, Buffer>
      reads this, pool, pool.msgs, allocator
    {
      Desk(pool.Shots(), where, Block(), allocator.bufSize, end)
    }

    function Block(): Option<Buffer>
      reads allocator
    {
      if allocator.buf == null then None else Some(allocator.buf)
    }

    // What has not been freed is held.
    lemma LyingIs(b: Buffer)
      requires Valid()
      ensures Lying(b) == In(Look(), b)
    {
      forall c | c in where ensures c in told <==> Keeping(pool.Shots(), c) == {} {
        pool.HoldersAre(c);
        pool.HoldingCount(c);
      }
    }

    ghost predicate Ended()
      reads this`end, allocator
    {
      end == R.End(allocator.spans)
    }

    constructor (maxSize: nat)
      ensures Valid() && fresh(pool) && fresh(allocator)
      ensures pool.msgs == [] && pool.contents == {} && allocator.buffers == {} && allocator.maxSize == maxSize
      ensures Follows([])
    {
      pool := new Pool();
      allocator := new Allocator(maxSize);
      where, told, end, blocks := map[], {}, 0, [];
    }

    predicate Enabled(s: Step)
      reads this, pool, pool.msgs, allocator
    {
      match s
      case Handle(op) => pool.Enabled(op) && !op.InitExternal?
      case Allocate => true
      case Resize(size) => size <= allocator.maxSize && end == 0
      case Receive(i, off, len) =>
        && i < |pool.msgs| && !pool.msgs[i].IsLong()
        && allocator.buf != null && end <= off && off + len <= allocator.bufSize
      case Deallocate => true
    }

    lemma EnabledIff(s: Step)
      ensures Enabled(s) <==> May(Look(), s, allocator.maxSize)
    {
      if s.Handle? {
        pool.EnabledIff(s.op);
      }
    }

    // The block of a content that has been given back loses a message.
    method Tell(c: Content)
      requires Counted() && c in where && c !in told
      modifies this`told, where[c]
      ensures Counted() && told == old(told) + {c}
    {
      ghost var block, lay := where[c], Lying(where[c]);
      assert c in lay && block in allocator.buffers && block.live == |lay|;
      allocator.CloseMessage(where[c]);
      told := told + {c};
      OneLess(block, lay, c);
      OthersSame(block);
    }

    lemma OneLess(b: Buffer, lay: set<Content>, c: Content)
      requires c in lay && Lying(b) == lay - {c}
      ensures |Lying(b)| == |lay| - 1
    {
    }

    twostate lemma OthersSame(block: Buffer)
      requires where == old(where) && allocator.buffers == old(allocator.buffers) && old(told) <= told
      requires forall c | c in told - old(told) :: c in where && where[c] == block
      ensures forall b | b in allocator.buffers && b != block :: Lying(b) == old(Lying(b))
    {
    }

    static lemma Shifted(told: set<Content>, rest: set<Content>, c: Content)
      requires c in rest && told !! rest
      ensures told + {c} + (rest - {c}) == told + rest && told + {c} !! rest - {c}
    {
    }

    method TellThese(gone: set<Content>)
      requires Counted() && gone <= where.Keys && gone !! told
      modifies this`told, allocator.buffers
      ensures Counted() && told == old(told) + gone
    {
      var rest := gone;
      while rest != {}
        invariant Counted() && rest <= gone && rest !! told && told + rest == old(told) + gone
        decreases rest
      {
        var c :| c in rest;
        Shifted(told, rest, c);
        Tell(c);
        rest := rest - {c};
      }
    }

    method TellAll()
      requires Counted() && Placed() && told <= Freed()
      modifies this`told, allocator.buffers
      ensures Counted() && told == Freed()
    {
      assert forall c | c in where :: c.Valid();
      var gone := set c | c in where && c.released > 0 && c !in told;
      assert told + gone == Freed();
      TellThese(gone);
    }

    // Only new objects have joined.
    twostate predicate Grown()
      reads this, pool, allocator
    {
      && (forall k | 0 <= k < |pool.msgs| :: pool.msgs[k] in old(pool.msgs) || fresh(pool.msgs[k]))
      && fresh(pool.contents - old(pool.contents)) && fresh(allocator.buffers - old(allocator.buffers))
    }

    method DoHandle(op: Op) returns (ghost c: Option<Content>)
      requires Valid() && pool.Enabled(op)
      modifies this`told, pool, pool.msgs, pool.contents, allocator.buffers
      ensures Valid() && Grown() && Can(old(pool.Shots()), op) && (c.Some? <==> Makes(op))
      ensures pool.Shots() == After(old(pool.Shots()), op, c) && pool.Wrote(c)
    {
      assert told <= pool.Dead();
      c := pool.Step(op);
      TellAll();
    }

    // Every block but one counts what lies in it, and that one a content that is still to come.
    ghost predicate CountsOneMore(b: Buffer)
      reads this`where, this`told, allocator, allocator.buffers
    {
      && allocator.Valid() && b in allocator.buffers && b.live == |Lying(b)| + 1
      && (forall c | c in where :: where[c] in allocator.buffers)
      && (forall x | x in allocator.buffers && x != b :: x.live == |Lying(x)|)
    }

    method Place(c: Content, b: Buffer)
      requires CountsOneMore(b) && c !in where && c !in told && c.References() > 0
      modifies this`where
      ensures Counted() && where == old(where)[c := b] && Freed() == old(Freed())
    {
      ghost var lay := Lying(b);
      where := where[c := b];
      assert Lying(b) == lay + {c};
      forall x | x in allocator.buffers && x != b ensures Lying(x) == old(Lying(x)) {
      }
    }

    // The i-th handle gets a content that lies in the block.
    method Hold(i: nat, b: Buffer) returns (c: Content)
      requires CountsOneMore(b) && Placed() && told == Freed()
      requires i < |pool.msgs| && !pool.msgs[i].IsLong()
      modifies this`where, pool`contents, pool`made, pool.msgs[i]
      ensures Counted() && Placed() && told == Freed() && where == old(where)[c := b]
      ensures pool.Wrote(Some(c)) && pool.Shots() == old(pool.Shots())[i := Hand(ZeroCopy, Some(c))]
    {
      c := Obtain(i);
      Place(c, b);
    }

    method Obtain(i: nat) returns (c: Content)
      requires Placed() && told == Freed() && i < |pool.msgs| && !pool.msgs[i].IsLong()
      modifies pool`contents, pool`made, pool.msgs[i]
      ensures Placed() && told == Freed() && c in pool.contents && c.References() > 0 && c !in where && c !in told
      ensures pool.Wrote(Some(c)) && pool.Shots() == old(pool.Shots())[i := Hand(ZeroCopy, Some(c))]
    {
      pool.DoInitExternal(i);
      c := pool.msgs[i].content;
      assert pool.msgs[i] in pool.msgs && pool.msgs[i].Valid();
    }

    // A message that lies in the buffer as a whole is laid out there.
    method Lay(off: nat, len: nat) returns (zeroCopy: bool)
      requires Counted() && Ended() && allocator.buf != null && end <= off && off + len <= allocator.bufSize
      modifies this`end, allocator`msgContent, allocator`spans, allocator.buf
      ensures Ended() && allocator.buf != null
      ensures if zeroCopy then CountsOneMore(allocator.buf) else Counted()
      ensures zeroCopy == (len >= MAX_VSM_SIZE) && end == if zeroCopy then off + len else old(end)
    {
      var slot;
      zeroCopy, slot := allocator.Create(off, len);
      if zeroCopy {
        end := off + len;
      }
    }

    method DoReceive(i: nat, off: nat, len: nat) returns (ghost c: Option<Content>)
      requires Valid() && Enabled(Receive(i, off, len))
      modifies this`where, this`end, pool`contents, pool`made, pool.msgs[i]
      modifies allocator`msgContent, allocator`spans, allocator.buf
      ensures Valid() && (c.Some? <==> len >= MAX_VSM_SIZE) && pool.Wrote(c)
      ensures pool.Shots() == old(pool.Shots())[i := if c.Some? then Hand(ZeroCopy, c) else Blank()]
      ensures where == if c.Some? then old(where)[c.value := allocator.buf] else old(where)
      ensures end == if c.Some? then off + len else old(end)
    {
      var zeroCopy := Lay(off, len);
      c := Fill(i, zeroCopy, allocator.buf);
    }

    // The i-th handle gets what lies in the block, or a copy of it.
    method Fill(i: nat, zeroCopy: bool, b: Buffer) returns (ghost c: Option<Content>)
      requires (if zeroCopy then CountsOneMore(b) else Counted())
      requires Placed() && told == Freed() && Ended() && Listed() && i < |pool.msgs| && !pool.msgs[i].IsLong()
      modifies this`where, pool`contents, pool`made, pool.msgs[i]
      ensures Valid() && (c.Some? <==> zeroCopy) && pool.Wrote(c)
      ensures pool.Shots() == old(pool.Shots())[i := if c.Some? then Hand(ZeroCopy, c) else Blank()]
      ensures where == if c.Some? then old(where)[c.value := b] else old(where)
    {
      c := None;
      if zeroCopy {
        var made := Hold(i, b);
        c := Some(made);
      } else {
        pool.DoInit(i);
      }
    }

    // The decoder gets a block in which nothing lies, its own if it can.
    method Renew() returns (data: Buffer)
      requires Counted()
      modifies allocator, allocator.buf
      ensures Counted() && allocator.buf == data && Lying(data) == {} && allocator.spans == []
      ensures allocator.bufSize == allocator.maxSize
      ensures if old(allocator.buf) != null && old(Lying(allocator.buf)) == {}
              then data == old(allocator.buf) && allocator.buffers == old(allocator.buffers)
              else fresh(data) && allocator.buffers == old(allocator.buffers) + {data}
    {
      data := allocator.Allocate(0);
      if data in old(allocator.buffers) {
        assert |Lying(data)| == 0;
      } else {
        assert forall c | c in where :: where[c] != data;
        assert Lying(data) == {};
      }
    }

    // The decoder's block, which may be a new one, joins the others.
    method Enlist(data: Buffer) returns (ghost b: Option<Buffer>)
      requires Counted() && Placed() && told == Freed() && allocator.spans == [] && Distinct(blocks)
      requires data in allocator.buffers && allocator.buffers == (set x | x in blocks) + {data}
      modifies this`end, this`blocks
      ensures Valid() && end == 0
      ensures b == (if data in old(blocks) then None else Some(data))
      ensures blocks == old(blocks) + if b.Some? then [data] else []
    {
      b := if data in blocks then None else Some(data);
      blocks := blocks + if b.Some? then [data] else [];
      end := 0;
    }

    method DoAllocate() returns (ghost b: Option<Buffer>)
      requires Valid()
      modifies this`end, this`blocks, allocator, allocator.buf
      ensures Valid() && Grown() && allocator.buf != null && Lying(allocator.buf) == {} && Listing(b)
      ensures b.Some? <==> old(allocator.buf == null || Lying(allocator.buf) != {})
      ensures allocator.buf == (if b.Some? then b.value else old(allocator.buf))
      ensures allocator.bufSize == allocator.maxSize && end == 0
    {
      var data := Renew();
      b := Enlist(data);
    }

    method DoDeallocate()
      requires Valid()
      modifies this`end, allocator, allocator.buf
      ensures Valid() && Grown() && allocator.buf == null && allocator.bufSize == 0 && end == 0
    {
      allocator.Deallocate();
      end := 0;
    }

    method DoResize(size: nat)
      requires Valid() && Enabled(Resize(size))
      modifies allocator`bufSize
      ensures Valid() && Grown() && allocator.bufSize == size
    {
      allocator.Resize(size);
    }

    twostate predicate Listing(new b: Option<Buffer>)
      reads this`blocks
    {
      match b
      case None => blocks == old(blocks)
      case Some(x) => blocks == old(blocks) + [x] && fresh(x)
    }

    method TakeHandle(op: Op) returns (ghost c: Option<Content>)
      requires Valid() && Enabled(Handle(op))
      modifies this`told, pool, pool.msgs, pool.contents, allocator.buffers
      ensures Valid() && Grown() && May(old(Look()), Handle(op), allocator.maxSize) && (c.Some? <==> Makes(op))
      ensures Look() == Act(old(Look()), Handle(op), allocator.maxSize, c, None) && pool.Wrote(c)
    {
      EnabledIff(Handle(op));
      c := DoHandle(op);
    }

    method TakeAllocate() returns (ghost b: Option<Buffer>)
      requires Valid()
      modifies this`end, this`blocks, allocator, allocator.buf
      ensures Valid() && Grown() && (b.Some? <==> Renews(old(Look()), Allocate)) && Listing(b)
      ensures Look() == Act(old(Look()), Allocate, allocator.maxSize, None, b)
    {
      if allocator.buf != null {
        assert allocator.buf in allocator.buffers;
        LyingIs(allocator.buf);
      }
      b := DoAllocate();
    }

    method TakeReceive(i: nat, off: nat, len: nat) returns (ghost c: Option<Content>)
      requires Valid() && Enabled(Receive(i, off, len))
      modifies this`where, this`end, pool`contents, pool`made, pool.msgs[i]
      modifies allocator`msgContent, allocator`spans, allocator.buf
      ensures Valid() && Grown() && May(old(Look()), Receive(i, off, len), allocator.maxSize)
      ensures (c.Some? <==> len >= MAX_VSM_SIZE) && pool.Wrote(c)
      ensures Look() == Act(old(Look()), Receive(i, off, len), allocator.maxSize, c, None)
    {
      EnabledIff(Receive(i, off, len));
      c := DoReceive(i, off, len);
    }

    method Take(s: Step) returns (ghost c: Option<Content>, ghost b: Option<Buffer>)
      requires Valid() && Enabled(s)
      modifies this, pool, pool.msgs, pool.contents, allocator, allocator.buffers
      ensures Valid() && Grown() && May(old(Look()), s, allocator.maxSize)
      ensures (c.Some? <==> Fills(old(Look()), s)) && (b.Some? <==> Renews(old(Look()), s))
      ensures Look() == Act(old(Look()), s, allocator.maxSize, c, b) && pool.Wrote(c) && Listing(b)
    {
      EnabledIff(s);
      assert allocator.buf != null ==> allocator.buf in allocator.buffers;
      c, b := None, None;
      match s {
        case Handle(op) => c := TakeHandle(op);
        case Allocate => b := TakeAllocate();
        case Resize(size) => DoResize(size);
        case Receive(i, off, len) => c := TakeReceive(i, off, len);
        case Deallocate => DoDeallocate();
      }
    }

    // Handles and blocks are what these steps have made of them.
    ghost predicate Follows(steps: seq<Step>)
      reads this, pool, pool.msgs, allocator
    {
      Alike(Look(), Told(steps, allocator.maxSize), pool.made, blocks)
    }

    method Go(steps: seq<Step>, k: nat, ghost past: seq<Step>) returns (ghost now: seq<Step>)
      requires Valid() && k < |steps| && past == steps[..k] && Follows(past)
      modifies this, pool, pool.msgs, pool.contents, allocator, allocator.buffers
      ensures Valid() && Grown() && now == steps[..k + 1] && Follows(now)
    {
      ghost var desk, tale, made, were := Look(), Told(past, allocator.maxSize), pool.made, blocks;
      now := past + [steps[k]];
      ToldSnoc(past, steps[k], allocator.maxSize);
      EnabledIff(steps[k]);
      AlikeMay(desk, tale, made, were, steps[k], allocator.maxSize);
      if Enabled(steps[k]) {
        ghost var c, b := Take(steps[k]);
        AlikeAct(desk, tale, made, were, steps[k], allocator.maxSize, c, b);
      }
    }

    // Steps that make no sense where they come are passed over.
    method Run(steps: seq<Step>)
      requires Valid() && Follows([])
      modifies this, pool, pool.msgs, pool.contents, allocator, allocator.buffers
      ensures Valid() && Follows(steps)
    {
      var k := 0;
      ghost var past := steps[..0];
      while k < |steps|
        invariant k <= |steps| && past == steps[..k] && Valid() && Grown() && Follows(past)
      {
        past := Go(steps, k, past);
        k := k + 1;
      }
      assert past == steps;
    }

    // Some handle holds a message that lies in the block.
    ghost predicate Occupied(b: Buffer)
      reads this, pool, pool.msgs
    {
      exists c :: c in where && where[c] == b && pool.Holding(c) != {}
    }

    // The block counts the contents in it that have not been given back, and is freed, once, when the decoder has
    // let go of it and no handle holds a message that lies in it.
    lemma BlockAccounted(b: Buffer)
      requires Valid() && b in allocator.buffers
      ensures b.live == |set c | c in where && where[c] == b && c.released == 0|
      ensures b.freed == if b == allocator.buf || Occupied(b) then 0 else 1
    {
      assert b.Valid();
      forall c | c in where ensures c in told <==> c.released == 1 {
        assert c.Valid();
      }
      assert Lying(b) == set c | c in where && where[c] == b && c.released == 0;
      forall c | c in where ensures c in told <==> pool.Holding(c) == {} {
        pool.HoldersAre(c);
      }
      if Occupied(b) {
        var c :| c in where && where[c] == b && pool.Holding(c) != {};
        assert c in Lying(b);
      } else {
        assert Lying(b) == {};
      }
    }

    lemma BlockHeld(steps: seq<Step>, b: nat)
      requires Valid() && Follows(steps) && b < |blocks|
      ensures CountsHeld(blocks[b], Told(steps, allocator.maxSize).desk, b)
    {
      var t := Told(steps, allocator.maxSize);
      LyingIs(blocks[b]);
      AlikeIn(Look(), t, pool.made, blocks, b);
      assert blocks[b] in allocator.buffers && blocks[b].Valid();
      assert |In(t.desk, b)| == 0 <==> In(t.desk, b) == {};
    }
  }

  // The b-th block counts the contents in it that some handle holds, and is freed, once, if there are none and the
  // decoder has let go of it.
  ghost predicate CountsHeld(block: Buffer, d: Desk<nat, nat>, b: nat)
    reads block
  {
    && block.live == |In(d, b)|
    && block.freed == if d.buf == Some(b) || In(d, b) != {} then 0 else 1
  }

  // So it is with every block there ever was, after any run.
  method FreedWithMessages(maxSize: nat, steps: seq<Step>) returns (r: Inbox)
    ensures r.Valid() && |r.blocks| == Told(steps, maxSize).blocks
    ensures forall b: nat | b < |r.blocks| :: CountsHeld(r.blocks[b], Told(steps, maxSize).desk, b)
    ensures forall b | b in r.allocator.buffers ::
              && b.live == |set c | c in r.where && r.where[c] == b && c.released == 0|
              && b.freed == if b == r.allocator.buf || r.Occupied(b) then 0 else 1
  {
    r := new Inbox(maxSize);
    r.Run(steps);
    forall b: nat | b < |r.blocks| ensures CountsHeld(r.blocks[b], Told(steps, maxSize).desk, b) {
      r.BlockHeld(steps, b);
    }
    forall b | b in r.allocator.buffers
      ensures b.live == |set c | c in r.where && r.where[c] == b && c.released == 0|
      ensures b.freed == if b == r.allocator.buf || r.Occupied(b) then 0 else 1
    {
      r.BlockAccounted(b);
    }
  }
}
