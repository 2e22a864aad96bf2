/** Receive buffers over whole runs of the decoder and of the threads that close messages. */
module ReceiveBufferRuns {
  import opened Bytes
  import opened ReceiveBuffers
  import opened Sequences

  datatype Op =
    | Allocate(closed: nat)      // with messages of the old buffer closed in the meantime
    | Resize(size: nat)
    | Create(off: nat, len: nat)
    | Close(k: nat)              // a message in the k-th block, wherever it is by then
    | Deallocate

  function End(spans: seq<Span>): nat
  {
    if spans == [] then 0 else spans[|spans| - 1].off + spans[|spans| - 1].len
  }

  // The messages in each block there ever was, the decoder's block, and how far it is filled and taken.
  datatype Desk = Desk(live: seq<nat>, buf: Option<nat>, size: nat, end: nat)

  predicate May(d: Desk, op: Op, maxSize: nat)
  {
    match op
    case Allocate(closed) =>
      (match d.buf case None => true case Some(b) => b < |d.live| && closed <= d.live[b])
    case Resize(size) => size <= maxSize && d.end == 0
    case Create(off, len) =>
      (match d.buf case None => false case Some(b) => b < |d.live|) && d.end <= off && off + len <= d.size
    case Close(k) => k < |d.live| && d.live[k] > 0
    case Deallocate => true
  }

  predicate Vacant(d: Desk)
  {
    match d.buf
    case None => false
    case Some(b) => b < |d.live| && d.live[b] == 0
  }

  function Act(d: Desk, op: Op, maxSize: nat): Desk
    requires May(d, op, maxSize)
  {
    match op
    case Allocate(closed) =>
      if Vacant(d) then d.(size := maxSize, end := 0)
      else
        var rest := match d.buf case None => d.live case Some(b) => d.live[b := d.live[b] - closed];
        Desk(rest + [0], Some(|d.live|), maxSize, 0)
    case Resize(size) => d.(size := size)
    case Create(off, len) =>
      if len < MAX_VSM_SIZE then d
      else d.(live := d.live[d.buf.value := d.live[d.buf.value] + 1], end := off + len)
    case Close(k) => d.(live := d.live[k := d.live[k] - 1])
    case Deallocate => d.(buf := None, size := 0, end := 0)
  }

  // Operations that make no sense where they come are passed over.
  function Told(ops: seq<Op>, maxSize: nat): Desk
  {
    if ops == [] then Desk([], None, 0, 0)
    else
      var d := Told(ops[..|ops| - 1], maxSize);
      if May(d, ops[|ops| - 1], maxSize) then Act(d, ops[|ops| - 1], maxSize) else d
  }

  lemma ToldSnoc(ops: seq<Op>, op: Op, maxSize: nat)
    ensures var d := Told(ops, maxSize);
            Told(ops + [op], maxSize) == if May(d, op, maxSize) then Act(d, op, maxSize) else d
  {
    assert (ops + [op])[..|ops|] == ops;
  }

  // The decoder's block is one of them.
  lemma {:induction false} ToldOrdered(ops: seq<Op>, maxSize: nat)
    ensures var d := Told(ops, maxSize); d.buf.Some? ==> d.buf.value < |d.live|
  {
    if ops != [] {
      ToldOrdered(ops[..|ops| - 1], maxSize);
    }
  }

  // What the decoder gets is empty; it is the block it had exactly if no message lay in that.
  lemma TakenVacant(ops: seq<Op>, closed: nat, maxSize: nat)
    requires May(Told(ops, maxSize), Allocate(closed), maxSize)
    ensures var d, e := Told(ops, maxSize), Told(ops + [Allocate(closed)], maxSize);
            && Vacant(e) && (e.buf == d.buf <==> d.buf.Some? && d.live[d.buf.value] == 0)
            && |e.live| == |d.live| + if e.buf == d.buf then 0 else 1
  {
    ToldSnoc(ops, Allocate(closed), maxSize);
    ToldOrdered(ops, maxSize);
  }

  // A block the decoder has let go of is never its block again, and gets no more messages.
  lemma {:induction false} LetGo(ops: seq<Op>, more: seq<Op>, maxSize: nat, k: nat)
    requires var d := Told(ops, maxSize); k < |d.live| && d.buf != Some(k)
    ensures var d, e := Told(ops, maxSize), Told(ops + more, maxSize);
            k < |e.live| && e.buf != Some(k) && e.live[k] <= d.live[k]
  {
    if more == [] {
      assert ops + more == ops;
    } else {
      var n := |more| - 1;
      LetGo(ops, more[..n], maxSize, k);
      ToldSnoc(ops + more[..n], more[n], maxSize);
      assert ops + more[..n] + [more[n]] == ops + more;
      var d := Told(ops + more[..n], maxSize);
      if May(d, more[n], maxSize) {
        StillLetGo(d, more[n], maxSize, k);
      }
    }
  }

  lemma StillLetGo(d: Desk, op: Op, maxSize: nat, k: nat)
    requires May(d, op, maxSize) && k < |d.live| && d.buf != Some(k)
    ensures var e := Act(d, op, maxSize); k < |e.live| && e.buf != Some(k) && e.live[k] <= d.live[k]
  {
  }

  class Receiver {
    const allocator: Allocator
    var blocks: seq<Buffer>      // every block there ever was
    var end: nat                 // how far the bytes of the buffer are taken

    ghost predicate Valid()
      reads this, allocator, allocator.buffers
    {
      && allocator.Valid() && allocator.buffers == (set b | b in blocks) && end == End(allocator.spans)
      && Distinct(blocks)
    }

    ghost predicate Shows(d: Desk)
      reads this, allocator, blocks
    {
      && |blocks| == |d.live| && (forall k | 0 <= k < |blocks| :: blocks[k].live == d.live[k])
      && (match d.buf
          case None => allocator.buf == null
          case Some(b) => b < |blocks| && allocator.buf == blocks[b])
      && allocator.bufSize == d.size && end == d.end
    }

    lemma EnabledIff(op: Op, d: Desk)
      requires Valid() && Shows(d)
      ensures Enabled(op) <==> May(d, op, allocator.maxSize)
    {
      forall k | 0 <= k < |blocks| ensures Live(blocks[k]) == d.live[k] {
        assert blocks[k] in allocator.buffers && blocks[k].Valid();
      }
    }

    constructor (maxSize: nat)
      ensures Valid() && blocks == [] && fresh(allocator) && allocator.buffers == {} && allocator.maxSize == maxSize
      ensures Shows(Told([], maxSize))
    {
      allocator := new Allocator(maxSize);
      blocks, end := [], 0;
    }

    // The messages in a block, by its counter.
    function Live(b: Buffer): int
      reads b, allocator
    {
      b.refcnt - if b == allocator.buf then 1 else 0
    }

    // Messages are laid one behind the other in the bytes that were read, and each is closed once.
    predicate Enabled(op: Op)
      reads this, allocator, allocator.buf, blocks
    {
      match op
      case Allocate(closed) => allocator.buf != null ==> closed <= Live(allocator.buf)
      case Resize(size) => size <= allocator.maxSize && end == 0
      case Create(off, len) => allocator.buf != null && end <= off && off + len <= allocator.bufSize
      case Close(k) => k < |blocks| && Live(blocks[k]) > 0
      case Deallocate => true
    }

    // No block is forgotten, and none that was given back is taken again.
    twostate predicate Kept()
      reads this, blocks
    {
      && old(blocks) <= blocks
      && (forall k | |old(blocks)| <= k < |blocks| :: fresh(blocks[k]))
      && (forall k | 0 <= k < |old(blocks)| :: blocks[k].freed >= old(blocks[k].freed))
    }

    method Step(op: Op, ghost d: Desk)
      requires Valid() && Enabled(op) && Shows(d) && May(d, op, allocator.maxSize)
      modifies this, allocator, blocks
      ensures Valid() && Kept() && Shows(Act(d, op, allocator.maxSize))
      ensures op.Allocate? ==> allocator.buf != null && allocator.buf.live == 0 && allocator.buf.freed == 0
      ensures op.Allocate? && allocator.buf in old(blocks) ==>
                old(allocator.buf) == allocator.buf && old(allocator.buf.live) == 0
    {
      match op {
        case Allocate(closed) => NewBuffer(closed, d);
        case Resize(size) => allocator.Resize(size);
        case Create(off, len) => NewMessage(off, len, d);
        case Close(k) => CloseMessage(k, d);
        case Deallocate => GiveUp(d);
      }
    }

    method NewBuffer(closed: nat, ghost d: Desk)
      requires Valid() && Enabled(Allocate(closed)) && Shows(d) && May(d, Allocate(closed), allocator.maxSize)
      modifies this, allocator, blocks
      ensures Valid() && Kept() && Shows(Act(d, Allocate(closed), allocator.maxSize))
      ensures allocator.buf != null && allocator.buf.live == 0 && allocator.buf.freed == 0
      ensures allocator.buf in old(blocks) ==> old(allocator.buf) == allocator.buf && old(allocator.buf.live) == 0
    {
      assert allocator.buf != null ==> allocator.buf in blocks;
      var data := allocator.Allocate(closed);
      end := 0;
      if data !in blocks {
        blocks := blocks + [data];
      }
    }

    method NewMessage(off: nat, len: nat, ghost d: Desk)
      requires Valid() && Enabled(Create(off, len)) && Shows(d) && May(d, Create(off, len), allocator.maxSize)
      modifies this, allocator, blocks
      ensures Valid() && Kept() && Shows(Act(d, Create(off, len), allocator.maxSize))
    {
      assert allocator.buf in blocks;
      var zeroCopy, slot := allocator.Create(off, len);
      if zeroCopy {
        end := off + len;
      }
    }

    method CloseMessage(k: nat, ghost d: Desk)
      requires Valid() && Enabled(Close(k)) && Shows(d) && May(d, Close(k), allocator.maxSize)
      modifies blocks[k]
      ensures Valid() && Kept() && Shows(Act(d, Close(k), allocator.maxSize))
    {
      assert blocks[k] in allocator.buffers && blocks[k].Valid();
      allocator.CloseMessage(blocks[k]);
    }

    method GiveUp(ghost d: Desk)
      requires Valid() && Shows(d)
      modifies this, allocator, blocks
      ensures Valid() && Kept() && Shows(Act(d, Deallocate, allocator.maxSize))
    {
      assert allocator.buf != null ==> allocator.buf in blocks;
      allocator.Deallocate();
      end := 0;
    }

    method Go(op: Op, ghost before: seq<Op>)
      requires Valid() && Shows(Told(before, allocator.maxSize))
      modifies this, allocator, blocks
      ensures Valid() && Kept() && Shows(Told(before + [op], allocator.maxSize))
    {
      ghost var d := Told(before, allocator.maxSize);
      ToldSnoc(before, op, allocator.maxSize);
      EnabledIff(op, d);
      if Enabled(op) {
        Step(op, d);
      }
    }

    // Operations that make no sense where they come are passed over.
    method Run(ops: seq<Op>)
      requires Valid() && Shows(Told([], allocator.maxSize))
      modifies this, allocator, blocks
      ensures Valid() && Kept() && Shows(Told(ops, allocator.maxSize))
    {
      var k := 0;
      ghost var past := [];
      while k < |ops|
        invariant k <= |ops| && past == ops[..k] && Valid() && Kept() && Shows(Told(past, allocator.maxSize))
      {
        Go(ops[k], past);
        past, k := past + [ops[k]], k + 1;
      }
      assert past == ops;
    }
  }

  // Whatever the operations: in the end a block has been given back, and once, exactly if the allocator does
  // not hold it and no message lies in it; and its counter tells how many references there are.
  method FreedOnce(maxSize: nat, ops: seq<Op>) returns (r: Receiver)
    ensures r.Valid() && r.Shows(Told(ops, maxSize))
    ensures forall k | 0 <= k < |r.blocks| ::
              var d := Told(ops, maxSize);
              && r.blocks[k].refcnt == d.live[k] + (if d.buf == Some(k) then 1 else 0)
              && r.blocks[k].freed == if d.buf == Some(k) || d.live[k] > 0 then 0 else 1
    ensures forall b | b in r.blocks ::
              && b.refcnt == b.live + (if b == r.allocator.buf then 1 else 0)
              && b.freed == if b == r.allocator.buf || b.live > 0 then 0 else 1
  {
    r := new Receiver(maxSize);
    r.Run(ops);
    forall b | b in r.blocks
      ensures b.refcnt == b.live + (if b == r.allocator.buf then 1 else 0)
      ensures b.freed == if b == r.allocator.buf || b.live > 0 then 0 else 1
    {
      assert b in r.allocator.buffers && b.Valid();
    }
    assert forall k | 0 <= k < |r.blocks| :: r.blocks[k] in r.blocks;
  }
}
