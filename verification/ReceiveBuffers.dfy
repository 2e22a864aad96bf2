/** Receive buffers whose lifetime is shared by the decoder and the messages that lie in them. */
module ReceiveBuffers {
  import opened Bytes

  // Where a zero-copy message lies in its buffer.
  datatype Span = Span(off: nat, len: nat)

  // One block of memory: counter, bytes and content slots.
  class Buffer {
    const slots: nat
    var refcnt: int
    var freed: nat               // how often the block was given back

    ghost var held: bool         // the allocator has it
    ghost var live: nat          // messages that lie in it and have not been closed

    constructor (slots: nat)
      ensures this.slots == slots && refcnt == 1 && freed == 0 && held && live == 0
    {
      this.slots, refcnt, freed, held, live := slots, 1, 0, true, 0;
    }

    ghost predicate Valid()
      reads this
    {
      && refcnt == live + (if held then 1 else 0)
      && freed == if held || live > 0 then 0 else 1
    }

    method Sub() returns (left: bool)
      modifies this`refcnt
      ensures refcnt == old(refcnt) - 1 && left == (refcnt != 0)
    {
      refcnt := refcnt - 1;
      left := refcnt != 0;
    }

    // Never twice.
    method Free()
      requires freed == 0
      modifies this`freed
      ensures freed == 1
    {
      freed := freed + 1;
    }

    // A message that lay in the buffer has been closed, in whatever thread.
    method CallDecRef()
      requires Valid() && live > 0
      modifies this
      ensures Valid() && live == old(live) - 1 && held == old(held) && freed >= old(freed)
    {
      var left := Sub();
      live := live - 1;
      if !left {
        Free();
      }
    }
  }

  function Ceil(a: nat, b: nat): (c: nat)
    requires b > 0
    ensures (c - 1) * b < a <= c * b
  {
    (a + b - 1) / b
  }

  // Messages one after another, none in the way of the next, from `from` on.
  predicate Laid(spans: seq<Span>, end: nat)
  {
    && (forall k | 0 <= k < |spans| :: spans[k].len >= MAX_VSM_SIZE && spans[k].off + spans[k].len <= end)
    && (forall k | 0 < k < |spans| :: spans[k - 1].off + spans[k - 1].len <= spans[k].off)
  }

  lemma {:induction false} LaidBound(spans: seq<Span>, end: nat)
    requires Laid(spans, end) && spans != []
    ensures |spans| * MAX_VSM_SIZE <= spans[|spans| - 1].off + spans[|spans| - 1].len <= end
  {
    var n := |spans| - 1;
    if n > 0 {
      LaidBound(spans[..n], end);
    }
  }

  class Allocator {
    const maxSize: nat
    const maxCounters: nat
    var buf: Buffer?
    var bufSize: nat
    var msgContent: nat          // the next content slot

    ghost var spans: seq<Span>   // the zero-copy messages made in the buffer, in order
    ghost var buffers: set<Buffer> // every block there ever was

    ghost predicate Valid()
      reads this, buffers
    {
      && maxCounters == Ceil(maxSize, MAX_VSM_SIZE)
      && (forall b | b in buffers :: b.Valid() && b.held == (b == buf))
      && (buf != null ==> buf in buffers && buf.slots == maxCounters && msgContent == |spans|)
      && bufSize <= maxSize && Laid(spans, bufSize)
    }

    constructor (maxSize: nat)
      ensures Valid() && buffers == {} && buf == null && bufSize == 0 && spans == [] && this.maxSize == maxSize
    {
      this.maxSize := maxSize;
      maxCounters := Ceil(maxSize, MAX_VSM_SIZE);
      buf, bufSize, msgContent := null, 0, 0;
      spans, buffers := [], {};
    }

    // The allocator gives its buffer up if a message still lies in it, and otherwise uses it again.
    // `closed` messages are closed in other threads before it has let go of the pointer.
    method Allocate(closed: nat) returns (data: Buffer)
      requires Valid() && (buf != null ==> closed <= buf.live)
      modifies this, buf
      ensures Valid() && buf == data && bufSize == maxSize && spans == [] && data.live == 0
      ensures (fresh(data) && buffers == old(buffers) + {data} && (old(buf) == null || old(buf.live) > 0))
              || (data == old(buf) && old(data.live) == 0 && buffers == old(buffers))
      ensures old(buf) != null && fresh(data) ==> old(buf).live == old(buf.live) - closed
      ensures old(buf) != null ==> old(buf).freed >= old(buf.freed)
    {
      if buf != null {
        var left := buf.Sub();
        if left {
          buf.held := false;
          var k := 0;
          while k < closed
            invariant k <= closed && buf == old(buf) && unchanged(this)
            invariant buf.Valid() && !buf.held && buf.live == old(buf.live) - k
          {
            buf.CallDecRef();
            k := k + 1;
          }
          Clear();
        }
      }
      if buf == null {
        buf := new Buffer(maxCounters);
        buffers := buffers + {buf};
      } else {
        buf.refcnt := 1;
      }
      bufSize, msgContent, spans := maxSize, 0, [];
      data := buf;
    }

    method Clear()
      modifies this`buf, this`bufSize, this`msgContent, this`spans
      ensures buf == null && bufSize == 0 && spans == []
    {
      buf, bufSize, msgContent := null, 0, 0;
      spans := [];
    }

    // Only as many bytes as have been read are there to be decoded.
    method Resize(size: nat)
      requires Valid() && size <= maxSize && spans == []
      modifies this`bufSize
      ensures Valid() && bufSize == size
    {
      bufSize := size;
    }

    // A message that lies in the buffer as a whole; a short one is copied and needs neither slot nor count.
    method Create(off: nat, len: nat) returns (zeroCopy: bool, slot: nat)
      requires Valid() && buf != null && off + len <= bufSize
      requires spans != [] ==> spans[|spans| - 1].off + spans[|spans| - 1].len <= off
      modifies this`msgContent, this`spans, buf
      ensures Valid() && zeroCopy == (len >= MAX_VSM_SIZE)
      ensures zeroCopy ==> slot == |old(spans)| < buf.slots && spans == old(spans) + [Span(off, len)]
      ensures buf.live == if zeroCopy then old(buf.live) + 1 else old(buf.live)
      ensures !zeroCopy ==> spans == old(spans)
      ensures buf.freed == old(buf.freed)
    {
      zeroCopy, slot := false, 0;
      if len < MAX_VSM_SIZE {
        return;
      }
      zeroCopy, slot := true, msgContent;
      SlotThere(len, off);
      spans := spans + [Span(off, len)];
      msgContent := msgContent + 1;
      buf.refcnt := buf.refcnt + 1;
      buf.live := buf.live + 1;
    }

    // There is a content slot for every message that fits.
    lemma SlotThere(len: nat, off: nat)
      requires Valid() && buf != null && len >= MAX_VSM_SIZE && off + len <= bufSize
      requires spans != [] ==> spans[|spans| - 1].off + spans[|spans| - 1].len <= off
      ensures Laid(spans + [Span(off, len)], bufSize) && |spans| < maxCounters
    {
      var all := spans + [Span(off, len)];
      assert Laid(all, bufSize);
      LaidBound(all, bufSize);
    }

    // The decoder goes; its buffer stays as long as messages lie in it.
    method Deallocate()
      requires Valid()
      modifies this, buf
      ensures Valid() && buf == null && bufSize == 0 && buffers == old(buffers) && spans == []
      ensures old(buf) != null ==> old(buf).freed >= old(buf.freed) && old(buf).live == old(buf.live)
    {
      if buf != null {
        var left := buf.Sub();
        buf.held := false;
        if !left {
          buf.Free();
        }
      }
      Clear();
    }

    // A message is closed in any buffer there is.
    method CloseMessage(b: Buffer)
      requires Valid() && b in buffers && b.live > 0
      modifies b
      ensures Valid() && b.live == old(b.live) - 1 && b.freed >= old(b.freed)
    {
      b.CallDecRef();
    }
  }
}
