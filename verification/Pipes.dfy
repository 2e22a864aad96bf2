/** Pipes as the socket patterns see them, and the array that knows the place of each of its pipes. */
module Pipes {
  import opened Sequences

  datatype Frame = Frame(payload: nat, more: bool)

  // What is left of a text without the message at its end that has not been finished.
  function Whole(s: seq<Frame>): (t: seq<Frame>)
    ensures t <= s
    ensures t != [] ==> !t[|t| - 1].more
    ensures forall k | |t| <= k < |s| :: s[k].more
  {
    if s != [] && s[|s| - 1].more then Whole(s[..|s| - 1]) else s
  }

  // One end of a pipe.  Frames written stay in `outbox`; frames to be read wait in `inbox`.
  class Pipe {
    var arrayIndex: int          // array_item_t::_array_index

    var open: bool               // _state == active
    var outActive: bool
    var hwm: nat
    var msgsWritten: nat
    var peersMsgsRead: nat
    var hasOut: bool             // _outpipe is not null
    var outbox: seq<Frame>
    var flushed: nat             // how much of outbox its reader may see
    ghost var offers: seq<Frame> // every frame `Write` was called with

    var inActive: bool
    var inbox: seq<Frame>

    constructor (hwm: nat)
      ensures outbox == [] && offers == [] && inbox == [] && this.hwm == hwm
      ensures open && hasOut && outActive && inActive && msgsWritten == peersMsgsRead == flushed == 0
    {
      arrayIndex := -1;
      open, outActive, this.hwm := true, true, hwm;
      hasOut, msgsWritten, peersMsgsRead, outbox, flushed, offers := true, 0, 0, [], 0, [];
      inActive, inbox := true, [];
    }

    predicate Full()
      reads this`hwm, this`msgsWritten, this`peersMsgsRead
    {
      hwm > 0 && msgsWritten - peersMsgsRead >= hwm
    }

    predicate CanWrite()
      reads this`outActive, this`open, this`hwm, this`msgsWritten, this`peersMsgsRead
    {
      outActive && open && !Full()
    }

    // It will not take a frame before it is told that there is room again, or ever.
    predicate Idle()
      reads this`outActive, this`open
    {
      !outActive || !open
    }

    method CheckWrite() returns (ok: bool)
      modifies this`outActive
      ensures ok == old(CanWrite())
      ensures outActive == (old(outActive) && (ok || !open))
    {
      if !outActive || !open {
        return false;
      }
      if Full() {
        outActive := false;
        return false;
      }
      return true;
    }

    // A frame is taken whole or not at all; a pipe that refuses one is left out of action.
    method Write(f: Frame) returns (ok: bool)
      modifies this`outActive, this`msgsWritten, this`outbox, this`offers
      ensures ok == old(CanWrite())
      ensures offers == old(offers) + [f]
      ensures outbox == if ok then old(outbox) + [f] else old(outbox)
      ensures msgsWritten == old(msgsWritten) + if ok && !f.more then 1 else 0
      ensures outActive == (old(outActive) && (ok || !open))
    {
      offers := offers + [f];
      ok := CheckWrite();
      if ok {
        outbox := outbox + [f];
        if !f.more {
          msgsWritten := msgsWritten + 1;
        }
      }
    }

    // Makes the messages written so far readable.
    method Flush()
      modifies this`flushed
      ensures flushed == if hasOut then |Whole(outbox)| else old(flushed)
    {
      if hasOut {
        flushed := |Whole(outbox)|;
      }
    }

    // Takes back the frames of a message that has not been finished.
    method Rollback()
      modifies this`outbox
      ensures outbox == if hasOut then Whole(old(outbox)) else old(outbox)
    {
      if hasOut {
        while outbox != [] && outbox[|outbox| - 1].more
          invariant Whole(outbox) == Whole(old(outbox))
          decreases |outbox|
        {
          outbox := outbox[..|outbox| - 1];
        }
      }
    }

    predicate CanRead()
      reads this`inActive, this`inbox
    {
      inActive && inbox != []
    }

    method CheckRead() returns (ok: bool)
      modifies this`inActive
      ensures ok == old(CanRead())
      ensures inActive == ok
    {
      if inbox == [] {
        inActive := false;
      }
      ok := inActive;
    }

    method Read() returns (ok: bool, f: Frame)
      modifies this`inActive, this`inbox
      ensures ok == old(CanRead())
      ensures inActive == ok
      ensures ok ==> old(inbox) == [f] + inbox
      ensures !ok ==> inbox == old(inbox)
    {
      f := Frame(0, false);
      if inbox == [] {
        inActive := false;
      }
      ok := inActive;
      if ok {
        f, inbox := inbox[0], inbox[1..];
      }
    }
  }

  // array_t: positions are stored in the items, so finding one takes no search.
  class PipeArray {
    var items: seq<Pipe>

    ghost predicate Valid()
      reads this, items
    {
      forall i {:trigger items[i].arrayIndex} | 0 <= i < |items| :: items[i].arrayIndex == i
    }

    constructor ()
      ensures Valid() && items == []
    {
      items := [];
    }

    ghost function Members(): set<Pipe>
      reads this
    {
      set p | p in items
    }

    lemma Distinct()
      requires Valid()
      ensures forall i, j | 0 <= i < j < |items| :: items[i] != items[j]
    {
      forall i, j | 0 <= i < j < |items| ensures items[i] != items[j] {
        assert items[i].arrayIndex == i && items[j].arrayIndex == j;
      }
    }

    method Index(p: Pipe) returns (i: nat)
      requires Valid() && p in items
      ensures i < |items| && items[i] == p
    {
      i := p.arrayIndex;
    }

    method PushBack(p: Pipe)
      requires Valid() && p !in items
      modifies this, p`arrayIndex
      ensures Valid() && items == old(items) + [p]
    {
      p.arrayIndex := |items|;
      items := items + [p];
    }

    method Swap(i: nat, j: nat)
      requires Valid() && i < |items| && j < |items|
      modifies this, Members()`arrayIndex
      ensures Valid() && items == Swapped(old(items), i, j)
    {
      Distinct();
      items[i].arrayIndex := j;
      items[j].arrayIndex := i;
      items := items[i := items[j]][j := items[i]];
      assert forall k | 0 <= k < |items| && k != i && k != j ::
          items[k] == old(items)[k] && items[k].arrayIndex == k;
    }

    // The last item takes the place of the one erased.
    method Erase(p: Pipe)
      requires Valid() && p in items
      modifies this, Members()`arrayIndex
      ensures Valid()
      ensures 0 <= old(p.arrayIndex) < |old(items)| && old(items)[old(p.arrayIndex)] == p
      ensures items == Erased(old(items), old(p.arrayIndex))
    {
      var k := p.arrayIndex;
      items[|items| - 1].arrayIndex := k;
      items := items[k := items[|items| - 1]][..|items| - 1];
    }
  }
}
