/** The context: the array of mailbox slots, the sockets, and how shutting down begins. */
module Context {
  import opened Bytes
  import opened Sequences

  datatype Mailbox = TermMailbox | ReaperMailbox | IoMailbox(i: nat) | SocketMailbox(sid: nat)

  // What the context knows of a socket: its number and the slot of its mailbox.
  datatype Socket = Socket(sid: nat, tid: nat)

  const TERM_TID := 0
  const REAPER_TID := 1

  ghost predicate HasTid(sockets: seq<Socket>, i: nat)
  {
    exists k :: 0 <= k < |sockets| && sockets[k].tid == i
  }

  // The slots from `first` on are divided among the empty ones and the sockets.
  ghost predicate Divided(slots: seq<Option<Mailbox>>, first: nat, empty: seq<nat>, sockets: seq<Socket>)
  {
    && Distinct(empty)
    && (forall j, k | 0 <= j < k < |sockets| :: sockets[j].tid != sockets[k].tid)
    && (forall k | 0 <= k < |empty| :: first <= empty[k] < |slots| && slots[empty[k]] == None)
    && (forall k | 0 <= k < |sockets| ::
          first <= sockets[k].tid < |slots| && slots[sockets[k].tid] == Some(SocketMailbox(sockets[k].sid)))
    && (forall i | first <= i < |slots| :: i in empty || HasTid(sockets, i))
  }

  // The slots of the threads.
  ghost predicate Staffed(slots: seq<Option<Mailbox>>, ios: nat)
  {
    && |slots| >= 2 + ios
    && slots[TERM_TID] == Some(TermMailbox) && slots[REAPER_TID] == Some(ReaperMailbox)
    && forall i | 0 <= i < ios :: slots[2 + i] == Some(IoMailbox(i))
  }

  // The slots of the first n I/O threads.
  function Made(n: nat): seq<nat>
  {
    seq(n, i => 2 + i)
  }

  class Ctx {
    const maxSockets: nat
    const ios: nat
    var starting: bool
    var terminating: bool
    var slots: seq<Option<Mailbox>>
    var emptySlots: seq<nat>
    var sockets: seq<Socket>
    var maxSid: nat
    var ioThreads: seq<nat>      // the slots of the I/O threads made
    var reaperStops: nat         // stop commands sent to the reaper
    var socketStops: seq<Socket> // stop commands sent to sockets

    ghost predicate Valid()
      reads this
    {
      && (forall k | 0 <= k < |sockets| :: sockets[k].sid <= maxSid)
      && (forall j, k | 0 <= j < k < |sockets| :: sockets[j].sid != sockets[k].sid)
      && if starting then
           !terminating && slots == [] && emptySlots == [] && sockets == [] && reaperStops == 0
         else
           && |slots| == maxSockets + ios + 2
           && Staffed(slots, ios) && Divided(slots, 2 + ios, emptySlots, sockets)
           && reaperStops == if terminating && sockets == [] then 1 else 0
    }

    constructor (maxSockets: nat, ios: nat)
      ensures Valid() && starting && this.maxSockets == maxSockets && this.ios == ios && ioThreads == []
    {
      this.maxSockets, this.ios := maxSockets, ios;
      starting, terminating := true, false;
      slots, emptySlots, sockets, maxSid, ioThreads := [], [], [], 0, [];
      reaperStops, socketStops := 0, [];
    }

    // `reaperOk` and `iosOk` tell how far creating the threads gets.  The I/O threads made before one fails go on
    // and stay in the list, although their slots are taken back.
    method Start(reaperOk: bool, iosOk: nat) returns (ok: bool)
      requires Valid() && starting
      modifies this
      ensures Valid() && ok == !starting == (reaperOk && iosOk >= ios)
      ensures !terminating && sockets == [] && maxSid == old(maxSid) && socketStops == old(socketStops)
      ensures ok ==> |emptySlots| == maxSockets
      ensures ioThreads == old(ioThreads) + Made(if !reaperOk then 0 else if iosOk < ios then iosOk else ios)
    {
      slots := [Some(TermMailbox), None];
      if !reaperOk {
        slots := [];
        assert ioThreads == old(ioThreads) + Made(0);
        return false;
      }
      slots := slots[REAPER_TID := Some(ReaperMailbox)];
      slots := slots + seq(maxSockets + ios, _ => None);
      var i := 0;
      while i < ios
        modifies this`slots, this`ioThreads
        invariant i <= ios && i <= iosOk && |slots| == maxSockets + ios + 2
        invariant ioThreads == old(ioThreads) + Made(i)
        invariant slots[TERM_TID] == Some(TermMailbox) && slots[REAPER_TID] == Some(ReaperMailbox)
        invariant forall k | 0 <= k < i :: slots[2 + k] == Some(IoMailbox(k))
        invariant forall k | 2 + i <= k < |slots| :: slots[k] == None
      {
        if i >= iosOk {
          slots := [];
          return false;
        }
        assert old(ioThreads) + Made(i + 1) == old(ioThreads) + Made(i) + [2 + i];
        ioThreads := ioThreads + [2 + i];
        slots := slots[2 + i := Some(IoMailbox(i))];
        i := i + 1;
      }
      i := |slots|;
      while i > ios + 2
        modifies this`emptySlots
        invariant ios + 2 <= i <= |slots| && |emptySlots| == |slots| - i
        invariant forall k | 0 <= k < |emptySlots| :: emptySlots[k] == |slots| - 1 - k
      {
        i := i - 1;
        emptySlots := emptySlots + [i];
      }
      forall k | 2 + ios <= k < |slots| ensures k in emptySlots {
        assert emptySlots[|slots| - 1 - k] == k;
      }
      starting := false;
      return true;
    }

    // `made` tells whether the socket object can be made.
    method CreateSocket(reaperOk: bool, iosOk: nat, made: bool) returns (s: Option<Socket>)
      requires Valid()
      modifies this
      ensures Valid() && terminating == old(terminating)
      ensures starting == (old(starting) && !(reaperOk && iosOk >= ios))
      ensures s.Some? ==> sockets == old(sockets) + [s.value] && s.value.sid == maxSid == old(maxSid) + 1
      ensures s == None ==> sockets == old(sockets)
      ensures s.Some? <==> !terminating && !starting && |old(sockets)| < maxSockets && made
    {
      if starting {
        var ok := Start(reaperOk, iosOk);
        if !ok {
          return None;
        }
      }
      if terminating {
        return None;
      }
      Counted();
      if emptySlots == [] {
        return None;
      }
      s := TakeSlot(made);
    }

    method TakeSlot(made: bool) returns (s: Option<Socket>)
      requires Valid() && !starting && !terminating && emptySlots != []
      modifies this`slots, this`emptySlots, this`sockets, this`maxSid
      ensures Valid() && maxSid == old(maxSid) + 1
      ensures s == if made then Some(Socket(maxSid, old(emptySlots[|emptySlots| - 1]))) else None
      ensures sockets == if made then old(sockets) + [s.value] else old(sockets)
      ensures s == None ==> slots == old(slots) && emptySlots == old(emptySlots)
    {
      var n := |emptySlots| - 1;
      var slot := emptySlots[n];
      emptySlots := emptySlots[..n];
      maxSid := maxSid + 1;
      if !made {
        emptySlots := emptySlots + [slot];
        assert emptySlots == old(emptySlots);
        return None;
      }
      var t := Socket(maxSid, slot);
      SlotTaken(slots, 2 + ios, old(emptySlots), sockets, t);
      sockets := sockets + [t];
      slots := slots[slot := Some(SocketMailbox(t.sid))];
      return Some(t);
    }

    // A slot is empty as long as there are fewer sockets than allowed.
    lemma Counted()
      requires Valid() && !starting
      ensures |emptySlots| + |sockets| == maxSockets
    {
      SlotsCounted(slots, 2 + ios, emptySlots, sockets);
    }

    method DestroySocket(k: nat)
      requires Valid() && k < |sockets|
      modifies this`slots, this`emptySlots, this`sockets, this`reaperStops
      ensures Valid() && |sockets| == |old(sockets)| - 1
      ensures forall s :: s in sockets <==> s in old(sockets) && s != old(sockets)[k]
      ensures reaperStops == old(reaperStops) + if terminating && sockets == [] then 1 else 0
    {
      var s := sockets[k];
      SlotFreed(slots, 2 + ios, emptySlots, sockets, k);
      Removed(sockets, k);
      emptySlots := emptySlots + [s.tid];
      slots := slots[s.tid := None];
      sockets := Erased(sockets, k);
      if terminating && sockets == [] {
        reaperStops := reaperStops + 1;
      }
    }

    method SendStops()
      requires Valid() && !starting && !terminating
      modifies this`terminating, this`reaperStops, this`socketStops
      ensures Valid() && terminating && socketStops == old(socketStops) + sockets
      ensures reaperStops == if sockets == [] then 1 else 0
    {
      terminating := true;
      var i := 0;
      while i < |sockets|
        modifies this`socketStops
        invariant i <= |sockets| && socketStops == old(socketStops) + sockets[..i]
      {
        socketStops := socketStops + [sockets[i]];
        i := i + 1;
      }
      assert sockets[..i] == sockets;
      if sockets == [] {
        reaperStops := reaperStops + 1;
      }
    }

    method Shutdown()
      requires Valid()
      modifies this`terminating, this`reaperStops, this`socketStops
      ensures Valid() && terminating == (old(terminating) || !starting)
      ensures socketStops == old(socketStops) + if starting || old(terminating) then [] else sockets
    {
      if !starting && !terminating {
        SendStops();
      }
    }

    // Makes a socket to be bound for each pending inproc connection, also when the context is shut down already;
    // there are none without a socket that waits for them.  The process aborts when one cannot be made, `made` of
    // them at the most for want of memory: `ok` is false then.
    method ConnectUp(pending: nat, made: nat) returns (ok: bool)
      requires Valid() && (pending > 0 ==> sockets != [])
      modifies this`terminating, this`slots, this`emptySlots, this`sockets, this`maxSid
      ensures ok <==> pending <= made && (pending == 0 || |old(sockets)| + pending <= maxSockets)
      ensures ok ==> Valid() && terminating == old(terminating)
      ensures ok ==> |sockets| == |old(sockets)| + pending && sockets[..|old(sockets)|] == old(sockets)
    {
      if pending == 0 {
        assert sockets[..|sockets|] == sockets;
        return true;
      }
      var saved := terminating;
      terminating := false;
      var i := 0;
      while i < pending
        invariant i <= pending && i <= made && Valid() && !starting && !terminating
        invariant |sockets| == |old(sockets)| + i && sockets[..|old(sockets)|] == old(sockets)
      {
        Counted();
        if emptySlots == [] {
          return false;
        }
        var s := TakeSlot(i < made);
        if s == None {
          return false;
        }
        i := i + 1;
      }
      Counted();
      terminating := saved;
      return true;
    }

    // Terminating, up to the wait for the reaper; it comes again when the wait is interrupted.
    method TerminateBegin(pending: nat, made: nat) returns (ok: bool)
      requires Valid() && (pending > 0 ==> sockets != [])
      modifies this
      ensures ok <==> pending <= made && (pending == 0 || |old(sockets)| + pending <= maxSockets)
      ensures ok ==> Valid() && terminating == (old(terminating) || !starting) && starting == old(starting)
      ensures ok ==> |sockets| == |old(sockets)| + pending && sockets[..|old(sockets)|] == old(sockets)
      ensures ok ==> socketStops == old(socketStops) + if starting || old(terminating) then [] else sockets
    {
      ok := ConnectUp(pending, made);
      if ok && !starting {
        var restarted := terminating;
        if !restarted {
          SendStops();
        }
      }
    }
  }

  lemma SlotTaken(slots: seq<Option<Mailbox>>, first: nat, empty: seq<nat>, sockets: seq<Socket>, t: Socket)
    requires Divided(slots, first, empty, sockets) && empty != [] && t.tid == empty[|empty| - 1]
    ensures Divided(slots[t.tid := Some(SocketMailbox(t.sid))], first, empty[..|empty| - 1], sockets + [t])
  {
    var all, rest := sockets + [t], empty[..|empty| - 1];
    forall i | first <= i < |slots| ensures i in rest || HasTid(all, i) {
      if i == t.tid {
        assert all[|sockets|].tid == i;
      } else if HasTid(sockets, i) {
        var k :| 0 <= k < |sockets| && sockets[k].tid == i;
        assert all[k].tid == i;
      } else {
        var k :| 0 <= k < |empty| && empty[k] == i;
        assert rest[k] == i;
      }
    }
  }

  lemma SlotFreed(slots: seq<Option<Mailbox>>, first: nat, empty: seq<nat>, sockets: seq<Socket>, k: nat)
    requires Divided(slots, first, empty, sockets) && k < |sockets|
    ensures Divided(slots[sockets[k].tid := None], first, empty + [sockets[k].tid], Erased(sockets, k))
  {
    var last, s := |sockets| - 1, sockets[k];
    var rest, all := Erased(sockets, k), empty + [s.tid];
    forall i | first <= i < |slots| ensures i in all || HasTid(rest, i) {
      if i == s.tid {
        assert all[|empty|] == i;
      } else if i in empty {
        var j :| 0 <= j < |empty| && empty[j] == i;
        assert all[j] == i;
      } else {
        var j :| 0 <= j < |sockets| && sockets[j].tid == i;
        assert rest[if j == last then k else j].tid == i;
      }
    }
  }

  lemma Removed(sockets: seq<Socket>, k: nat)
    requires k < |sockets| && forall i, j | 0 <= i < j < |sockets| :: sockets[i].sid != sockets[j].sid
    ensures forall s :: s in Erased(sockets, k) <==> s in sockets && s != sockets[k]
    ensures forall i, j | 0 <= i < j < |Erased(sockets, k)| :: Erased(sockets, k)[i].sid != Erased(sockets, k)[j].sid
  {
    var last, rest := |sockets| - 1, Erased(sockets, k);
    forall s | s in sockets && s != sockets[k] ensures s in rest {
      var j :| 0 <= j < |sockets| && sockets[j] == s;
      assert rest[if j == last then k else j] == s;
    }
  }

  lemma SlotsCounted(slots: seq<Option<Mailbox>>, first: nat, empty: seq<nat>, sockets: seq<Socket>)
    requires Divided(slots, first, empty, sockets) && first <= |slots|
    ensures |empty| + |sockets| == |slots| - first
  {
    var tids := seq(|sockets|, k requires 0 <= k < |sockets| => sockets[k].tid);
    var all := empty + tids;
    forall i ensures i in all <==> first <= i < |slots| {
      if first <= i < |slots| && i !in empty {
        assert HasTid(sockets, i);
        var k :| 0 <= k < |sockets| && sockets[k].tid == i;
        assert all[|empty| + k] == i;
      } else if i in empty {
        var k :| 0 <= k < |empty| && empty[k] == i;
        assert all[k] == i;
      }
    }
    DistinctSize(all, Range(first, |slots|));
  }

  function Range(a: nat, b: nat): (r: set<nat>)
    requires a <= b
    ensures |r| == b - a && forall i :: i in r <==> a <= i < b
    decreases b - a
  {
    if a == b then {} else Range(a, b - 1) + {b - 1}
  }

  lemma {:induction false} DistinctSize(s: seq<nat>, all: set<nat>)
    requires Distinct(s) && forall i :: i in all <==> i in s
    ensures |all| == |s|
  {
    if s == [] {
      assert all == {};
    } else {
      var n := |s| - 1;
      assert s == s[..n] + [s[n]] && s[n] !in s[..n];
      DistinctSize(s[..n], all - {s[n]});
    }
  }

  // With room for one socket, and that waiting for its peer, terminating runs into the assertion.
  method NoSlotLeft(ios: nat) returns (c: Ctx, ok: bool)
    ensures c.maxSockets == 1 && !ok
  {
    c := new Ctx(1, ios);
    var s := c.CreateSocket(true, ios, true);
    ok := c.TerminateBegin(1, 1);
  }

  // When starting fails with the second I/O thread and is tried again, the first one is there twice.
  method StartedTwice() returns (c: Ctx)
    ensures !c.starting && c.ios == 2 && c.ioThreads == [2, 2, 3]
  {
    c := new Ctx(1, 2);
    var ok := c.Start(true, 1);
    ok := c.Start(true, 2);
    assert Made(1) == [2] && Made(2) == [2, 3];
  }
}
