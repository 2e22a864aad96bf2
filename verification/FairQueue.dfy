/** The fair queue of inbound messages. */
module FairQueue {
  import opened Bytes
  import opened Pipes
  import opened RoundRobin
  import opened Sequences

  class Fq {
    const pipes: PipeArray
    var active: nat
    var current: nat
    var more: bool
    var lastIn: Option<Pipe>

    ghost predicate Valid()
      reads this, pipes, pipes.items
    {
      && pipes.Valid()
      && active <= |pipes.items|
      && (current < active || current == active == 0)
    }

    ghost function Now(): Ring<Pipe>
      reads this, pipes
    {
      Ring(pipes.items, active, current)
    }

    // The pipes a frame can be read from.
    ghost function Readable(): set<Pipe>
      reads this, pipes, pipes.items
    {
      set p | p in pipes.items && p.CanRead()
    }

    static ghost predicate AllIdle(ps: set<Pipe>)
      reads ps
    {
      forall p | p in ps :: !p.inActive
    }

    // From the pipes that are not active nothing can be read before they are activated.
    ghost predicate Awake(but: set<Pipe>)
      reads this, pipes, pipes.items
    {
      active <= |pipes.items| && AllIdle(Passive(Now()) - but)
    }

    lemma RingOk()
      requires Valid()
      ensures Ok(Now())
    {
      pipes.Distinct();
    }

    constructor ()
      ensures Valid() && Awake({}) && Now() == Ring([], 0, 0) && !more && fresh(pipes)
    {
      pipes := new PipeArray();
      active, current, more, lastIn := 0, 0, false, None;
    }

    method Attach(p: Pipe)
      requires Valid() && p !in pipes.items
      modifies this`active, pipes, pipes.Members()`arrayIndex, p`arrayIndex
      ensures Valid() && Now() == Attached(old(Now()), p)
      ensures old(Awake({})) ==> Awake({})
    {
      RingOk();
      AttachedPassive(Now(), p);
      pipes.PushBack(p);
      pipes.Swap(active, |pipes.items| - 1);
      active := active + 1;
    }

    method PipeTerminated(p: Pipe)
      requires Valid() && p in pipes.items
      modifies this, pipes, pipes.Members()`arrayIndex
      ensures Valid() && 0 <= old(p.arrayIndex) < |old(pipes.items)| && old(pipes.items)[old(p.arrayIndex)] == p
      ensures Now() == Terminated(old(Now()), old(p.arrayIndex))
      ensures lastIn == (if old(lastIn) == Some(p) then None else old(lastIn)) && more == old(more)
      ensures old(Awake({})) ==> Awake({})
    {
      RingOk();
      TerminatedPassive(Now(), p.arrayIndex);
      Remove(p);
      if lastIn == Some(p) {
        lastIn := None;
      }
    }

    method Remove(p: Pipe)
      requires Valid() && p in pipes.items
      modifies this`active, this`current, pipes, pipes.Members()`arrayIndex
      ensures Valid() && 0 <= old(p.arrayIndex) < |old(pipes.items)| && old(pipes.items)[old(p.arrayIndex)] == p
      ensures Now() == Terminated(old(Now()), old(p.arrayIndex))
    {
      LeaveActive(p);
      assert p in pipes.Members();
      pipes.Erase(p);
    }

    // An active pipe that goes changes places with the last active one first.
    method LeaveActive(p: Pipe)
      requires Valid() && p in pipes.items
      modifies this`active, this`current, pipes, pipes.Members()`arrayIndex
      ensures Valid() && pipes.Members() == old(pipes.Members())
      ensures 0 <= old(p.arrayIndex) < |old(pipes.items)| && old(pipes.items)[old(p.arrayIndex)] == p
      ensures p in pipes.items
      ensures Now() == Left(old(Now()), old(p.arrayIndex))
      ensures p.arrayIndex == if old(p.arrayIndex) < old(active) then active else old(p.arrayIndex)
    {
      var index := pipes.Index(p);
      assert pipes.items[index].arrayIndex == index;
      if index < active {
        active := active - 1;
        SwapMembers(pipes.items, index, active);
        pipes.Swap(index, active);
        assert pipes.items[active] == p && pipes.items[active].arrayIndex == active;
        if current == active {
          current := 0;
        }
      }
    }

    method Activated(p: Pipe)
      requires Valid() && p in pipes.items && p.arrayIndex >= active
      modifies this`active, pipes, pipes.Members()`arrayIndex
      ensures Valid() && 0 <= old(p.arrayIndex) < |old(pipes.items)| && old(pipes.items)[old(p.arrayIndex)] == p
      ensures Now() == RoundRobin.Activated(old(Now()), old(p.arrayIndex))
      ensures old(Awake({p})) ==> Awake({})
    {
      RingOk();
      ActivatedPassive(Now(), p.arrayIndex);
      var i := pipes.Index(p);
      pipes.Swap(i, active);
      active := active + 1;
    }

    // The current pipe, which had nothing to read, changes places with the last active one.
    method Deactivate()
      requires Valid() && active > 0
      modifies this`active, this`current, pipes, pipes.Members()`arrayIndex
      ensures Valid() && Now() == Deactivated(old(Now()))
      ensures pipes.Members() == old(pipes.Members()) && Readable() == old(Readable())
    {
      active := active - 1;
      SwapMembers(pipes.items, current, active);
      pipes.Swap(current, active);
      if current == active {
        current := 0;
      }
    }

    // What reading a pipe in vain may change.
    twostate predicate Skipped(all: set<Pipe>)
      reads all
    {
      forall q | q in all :: q.inbox == old(q.inbox) && q.CanRead() == old(q.CanRead())
    }

    // Tries the current pipe; one with nothing to read is deactivated.
    method Attempt(ghost but: set<Pipe>) returns (p: Pipe, fetched: bool, f: Frame)
      requires Valid() && active > 0 && (more ==> pipes.items[current].CanRead()) && Awake(but)
      modifies this`active, this`current, pipes
      modifies pipes.Members()`arrayIndex, pipes.Members()`inActive, pipes.Members()`inbox
      ensures Valid() && pipes.Members() == old(pipes.Members()) && p in pipes.Members()
      ensures p == old(pipes.items)[old(current)] && fetched == old(p.CanRead())
      ensures fetched ==>
                && Now() == old(Now()) && old(p.inbox) == [f] + p.inbox
                && forall q | q in pipes.Members() && q != p :: q.inbox == old(q.inbox)
      ensures !fetched ==> !more && Now() == Deactivated(old(Now())) && Skipped(pipes.Members())
      ensures Awake(but) && (!fetched ==> Ok(Now()))
    {
      RingOk();
      DeactivatedOk(Now());
      DeactivatedPassive(Now());
      p := pipes.items[current];
      assert p in pipes.Members();
      fetched, f := p.Read();
      if !fetched {
        assert !more;
        Deactivate();
      }
    }

    // After the last frame of a message it is the turn of the next pipe.
    method Account(p: Pipe, f: Frame)
      requires Valid() && active > 0
      modifies this`more, this`lastIn, this`current
      ensures Valid() && Now() == if f.more then old(Now()) else Advanced(old(Now()))
      ensures more == f.more && lastIn == if f.more then old(lastIn) else Some(p)
    {
      more := f.more;
      if !more {
        lastIn := Some(p);
        current := (current + 1) % active;
      }
    }

    // The next frame: from the pipe in the middle of a message, or else from the next one that has any.  There is
    // none only if no pipe at all has any.
    method RecvPipe() returns (from: Option<Pipe>, f: Frame)
      requires Valid()
      requires more ==> active > 0 && pipes.items[current].CanRead()
      modifies this, pipes, pipes.Members()`arrayIndex, pipes.Members()`inActive, pipes.Members()`inbox
      ensures Valid() && pipes.Members() == old(pipes.Members()) && Ok(old(Now()))
      ensures var s := Settled(old(Now()), old(Readable()));
              match from
              case None => s.active == 0 && Now() == s && more == old(more) && lastIn == old(lastIn)
              case Some(p) =>
                && s.active > 0 && p == s.items[s.current] && p in old(pipes.Members())
                && Now() == (if f.more then s else Advanced(s))
                && more == f.more
                && lastIn == if f.more then old(lastIn) else from
      ensures from == None ==> !old(more)
      ensures old(more) ==> from == Some(old(pipes.items)[old(current)])
      ensures from.Some? ==> old(from.value.inbox) == [f] + from.value.inbox
      ensures forall q | q in old(pipes.Members()) && from != Some(q) :: q.inbox == old(q.inbox)
      ensures old(Awake({})) ==>
                Awake({}) && (from == None <==> forall q | q in old(pipes.Members()) :: q !in old(Readable()))
    {
      ghost var but := set p | p in Passive(Now()) && p.inActive;
      RingOk();
      from, f := RecvAny(but);
      if old(Awake({})) && from == None {
        NoneLeft(old(Now()), old(Readable()));
        NoneAtAll();
      }
    }

    twostate lemma NoneAtAll()
      requires old(Valid()) && old(Ok(Now())) && old(Awake({}))
      requires forall q | IsActive(old(Now()), q) :: q !in old(Readable())
      ensures forall q | q in old(pipes.Members()) :: q !in old(Readable())
    {
      PassiveIff(old(Now()));
      forall q | q in old(pipes.Members()) && !IsActive(old(Now()), q) ensures q !in old(Readable()) {
        assert q in Passive(old(Now())) - {} && !old(q.inActive);
      }
    }

    method RecvAny(ghost but: set<Pipe>) returns (from: Option<Pipe>, f: Frame)
      requires Valid() && Awake(but) && Ok(Now())
      requires more ==> active > 0 && pipes.items[current].CanRead()
      modifies this, pipes, pipes.Members()`arrayIndex, pipes.Members()`inActive, pipes.Members()`inbox
      ensures Valid() && pipes.Members() == old(pipes.Members()) && Awake(but)
      ensures var s := Settled(old(Now()), old(Readable()));
              match from
              case None => s.active == 0 && Now() == s && more == old(more) && lastIn == old(lastIn)
              case Some(p) =>
                && s.active > 0 && p == s.items[s.current] && p in old(pipes.Members())
                && Now() == (if f.more then s else Advanced(s))
                && more == f.more
                && lastIn == if f.more then old(lastIn) else from
      ensures old(more) ==> from == Some(old(pipes.items)[old(current)])
      ensures from.Some? ==> old(from.value.inbox) == [f] + from.value.inbox
      ensures forall q | q in old(pipes.Members()) && from != Some(q) :: q.inbox == old(q.inbox)
    {
      ghost var r0, can := Now(), Readable();
      while active > 0
        invariant Valid() && Awake(but) && pipes.Members() == old(pipes.Members())
        invariant Ok(Now()) && Settled(Now(), can) == Settled(r0, can)
        invariant more == old(more) && lastIn == old(lastIn)
        invariant more ==> active > 0 && Now() == r0
        invariant Skipped(old(pipes.Members()))
        decreases active
      {
        var p, fetched, frame := Attempt(but);
        if fetched {
          Account(p, frame);
          return Some(p), frame;
        }
      }
      from, f := None, Frame(0, false);
    }

    method HasIn() returns (ok: bool)
      requires Valid()
      modifies this`active, this`current, pipes, pipes.Members()`arrayIndex, pipes.Members()`inActive
      ensures Valid() && pipes.Members() == old(pipes.Members()) && old(Ok(Now()))
      ensures Now() == if old(more) then old(Now()) else Settled(old(Now()), old(Readable()))
      ensures ok == (old(more) || active > 0)
      ensures !ok ==> forall q | q in old(Now()).items[..old(active)] :: q !in old(Readable())
      ensures old(Awake({})) ==> Awake({}) && (!ok ==> forall q | q in old(pipes.Members()) :: q !in old(Readable()))
    {
      RingOk();
      if more {
        return true;
      }
      ghost var but := set p | p in Passive(Now()) && p.inActive;
      while active > 0
        invariant Valid() && Awake(but) && pipes.Members() == old(pipes.Members())
        invariant Ok(Now()) && Settled(Now(), Readable()) == Settled(old(Now()), old(Readable()))
        decreases active
      {
        ok := Look(but);
        if ok {
          return;
        }
      }
      NoneLeft(old(Now()), old(Readable()));
      if old(Awake({})) {
        NoneAtAll();
      }
      return false;
    }

    // Asks the current pipe whether there is anything to read; one that has nothing is deactivated.
    method Look(ghost but: set<Pipe>) returns (ok: bool)
      requires Valid() && active > 0 && Awake(but)
      modifies this`active, this`current, pipes, pipes.Members()`arrayIndex, pipes.Members()`inActive
      ensures Valid() && pipes.Members() == old(pipes.Members()) && old(Ok(Now())) && Awake(but)
      ensures Ok(Now()) && Settled(Now(), Readable()) == Settled(old(Now()), old(Readable()))
      ensures if ok then Now() == old(Now()) && pipes.items[current] in Readable() else active < old(active)
    {
      RingOk();
      DeactivatedOk(Now());
      ghost var can := Readable();
      var p := pipes.items[current];
      assert p in pipes.Members();
      ok := p.CheckRead();
      SameReadable(can);
      if !ok {
        DeactivatedPassive(Now());
        Deactivate();
      }
    }

    lemma SameReadable(can: set<Pipe>)
      requires can <= pipes.Members()
      requires forall q | q in pipes.Members() :: q in can <==> q.CanRead()
      ensures Readable() == can
    {
    }
  }
}
