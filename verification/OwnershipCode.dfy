/** The operations of `own_t` and the dispatch of `object_t` as they update the objects in place, each
    tied to the function of Ownership it computes. */
module OwnershipCode {
  import opened Bytes
  import opened Ownership

  class Objects {
    var objs: seq<Obj>

    constructor ()
      ensures objs == []
    {
      objs := [];
    }

    method SendCommand(to: Id, cmd: Cmd)
      requires to < |objs|
      modifies this
      ensures objs == Send(old(objs), to, cmd)
    {
      objs := objs[to := objs[to].(inbox := objs[to].inbox + [cmd])];
    }

    method RegisterTermAcks(i: Id, count: nat)
      requires i < |objs|
      modifies this
      ensures objs == old(objs)[i := old(objs)[i].(termAcks := old(objs)[i].termAcks + count)]
    {
      objs := objs[i := objs[i].(termAcks := objs[i].termAcks + count)];
    }

    // Called wherever a counter changed; the last one to be satisfied ends the object.
    method CheckAcks(i: Id)
      requires i < |objs| && OwnerKnown(objs, i)
      modifies this
      ensures objs == CheckTermAcks(old(objs), i)
    {
      if objs[i].terminating && objs[i].processed == objs[i].sent && objs[i].termAcks == 0 {
        if objs[i].owner.Some? {
          SendCommand(objs[i].owner.value, TermAck(i));
        }
        objs := objs[i := objs[i].(alive := false)];
      }
    }

    method Seqnum(i: Id)
      requires i < |objs| && OwnerKnown(objs, i)
      modifies this
      ensures objs == ProcessSeqnum(old(objs), i)
    {
      objs := objs[i := objs[i].(processed := objs[i].processed + 1)];
      CheckAcks(i);
    }

    method OwnChild(i: Id, child: Id)
      requires i < |objs| && child < |objs|
      modifies this
      ensures objs == ProcessOwn(old(objs), i, child)
    {
      if objs[i].terminating {
        RegisterTermAcks(i, 1);
        SendCommand(child, Term);
        return;
      }
      objs := objs[i := objs[i].(owned := objs[i].owned + {child})];
    }

    method TermRequest(i: Id, child: Id)
      requires i < |objs| && child < |objs|
      modifies this
      ensures objs == ProcessTermReq(old(objs), i, child)
    {
      if objs[i].terminating {
        return;
      }
      if child !in objs[i].owned {
        return;
      }
      objs := objs[i := objs[i].(owned := objs[i].owned - {child})];
      RegisterTermAcks(i, 1);
      SendCommand(child, Term);
    }

    // Each owned child is told to terminate, in whatever order they come.
    method TellChildren(i: Id)
      requires i < |objs|
      requires forall c | c in objs[i].owned :: c < |objs| && c != i
      modifies this
      ensures objs == SendTerms(old(objs), old(objs)[i].owned)
    {
      ghost var before := objs;
      var rest := objs[i].owned;
      while rest != {}
        invariant rest <= before[i].owned
        invariant objs == SendTerms(before, before[i].owned - rest)
        decreases rest
      {
        var c :| c in rest;
        TellChild(c, before, before[i].owned - rest);
        assert before[i].owned - rest + {c} == before[i].owned - (rest - {c});
        rest := rest - {c};
      }
      assert before[i].owned - {} == before[i].owned;
    }

    method TellChild(c: Id, ghost before: State, ghost told: set<Id>)
      requires c < |objs| && c !in told && objs == SendTerms(before, told)
      modifies this
      ensures objs == SendTerms(before, told + {c})
    {
      SendCommand(c, Term);
    }

    method StartTermination(i: Id)
      requires i < |objs| && OwnerKnown(objs, i)
      requires forall c | c in objs[i].owned :: c < |objs| && c != i
      modifies this
      ensures objs == ProcessTerm(old(objs), i)
    {
      StopOwning(i);
      CheckAcks(i);
    }

    method StopOwning(i: Id)
      requires i < |objs|
      requires forall c | c in objs[i].owned :: c < |objs| && c != i
      modifies this
      ensures objs == StartTerm(old(objs), i)
    {
      TellChildren(i);
      RegisterTermAcks(i, |objs[i].owned|);
      objs := objs[i := objs[i].(owned := {}, terminating := true)];
    }

    method TermAckArrived(i: Id)
      requires i < |objs| && OwnerKnown(objs, i)
      modifies this
      ensures objs == ProcessTermAck(old(objs), i)
    {
      objs := objs[i := objs[i].(termAcks := objs[i].termAcks - 1)];
      CheckAcks(i);
    }

    // The object takes the next command out of its inbox.
    method ProcessCommand(i: Id)
      requires Known(objs) && Enabled(objs, Process(i))
      requires forall c | c in objs[i].owned :: c < |objs| && c != i
      modifies this
      ensures objs == Next(old(objs), Process(i))
    {
      var cmd := objs[i].inbox[0];
      assert ChildKnown(objs, cmd) && OwnerKnown(objs, i);
      objs := objs[i := objs[i].(inbox := objs[i].inbox[1..])];
      match cmd {
        case Plug => Seqnum(i);
        case Counted => Seqnum(i);
        case Own(c) =>
          OwnChild(i, c);
          Seqnum(i);
        case TermReq(c) => TermRequest(i, c);
        case Term => StartTermination(i);
        case TermAck(_) => TermAckArrived(i);
      }
    }

    // The owner itself wants the child gone.
    method TermChild(i: Id, child: Id)
      requires Known(objs) && Enabled(objs, Event.TermChild(i, child))
      modifies this
      ensures objs == Next(old(objs), Event.TermChild(i, child))
    {
      TermRequest(i, child);
    }

    // inc_seqnum: a command will come, so the object is not to go before.
    method IncSeqnum(i: Id)
      requires Known(objs) && Enabled(objs, Reserve(i))
      modifies this
      ensures objs == Next(old(objs), Reserve(i)) && |objs| == |old(objs)|
      ensures objs[i].sent == old(objs)[i].sent + 1 && objs[i].reserved == old(objs)[i].reserved + 1
    {
      objs := objs[i := objs[i].(sent := objs[i].sent + 1, reserved := objs[i].reserved + 1)];
    }

    // The command that was promised.
    method SendPromised(i: Id)
      requires Known(objs) && Enabled(objs, Redeem(i))
      modifies this
      ensures objs == Next(old(objs), Redeem(i))
    {
      objs := objs[i := objs[i].(reserved := objs[i].reserved - 1)];
      SendCommand(i, Counted);
    }

    // The two sends of launch_child; other threads may act between them.
    method SendPlug(p: Id) returns (child: Id)
      requires Known(objs) && Enabled(objs, Launch(p))
      modifies this
      ensures objs == Next(old(objs), Launch(p)) && child == |old(objs)|
    {
      child := |objs|;
      var o := Newborn(Some(p));
      objs := objs[p := objs[p].(launching := Some(child))] + [o.(sent := 0, inbox := [])];
      objs := objs[child := objs[child].(sent := objs[child].sent + 1)];
      SendCommand(child, Plug);
      assert objs[child].inbox == o.inbox;
      assert objs[child] == o;
    }

    method SendOwn(p: Id)
      requires Known(objs) && Enabled(objs, LaunchOwn(p))
      modifies this
      ensures objs == Next(old(objs), LaunchOwn(p))
    {
      var child := objs[p].launching.value;
      objs := objs[p := objs[p].(launching := None, sent := objs[p].sent + 1)];
      SendCommand(p, Own(child));
    }

    method TerminateSelf(i: Id)
      requires Known(objs) && Enabled(objs, Terminate(i))
      requires forall c | c in objs[i].owned :: c < |objs| && c != i
      modifies this
      ensures objs == Next(old(objs), Terminate(i))
    {
      assert OwnerKnown(objs, i);
      if objs[i].terminating {
        return;
      }
      if objs[i].owner.None? {
        StartTermination(i);
        return;
      }
      SendCommand(objs[i].owner.value, TermReq(i));
    }
  }
}
