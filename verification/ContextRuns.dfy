/** Shutting a context down, over whole runs: application threads, the terminating thread and the reaper. */
module ContextRuns {

  // Where a socket is: with the application, handed to the reaper, or taken over by it.
  datatype Phase = Open | Closing | Reaping

  // What the reaper's mailbox holds.
  datatype Cmd = Reap(sid: nat) | Reaped | Stop

  datatype World = World(
    started: bool,
    terminating: bool,
    phases: map<nat, Phase>,     // the sockets the context knows
    box: seq<Cmd>,
    count: int,                  // reaper_t::_sockets
    leaving: bool,               // the reaper has destroyed a socket, and not said so yet
    stopping: bool,              // reaper_t::_terminating
    done: nat)                   // done commands sent to the terminating thread

  datatype Event =
    | Create(sid: nat)
    | Close(sid: nat)
    | Destroy(sid: nat)          // destroy_socket, under the lock
    | SayReaped                  // send_reaped, after it
    | Shutdown                   // shutdown, or terminate, again and again
    | Process                    // the reaper's next command

  predicate Enabled(w: World, e: Event)
  {
    match e
    case Create(sid) => !w.terminating && sid !in w.phases
    case Close(sid) => sid in w.phases && w.phases[sid].Open?
    case Destroy(sid) => !w.leaving && sid in w.phases && w.phases[sid].Reaping?
    case SayReaped => w.leaving
    case Shutdown => true
    case Process => !w.leaving && w.box != []
  }

  // With no socket left the reaper is asked to stop.
  function StopIfEmpty(w: World): World
  {
    if w.terminating && w.phases == map[] then w.(box := w.box + [Stop]) else w
  }

  function Step(w: World, e: Event): World
    requires Enabled(w, e)
  {
    match e
    case Create(sid) => w.(started := true, phases := w.phases[sid := Open])
    case Close(sid) => w.(phases := w.phases[sid := Closing], box := w.box + [Reap(sid)])
    case Destroy(sid) => StopIfEmpty(w.(phases := w.phases - {sid}, leaving := true))
    case SayReaped => w.(leaving := false, box := w.box + [Reaped])
    case Shutdown =>
      if w.started && !w.terminating then StopIfEmpty(w.(terminating := true)) else w
    case Process =>
      var v := w.(box := w.box[1..]);
      match w.box[0]
      case Reap(sid) =>
        v.(count := v.count + 1, phases := if sid in v.phases then v.phases[sid := Reaping] else v.phases)
      case Reaped => DoneIfReady(v.(count := v.count - 1))
      case Stop => DoneIfReady(v.(stopping := true))
  }

  function DoneIfReady(w: World): World
  {
    if w.count == 0 && w.stopping then w.(done := w.done + 1) else w
  }

  function With(phases: map<nat, Phase>, p: Phase): set<nat>
  {
    set s | s in phases && phases[s] == p
  }

  ghost predicate Inv(w: World)
  {
    && (forall s :: multiset(w.box)[Reap(s)] == if s in w.phases && w.phases[s].Closing? then 1 else 0)
    && w.count == |With(w.phases, Reaping)| + multiset(w.box)[Reaped] + (if w.leaving then 1 else 0)
    && multiset(w.box)[Stop] + (if w.stopping then 1 else 0) == (if w.terminating && w.phases == map[] then 1 else 0)
    && w.done == (if w.stopping && w.count == 0 then 1 else 0)
    && (!w.started ==> w.phases == map[] && !w.terminating)
  }

  lemma BoxSnoc(box: seq<Cmd>, c: Cmd)
    ensures multiset(box + [c]) == multiset(box)[c := multiset(box)[c] + 1]
  {
  }

  lemma BoxRest(box: seq<Cmd>)
    requires box != []
    ensures multiset(box)[box[0]] > 0 && multiset(box[1..]) == multiset(box)[box[0] := multiset(box)[box[0]] - 1]
  {
    assert box == [box[0]] + box[1..];
  }

  lemma StepInv(w: World, e: Event)
    requires Inv(w) && Enabled(w, e)
    ensures Inv(Step(w, e))
  {
    match e
    case Create(sid) => CreateInv(w, sid);
    case Close(sid) => CloseInv(w, sid);
    case Destroy(sid) => DestroyInv(w, sid);
    case SayReaped => BoxSnoc(w.box, Reaped);
    case Shutdown =>
      BoxSnoc(w.box, Stop);
      NoneReaping(w);
    case Process => ProcessInv(w);
  }

  lemma NoneReaping(w: World)
    ensures w.phases == map[] ==> With(w.phases, Reaping) == {}
  {
  }

  lemma CreateInv(w: World, sid: nat)
    requires Inv(w) && Enabled(w, Create(sid))
    ensures Inv(Step(w, Create(sid)))
  {
    var v := Step(w, Create(sid));
    assert With(v.phases, Reaping) == With(w.phases, Reaping);
    assert sid in v.phases;
  }

  lemma CloseInv(w: World, sid: nat)
    requires Inv(w) && Enabled(w, Close(sid))
    ensures Inv(Step(w, Close(sid)))
  {
    var v := Step(w, Close(sid));
    BoxSnoc(w.box, Reap(sid));
    assert With(v.phases, Reaping) == With(w.phases, Reaping);
    assert sid in w.phases && sid in v.phases;
  }

  lemma DestroyInv(w: World, sid: nat)
    requires Inv(w) && Enabled(w, Destroy(sid))
    ensures Inv(Step(w, Destroy(sid)))
  {
    var gone := w.(phases := w.phases - {sid});
    BoxSnoc(w.box, Stop);
    assert With(gone.phases, Reaping) == With(w.phases, Reaping) - {sid};
    assert sid in w.phases && sid in With(w.phases, Reaping);
  }

  lemma ReapInv(w: World, sid: nat)
    requires Inv(w) && Enabled(w, Process) && w.box[0] == Reap(sid)
    ensures Inv(Step(w, Process))
  {
    BoxRest(w.box);
    var v := Step(w, Process);
    assert sid in w.phases && sid in v.phases;
    assert With(v.phases, Reaping) == With(w.phases, Reaping) + {sid};
  }

  lemma ProcessInv(w: World)
    requires Inv(w) && Enabled(w, Process)
    ensures Inv(Step(w, Process))
  {
    BoxRest(w.box);
    match w.box[0]
    case Reap(sid) => ReapInv(w, sid);
    case Reaped =>
    case Stop => NoneReaping(w);
  }

  /* Whole runs. */

  const START := World(false, false, map[], [], 0, false, false, 0)

  predicate Runs(w: World, es: seq<Event>)
    decreases |es|
  {
    es == [] || (Enabled(w, es[0]) && Runs(Step(w, es[0]), es[1..]))
  }

  function After(w: World, es: seq<Event>): World
    requires Runs(w, es)
    decreases |es|
  {
    if es == [] then w else After(Step(w, es[0]), es[1..])
  }

  lemma {:induction false} RunInv(w: World, es: seq<Event>)
    requires Inv(w) && Runs(w, es)
    ensures Inv(After(w, es))
    decreases |es|
  {
    if es != [] {
      StepInv(w, es[0]);
      RunInv(Step(w, es[0]), es[1..]);
    }
  }

  lemma {:induction false} RunsSnoc(w: World, es: seq<Event>, e: Event)
    ensures Runs(w, es + [e]) <==> Runs(w, es) && Enabled(After(w, es), e)
    ensures Runs(w, es + [e]) ==> After(w, es + [e]) == Step(After(w, es), e)
    decreases |es|
  {
    var all := es + [e];
    if es == [] {
      assert all[1..] == [];
    } else {
      assert all[1..] == es[1..] + [e];
      if Enabled(w, es[0]) {
        RunsSnoc(Step(w, es[0]), es[1..], e);
      }
    }
  }

  // A socket has been made before the context was shut down.
  ghost predicate ShutAfter(es: seq<Event>)
  {
    exists i, j :: 0 <= i < j < |es| && es[i].Create? && es[j].Shutdown?
  }

  ghost predicate AnyMade(es: seq<Event>)
  {
    exists i :: 0 <= i < |es| && es[i].Create?
  }

  // The socket has been made and not been destroyed since.
  ghost predicate MadeForGood(es: seq<Event>, sid: nat)
  {
    exists i :: 0 <= i < |es| && es[i] == Create(sid) && forall j | i < j < |es| :: es[j] != Destroy(sid)
  }

  lemma MadeSnoc(es: seq<Event>, e: Event)
    ensures AnyMade(es + [e]) <==> AnyMade(es) || e.Create?
    ensures ShutAfter(es + [e]) <==> ShutAfter(es) || (AnyMade(es) && e.Shutdown?)
    ensures forall sid ::
              MadeForGood(es + [e], sid) <==> e == Create(sid) || (MadeForGood(es, sid) && e != Destroy(sid))
  {
    var all := es + [e];
    assert forall i | 0 <= i < |es| :: all[i] == es[i];
    assert all[|es|] == e;
    if ShutAfter(all) && !ShutAfter(es) {
      var i, j :| 0 <= i < j < |all| && all[i].Create? && all[j].Shutdown?;
      assert j == |es| && es[i].Create?;
    }
  }

  // The context is shutting down exactly if that was asked for after a socket had been made, and it knows the
  // sockets that have been made and not been destroyed since.
  lemma {:induction false} TerminatingIff(es: seq<Event>)
    requires Runs(START, es)
    ensures After(START, es).started <==> AnyMade(es)
    ensures After(START, es).terminating <==> ShutAfter(es)
    ensures forall sid :: sid in After(START, es).phases <==> MadeForGood(es, sid)
  {
    if es != [] {
      var n := |es| - 1;
      assert es == es[..n] + [es[n]];
      RunsSnoc(START, es[..n], es[n]);
      MadeSnoc(es[..n], es[n]);
      TerminatingIff(es[..n]);
      StartInv();
      RunInv(START, es[..n]);
      StepTells(After(START, es[..n]), es[n]);
    }
  }

  lemma StepTells(w: World, e: Event)
    requires Inv(w) && Enabled(w, e)
    ensures Step(w, e).started == (w.started || e.Create?)
    ensures Step(w, e).terminating == (w.terminating || (w.started && e.Shutdown?))
    ensures forall sid :: sid in Step(w, e).phases <==> e == Create(sid) || (sid in w.phases && e != Destroy(sid))
  {
  }

  lemma StartInv()
    ensures Inv(START)
  {
    assert With(START.phases, Reaping) == {};
  }

  // Whatever mix of shutting down, terminating again after an interruption and closing sockets: the reaper is
  // asked to stop once, when no socket is left, and answers once, when it has none either.
  lemma StoppedOnce(es: seq<Event>)
    requires Runs(START, es)
    ensures var w := After(START, es);
            && multiset(w.box)[Stop] + (if w.stopping then 1 else 0)
               == (if w.terminating && w.phases == map[] then 1 else 0)
            && w.done <= 1
            && (w.done == 1 ==> w.phases == map[] && w.terminating && w.box == [] && !w.leaving)
  {
    StartInv();
    RunInv(START, es);
    var w := After(START, es);
    if w.done == 1 {
      NoneReaping(w);
      forall c ensures multiset(w.box)[c] == 0 {
        match c
        case Reap(s) => assert s !in w.phases;
        case _ =>
      }
      NothingLeft(w.box);
    }
  }

  lemma NothingLeft(box: seq<Cmd>)
    requires forall c :: multiset(box)[c] == 0
    ensures box == []
  {
    if box != [] {
      BoxRest(box);
    }
  }

  // The wait for the reaper ends: as long as it goes on, a socket is still open, or being closed, or the reaper
  // has something to do.
  lemma NotStuck(es: seq<Event>)
    requires Runs(START, es)
    ensures var w := After(START, es);
            w.terminating && w.done == 0 ==>
              w.leaving || w.box != [] || exists s :: s in w.phases && !w.phases[s].Closing?
  {
    StartInv();
    RunInv(START, es);
    var w := After(START, es);
    if w.terminating && w.done == 0 && w.box == [] {
      NoneReaping(w);
      if w.phases != map[] {
        var s :| s in w.phases;
        assert multiset(w.box)[Reap(s)] == 0;
      }
    }
  }

  // What is still to be done, at the most.
  function Work(w: World): nat
  {
    |w.box| + 4 * |w.phases| + 2 * |With(w.phases, Open)| + if w.leaving then 2 else 0
  }

  lemma SameSockets(a: map<nat, Phase>, b: map<nat, Phase>)
    requires a.Keys == b.Keys
    ensures |a| == |b|
  {
    assert |a| == |a.Keys| && |b| == |b.Keys|;
  }

  lemma OneSocketLess(a: map<nat, Phase>, s: nat)
    requires s in a
    ensures |a - {s}| == |a| - 1
  {
    assert (a - {s}).Keys == a.Keys - {s};
    assert |a| == |a.Keys| && |a - {s}| == |(a - {s}).Keys|;
  }

  lemma CloseShrinks(w: World, sid: nat)
    requires Enabled(w, Close(sid))
    ensures Work(Step(w, Close(sid))) < Work(w)
  {
    var v := Step(w, Close(sid));
    SameSockets(v.phases, w.phases);
    assert With(v.phases, Open) == With(w.phases, Open) - {sid} && sid in With(w.phases, Open);
  }

  lemma DestroyShrinks(w: World, sid: nat)
    requires Enabled(w, Destroy(sid))
    ensures Work(Step(w, Destroy(sid))) < Work(w)
  {
    var v := Step(w, Destroy(sid));
    OneSocketLess(w.phases, sid);
    assert v.phases == w.phases - {sid};
    assert With(v.phases, Open) == With(w.phases, Open);
  }

  lemma ProcessShrinks(w: World)
    requires Inv(w) && Enabled(w, Process)
    ensures Work(Step(w, Process)) < Work(w)
  {
    BoxRest(w.box);
    if w.box[0].Reap? {
      var v := Step(w, Process);
      assert w.box[0].sid in w.phases && w.phases[w.box[0].sid].Closing?;
      SameSockets(v.phases, w.phases);
      assert With(v.phases, Open) == With(w.phases, Open);
    }
  }

  // Closing, destroying and the reaper's work come to an end when no sockets are made.
  lemma WorkShrinks(w: World, e: Event)
    requires Inv(w) && w.terminating && Enabled(w, e) && !e.Shutdown?
    ensures Step(w, e).terminating && Work(Step(w, e)) < Work(w)
  {
    match e
    case Close(sid) => CloseShrinks(w, sid);
    case Destroy(sid) => DestroyShrinks(w, sid);
    case SayReaped =>
    case Process => ProcessShrinks(w);
  }
}
