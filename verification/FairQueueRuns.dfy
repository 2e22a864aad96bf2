/** Whole runs of the fair queue: what comes out is the pipes' messages, whole, each pipe's in order. */
module FairQueueRuns {
  import opened Framing
  import opened RoundRobin
  import opened Sequences

  datatype Line<T> = Line(
    ring: Ring<T>,
    more: bool,
    boxes: map<T, Text>,           // frames not read yet
    sent: map<T, seq<Text>>,       // every message ever put into a pipe
    out: Text,                     // every frame ever read
    done: seq<Parcel<T>>,        // the whole messages read
    part: Text)                    // the frames read of a message not finished

  datatype Event<T> =
    | Attach(p: T)
    | Deliver(p: T, m: Text)
    | Activate(i: nat)
    | Terminate(i: nat)
    | HasIn(asleep: set<T>)
    | Recv(asleep: set<T>)

  // Pipes that have something to read, whatever it is that keeps some of them from showing it.
  ghost function Able<T>(l: Line<T>, asleep: set<T>): set<T>
    requires forall p | p in l.ring.items :: p in l.boxes
  {
    set p | p in l.ring.items && l.boxes[p] != [] && p !in asleep
  }

  // Of all the messages sent, those in `got` have come out; what is left, after what was read of the message
  // not finished, is the others.
  ghost predicate Adds(all: seq<Text>, got: seq<Text>, rest: Text, box: Text)
  {
    && Messages(all)
    && got <= all
    && rest + box == Flat(all[|got|..])
  }

  ghost predicate Accounted<T>(l: Line<T>, p: T)
    requires p in l.boxes && p in l.sent
  {
    Adds(l.sent[p], Through(l.done, p), Rest(l, p), l.boxes[p])
  }

  ghost function Rest<T>(l: Line<T>, p: T): Text
  {
    if l.more && l.ring.current < |l.ring.items| && p == l.ring.items[l.ring.current] then l.part else []
  }

  ghost predicate Shape<T>(l: Line<T>)
  {
    && Ok(l.ring)
    && l.boxes.Keys == l.sent.Keys
    && (forall p | p in l.ring.items :: p in l.boxes)
    && (forall k | 0 <= k < |l.done| :: l.done[k].pipe in l.boxes)
    && l.out == Flat(Texts(l.done)) + l.part
    && (l.more <==> l.part != [])
    && (forall k | 0 <= k < |l.part| :: l.part[k].more)
    && (l.more ==> l.ring.active > 0)
  }

  ghost predicate Inv<T(!new)>(l: Line<T>)
  {
    && Shape(l)
    && forall p | p in l.boxes :: Accounted(l, p)
  }

  // Reading goes on in the middle of a message with a pipe that was awake, and a pipe is never lost then.
  ghost predicate Enabled<T>(l: Line<T>, e: Event<T>)
    requires Ok(l.ring)
  {
    match e
    case Attach(p) => p !in l.boxes
    case Deliver(p, m) => p in l.ring.items && Message(m)
    case Activate(i) => l.ring.active <= i < |l.ring.items|
    case Terminate(i) => i < |l.ring.items| && KeepsTurn(l, i)
    case HasIn(_) => true
    case Recv(asleep) => l.more && l.ring.active > 0 ==> l.ring.items[l.ring.current] !in asleep
  }

  predicate KeepsTurn<T>(l: Line<T>, i: nat)
  {
    var r := l.ring;
    !l.more || (i != r.current && !(0 < i < r.current == r.active - 1))
  }

  ghost function Step<T(!new)>(l: Line<T>, e: Event<T>): Line<T>
    requires Inv(l) && Enabled(l, e)
  {
    match e
    case Attach(p) => l.(ring := Attached(l.ring, p), boxes := l.boxes[p := []], sent := l.sent[p := []])
    case Deliver(p, m) => l.(boxes := l.boxes[p := l.boxes[p] + m], sent := l.sent[p := l.sent[p] + [m]])
    case Activate(i) => l.(ring := Activated(l.ring, i))
    case Terminate(i) => l.(ring := Terminated(l.ring, i))
    case HasIn(asleep) => if l.more then l else l.(ring := Settled(l.ring, Able(l, asleep)))
    case Recv(asleep) =>
      var s := Settled(l.ring, Able(l, asleep));
      if s.active == 0 then l.(ring := s) else Read(l.(ring := s))
  }

  // One frame read from the current pipe.
  ghost function Read<T>(l: Line<T>): Line<T>
    requires l.ring.current < |l.ring.items|
    requires l.ring.items[l.ring.current] in l.boxes && l.boxes[l.ring.items[l.ring.current]] != []
  {
    var p := l.ring.items[l.ring.current];
    var f := l.boxes[p][0];
    var part := l.part + [f];
    Line(if f.more then l.ring else Advanced(l.ring), f.more, l.boxes[p := l.boxes[p][1..]], l.sent, l.out + [f],
         if f.more then l.done else l.done + [Parcel(p, part)],
         if f.more then part else [])
  }

  // The pipe a message has begun to come from has the rest of it.
  lemma Available<T(!new)>(l: Line<T>)
    requires Inv(l) && l.more
    ensures l.boxes[l.ring.items[l.ring.current]] != []
  {
    var p := l.ring.items[l.ring.current];
    assert p in l.ring.items && p in l.boxes && Accounted(l, p);
    var rest := l.sent[p][|Through(l.done, p)|..];
    if l.boxes[p] == [] {
      assert l.part == Flat(rest);
      EndsWhole(rest);
    }
  }

  lemma SameAccounts<T(!new)>(l: Line<T>, r: Ring<T>)
    requires Inv(l) && Ok(r) && (l.more ==> r.active > 0 && r.items[r.current] == l.ring.items[l.ring.current])
    requires forall p | p in r.items :: p in l.boxes
    ensures Inv(l.(ring := r))
  {
    var w := l.(ring := r);
    forall p | p in w.boxes ensures Accounted(w, p) {
      assert Accounted(l, p) && Rest(w, p) == Rest(l, p);
    }
  }

  lemma AttachShape<T(!new)>(l: Line<T>, p: T)
    requires Shape(l) && p !in l.boxes
    ensures Shape(l.(ring := Attached(l.ring, p), boxes := l.boxes[p := []], sent := l.sent[p := []]))
    ensures l.ring.active > 0 ==> Attached(l.ring, p).items[l.ring.current] == l.ring.items[l.ring.current]
  {
    assert p !in l.ring.items;
    RoundRobin.StepOk(l.ring, Join(p));
    SwapMembers(l.ring.items + [p], l.ring.active, |l.ring.items|);
  }

  lemma AttachInv<T(!new)>(l: Line<T>, p: T)
    requires Inv(l) && p !in l.boxes
    ensures Inv(Step(l, Attach(p)))
  {
    var w := Step(l, Attach(p));
    AttachShape(l, p);
    NeverThrough(l.done, p);
    forall q | q in w.boxes ensures Accounted(w, q) {
      if q != p {
        assert Accounted(l, q) && Rest(w, q) == Rest(l, q);
      } else {
        assert Rest(w, p) == [];
      }
    }
  }

  lemma OneMoreSent(all: seq<Text>, got: seq<Text>, rest: Text, box: Text, m: Text)
    requires Adds(all, got, rest, box) && Message(m)
    ensures Adds(all + [m], got, rest, box + m)
  {
    assert (all + [m])[|got|..] == all[|got|..] + [m];
    FlatSnoc(all[|got|..], m);
    assert rest + (box + m) == rest + box + m;
  }

  lemma DeliverInv<T(!new)>(l: Line<T>, p: T, m: Text)
    requires Inv(l) && p in l.ring.items && Message(m)
    ensures Inv(Step(l, Deliver(p, m)))
  {
    var w := Step(l, Deliver(p, m));
    forall q | q in w.boxes ensures Accounted(w, q) {
      assert Accounted(l, q) && Rest(w, q) == Rest(l, q);
      if q == p {
        OneMoreSent(l.sent[p], Through(l.done, p), Rest(l, p), l.boxes[p], m);
      }
    }
  }

  lemma ActivateInv<T(!new)>(l: Line<T>, i: nat)
    requires Inv(l) && l.ring.active <= i < |l.ring.items|
    ensures Inv(Step(l, Activate(i)))
  {
    SwapMembers(l.ring.items, i, l.ring.active);
    SameAccounts(l, Activated(l.ring, i));
  }

  lemma SettleInv<T(!new)>(l: Line<T>, can: set<T>)
    requires Inv(l) && (l.more ==> l.ring.items[l.ring.current] in can)
    ensures Inv(l.(ring := Settled(l.ring, can)))
  {
    SettledOk(l.ring, can);
    SameAccounts(l, Settled(l.ring, can));
  }

  // A termination in the middle of a message does harm exactly when it takes the turn from the pipe the
  // message comes from.
  lemma TerminateInvIff<T(!new)>(l: Line<T>, i: nat)
    requires Inv(l) && i < |l.ring.items|
    ensures Inv(l.(ring := Terminated(l.ring, i))) <==> KeepsTurn(l, i)
  {
    TerminatedOk(l.ring, i);
    if l.more && i != l.ring.current {
      CurrentKept(l.ring, i);
    }
    if KeepsTurn(l, i) {
      SameAccounts(l, Terminated(l.ring, i));
    } else {
      var p, w := l.ring.items[l.ring.current], l.(ring := Terminated(l.ring, i));
      assert p in l.ring.items && p in l.boxes && Accounted(l, p);
      assert Rest(w, p) == [];
      assert |Rest(l, p) + l.boxes[p]| > |Rest(w, p) + w.boxes[p]|;
      assert !Accounted(w, p);
    }
  }

  lemma OneMoreRead(all: seq<Text>, got: seq<Text>, part: Text, box: Text)
    requires Adds(all, got, part, box) && box != []
    ensures Adds(all, got, part + [box[0]], box[1..])
  {
    assert part + [box[0]] + box[1..] == part + box;
  }

  // The pipe the next frame comes from.
  ghost predicate Ready<T>(l: Line<T>, p: T)
  {
    && l.ring.current < |l.ring.items| && l.ring.active > 0
    && p == l.ring.items[l.ring.current]
    && p in l.boxes && l.boxes[p] != []
  }

  lemma ReadShape<T>(l: Line<T>, p: T)
    requires Shape(l) && Ready(l, p)
    ensures Shape(Read(l))
  {
    var w := Read(l);
    assert l.out + [l.boxes[p][0]] == Flat(Texts(l.done)) + (l.part + [l.boxes[p][0]]);
    if !l.boxes[p][0].more {
      DoneSnoc(l.done, Parcel(p, l.part + [l.boxes[p][0]]));
    }
  }

  lemma ReadOthers<T>(l: Line<T>, p: T, q: T)
    requires Shape(l) && Ready(l, p) && q in l.boxes && q != p && Accounted(l, q)
    ensures Shape(Read(l)) && Accounted(Read(l), q)
  {
    ReadShape(l, p);
    var w := Read(l);
    assert Rest(l, q) == [];
    assert Rest(w, q) == [];
    DoneSnoc(l.done, Parcel(p, l.part + [l.boxes[p][0]]));
    assert Through(w.done, q) == Through(l.done, q);
    assert w.boxes[q] == l.boxes[q];
  }

  // The frame that ends the message: what has been read of it is the first message that was left.
  lemma MessageRead(all: seq<Text>, got: seq<Text>, part: Text, box: Text)
    requires Adds(all, got, part, box)
    requires box != [] && !box[0].more && forall k | 0 <= k < |part| :: part[k].more
    ensures Adds(all, got + [part + [box[0]]], [], box[1..])
  {
    var rest := all[|got|..];
    assert (part + box)[|part|] == box[0];
    FirstMessage(rest, |part|);
    assert rest[0] == (part + box)[..|part| + 1] == part + [box[0]];
    assert rest[0] == all[|got|];
    assert all[..|got| + 1] == got + [part + [box[0]]];
    assert rest[1..] == all[|got| + 1..];
    assert Flat(rest) == rest[0] + Flat(rest[1..]);
    assert [] + box[1..] == Flat(rest)[|rest[0]|..];
  }

  lemma ReadOwn<T>(l: Line<T>, p: T)
    requires Shape(l) && Ready(l, p) && Accounted(l, p)
    ensures Shape(Read(l)) && Accounted(Read(l), p)
  {
    ReadShape(l, p);
    var w := Read(l);
    assert Rest(l, p) == l.part;
    if w.more {
      OneMoreRead(l.sent[p], Through(l.done, p), l.part, l.boxes[p]);
    } else {
      MessageRead(l.sent[p], Through(l.done, p), l.part, l.boxes[p]);
      DoneSnoc(l.done, Parcel(p, l.part + [l.boxes[p][0]]));
    }
  }

  lemma ReadInv<T(!new)>(l: Line<T>, p: T)
    requires Inv(l) && Ready(l, p)
    ensures Inv(Read(l))
  {
    ReadShape(l, p);
    forall q | q in l.boxes ensures Accounted(Read(l), q) {
      if q == p {
        ReadOwn(l, p);
      } else {
        ReadOthers(l, p, q);
      }
    }
  }

  lemma StepInv<T(!new)>(l: Line<T>, e: Event<T>)
    requires Inv(l) && Enabled(l, e)
    ensures Inv(Step(l, e))
  {
    match e
    case Attach(p) => AttachInv(l, p);
    case Deliver(p, m) => DeliverInv(l, p, m);
    case Activate(i) => ActivateInv(l, i);
    case Terminate(i) => TerminateInvIff(l, i);
    case HasIn(asleep) =>
      if !l.more {
        SettleInv(l, Able(l, asleep));
      }
    case Recv(asleep) =>
      if l.more {
        Available(l);
      }
      var s := Settled(l.ring, Able(l, asleep));
      SettleInv(l, Able(l, asleep));
      if s.active > 0 {
        ReadInv(l.(ring := s), s.items[s.current]);
      }
  }

  ghost function Empty<T>(): Line<T>
  {
    Line(Ring([], 0, 0), false, map[], map[], [], [], [])
  }

  ghost predicate Runs<T(!new)>(l: Line<T>, es: seq<Event<T>>)
    requires Inv(l)
    decreases |es|
  {
    es == [] || (Enabled(l, es[0]) && (StepInv(l, es[0]); Runs(Step(l, es[0]), es[1..])))
  }

  ghost function After<T(!new)>(l: Line<T>, es: seq<Event<T>>): (w: Line<T>)
    requires Inv(l) && Runs(l, es)
    ensures Inv(w)
    decreases |es|
  {
    if es == [] then l else StepInv(l, es[0]); After(Step(l, es[0]), es[1..])
  }

  // Messages come out whole, one after the other; those of a pipe are the first it was sent, in order; and a
  // pipe still has the frames that have not come out.
  lemma WholeMessages<T(!new)>(es: seq<Event<T>>)
    requires Runs(Empty<T>(), es)
    ensures var w := After(Empty<T>(), es);
            && w.out == Flat(Texts(w.done)) + w.part
            && (forall k | 0 <= k < |w.part| :: w.part[k].more)
            && (w.more ==> w.part != [] && w.boxes[w.ring.items[w.ring.current]] != [])
            && forall p | p in w.boxes ::
                 var got, all := Through(w.done, p), w.sent[p];
                 && Messages(all) && got <= all
                 && Rest(w, p) + w.boxes[p] == Flat(all[|got|..])
  {
    var w := After(Empty<T>(), es);
    if w.more {
      Available(w);
    }
    forall p | p in w.boxes
      ensures Accounted(w, p)
    {
    }
  }

  /* What a termination in the middle of a message leads to. */

  // The next call of recv finds nothing in the pipe it takes the message from: the assertion that there is no
  // message in the middle fails.
  ghost predicate Aborts<T>(l: Line<T>, asleep: set<T>)
    requires forall p | p in l.ring.items :: p in l.boxes
  {
    && l.more && l.ring.current < l.ring.active <= |l.ring.items|
    && l.ring.items[l.ring.current] !in Able(l, asleep)
  }

  // If the turn is kept, the message goes on.  If not, another pipe has the turn, or none has: then the rest of
  // the message is lost, the call fails its assertion, or a frame of another message comes out instead.
  lemma TerminationOutcome<T(!new)>(l: Line<T>, i: nat, asleep: set<T>)
    requires Inv(l) && l.more && i < |l.ring.items| && l.ring.items[l.ring.current] !in asleep
    ensures var q, w := l.ring.items[l.ring.current], l.(ring := Terminated(l.ring, i));
            && Ok(w.ring) && (forall p | p in w.ring.items :: p in w.boxes)
            && if KeepsTurn(l, i) then
                 Ready(w, q) && !Aborts(w, asleep) && Read(w).out == l.out + [l.boxes[q][0]]
               else
                 || (w.ring.active == 0 && i == l.ring.current)
                 || Aborts(w, asleep)
                 || (exists p :: p != q && Ready(w, p) && Read(w).out == l.out + [l.boxes[p][0]])
  {
    var q, w := l.ring.items[l.ring.current], l.(ring := Terminated(l.ring, i));
    TerminatedOk(l.ring, i);
    if i != l.ring.current {
      CurrentKept(l.ring, i);
    }
    Available(l);
    if !KeepsTurn(l, i) && w.ring.active > 0 && !Aborts(w, asleep) {
      var p := w.ring.items[w.ring.current];
      assert p in w.ring.items && p in l.ring.items && p != q;
      assert Ready(w, p);
    }
  }

  lemma Unroll<T(!new)>(l: Line<T>, es: seq<Event<T>>)
    requires Inv(l) && Runs(l, es) && es != []
    ensures Enabled(l, es[0]) && Inv(Step(l, es[0])) && Runs(Step(l, es[0]), es[1..])
    ensures After(l, es) == After(Step(l, es[0]), es[1..])
  {
    StepInv(l, es[0]);
  }

  lemma {:induction false} Extend<T(!new)>(l: Line<T>, es: seq<Event<T>>, e: Event<T>)
    requires Inv(l) && Runs(l, es) && Enabled(After(l, es), e)
    ensures Runs(l, es + [e]) && After(l, es + [e]) == Step(After(l, es), e)
    decreases |es|
  {
    if es == [] {
      StepInv(l, e);
      assert [e][1..] == [];
    } else {
      Unroll(l, es);
      assert (es + [e])[1..] == es[1..] + [e] && (es + [e])[0] == es[0];
      Extend(Step(l, es[0]), es[1..], e);
    }
  }

  // The line is l after some run from the start.
  ghost predicate Reached<T(!new)>(l: Line<T>)
  {
    exists es :: Runs(Empty<T>(), es) && After(Empty<T>(), es) == l
  }

  lemma ReachedNext<T(!new)>(l: Line<T>, e: Event<T>)
    requires Reached(l) && Inv(l) && Enabled(l, e)
    ensures Inv(Step(l, e)) && Reached(Step(l, e))
  {
    var es :| Runs(Empty<T>(), es) && After(Empty<T>(), es) == l;
    Extend(Empty<T>(), es, e);
    StepInv(l, e);
    assert Runs(Empty<T>(), es + [e]) && After(Empty<T>(), es + [e]) == Step(l, e);
  }
}
