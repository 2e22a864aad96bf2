/** The load balancer of outbound messages. */
module LoadBalancer {
  import opened Bytes
  import opened Framing
  import opened Pipes
  import opened RoundRobin
  import opened Sequences

  /* Where the frames are.

     `done` tells which message went through which pipe; `part` is what was taken of the message being sent,
     empty unless one is `open`. */

  // A pipe holds exactly its whole messages, all readable, and the current one the part as well.
  ghost predicate Fits<T>(r: Ring<T>, open: bool, done: seq<Parcel<T>>, part: Text, p: T, box: Text, flushed: nat)
  {
    && flushed == |Flat(Through(done, p))|
    && box == Flat(Through(done, p)) + if open && r.current < |r.items| && p == r.items[r.current] then part else []
  }

  ghost predicate Proper<T>(r: Ring<T>, open: bool, done: seq<Parcel<T>>, part: Text)
  {
    && (open <==> part != [])
    && (open ==> r.current < r.active <= |r.items|)
    && (forall k | 0 <= k < |part| :: part[k].more)
    && (forall k | 0 <= k < |done| :: Message(done[k].text))
  }

  lemma {:induction false} ThroughMessages<T>(done: seq<Parcel<T>>, p: T)
    requires forall k | 0 <= k < |done| :: Message(done[k].text)
    ensures Messages(Through(done, p))
  {
    if done != [] {
      ThroughMessages(done[..|done| - 1], p);
    }
  }

  // A rollback takes the part out and nothing else.
  lemma RolledBack<T>(r: Ring<T>, done: seq<Parcel<T>>, part: Text, p: T, box: Text, flushed: nat)
    requires Proper(r, true, done, part) && p == r.items[r.current]
    requires Fits(r, true, done, part, p, box, flushed)
    ensures Fits(r, false, done, [], p, Whole(box), flushed)
  {
    var whole := Flat(Through(done, p));
    ThroughMessages(done, p);
    if whole != [] {
      EndsWhole(Through(done, p));
    }
    WholeOf(whole, part);
  }

  lemma {:induction false} WholeOf(a: Text, b: Text)
    requires (a != [] ==> !a[|a| - 1].more) && forall k | 0 <= k < |b| :: b[k].more
    ensures Whole(a + b) == a
  {
    if b == [] {
      assert a + b == a;
    } else {
      assert (a + b)[..|a + b| - 1] == a + b[..|b| - 1];
      WholeOf(a, b[..|b| - 1]);
    }
  }

  // A frame written that announces another makes the part longer.
  lemma WrittenOn<T>(r: Ring<T>, open: bool, done: seq<Parcel<T>>, part: Text, p: T, box: Text, flushed: nat,
                     f: Frame)
    requires Proper(r, open, done, part) && r.current < r.active <= |r.items| && p == r.items[r.current]
    requires Fits(r, open, done, part, p, box, flushed) && f.more
    ensures Proper(r, true, done, part + [f])
    ensures Fits(r, true, done, part + [f], p, box + [f], flushed)
  {
    assert box == Flat(Through(done, p)) + part;
  }

  // The last frame makes a message of it, which becomes readable.
  lemma WrittenLast<T>(r: Ring<T>, open: bool, done: seq<Parcel<T>>, part: Text, p: T, box: Text, flushed: nat,
                       f: Frame)
    requires Proper(r, open, done, part) && r.current < r.active <= |r.items| && p == r.items[r.current]
    requires Fits(r, open, done, part, p, box, flushed) && !f.more
    ensures var all := done + [Parcel(p, part + [f])];
            && Proper(Advanced(r), false, all, [])
            && Fits(Advanced(r), false, all, [], p, box + [f], |Whole(box + [f])|)
  {
    MessageDone(done, part, p, f);
    BoxDone(done, part, p, box, f);
  }

  lemma MessageDone<T>(done: seq<Parcel<T>>, part: Text, p: T, f: Frame)
    requires (forall k | 0 <= k < |part| :: part[k].more) && !f.more
    requires forall k | 0 <= k < |done| :: Message(done[k].text)
    ensures var all := done + [Parcel(p, part + [f])]; forall k | 0 <= k < |all| :: Message(all[k].text)
  {
  }

  lemma BoxDone<T>(done: seq<Parcel<T>>, part: Text, p: T, box: Text, f: Frame)
    requires box == Flat(Through(done, p)) + part && !f.more
    ensures Flat(Through(done + [Parcel(p, part + [f])], p)) == box + [f] == Whole(box + [f])
  {
    ThroughSnoc(done, p, part + [f]);
    LastText(Through(done, p), part, box, f);
  }

  lemma LastText(got: seq<Text>, part: Text, box: Text, f: Frame)
    requires box == Flat(got) + part && !f.more
    ensures Flat(got + [part + [f]]) == box + [f] == Whole(box + [f])
  {
    FlatSnoc(got, part + [f]);
    Assoc(Flat(got), part, [f]);
  }

  // Other pipes are not concerned.
  lemma OthersFit<T>(r: Ring<T>, open: bool, done: seq<Parcel<T>>, part: Text, p: T, q: T, box: Text, flushed: nat,
                     f: Frame)
    requires Proper(r, open, done, part) && r.current < r.active <= |r.items| && p == r.items[r.current]
    requires Fits(r, open, done, part, q, box, flushed) && q != p
    ensures f.more ==> Fits(r, true, done, part + [f], q, box, flushed)
    ensures !f.more ==> Fits(Advanced(r), false, done + [Parcel(p, part + [f])], [], q, box, flushed)
    ensures Fits(r, false, done, [], q, box, flushed)
  {
    DoneSnoc(done, Parcel(p, part + [f]));
    assert Through(done + [Parcel(p, part + [f])], q) == Through(done, q);
  }

  function Parcels<T>(p: T, ms: seq<Text>): (rs: seq<Parcel<T>>)
    ensures |rs| == |ms| && forall k | 0 <= k < |ms| :: rs[k] == Parcel(p, ms[k])
  {
    seq(|ms|, k requires 0 <= k < |ms| => Parcel(p, ms[k]))
  }

  lemma {:induction false} ThroughAll<T>(done: seq<Parcel<T>>, p: T, ms: seq<Text>, q: T)
    ensures Through(done + Parcels(p, ms), q) == if q == p then Through(done, q) + ms else Through(done, q)
  {
    if ms == [] {
      assert done + Parcels(p, ms) == done;
    } else {
      var n := |ms| - 1;
      var before := done + Parcels(p, ms[..n]);
      ThroughAll(done, p, ms[..n], q);
      assert done + Parcels(p, ms) == before + [Parcel(p, ms[n])] by {
        assert Parcels(p, ms) == Parcels(p, ms[..n]) + [Parcel(p, ms[n])];
      }
      assert (before + [Parcel(p, ms[n])])[..|before|] == before;
      assert ms == ms[..n] + [ms[n]];
    }
  }

  // A new pipe holds the messages it came with, and the others what they held.
  lemma JoinedFits<T>(r: Ring<T>, s: Ring<T>, open: bool, done: seq<Parcel<T>>, part: Text, p: T, ms: seq<Text>)
    requires forall k | 0 <= k < |done| :: done[k].pipe != p
    requires open ==> r.current < |r.items| && s.current < |s.items| && r.items[r.current] == s.items[s.current] != p
    ensures Fits(s, open, done + Parcels(p, ms), part, p, Flat(ms), |Flat(ms)|)
  {
    NeverThrough(done, p);
    ThroughAll(done, p, ms, p);
    assert [] + ms == ms;
  }

  lemma OldFits<T>(r: Ring<T>, s: Ring<T>, open: bool, done: seq<Parcel<T>>, part: Text, p: T, ms: seq<Text>,
                   q: T, box: Text, flushed: nat)
    requires open ==> r.current < |r.items| && s.current < |s.items| && r.items[r.current] == s.items[s.current]
    requires q != p && Fits(r, open, done, part, q, box, flushed)
    ensures Fits(s, open, done + Parcels(p, ms), part, q, box, flushed)
  {
    ThroughAll(done, p, ms, q);
  }

  // Whether the turn stays with the pipe a message is being sent through when the i-th goes.
  predicate KeepsTurn<T>(r: Ring<T>, i: nat)
  {
    !(0 < i < r.current == r.active - 1)
  }

  // Exactly then the pipes that stay are in order.
  lemma TerminatedFitIff<T>(r: Ring<T>, done: seq<Parcel<T>>, part: Text, boxes: map<T, Text>, i: nat)
    requires Ok(r) && Proper(r, true, done, part) && i < |r.items| && i != r.current
    requires forall p | p in r.items :: p in boxes && Fits(r, true, done, part, p, boxes[p], |Flat(Through(done, p))|)
    ensures var s := Terminated(r, i);
            (forall p | p in s.items :: p in boxes && Fits(s, true, done, part, p, boxes[p], |Flat(Through(done, p))|))
            <==> KeepsTurn(r, i)
  {
    var s := Terminated(r, i);
    TerminatedOk(r, i);
    CurrentKept(r, i);
    if KeepsTurn(r, i) {
      assert s.items[s.current] == r.items[r.current];
      forall p | p in s.items ensures p in boxes && Fits(s, true, done, part, p, boxes[p], |Flat(Through(done, p))|) {
      }
    } else {
      var p := s.items[s.current];
      assert p in s.items && p in r.items;
      assert boxes[p] == Flat(Through(done, p));
      assert !Fits(s, true, done, part, p, boxes[p], |Flat(Through(done, p))|);
    }
  }

  /* Sending a frame. */

  datatype Desk<T> = Desk(ring: Ring<T>, more: bool, dropping: bool, done: seq<Parcel<T>>, part: Text)

  // The i-th pipe has gone; the rest of a message that was being sent through it is dropped.
  function Gone<T>(v: Desk<T>, i: nat): Desk<T>
    requires v.ring.active <= |v.ring.items| && i < |v.ring.items|
  {
    var lost := v.more && i == v.ring.current;
    v.(ring := Terminated(v.ring, i), dropping := v.dropping || lost, part := if lost then [] else v.part)
  }

  predicate KeepsMessage<T>(v: Desk<T>, i: nat)
  {
    v.more && !v.dropping && i != v.ring.current ==> KeepsTurn(v.ring, i)
  }

  // The current pipe took the frame; after the last one it is the turn of the next pipe.
  function Took<T>(v: Desk<T>, f: Frame): Desk<T>
    requires v.ring.current < |v.ring.items|
  {
    if f.more then
      v.(more := true, part := v.part + [f])
    else
      var p := v.ring.items[v.ring.current];
      v.(more := false, ring := Advanced(v.ring), done := v.done + [Parcel(p, v.part + [f])], part := [])
  }

  datatype Outcome<T> = Outcome(desk: Desk<T>, rc: int, to: Option<T>)

  // 0: the frame was taken, or dropped; -1: no pipe can take it; -2: its message cannot be finished.
  ghost function Send<T>(v: Desk<T>, can: set<T>, f: Frame): Outcome<T>
    requires Ok(v.ring)
  {
    if v.dropping then
      Outcome(v.(more := f.more, dropping := f.more), 0, None)
    else if v.more && v.ring.active > 0 && v.ring.items[v.ring.current] !in can then
      Outcome(v.(more := false, dropping := f.more, part := []), -2, None)
    else
      var s := Settled(v.ring, can);
      if s.active == 0 then
        Outcome(v.(ring := s), -1, None)
      else
        Outcome(Took(v.(ring := s), f), 0, Some(s.items[s.current]))
  }

  // What the answer means.  -1: there is nothing to drop, no message that would have to be given up, and no active
  // pipe can take the frame.  -2: the pipe of the message cannot.  A frame that is dropped goes nowhere; one that is
  // taken goes to an active pipe that can take it, and to that of its message.
  lemma Answers<T>(v: Desk<T>, can: set<T>, f: Frame)
    requires Ok(v.ring)
    ensures var o := Send(v, can, f);
            && (o.rc == -1 <==>
                  !v.dropping && (v.more ==> v.ring.active == 0) && forall p | IsActive(v.ring, p) :: p !in can)
            && (o.rc == -2 <==> !v.dropping && v.more && v.ring.active > 0 && v.ring.items[v.ring.current] !in can)
            && (o.rc == 0 || o.rc == -1 || o.rc == -2)
            && (o.to.Some? <==> o.rc == 0 && !v.dropping)
            && (o.to.Some? ==> o.to.value in can && IsActive(v.ring, o.to.value))
            && (o.to.Some? && v.more ==> o.to.value == v.ring.items[v.ring.current])
  {
    var s := Settled(v.ring, can);
    if s.active == 0 {
      NoneLeft(v.ring, can);
    } else {
      SettledFrom(v.ring, can);
    }
  }

  // What a pipe holds after the call, if what it holds before and after is in order.
  lemma Effect<T>(v: Desk<T>, can: set<T>, f: Frame, q: T, was: Text, shown: nat, now: Text, shownNow: nat)
    requires Ok(v.ring) && Proper(v.ring, v.more && !v.dropping, v.done, v.part)
    requires Fits(v.ring, v.more && !v.dropping, v.done, v.part, q, was, shown)
    requires var w := Send(v, can, f).desk; Fits(w.ring, w.more && !w.dropping, w.done, w.part, q, now, shownNow)
    ensures var o := Send(v, can, f);
            && (o.rc != -2 ==> now == if o.to == Some(q) then was + [f] else was)
            && (o.rc == -2 ==> was == now + if q == v.ring.items[v.ring.current] then v.part else [])
  {
    Answers(v, can, f);
    var o := Send(v, can, f);
    if o.to.Some? {
      var p := o.to.value;
      DoneSnoc(v.done, Parcel(p, v.part + [f]));
      if q == p {
        assert was == Flat(Through(v.done, p)) + v.part;
        if f.more {
          Assoc(Flat(Through(v.done, p)), v.part, [f]);
        } else {
          BoxDone(v.done, v.part, p, was, f);
        }
      } else {
        assert Through(v.done + [Parcel(p, v.part + [f])], q) == Through(v.done, q) + [] == Through(v.done, q);
      }
    }
  }

  // When a pipe terminates in the middle of a message: if it is the one the message goes through, the rest is
  // dropped; if that pipe keeps its turn, it gets the next frame, or everything is taken back; if not, the next
  // frame goes to another pipe, behind whole messages there, or what is taken back is taken from another pipe.
  lemma TerminationOutcome<T>(v: Desk<T>, i: nat, can: set<T>, f: Frame)
    requires Ok(v.ring) && Proper(v.ring, true, v.done, v.part) && v.more && !v.dropping && i < |v.ring.items|
    ensures var w, q := Gone(v, i), v.ring.items[v.ring.current];
            && Ok(w.ring)
            && if i == v.ring.current then
                 Send(w, can, f) == Outcome(w.(more := f.more, dropping := f.more), 0, None)
               else
                 var p := w.ring.items[w.ring.current];
                 && (p == q <==> KeepsTurn(v.ring, i))
                 && Send(w, can, f) == if p in can then Outcome(Took(w, f), 0, Some(p))
                                       else Outcome(w.(more := false, dropping := f.more, part := []), -2, None)
  {
    TerminatedOk(v.ring, i);
    if i != v.ring.current {
      CurrentKept(v.ring, i);
    }
  }

  // It happens: with three pipes served in turn, the third has begun a message when the second goes, and the
  // first gets the end of it.
  lemma MixedUp<T>(a: T, b: T, c: T, x: Frame, y: Frame, f: Frame, g: Frame)
    requires a != b && b != c && a != c && !x.more && !y.more && f.more && !g.more
    ensures var v0 := Desk(Ring([a, b, c], 3, 0), false, false, [], []);
            var v1 := Send(v0, {a, b, c}, x).desk;
            && Ok(v0.ring) && Ok(v1.ring)
            && var v2 := Send(v1, {a, b, c}, y).desk;
            && Ok(v2.ring)
            && var o := Send(v2, {a, b, c}, f);
            && o.to == Some(c) && o.desk.part == [f] && Ok(o.desk.ring)
            && Ok(Gone(o.desk, 1).ring) && Send(Gone(o.desk, 1), {a, b, c}, g).to == Some(a)
  {
    var v0 := Desk(Ring([a, b, c], 3, 0), false, false, [], []);
    assert Settled(v0.ring, {a, b, c}) == v0.ring;
    var v1 := Desk(Ring([a, b, c], 3, 1), false, false, [Parcel(a, [x])], []);
    assert [] + [x] == [x] && Send(v0, {a, b, c}, x).desk == v1;
    assert Settled(v1.ring, {a, b, c}) == v1.ring;
    var v2 := Send(v1, {a, b, c}, y).desk;
    assert v2.ring == Ring([a, b, c], 3, 2) && v2.part == [];
    assert Settled(v2.ring, {a, b, c}) == v2.ring;
    var v3 := Send(v2, {a, b, c}, f).desk;
    assert v3.ring == v2.ring && v3.part == [] + [f] == [f];
    var w := Gone(v3, 1);
    assert w.ring == Ring([a, c], 2, 0);
    assert Settled(w.ring, {a, b, c}) == w.ring;
  }

  // The pipe that refuses a later frame of a message stays active, and it is still its turn; so it may be activated
  // when it is active.  There is a place to move it to if and only if some pipe is not active, and it is the first of
  // those which becomes active then, and whose turn it is; no other is activated or loses its place.
  lemma RefusedStays<T>(v: Desk<T>, can: set<T>, f: Frame)
    requires Ok(v.ring) && Send(v, can, f).rc == -2
    ensures var r := Send(v, can, f).desk.ring;
            && r == v.ring && r.active > 0 && r.items[r.current] !in can && IsActive(r, r.items[r.current])
            && (r.active < |r.items| <==> exists p :: p in r.items && !IsActive(r, p))
            && (r.active < |r.items| ==>
                  var s := Activated(r, r.current);
                  && Ok(s) && s.items[s.current] == r.items[r.active]
                  && forall p :: IsActive(s, p) <==> IsActive(r, p) || p == r.items[r.active])
  {
    var r := v.ring;
    assert r.items[..r.active][r.current] == r.items[r.current];
    if r.active < |r.items| {
      ActivatedIff(r, r.current);
      assert Activated(r, r.current).items[r.current] == r.items[r.active];
      assert r.items[r.active] in r.items && !IsActive(r, r.items[r.active]);
    } else {
      assert r.items[..r.active] == r.items;
    }
  }

  // It happens that there is none: the only pipe takes the first frame of a message and refuses the second.
  lemma NoPlaceLeft<T>(a: T, f: Frame, g: Frame)
    requires f.more
    ensures var v0 := Desk(Ring([a], 1, 0), false, false, [], []);
            && Ok(v0.ring)
            && var o := Send(v0, {a}, f);
            && o.to == Some(a) && Ok(o.desk.ring)
            && Send(o.desk, {}, g).rc == -2 && Send(o.desk, {}, g).desk.ring == Ring([a], 1, 0)
            && forall p :: p in [a] ==> IsActive(Ring([a], 1, 0), p)
  {
    var v0 := Desk(Ring([a], 1, 0), false, false, [], []);
    assert Settled(v0.ring, {a}) == v0.ring;
    assert [a][..1] == [a];
  }

  // One turn of the loop.
  lemma SendTurn<T>(v: Desk<T>, can: set<T>, f: Frame)
    requires Ok(v.ring) && !v.dropping && v.ring.active > 0
    ensures Ok(Deactivated(v.ring))
    ensures var p := v.ring.items[v.ring.current];
            Send(v, can, f) == if p in can then Outcome(Took(v, f), 0, Some(p))
                               else if v.more then Outcome(v.(more := false, dropping := f.more, part := []), -2, None)
                               else Send(v.(ring := Deactivated(v.ring)), can, f)
  {
    DeactivatedOk(v.ring);
  }

  class Lb {
    const pipes: PipeArray
    var active: nat
    var current: nat
    var more: bool
    var dropping: bool
    ghost var done: seq<Parcel<Pipe>>
    ghost var part: Text

    ghost predicate Valid()
      reads this, pipes, pipes.items
    {
      && pipes.Valid()
      && active <= |pipes.items|
      && (current < active || current == active == 0)
      && Proper(Now(), Open(), done, part)
    }

    ghost function Now(): Ring<Pipe>
      reads this, pipes
    {
      Ring(pipes.items, active, current)
    }

    ghost function View(): Desk<Pipe>
      reads this, pipes
    {
      Desk(Now(), more, dropping, done, part)
    }

    // A message is being sent through the current pipe.
    ghost predicate Open()
      reads this
    {
      more && !dropping
    }

    ghost predicate InOrder(p: Pipe)
      reads this, pipes, p
    {
      && (p.open ==> p.hasOut)
      && (p.hasOut ==> Fits(Now(), Open(), done, part, p, p.outbox, p.flushed))
    }

    // Every pipe that can still be written to holds whole messages, the current one perhaps a part of one.
    ghost predicate Atomic()
      reads this, pipes, pipes.Members()
    {
      forall p | p in pipes.Members() :: InOrder(p)
    }

    static ghost predicate AllIdle(ps: set<Pipe>)
      reads ps
    {
      forall p | p in ps :: p.Idle()
    }

    // The pipes that are not active take nothing before they are activated.
    ghost predicate Awake(but: set<Pipe>)
      reads this, pipes, pipes.items
    {
      active <= |pipes.items| && AllIdle(Passive(Now()) - but)
    }

    ghost function Writable(): set<Pipe>
      reads this, pipes, pipes.items
    {
      set p | p in pipes.items && p.CanWrite()
    }

    lemma RingOk()
      requires Valid()
      ensures Ok(Now())
    {
      pipes.Distinct();
    }

    constructor ()
      ensures Valid() && Atomic() && Awake({}) && fresh(pipes)
      ensures Now() == Ring([], 0, 0) && !more && !dropping && done == []
    {
      pipes := new PipeArray();
      active, current, more, dropping := 0, 0, false, false;
      done, part := [], [];
    }

    // Writes a frame to the current pipe, and lets its reader have the message if it is the last.
    method WriteTo(f: Frame, ghost idle: set<Pipe>) returns (p: Pipe, ok: bool)
      requires Valid() && active > 0 && AllIdle(idle)
      modifies pipes.Members()`outActive, pipes.Members()`msgsWritten, pipes.Members()`outbox
      modifies pipes.Members()`offers, pipes.Members()`flushed
      ensures p == pipes.items[current] && p in pipes.Members() && ok == old(p.CanWrite())
      ensures p.outbox == if ok then old(p.outbox) + [f] else old(p.outbox)
      ensures p.flushed == if ok && !f.more && p.hasOut then |Whole(p.outbox)| else old(p.flushed)
      ensures forall q | q in pipes.Members() && q != p ::
                q.outbox == old(q.outbox) && q.flushed == old(q.flushed) && q.CanWrite() == old(q.CanWrite())
      ensures !ok ==> !p.CanWrite()
      ensures AllIdle(if ok then idle else idle + {p})
    {
      p := pipes.items[current];
      ok := p.Write(f);
      if ok && !f.more {
        p.Flush();
      }
    }

    // Accounts for a frame written; after the last one it is the turn of the next pipe.
    method Account(p: Pipe, f: Frame)
      requires Valid() && active > 0 && p == pipes.items[current]
      modifies this`more, this`current, this`done, this`part
      ensures View() == Took(old(View()), f)
    {
      more := f.more;
      part := part + [f];
      if !more {
        done, part := done + [Parcel(p, part)], [];
        current := current + 1;
        if current >= active {
          current := 0;
        }
      }
    }

    // The current pipe took the frame, the others nothing.
    twostate predicate Wrote(k: nat, f: Frame)
      requires k < |pipes.items| && pipes.items == old(pipes.items)
      reads pipes, pipes.Members()
    {
      var p := pipes.items[k];
      && p.open && old(p.open) && p.hasOut && old(p.hasOut) && p.outbox == old(p.outbox) + [f]
      && p.flushed == (if !f.more then |Whole(p.outbox)| else old(p.flushed))
      && forall q | q in pipes.Members() && q != p ::
           && q.open == old(q.open) && q.hasOut == old(q.hasOut)
           && q.outbox == old(q.outbox) && q.flushed == old(q.flushed)
    }

    // After a frame was written and accounted for, every pipe is in order again.
    twostate lemma TookInOrder(f: Frame)
      requires old(Valid()) && old(Atomic()) && old(active) > 0
      requires !dropping && !old(dropping) && pipes.items == old(pipes.items)
      requires View() == Took(old(View()), f) && Wrote(old(current), f)
      ensures Proper(Now(), Open(), done, part) && Atomic()
    {
      var p := old(pipes.items)[old(current)];
      var r, o, d, t := old(Now()), old(Open()), old(done), old(part);
      assert p in old(pipes.Members()) && old(InOrder(p));
      if f.more {
        WrittenOn(r, o, d, t, p, old(p.outbox), old(p.flushed), f);
      } else {
        WrittenLast(r, o, d, t, p, old(p.outbox), old(p.flushed), f);
      }
      forall q | q in pipes.Members() ensures InOrder(q) {
        if q != p {
          assert q in old(pipes.Members()) && old(InOrder(q));
          if q.hasOut {
            OthersFit(r, o, d, t, p, q, q.outbox, q.flushed, f);
          }
        }
      }
    }

    // No frame has moved, and the turn is where it was if a message is open.
    twostate lemma StillInOrder()
      requires old(Atomic()) && pipes.Members() <= old(pipes.Members())
      requires Open() == old(Open()) && part == old(part) && done == old(done)
      requires Open() ==> current < |pipes.items| && old(current) < |old(pipes.items)|
                          && pipes.items[current] == old(pipes.items)[old(current)]
      requires forall q | q in pipes.Members() ::
                 && q.open == old(q.open) && q.hasOut == old(q.hasOut)
                 && q.outbox == old(q.outbox) && q.flushed == old(q.flushed)
      ensures Atomic()
    {
      forall q | q in pipes.Members() ensures InOrder(q) {
        assert q in old(pipes.Members()) && old(InOrder(q));
      }
    }

    // Tries the current pipe with a frame.  It stays the current one until the message is complete.
    method Put(f: Frame, ghost idle: set<Pipe>) returns (p: Pipe, ok: bool)
      requires Valid() && Atomic() && !dropping && active > 0 && AllIdle(idle)
      modifies this`more, this`current, this`done, this`part
      modifies pipes.Members()`outActive, pipes.Members()`msgsWritten, pipes.Members()`outbox
      modifies pipes.Members()`offers, pipes.Members()`flushed
      ensures Valid() && Atomic()
      ensures p == old(pipes.items)[old(current)] && ok == old(p.CanWrite())
      ensures View() == if ok then Took(old(View()), f) else old(View())
      ensures !ok ==> forall q | q in pipes.Members() :: q.CanWrite() == old(q.CanWrite())
      ensures AllIdle(if ok then idle else idle + {p})
    {
      p, ok := WriteTo(f, idle);
      assert old(InOrder(p));
      if ok {
        Account(p, f);
        TookInOrder(f);
      } else {
        StillInOrder();
      }
    }

    // The current pipe changes places with the last active one; it had no message open.
    method Deactivate()
      requires Valid() && Atomic() && !more && active > 0
      modifies this`active, this`current, pipes, pipes.Members()`arrayIndex
      ensures Valid() && Atomic() && View() == old(View()).(ring := Deactivated(old(Now())))
      ensures pipes.Members() == old(pipes.Members()) && Writable() == old(Writable())
    {
      active := active - 1;
      SwapMembers(pipes.items, current, active);
      if current < active {
        pipes.Swap(current, active);
      } else {
        assert Swapped(pipes.items, current, active) == pipes.items;
        current := 0;
      }
      StillInOrder();
    }

    // The pipe of the message being sent takes no more: its frames are taken back, the others dropped.
    method GiveUp(f: Frame)
      requires Valid() && Atomic() && Open()
      modifies this`more, this`dropping, this`part, pipes.Members()`outbox
      ensures Valid() && Atomic() && View() == old(View()).(more := false, dropping := f.more, part := [])
    {
      var p := pipes.items[current];
      assert p in pipes.Members() && InOrder(p);
      p.Rollback();
      if p.hasOut {
        RolledBack(Now(), done, part, p, old(p.outbox), p.flushed);
      }
      dropping := f.more;
      more := false;
      part := [];
      BackInOrder(old(current));
    }

    // Frames were taken back from the pipe that had part of a message.
    twostate lemma BackInOrder(k: nat)
      requires k == old(current) && old(Valid()) && old(Atomic()) && old(Open())
      requires pipes.items == old(pipes.items) && current == old(current) && !Open() && part == [] && done == old(done)
      requires var p := pipes.items[k]; p.hasOut ==> Fits(Now(), false, done, [], p, p.outbox, p.flushed)
      requires forall q | q in pipes.Members() ::
                 && q.open == old(q.open) && q.hasOut == old(q.hasOut) && q.flushed == old(q.flushed)
                 && (q != pipes.items[k] ==> q.outbox == old(q.outbox))
      ensures Atomic()
    {
      forall q | q in pipes.Members() ensures InOrder(q) {
        assert q in old(pipes.Members()) && old(InOrder(q));
      }
    }

    // The current pipe takes the frame, or the message is given up, or it is the turn of another pipe.
    method Turn(f: Frame, ghost but: set<Pipe>) returns (over: bool, rc: int, to: Option<Pipe>)
      requires Valid() && Atomic() && !dropping && active > 0 && Awake(but)
      modifies this, pipes, pipes.Members()`arrayIndex
      modifies pipes.Members()`outActive, pipes.Members()`msgsWritten, pipes.Members()`outbox
      modifies pipes.Members()`offers, pipes.Members()`flushed
      ensures Valid() && Atomic() && pipes.Members() == old(pipes.Members()) && old(Ok(Now()))
      ensures over ==> Outcome(View(), rc, to) == Send(old(View()), old(Writable()), f)
      ensures !over ==> !dropping && active < old(active) && Ok(Now()) && Writable() == old(Writable())
                        && Send(View(), Writable(), f) == Send(old(View()), old(Writable()), f)
      ensures Awake(but)
    {
      RingOk();
      SendTurn(View(), Writable(), f);
      ghost var can := Writable();
      var p, ok := Put(f, Passive(Now()) - but);
      if ok {
        return true, 0, Some(p);
      }
      SameWritable(can);
      over := PassOver(f, but);
      return over, if over then -2 else 0, None;
    }

    // The current pipe cannot take the frame.
    method PassOver(f: Frame, ghost but: set<Pipe>) returns (over: bool)
      requires Valid() && Atomic() && !dropping && active > 0 && Awake(but)
      requires pipes.items[current] !in Writable() && pipes.items[current].Idle()
      modifies this, pipes, pipes.Members()`arrayIndex, pipes.Members()`outbox
      ensures Valid() && Atomic() && pipes.Members() == old(pipes.Members()) && old(Ok(Now())) && Awake(but)
      ensures over ==> Outcome(View(), -2, None) == Send(old(View()), old(Writable()), f)
      ensures !over ==> !dropping && active < old(active) && Ok(Now()) && Writable() == old(Writable())
                        && Send(View(), Writable(), f) == Send(old(View()), old(Writable()), f)
    {
      RingOk();
      SendTurn(View(), Writable(), f);
      if more {
        GiveUp(f);
        return true;
      }
      DeactivatedPassive(Now());
      Deactivate();
      return false;
    }

    lemma SameWritable(can: set<Pipe>)
      requires can <= pipes.Members()
      requires forall q | q in pipes.Members() :: q in can <==> q.CanWrite()
      ensures Writable() == can
    {
    }

    method SendOn(f: Frame, ghost but: set<Pipe>) returns (rc: int, to: Option<Pipe>)
      requires Valid() && Atomic() && !dropping && Awake(but)
      modifies this, pipes, pipes.Members()`arrayIndex
      modifies pipes.Members()`outActive, pipes.Members()`msgsWritten, pipes.Members()`outbox
      modifies pipes.Members()`offers, pipes.Members()`flushed
      ensures Valid() && Atomic() && Awake(but) && pipes.Members() == old(pipes.Members())
      ensures old(Ok(Now())) && Outcome(View(), rc, to) == Send(old(View()), old(Writable()), f)
    {
      RingOk();
      while active > 0
        invariant Valid() && Atomic() && Awake(but) && pipes.Members() == old(pipes.Members())
        invariant !dropping && Ok(Now())
        invariant Send(View(), Writable(), f) == Send(old(View()), old(Writable()), f)
        decreases active
      {
        var over;
        over, rc, to := Turn(f, but);
        if over {
          return;
        }
      }
      return -1, None;
    }

    // What becomes of the frame, and of the message it is part of, is what `Send` says.  A frame that is taken is
    // the last one in the pipe it went to, other pipes keep what they have, and -1 means that no pipe at all can
    // take it.  Whatever happens, no pipe is left with anything but whole messages and the part of the one being
    // sent.
    method SendPipe(f: Frame) returns (rc: int, to: Option<Pipe>)
      requires Valid() && Atomic()
      modifies this, pipes, pipes.Members()`arrayIndex
      modifies pipes.Members()`outActive, pipes.Members()`msgsWritten, pipes.Members()`outbox
      modifies pipes.Members()`offers, pipes.Members()`flushed
      ensures Valid() && Atomic() && (old(Awake({})) ==> Awake({})) && pipes.Members() == old(pipes.Members())
      ensures old(Ok(Now())) && Outcome(View(), rc, to) == Send(old(View()), old(Writable()), f)
      ensures rc != -2 ==> forall q | q in pipes.Members() && q.hasOut ::
                q.outbox == old(q.outbox) + if to == Some(q) then [f] else []
      ensures rc == -2 ==> old(current < |pipes.items|) && forall q | q in pipes.Members() && q.hasOut ::
                old(q.outbox) == q.outbox + if q == old(pipes.items[current]) then old(part) else []
      ensures old(Awake({})) ==>
                (rc == -1 <==> !old(dropping) && (old(more) ==> old(active) == 0)
                               && forall q | q in old(pipes.Members()) :: q !in old(Writable()))
    {
      rc, to := SendAny(f);
      Effects((f, rc, to));
      if old(Awake({})) {
        OnlyWhenFull((f, rc, to));
      }
    }

    twostate lemma Effects(o: (Frame, int, Option<Pipe>))
      requires old(Valid()) && old(Atomic()) && old(Ok(Now())) && Atomic() && pipes.Members() == old(pipes.Members())
      requires Outcome(View(), o.1, o.2) == Send(old(View()), old(Writable()), o.0)
      requires forall q | q in pipes.Members() :: q.hasOut == old(q.hasOut)
      ensures o.1 != -2 ==> forall q | q in pipes.Members() && q.hasOut ::
                q.outbox == old(q.outbox) + if o.2 == Some(q) then [o.0] else []
      ensures o.1 == -2 ==> old(current < |pipes.items|) && forall q | q in pipes.Members() && q.hasOut ::
                old(q.outbox) == q.outbox + if q == old(pipes.items[current]) then old(part) else []
    {
      Answers(old(View()), old(Writable()), o.0);
      forall q | q in pipes.Members() && q.hasOut
        ensures o.1 != -2 ==> q.outbox == old(q.outbox) + if o.2 == Some(q) then [o.0] else []
        ensures o.1 == -2 ==> old(q.outbox) == q.outbox + if q == old(pipes.items[current]) then old(part) else []
      {
        assert InOrder(q) && old(InOrder(q));
        Effect(old(View()), old(Writable()), o.0, q, old(q.outbox), old(q.flushed), q.outbox, q.flushed);
      }
    }

    twostate lemma OnlyWhenFull(o: (Frame, int, Option<Pipe>))
      requires old(Valid()) && old(Ok(Now())) && old(Awake({}))
      requires Outcome(View(), o.1, o.2) == Send(old(View()), old(Writable()), o.0)
      ensures o.1 == -1 <==> !old(dropping) && (old(more) ==> old(active) == 0)
                             && forall q | q in old(pipes.Members()) :: q !in old(Writable())
    {
      Answers(old(View()), old(Writable()), o.0);
      if forall q | IsActive(old(Now()), q) :: q !in old(Writable()) {
        NoneAtAll();
      }
    }

    method SendAny(f: Frame) returns (rc: int, to: Option<Pipe>)
      requires Valid() && Atomic()
      modifies this, pipes, pipes.Members()`arrayIndex
      modifies pipes.Members()`outActive, pipes.Members()`msgsWritten, pipes.Members()`outbox
      modifies pipes.Members()`offers, pipes.Members()`flushed
      ensures Valid() && Atomic() && (old(Awake({})) ==> Awake({})) && pipes.Members() == old(pipes.Members())
      ensures old(Ok(Now())) && Outcome(View(), rc, to) == Send(old(View()), old(Writable()), f)
    {
      if dropping {
        RingOk();
        more := f.more;
        dropping := more;
        StillInOrder();
        return 0, None;
      }
      ghost var but := set p | p in Passive(Now()) && !p.Idle();
      rc, to := SendOn(f, but);
    }

    // No means that no pipe at all can take a frame.
    method HasOut() returns (ok: bool)
      requires Valid() && Atomic()
      modifies this`active, this`current, pipes, pipes.Members()`arrayIndex, pipes.Members()`outActive
      ensures Valid() && Atomic() && pipes.Members() == old(pipes.Members()) && old(Ok(Now()))
      ensures View() == if old(more) then old(View())
                        else old(View()).(ring := Settled(old(Now()), old(Writable())))
      ensures ok == (more || active > 0)
      ensures !ok ==> forall q | q in old(Now()).items[..old(active)] :: q !in old(Writable())
      ensures old(Awake({})) ==> Awake({}) && (!ok ==> forall q | q in pipes.Members() :: q !in old(Writable()))
    {
      RingOk();
      if more {
        return true;
      }
      ghost var but := set p | p in Passive(Now()) && !p.Idle();
      while active > 0
        invariant Valid() && Atomic() && pipes.Members() == old(pipes.Members())
        invariant View() == old(View()).(ring := Now()) && Awake(but)
        invariant Ok(Now()) && Settled(Now(), Writable()) == Settled(old(Now()), old(Writable()))
        decreases active
      {
        ok := Look(but);
        if ok {
          return;
        }
      }
      NoneLeft(old(Now()), old(Writable()));
      if old(Awake({})) {
        NoneAtAll();
      }
      return false;
    }

    twostate lemma NoneAtAll()
      requires old(Valid()) && old(Ok(Now())) && old(Awake({}))
      requires forall q | IsActive(old(Now()), q) :: q !in old(Writable())
      ensures forall q | q in old(pipes.Members()) :: q !in old(Writable())
    {
      PassiveIff(old(Now()));
      forall q | q in old(pipes.Members()) && !IsActive(old(Now()), q) ensures q !in old(Writable()) {
        assert q in Passive(old(Now())) - {} && old(q.Idle());
      }
    }

    // Asks the current pipe whether it has room; one that has none is deactivated.
    method Look(ghost but: set<Pipe>) returns (ok: bool)
      requires Valid() && Atomic() && !more && active > 0 && Awake(but)
      modifies this`active, this`current, pipes, pipes.Members()`arrayIndex, pipes.Members()`outActive
      ensures Valid() && Atomic() && pipes.Members() == old(pipes.Members()) && old(Ok(Now())) && Awake(but)
      ensures Ok(Now()) && Settled(Now(), Writable()) == Settled(old(Now()), old(Writable()))
      ensures View() == old(View()).(ring := Now())
      ensures if ok then Now() == old(Now()) && pipes.items[current] in Writable() else active < old(active)
    {
      RingOk();
      DeactivatedOk(Now());
      ok := Ask(but);
      if !ok {
        DeactivatedPassive(Now());
        Deactivate();
      }
    }

    method Ask(ghost but: set<Pipe>) returns (ok: bool)
      requires Valid() && Atomic() && active > 0 && Awake(but)
      modifies pipes.Members()`outActive
      ensures Valid() && Atomic() && Awake(but) && Writable() == old(Writable())
      ensures ok == (pipes.items[current] in Writable()) && (ok || pipes.items[current].Idle())
    {
      ghost var can := Writable();
      var p := pipes.items[current];
      assert p in pipes.Members();
      ok := p.CheckWrite();
      StillInOrder();
      SameWritable(can);
    }

    // A pipe that has room again joins the active ones.  One that refused a frame may still be among them; it
    // changes places then with the first that is not.  If there is none, there is no such place in the array.
    method Activated(p: Pipe) returns (inRange: bool)
      requires Valid() && Atomic() && p in pipes.items
      modifies this`active, pipes, pipes.Members()`arrayIndex
      ensures Valid() && pipes.Members() == old(pipes.Members())
      ensures 0 <= old(p.arrayIndex) < |old(pipes.items)| && old(pipes.items)[old(p.arrayIndex)] == p
      ensures inRange <==> old(active) < |old(pipes.items)|
      ensures inRange ==> View() == old(View()).(ring := RoundRobin.Activated(old(Now()), old(p.arrayIndex)))
      ensures !inRange ==> View() == old(View())
      ensures old(Awake({p})) ==> Awake({})
      ensures !inRange || old(!Open() || p != pipes.items[current]) ==> Atomic()
    {
      var i := pipes.Index(p);
      if active == |pipes.items| {
        StillInOrder();
        return false;
      }
      RingOk();
      ActivatedPassive(Now(), i);
      MoveUp(i);
      if !Open() || i != current {
        StillInOrder();
      }
      return true;
    }

    method MoveUp(i: nat)
      requires pipes.Valid() && active < |pipes.items| && i < |pipes.items|
      modifies this`active, pipes, pipes.Members()`arrayIndex
      ensures pipes.Valid() && pipes.Members() == old(pipes.Members())
      ensures Now() == RoundRobin.Activated(old(Now()), i)
    {
      SwapMembers(pipes.items, i, active);
      pipes.Swap(i, active);
      active := active + 1;
    }

    // A new pipe, which may hold whole messages of its own already.
    method Attach(p: Pipe, ghost ms: seq<Text>)
      requires Valid() && Atomic() && p !in pipes.items
      requires p.hasOut && Messages(ms) && p.outbox == Flat(ms) && p.flushed == |p.outbox|
      requires forall k | 0 <= k < |done| :: done[k].pipe != p
      modifies this`active, this`done, pipes, pipes.Members()`arrayIndex, p`arrayIndex
      ensures Valid() && Atomic() && pipes.Members() == old(pipes.Members()) + {p}
      ensures View() == old(View()).(ring := Attached(old(Now()), p), done := old(done) + Parcels(p, ms))
      ensures old(Awake({})) ==> Awake({})
    {
      RingOk();
      AttachedPassive(Now(), p);
      Append(p);
      done := done + Parcels(p, ms);
      JoinedInOrder(ms);
    }

    method Append(p: Pipe)
      requires pipes.Valid() && active <= |pipes.items| && p !in pipes.items
      modifies this`active, pipes, pipes.Members()`arrayIndex, p`arrayIndex
      ensures pipes.Valid() && 0 < active <= |pipes.items| && Now() == Attached(old(Now()), p)
      ensures pipes.Members() == old(pipes.Members()) + {p} && pipes.items[active - 1] == p
      ensures forall k | 0 <= k < old(active) :: pipes.items[k] == old(pipes.items)[k]
    {
      pipes.PushBack(p);
      ghost var s := pipes.items;
      SwapMembers(s, active, |s| - 1);
      assert Swapped(s, active, |s| - 1) == Swapped(s, |s| - 1, active);
      pipes.Swap(|pipes.items| - 1, active);
      active := active + 1;
    }

    // The last active pipe is new; it holds the messages it came with.
    twostate lemma JoinedInOrder(ms: seq<Text>)
      requires old(Valid()) && old(Atomic()) && 0 < active <= |pipes.items| && current == old(current)
      requires pipes.Members() == old(pipes.Members()) + {pipes.items[active - 1]}
      requires done == old(done) + Parcels(pipes.items[active - 1], ms)
      requires forall k | 0 <= k < |old(done)| :: old(done)[k].pipe != pipes.items[active - 1]
      requires Open() == old(Open()) && part == old(part)
      requires Open() ==> current < active - 1 && pipes.items[current] == old(pipes.items)[old(current)]
      requires var p := pipes.items[active - 1];
               && p !in old(pipes.items) && p.hasOut && p.outbox == Flat(ms) && p.flushed == |p.outbox|
               requires forall q | q in old(pipes.Members()) ::
                 && q.open == old(q.open) && q.hasOut == old(q.hasOut)
                 && q.outbox == old(q.outbox) && q.flushed == old(q.flushed)
      ensures Atomic()
    {
      var p, r, o, d, t := pipes.items[active - 1], old(Now()), old(Open()), old(done), old(part);
      assert Open() ==> pipes.items[current] in old(pipes.items);
      JoinedFits(r, Now(), o, d, t, p, ms);
      forall q | q in pipes.Members() ensures InOrder(q) {
        if q != p {
          assert q in old(pipes.Members()) && old(InOrder(q));
          if q.hasOut {
            OldFits(r, Now(), o, d, t, p, ms, q, q.outbox, q.flushed);
          }
        }
      }
    }

    // The rest of a message is dropped when the pipe it goes through has gone.  When another pipe goes, all
    // is well unless the turn passes to a third one.
    method PipeTerminated(p: Pipe)
      requires Valid() && Atomic() && p in pipes.items
      modifies this, pipes, pipes.Members()`arrayIndex
      ensures Valid() && 0 <= old(p.arrayIndex) < |old(pipes.items)| && old(pipes.items)[old(p.arrayIndex)] == p
      ensures View() == Gone(old(View()), old(p.arrayIndex))
      ensures KeepsMessage(old(View()), old(p.arrayIndex)) ==> Atomic()
      ensures old(Awake({})) ==> Awake({})
    {
      RingOk();
      TerminatedPassive(Now(), p.arrayIndex);
      ghost var index := Depart(p);
      GoneInOrder(index);
    }

    method Depart(p: Pipe) returns (index: nat)
      requires pipes.Valid() && active <= |pipes.items| && p in pipes.items
      modifies this, pipes, pipes.Members()`arrayIndex
      ensures pipes.Valid() && index == old(p.arrayIndex) < |old(pipes.items)| && old(pipes.items)[index] == p
      ensures View() == Gone(old(View()), index)
    {
      index := pipes.Index(p);
      assert pipes.items[index].arrayIndex == index;
      if index == current && more {
        dropping := true;
        part := [];
      }
      Remove(p);
    }

    method Remove(p: Pipe)
      requires pipes.Valid() && active <= |pipes.items| && p in pipes.items
      modifies this`active, this`current, pipes, pipes.Members()`arrayIndex
      ensures pipes.Valid()
      ensures 0 <= old(p.arrayIndex) < |old(pipes.items)| && old(pipes.items)[old(p.arrayIndex)] == p
      ensures Now() == Terminated(old(Now()), old(p.arrayIndex))
    {
      LeaveActive(p);
      assert p in pipes.Members();
      pipes.Erase(p);
    }

    // An active pipe that goes changes places with the last active one first.
    method LeaveActive(p: Pipe)
      requires pipes.Valid() && active <= |pipes.items| && p in pipes.items
      modifies this`active, this`current, pipes, pipes.Members()`arrayIndex
      ensures pipes.Valid() && pipes.Members() == old(pipes.Members())
      ensures 0 <= old(p.arrayIndex) < |old(pipes.items)| && old(pipes.items)[old(p.arrayIndex)] == p
      ensures p in pipes.items && active <= |pipes.items|
      ensures Now() == Left(old(Now()), old(p.arrayIndex))
      ensures p.arrayIndex == if old(p.arrayIndex) < old(active) then active else old(p.arrayIndex)
    {
      var index := pipes.Index(p);
      assert pipes.items[index].arrayIndex == index;
      if index < active {
        active := active - 1;
        SwapMembers(pipes.items, index, active);
        pipes.Swap(index, active);
        assert pipes.items[active] == p && pipes.items[active].arrayIndex == active;
        if current == active {
          current := 0;
        }
      }
    }

    // One pipe has gone.
    twostate lemma GoneInOrder(i: nat)
      requires old(Valid()) && old(Atomic()) && old(Ok(Now())) && i < |old(pipes.items)|
      requires View() == Gone(old(View()), i)
      requires forall q | q in pipes.Members() && q in old(pipes.Members()) ::
                 && q.open == old(q.open) && q.hasOut == old(q.hasOut)
                 && q.outbox == old(q.outbox) && q.flushed == old(q.flushed)
      ensures Proper(Now(), Open(), done, part) && (current < active || current == active == 0)
      ensures KeepsMessage(old(View()), i) ==> Atomic()
    {
      TerminatedOk(old(Now()), i);
      if old(Open()) && i != old(current) {
        CurrentKept(old(Now()), i);
      }
      if KeepsMessage(old(View()), i) {
        forall q | q in pipes.Members() ensures InOrder(q) {
          assert q in Now().items;
          assert q in old(Now()).items && q != old(pipes.items)[i];
          assert q in old(pipes.Members()) && old(InOrder(q));
        }
      }
    }
  }
}
