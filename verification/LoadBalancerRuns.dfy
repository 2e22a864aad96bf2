/** Whole runs of the load balancer: what becomes of the messages it is given, frame by frame. */
module LoadBalancerRuns {
  import opened Framing
  import opened LoadBalancer
  import opened Pipes
  import opened RoundRobin

  datatype Event<T> =
    | Join(p: T)
    | Return(i: nat)
    | Leave(i: nat)
    | Ask(can: set<T>)               // has_out
    | Put(can: set<T>, f: Frame)

  // A pipe that leaves in the middle of a message of another does not take the turn away.
  ghost predicate Enabled<T>(v: Desk<T>, e: Event<T>)
  {
    match e
    case Join(p) => p !in v.ring.items
    case Return(i) => v.ring.active <= i < |v.ring.items|
    case Leave(i) => i < |v.ring.items| && KeepsMessage(v, i)
    case _ => true
  }

  ghost function Step<T>(v: Desk<T>, e: Event<T>): Desk<T>
    requires Ok(v.ring) && Enabled(v, e)
  {
    match e
    case Join(p) => v.(ring := Attached(v.ring, p))
    case Return(i) => v.(ring := Activated(v.ring, i))
    case Leave(i) => Gone(v, i)
    case Ask(can) => if v.more then v else v.(ring := Settled(v.ring, can))
    case Put(can, f) => Send(v, can, f).desk
  }

  // The frames the caller is rid of: all but those it is told to come back with.
  ghost function Said<T>(v: Desk<T>, e: Event<T>): Text
    requires Ok(v.ring)
  {
    if e.Put? && Send(v, e.can, e.f).rc != -1 then [e.f] else []
  }

  // A message is given up: its pipe refuses a frame of it, or leaves.
  ghost predicate GivesUp<T>(v: Desk<T>, e: Event<T>)
    requires Ok(v.ring)
  {
    || (e.Put? && Send(v, e.can, e.f).rc == -2)
    || (e.Leave? && v.more && !v.dropping && e.i == v.ring.current)
  }

  /* The messages in a text, and what is left at its end. */

  function Cut(s: Text): seq<Text>
  {
    if s == [] then []
    else
      var front, last := s[..|s| - 1], s[|s| - 1];
      if last.more then Cut(front) else Cut(front) + [Tail(front) + [last]]
  }

  function Tail(s: Text): Text
  {
    if s == [] || !s[|s| - 1].more then [] else Tail(s[..|s| - 1]) + [s[|s| - 1]]
  }

  lemma {:induction false} CutIsAll(s: Text)
    ensures Messages(Cut(s)) && Flat(Cut(s)) + Tail(s) == s
    ensures forall k | 0 <= k < |Tail(s)| :: Tail(s)[k].more
  {
    if s != [] {
      var front, last := s[..|s| - 1], s[|s| - 1];
      CutIsAll(front);
      assert s == front + [last];
      if !last.more {
        FlatSnoc(Cut(front), Tail(front) + [last]);
      }
    }
  }

  lemma CutSnoc(s: Text, f: Frame)
    ensures Cut(s + [f]) == if f.more then Cut(s) else Cut(s) + [Tail(s) + [f]]
    ensures Tail(s + [f]) == if f.more then Tail(s) + [f] else []
  {
    assert (s + [f])[..|s|] == s;
  }

  // a is what is left of b when some are left out.
  predicate Sub(a: seq<Text>, b: seq<Text>)
    decreases |b|
  {
    a == [] || (b != [] && ((a[|a| - 1] == b[|b| - 1] && Sub(a[..|a| - 1], b[..|b| - 1])) || Sub(a, b[..|b| - 1])))
  }

  lemma SubSnoc(a: seq<Text>, b: seq<Text>, m: Text)
    requires Sub(a, b)
    ensures Sub(a, b + [m]) && Sub(a + [m], b + [m])
  {
    assert (b + [m])[..|b|] == b && (a + [m])[..|a|] == a;
  }

  /* Runs. */

  ghost predicate Inv<T>(v: Desk<T>, said: Text, lost: nat)
  {
    && Ok(v.ring) && Proper(v.ring, v.more && !v.dropping, v.done, v.part)
    && (!v.dropping ==> v.part == Tail(said))
    && Sub(Texts(v.done), Cut(said))
    && |Cut(said)| + (if v.dropping then 1 else 0) == |v.done| + lost
  }

  lemma TextsSnoc<T>(rs: seq<Parcel<T>>, r: Parcel<T>)
    ensures Texts(rs + [r]) == Texts(rs) + [r.text]
  {
  }

  lemma TookInv<T>(v: Desk<T>, f: Frame, said: Text, lost: nat)
    requires Inv(v, said, lost) && !v.dropping && v.ring.active > 0
    ensures Inv(Took(v, f), said + [f], lost)
  {
    var p := v.ring.items[v.ring.current];
    CutSnoc(said, f);
    TextsSnoc(v.done, Parcel(p, v.part + [f]));
    SubSnoc(Texts(v.done), Cut(said), v.part + [f]);
    TookProper(v, f);
  }

  lemma TookProper<T>(v: Desk<T>, f: Frame)
    requires Ok(v.ring) && Proper(v.ring, v.more && !v.dropping, v.done, v.part) && !v.dropping && v.ring.active > 0
    ensures var w := Took(v, f); Ok(w.ring) && Proper(w.ring, w.more && !w.dropping, w.done, w.part)
  {
  }

  lemma PutInv<T>(v: Desk<T>, can: set<T>, f: Frame, said: Text, lost: nat)
    requires Inv(v, said, lost)
    ensures var o := Send(v, can, f);
            Inv(o.desk, if o.rc == -1 then said else said + [f], if o.rc == -2 then lost + 1 else lost)
  {
    var s := Settled(v.ring, can);
    SettledOk(v.ring, can);
    CutSnoc(said, f);
    SubSnoc(Texts(v.done), Cut(said), Tail(said) + [f]);
    if !v.dropping && s.active > 0 && (v.more ==> v.ring.items[v.ring.current] in can) {
      TookInv(v.(ring := s), f, said, lost);
    }
  }

  lemma StepInv<T>(v: Desk<T>, e: Event<T>, said: Text, lost: nat)
    requires Inv(v, said, lost) && Enabled(v, e)
    ensures Inv(Step(v, e), said + Said(v, e), lost + if GivesUp(v, e) then 1 else 0)
  {
    assert said + [] == said;
    match e
    case Join(p) => RoundRobin.StepOk(v.ring, RoundRobin.Join(p));
    case Return(i) => RoundRobin.StepOk(v.ring, RoundRobin.Return(i));
    case Leave(i) =>
      TerminatedOk(v.ring, i);
      if v.more && !v.dropping && i != v.ring.current {
        CurrentKept(v.ring, i);
      }
    case Ask(can) => SettledOk(v.ring, can);
    case Put(can, f) => PutInv(v, can, f, said, lost);
  }

  // A run, with what was said in it and how often a message was given up.
  ghost predicate Run<T(!new)>(es: seq<Event<T>>, w: Desk<T>, said: Text, lost: nat)
    decreases |es|
  {
    if es == [] then w == Desk(Ring([], 0, 0), false, false, [], []) && said == [] && lost == 0
    else
      var n := |es| - 1;
      exists v, before, gone: nat ::
        && Run(es[..n], v, before, gone) && Ok(v.ring) && Enabled(v, es[n]) && w == Step(v, es[n])
        && said == before + Said(v, es[n]) && lost == gone + if GivesUp(v, es[n]) then 1 else 0
  }

  lemma {:induction false} RunInv<T(!new)>(es: seq<Event<T>>, w: Desk<T>, said: Text, lost: nat)
    requires Run(es, w, said, lost)
    ensures Inv(w, said, lost)
    decreases |es|
  {
    if es != [] {
      var n := |es| - 1;
      var v, before, gone: nat :|
        && Run(es[..n], v, before, gone) && Ok(v.ring) && Enabled(v, es[n]) && w == Step(v, es[n])
        && said == before + Said(v, es[n]) && lost == gone + if GivesUp(v, es[n]) then 1 else 0;
      RunInv(es[..n], v, before, gone);
      StepInv(v, es[n], before, gone);
    }
  }

  // Of the messages the caller is rid of, each has gone through one pipe, whole and in order, but one for each
  // that had to be given up; what is written of the message being sent is all of it that was said.
  lemma WholeOrGivenUp<T(!new)>(es: seq<Event<T>>, w: Desk<T>, said: Text, lost: nat)
    requires Run(es, w, said, lost)
    ensures Messages(Cut(said)) && Flat(Cut(said)) + Tail(said) == said
    ensures Sub(Texts(w.done), Cut(said))
    ensures |w.done| == |Cut(said)| - lost + if w.dropping then 1 else 0
    ensures w.part == if w.dropping then [] else Tail(said)
  {
    CutIsAll(said);
    RunInv(es, w, said, lost);
  }
}
