/** Whole runs of the distributor: no pipe is shown a message without its head. */
module DistributionRuns {
  import opened Distribution

  datatype Event<T> =
    | Attach(p: T)
    | Activate(p: T)
    | Terminate(p: T)
    | Match(p: T)
    | Unmatch
    | ReverseMatch
    | Send(refused: set<T>, more: bool)

  // A socket sends to all its active pipes, or to the ones it matched.
  datatype Mode = ToAll | ToMatching

  ghost predicate Valid<T>(v: Parts<T>)
  {
    && v.matching <= v.active <= v.eligible <= v.all
    && (!v.more ==> v.active == v.eligible)
  }

  // The pipes a Send offers its frame to.
  function Offered<T>(v: Parts<T>, mode: Mode): set<T>
  {
    if mode.ToAll? then v.active else v.matching
  }

  // Matching goes on between messages only.
  predicate Enabled<T(==)>(v: Parts<T>, e: Event<T>, mode: Mode)
  {
    match e
    case Attach(p) => p !in v.all
    case Activate(p) => p in v.all - v.eligible
    case Terminate(p) => p in v.all
    case Match(p) => !v.more && p in v.all
    case Unmatch => true
    case ReverseMatch => !v.more
    case Send(refused, _) => refused <= Offered(v, mode)
  }

  function Step<T>(v: Parts<T>, e: Event<T>, mode: Mode): Parts<T>
  {
    match e
    case Attach(p) => Attached(v, p)
    case Activate(p) => Activated(v, p)
    case Terminate(p) => Removed(v, p)
    case Match(p) => v.(matching := v.matching + (if p in v.eligible then {p} else {}))
    case Unmatch => v.(matching := {})
    case ReverseMatch => v.(matching := v.eligible - v.matching)
    case Send(refused, more) => Sent(v.(matching := Offered(v, mode)), refused, more)
  }

  lemma StepValid<T>(v: Parts<T>, e: Event<T>, mode: Mode)
    requires Valid(v) && Enabled(v, e, mode)
    ensures Valid(Step(v, e, mode))
  {
  }

  // The table after a run, the run being enabled step by step.
  ghost predicate Run<T(!new)>(v: Parts<T>, es: seq<Event<T>>, w: Parts<T>, mode: Mode)
    decreases |es|
  {
    if es == [] then v == w
    else
      var n := |es| - 1;
      exists u :: Run(v, es[..n], u, mode) && Enabled(u, es[n], mode) && w == Step(u, es[n], mode)
  }

  // One frame a pipe accepted: was it the first of its message, and do more follow?
  datatype Taken = Taken(first: bool, more: bool)

  predicate Accepts<T(==)>(v: Parts<T>, e: Event<T>, mode: Mode, p: T)
  {
    e.Send? && p in Offered(v, mode) && p !in e.refused
  }

  // The pipe is cut off from the rest of a message of which it has a part.
  predicate CutsOff<T(==)>(v: Parts<T>, e: Event<T>, mode: Mode, p: T)
  {
    && v.more && p in Offered(v, mode)
    && match e
       case Send(refused, _) => p in refused
       case Terminate(q) => q == p
       case Unmatch => mode.ToMatching?
       case _ => false
  }

  // The frames a pipe accepted over a run, and whether it was ever cut off.
  ghost predicate Takes<T(!new)>(v: Parts<T>, es: seq<Event<T>>, w: Parts<T>, mode: Mode, p: T, taken: seq<Taken>,
                                 cut: bool)
    decreases |es|
  {
    if es == [] then v == w && taken == [] && !cut
    else
      var n := |es| - 1;
      exists u, before, wasCut ::
        && Takes(v, es[..n], u, mode, p, before, wasCut)
        && Enabled(u, es[n], mode) && w == Step(u, es[n], mode)
        && taken == Longer(u, es[n], mode, p, before) && cut == (wasCut || CutsOff(u, es[n], mode, p))
  }

  function Longer<T(==)>(v: Parts<T>, e: Event<T>, mode: Mode, p: T, taken: seq<Taken>): seq<Taken>
  {
    if Accepts(v, e, mode, p) then taken + [Taken(!v.more, e.more)] else taken
  }

  // A frame that is not the first of its message follows one that announced it.
  predicate Headed(taken: seq<Taken>)
  {
    forall k | 0 <= k < |taken| :: taken[k].first || (k > 0 && taken[k - 1].more)
  }

  // A pipe that can be offered more of the current message took the frame before.
  predicate UpToDate<T(==)>(v: Parts<T>, mode: Mode, p: T, taken: seq<Taken>)
  {
    v.more && p in Offered(v, mode) ==> taken != [] && taken[|taken| - 1].more
  }

  // A message begins behind a frame that announced another one.
  predicate Mixed(taken: seq<Taken>)
  {
    exists k :: 0 < k < |taken| && taken[k].first && taken[k - 1].more
  }

  // The last message has not come to its end, and will not.
  predicate Stale<T(==)>(v: Parts<T>, mode: Mode, p: T, taken: seq<Taken>)
  {
    taken != [] && taken[|taken| - 1].more && !(v.more && p in Offered(v, mode))
  }

  lemma {:induction false} NoHeadlessMessage<T(!new)>(v: Parts<T>, es: seq<Event<T>>, w: Parts<T>, mode: Mode, p: T,
                                                      taken: seq<Taken>, cut: bool)
    requires Valid(v) && !v.more && Takes(v, es, w, mode, p, taken, cut)
    ensures Valid(w) && Headed(taken) && UpToDate(w, mode, p, taken)
    decreases |es|
  {
    if es != [] {
      var n := |es| - 1;
      var u, before, wasCut :|
        && Takes(v, es[..n], u, mode, p, before, wasCut)
        && Enabled(u, es[n], mode) && w == Step(u, es[n], mode)
        && taken == Longer(u, es[n], mode, p, before) && cut == (wasCut || CutsOff(u, es[n], mode, p));
      NoHeadlessMessage(v, es[..n], u, mode, p, before, wasCut);
      StepValid(u, es[n], mode);
      HeadedStep(u, es[n], mode, p, before);
    }
  }

  lemma HeadedStep<T>(u: Parts<T>, e: Event<T>, mode: Mode, p: T, before: seq<Taken>)
    requires Valid(u) && Enabled(u, e, mode) && Headed(before) && UpToDate(u, mode, p, before)
    ensures var taken := Longer(u, e, mode, p, before);
            Headed(taken) && UpToDate(Step(u, e, mode), mode, p, taken)
  {
  }

  // A pipe has whole messages, and perhaps the beginning of one that is going on, exactly as long as it is not
  // cut off in the middle of one: nothing takes a head back that was written.
  lemma {:induction false} WholeUnlessCutOff<T(!new)>(v: Parts<T>, es: seq<Event<T>>, w: Parts<T>, mode: Mode, p: T,
                                                      taken: seq<Taken>, cut: bool)
    requires Valid(v) && !v.more && Takes(v, es, w, mode, p, taken, cut)
    ensures cut <==> Mixed(taken) || Stale(w, mode, p, taken)
    decreases |es|
  {
    if es != [] {
      var n := |es| - 1;
      var u, before, wasCut :|
        && Takes(v, es[..n], u, mode, p, before, wasCut)
        && Enabled(u, es[n], mode) && w == Step(u, es[n], mode)
        && taken == Longer(u, es[n], mode, p, before) && cut == (wasCut || CutsOff(u, es[n], mode, p));
      NoHeadlessMessage(v, es[..n], u, mode, p, before, wasCut);
      WholeUnlessCutOff(v, es[..n], u, mode, p, before, wasCut);
      if Accepts(u, es[n], mode, p) {
        WholeStep(u, es[n], mode, p, before);
      } else {
        OtherStep(u, es[n], mode, p, before);
      }
    }
  }

  lemma WholeStep<T>(u: Parts<T>, e: Event<T>, mode: Mode, p: T, before: seq<Taken>)
    requires Valid(u) && Enabled(u, e, mode) && UpToDate(u, mode, p, before) && Accepts(u, e, mode, p)
    ensures var taken := before + [Taken(!u.more, e.more)];
            && !Stale(Step(u, e, mode), mode, p, taken)
            && (Mixed(taken) <==> Mixed(before) || Stale(u, mode, p, before))
  {
    var taken := before + [Taken(!u.more, e.more)];
    if Mixed(before) {
      var k :| 0 < k < |before| && before[k].first && before[k - 1].more;
      assert taken[k].first && taken[k - 1].more;
    }
    if Stale(u, mode, p, before) {
      assert taken[|before|].first && taken[|before| - 1].more;
    }
  }

  lemma OtherStep<T>(u: Parts<T>, e: Event<T>, mode: Mode, p: T, before: seq<Taken>)
    requires Valid(u) && Enabled(u, e, mode) && UpToDate(u, mode, p, before) && !Accepts(u, e, mode, p)
    ensures Stale(Step(u, e, mode), mode, p, before) <==> Stale(u, mode, p, before) || CutsOff(u, e, mode, p)
  {
  }

  // No step of es ends a message.
  predicate MidMessage<T>(es: seq<Event<T>>)
  {
    forall k | 0 <= k < |es| :: es[k].Send? ==> es[k].more
  }

  // A pipe out of the running in the middle of a message, because it came late or refused a frame, stays
  // out until the message has ended.
  lemma {:induction false} OutUntilTheEnd<T(!new)>(v: Parts<T>, es: seq<Event<T>>, w: Parts<T>, mode: Mode, p: T)
    requires Valid(v) && v.more && Run(v, es, w, mode) && MidMessage(es)
    requires p !in v.active
    ensures Valid(w) && w.more && p !in w.active && p !in Offered(w, mode)
    decreases |es|
  {
    if es != [] {
      var n := |es| - 1;
      var u :| Run(v, es[..n], u, mode) && Enabled(u, es[n], mode) && w == Step(u, es[n], mode);
      OutUntilTheEnd(v, es[..n], u, mode, p);
      StepValid(u, es[n], mode);
    }
  }

  lemma TakesOn<T(!new)>(v: Parts<T>, es: seq<Event<T>>, u: Parts<T>, mode: Mode, p: T, taken: seq<Taken>, cut: bool,
                         e: Event<T>)
    requires Takes(v, es, u, mode, p, taken, cut) && Enabled(u, e, mode)
    ensures Takes(v, es + [e], Step(u, e, mode), mode, p, Longer(u, e, mode, p, taken), cut || CutsOff(u, e, mode, p))
  {
    assert (es + [e])[..|es|] == es;
  }

  // It happens: the only pipe takes the first frame of a message, refuses the second, has room again, and takes the
  // next message behind the head that stays.
  lemma StaleHead<T(!new)>(a: T)
    ensures var v := Parts({a}, {a}, {a}, {}, false);
            && Valid(v)
            && Takes(v, [Send({}, true), Send({a}, false), Activate(a), Send({}, false)], v.(matching := {a}), ToAll, a,
                     [Taken(true, true), Taken(true, false)], true)
            && Mixed([Taken(true, true), Taken(true, false)])
  {
    var v := Parts({a}, {a}, {a}, {}, false);
    var e1, e2, e3, e4 := Send({}, true), Send({a}, false), Activate(a), Send({}, false);
    var v1 := Step(v, e1, ToAll);
    var v2 := Step(v1, e2, ToAll);
    var v3 := Step(v2, e3, ToAll);
    TakesOn(v, [], v, ToAll, a, [], false, e1);
    assert [] + [e1] == [e1];
    TakesOn(v, [e1], v1, ToAll, a, [Taken(true, true)], false, e2);
    assert [e1] + [e2] == [e1, e2];
    TakesOn(v, [e1, e2], v2, ToAll, a, [Taken(true, true)], true, e3);
    assert [e1, e2] + [e3] == [e1, e2, e3];
    TakesOn(v, [e1, e2, e3], v3, ToAll, a, [Taken(true, true)], true, e4);
    assert [e1, e2, e3] + [e4] == [e1, e2, e3, e4];
    assert Step(v3, e4, ToAll) == v.(matching := {a});
    var taken := [Taken(true, true), Taken(true, false)];
    assert taken[1].first && taken[0].more;
  }
}
