/** The distributor told by what has happened: which pipes a frame goes to, from the events of the run alone. */
module DistributionHistory {
  import opened Distribution
  import opened DistributionRuns

  // A pipe comes, or comes back.
  predicate Joins<T(==)>(e: Event<T>, p: T)
  {
    e == Attach(p) || e == Activate(p)
  }

  // It goes, or refuses a frame.
  predicate Quits<T(==)>(e: Event<T>, p: T)
  {
    e == Terminate(p) || (e.Send? && p in e.refused)
  }

  // It joined in step k and has not quit since.
  ghost predicate InSince<T>(es: seq<Event<T>>, p: T, k: int)
  {
    0 <= k < |es| && Joins(es[k], p) && forall j | k < j < |es| :: !Quits(es[j], p)
  }

  // The last frame sent announced another one.
  ghost predicate Midway<T>(es: seq<Event<T>>)
  {
    exists k :: LastSent(es, k) && es[k].more
  }

  ghost predicate LastSent<T>(es: seq<Event<T>>, k: int)
  {
    0 <= k < |es| && es[k].Send? && forall j | k < j < |es| :: !es[j].Send?
  }

  // A message has ended after step k.
  ghost predicate EndedAfter<T>(es: seq<Event<T>>, k: int)
  {
    exists j :: Ends(es, j) && k < j
  }

  predicate Ends<T>(es: seq<Event<T>>, j: int)
  {
    0 <= j < |es| && es[j].Send? && !es[j].more
  }

  // It has joined, and no message is under way in whose middle it did.
  ghost predicate Served<T>(es: seq<Event<T>>, p: T)
  {
    exists k :: InSince(es, p, k) && (!Midway(es[..k]) || EndedAfter(es, k))
  }

  lemma MidwaySnoc<T>(es: seq<Event<T>>, e: Event<T>)
    ensures Midway(es + [e]) <==> if e.Send? then e.more else Midway(es)
  {
    var all, n := es + [e], |es|;
    assert forall j | 0 <= j < n :: all[j] == es[j];
    if e.Send? {
      if e.more {
        assert LastSent(all, n) && all[n].more;
      }
      if Midway(all) {
        var k :| LastSent(all, k) && all[k].more;
        assert all[n] == e;
      }
    } else {
      if Midway(es) {
        var k :| LastSent(es, k) && es[k].more;
        assert LastSent(all, k) && all[k].more;
      }
      if Midway(all) {
        var k :| LastSent(all, k) && all[k].more;
        assert es[k] == all[k] && forall j | k < j < n :: !all[j].Send?;
        assert LastSent(es, k) && es[k].more;
      }
    }
  }

  lemma InSnoc<T>(es: seq<Event<T>>, e: Event<T>, p: T)
    ensures (exists k :: InSince(es + [e], p, k)) <==> Joins(e, p) || (!Quits(e, p) && exists k :: InSince(es, p, k))
  {
    var all, n := es + [e], |es|;
    assert forall j | 0 <= j < n :: all[j] == es[j];
    if Joins(e, p) {
      assert InSince(all, p, n);
    }
    forall k | InSince(all, p, k) ensures (k == n && Joins(e, p)) || (k < n && InSince(es, p, k) && !Quits(e, p)) {
      if k < n {
        assert all[n] == e && es[k] == all[k] && forall j | k < j < n :: !Quits(all[j], p);
      }
    }
    forall k | InSince(es, p, k) && !Quits(e, p) ensures InSince(all, p, k) {
    }
  }

  lemma ServedSnoc<T>(es: seq<Event<T>>, e: Event<T>, p: T)
    ensures Served(es + [e], p) <==>
            || (Joins(e, p) && !Midway(es))
            || (!Quits(e, p) && Served(es, p))
            || (!Quits(e, p) && e.Send? && !e.more && exists k :: InSince(es, p, k))
  {
    var all, n := es + [e], |es|;
    assert forall j | 0 <= j < n :: all[j] == es[j];
    assert all[..n] == es;
    if Joins(e, p) && !Midway(es) {
      assert InSince(all, p, n) && !Midway(all[..n]);
    }
    if !Quits(e, p) {
      forall k | InSince(es, p, k) ensures InSince(all, p, k) && all[..k] == es[..k] {
      }
      forall j | Ends(es, j) ensures Ends(all, j) {
      }
      if e.Send? && !e.more {
        assert Ends(all, n);
      }
    }
    if Served(all, p) {
      var k :| InSince(all, p, k) && (!Midway(all[..k]) || EndedAfter(all, k));
      if k < n {
        assert es[k] == all[k] && forall j | k < j < n :: !Quits(all[j], p);
        assert InSince(es, p, k) && all[..k] == es[..k] && !Quits(all[n], p);
        if EndedAfter(all, k) {
          var j :| Ends(all, j) && k < j;
          if j < n {
            assert Ends(es, j);
          }
        }
      }
    }
  }

  // What a run has done to the sets is told by its events.
  lemma {:induction false} ByHistory<T(!new)>(es: seq<Event<T>>, w: Parts<T>, mode: Mode, p: T)
    requires Run(Parts({}, {}, {}, {}, false), es, w, mode)
    ensures Valid(w) && (w.more <==> Midway(es))
    ensures p in w.eligible <==> exists k :: InSince(es, p, k)
    ensures p in w.active <==> Served(es, p)
    decreases |es|
  {
    if es != [] {
      var n := |es| - 1;
      assert es == es[..n] + [es[n]];
      var v: Parts<T> := Parts({}, {}, {}, {}, false);
      var u :| Run(v, es[..n], u, mode) && Enabled(u, es[n], mode) && w == Step(u, es[n], mode);
      ByHistory(es[..n], u, mode, p);
      StepValid(u, es[n], mode);
      MidwaySnoc(es[..n], es[n]);
      InSnoc(es[..n], es[n], p);
      ServedSnoc(es[..n], es[n], p);
    }
  }

  /* What a pipe gets. */

  lemma {:induction false} TakesRun<T(!new)>(v: Parts<T>, es: seq<Event<T>>, w: Parts<T>, mode: Mode, p: T,
                                             taken: seq<Taken>, cut: bool)
    requires Takes(v, es, w, mode, p, taken, cut)
    ensures Run(v, es, w, mode)
    decreases |es|
  {
    if es != [] {
      var n := |es| - 1;
      var u, before, wasCut :|
        && Takes(v, es[..n], u, mode, p, before, wasCut)
        && Enabled(u, es[n], mode) && w == Step(u, es[n], mode)
        && taken == Longer(u, es[n], mode, p, before) && cut == (wasCut || CutsOff(u, es[n], mode, p));
      TakesRun(v, es[..n], u, mode, p, before, wasCut);
    }
  }

  // The frames sent while the pipe was served, but those it refused.
  ghost function Due<T>(es: seq<Event<T>>, p: T): set<int>
  {
    set j | 0 <= j < |es| && es[j].Send? && p !in es[j].refused && Served(es[..j], p)
  }

  lemma DueSnoc<T>(es: seq<Event<T>>, e: Event<T>, p: T)
    ensures |Due(es + [e], p)| == |Due(es, p)| + if e.Send? && p !in e.refused && Served(es, p) then 1 else 0
  {
    var all, n := es + [e], |es|;
    forall j | 0 <= j < n ensures j in Due(all, p) <==> j in Due(es, p) {
      assert all[j] == es[j] && all[..j] == es[..j];
    }
    assert all[n] == e && all[..n] == es;
    assert Due(all, p) == Due(es, p) + if e.Send? && p !in e.refused && Served(es, p) then {n} else {};
  }

  // A pipe gets each frame sent to all while it is served, once, and no other.
  lemma {:induction false} Delivery<T(!new)>(es: seq<Event<T>>, w: Parts<T>, p: T, taken: seq<Taken>, cut: bool)
    requires Takes(Parts({}, {}, {}, {}, false), es, w, ToAll, p, taken, cut)
    ensures |taken| == |Due(es, p)|
    decreases |es|
  {
    if es != [] {
      var n := |es| - 1;
      assert es == es[..n] + [es[n]];
      var v: Parts<T> := Parts({}, {}, {}, {}, false);
      var u, before, wasCut :|
        && Takes(v, es[..n], u, ToAll, p, before, wasCut)
        && Enabled(u, es[n], ToAll) && w == Step(u, es[n], ToAll)
        && taken == Longer(u, es[n], ToAll, p, before) && cut == (wasCut || CutsOff(u, es[n], ToAll, p));
      Delivery(es[..n], u, p, before, wasCut);
      TakesRun(v, es[..n], u, ToAll, p, before, wasCut);
      OneMore(es[..n], es[n], u, p, before);
    }
  }

  lemma OneMore<T(!new)>(es: seq<Event<T>>, e: Event<T>, u: Parts<T>, p: T, taken: seq<Taken>)
    requires Run(Parts({}, {}, {}, {}, false), es, u, ToAll) && |taken| == |Due(es, p)|
    ensures |Longer(u, e, ToAll, p, taken)| == |Due(es + [e], p)|
  {
    ByHistory(es, u, ToAll, p);
    DueSnoc(es, e, p);
  }

  // So a pipe that comes between messages, and neither goes nor refuses a frame, gets all that is sent from then
  // on; one that comes in the middle of a message gets what is sent when that has ended.
  lemma FromThenOn<T(!new)>(es: seq<Event<T>>, w: Parts<T>, p: T, taken: seq<Taken>, cut: bool, k: nat)
    requires Takes(Parts({}, {}, {}, {}, false), es, w, ToAll, p, taken, cut)
    requires k < |es| && es[k] == Attach(p) && forall j | 0 <= j < |es| && j != k :: !Joins(es[j], p)
    requires forall j | 0 <= j < |es| :: !Quits(es[j], p)
    ensures !Midway(es[..k]) ==> |taken| == |set j | k < j < |es| && es[j].Send?|
    ensures Midway(es[..k]) ==> |taken| == |set j | k < j < |es| && es[j].Send? && EndedAfter(es[..j], k)|
  {
    Delivery(es, w, p, taken, cut);
    forall j | 0 <= j < |es| && es[j].Send?
      ensures Served(es[..j], p) <==> k < j && (!Midway(es[..k]) || EndedAfter(es[..j], k))
    {
      if k < j {
        assert es[..j][k] == es[k] && es[..j][..k] == es[..k] && InSince(es[..j], p, k);
      }
      if Served(es[..j], p) {
        var i :| InSince(es[..j], p, i) && (!Midway(es[..j][..i]) || EndedAfter(es[..j], i));
        assert Joins(es[i], p);
        assert es[..j][..k] == es[..k];
      }
    }
    if Midway(es[..k]) {
      assert Due(es, p) == set j | k < j < |es| && es[j].Send? && EndedAfter(es[..j], k);
    } else {
      assert Due(es, p) == set j | k < j < |es| && es[j].Send?;
    }
  }

  /* Which pipes a frame is sent to, if not to all. */

  ghost predicate InLine<T>(es: seq<Event<T>>, p: T)
  {
    exists k :: InSince(es, p, k)
  }

  // The sets are made anew, or the pipe quits.
  predicate Unsets<T(==)>(e: Event<T>, p: T)
  {
    e.Unmatch? || e.ReverseMatch? || Quits(e, p)
  }

  // It was matched, or the others were and the match was turned round.
  ghost predicate Chosen<T>(es: seq<Event<T>>, p: T)
    decreases |es|
  {
    exists k :: 0 <= k < |es| && Kept(es, p, k)
                && InLine(es[..k], p) && (es[k] == Match(p) || (es[k].ReverseMatch? && !Chosen(es[..k], p)))
  }

  ghost predicate Kept<T>(es: seq<Event<T>>, p: T, k: nat)
  {
    forall j | k < j < |es| :: !Unsets(es[j], p)
  }

  lemma KeptSnoc<T>(es: seq<Event<T>>, e: Event<T>, p: T, k: nat)
    requires k < |es|
    ensures Kept(es + [e], p, k) <==> Kept(es, p, k) && !Unsets(e, p)
  {
    var all, n := es + [e], |es|;
    assert all[n] == e && forall j | 0 <= j < n :: all[j] == es[j];
    if Kept(all, p, k) {
      forall j | k < j < n ensures !Unsets(es[j], p) {
        assert !Unsets(all[j], p);
      }
    }
  }

  lemma ChosenSnoc<T>(es: seq<Event<T>>, e: Event<T>, p: T)
    ensures Chosen(es + [e], p) <==>
            || (InLine(es, p) && (e == Match(p) || (e.ReverseMatch? && !Chosen(es, p))))
            || (Chosen(es, p) && !Unsets(e, p))
  {
    var all, n := es + [e], |es|;
    assert all[n] == e && all[..n] == es && Kept(all, p, n);
    forall k | 0 <= k < n
      ensures all[..k] == es[..k] && all[k] == es[k] && (Kept(all, p, k) <==> Kept(es, p, k) && !Unsets(e, p))
    {
      KeptSnoc(es, e, p, k);
    }
  }

  lemma MatchedStep<T>(u: Parts<T>, e: Event<T>, p: T)
    requires Enabled(u, e, ToMatching)
    ensures p in Step(u, e, ToMatching).matching <==>
            || (p in u.eligible && (e == Match(p) || (e.ReverseMatch? && p !in u.matching)))
            || (p in u.matching && !Unsets(e, p))
  {
  }

  lemma MatchedMore<T>(es: seq<Event<T>>, u: Parts<T>, e: Event<T>, p: T)
    requires Enabled(u, e, ToMatching)
    requires (p in u.matching <==> Chosen(es, p)) && (p in u.eligible <==> exists k :: InSince(es, p, k))
    ensures p in Step(u, e, ToMatching).matching <==> Chosen(es + [e], p)
  {
    MatchedStep(u, e, p);
    ChosenSnoc(es, e, p);
  }

  // Where messages go to the pipes that match, the history tells which those are, and every frame is offered to all
  // of them.
  lemma {:induction false} MatchByHistory<T(!new)>(es: seq<Event<T>>, w: Parts<T>, p: T)
    requires Run(Parts({}, {}, {}, {}, false), es, w, ToMatching)
    ensures p in w.matching <==> Chosen(es, p)
    ensures forall refused, more :: Accepts(w, Send(refused, more), ToMatching, p) <==> Chosen(es, p) && p !in refused
    decreases |es|
  {
    if es != [] {
      var front, e := es[..|es| - 1], es[|es| - 1];
      assert es == front + [e];
      var v: Parts<T> := Parts({}, {}, {}, {}, false);
      var u :| Run(v, front, u, ToMatching) && Enabled(u, e, ToMatching) && w == Step(u, e, ToMatching);
      MatchByHistory(front, u, p);
      ByHistory(front, u, ToMatching, p);
      MatchedMore(front, u, e, p);
    }
  }
}
