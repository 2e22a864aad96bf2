/** A termination that mixes up two messages, from the first event to the frame in the wrong place. */
module FairQueueMixUp {
  import opened FairQueueRuns
  import opened Framing
  import opened Pipes
  import R = RoundRobin

  // A run leads to it.
  ghost predicate Good(l: Line<nat>)
  {
    Inv(l) && Reached(l)
  }

  lemma GoodStep(l: Line<nat>, e: Event<nat>)
    requires Good(l) && Enabled(l, e)
    ensures Good(Step(l, e))
  {
    ReachedNext(l, e);
  }

  lemma GoodRead(l: Line<nat>, p: nat)
    requires Good(l) && Ready(l, p)
    ensures Good(Read(l))
  {
    assert p in l.ring.items && p in Able(l, {});
    assert R.Settled(l.ring, Able(l, {})) == l.ring;
    assert l.(ring := l.ring) == l;
    ReachedNext(l, Recv({}));
  }

  // Three pipes with these frames in them, and what they were sent; the turn is the k-th's.
  function Three(ps: (nat, nat, nat), k: nat, boxes: (Text, Text, Text), sent: (seq<Text>, seq<Text>, seq<Text>),
                 out: Text, done: seq<Parcel<nat>>, part: Text): Line<nat>
  {
    Line(R.Ring([ps.0, ps.1, ps.2], 3, k), part != [],
         map[ps.0 := boxes.0, ps.1 := boxes.1, ps.2 := boxes.2],
         map[ps.0 := sent.0, ps.1 := sent.1, ps.2 := sent.2], out, done, part)
  }

  predicate Differ(ps: (nat, nat, nat))
  {
    ps.0 != ps.1 && ps.1 != ps.2 && ps.0 != ps.2
  }

  lemma GoodEmpty()
    ensures Good(Empty())
  {
    var l: Line<nat> := Empty();
    assert Runs(l, []) && After(l, []) == l;
  }

  lemma ThreeAttached(ps: (nat, nat, nat))
    requires Differ(ps)
    ensures Good(Three(ps, 0, ([], [], []), ([], [], []), [], [], []))
  {
    GoodEmpty();
    var l0: Line<nat> := Empty();
    var l1 := Line(R.Ring([ps.0], 1, 0), false, map[ps.0 := []], map[ps.0 := []], [], [], []);
    var l2 := Line(R.Ring([ps.0, ps.1], 2, 0), false, map[ps.0 := [], ps.1 := []],
                   map[ps.0 := [], ps.1 := []], [], [], []);
    GoodStep(l0, Attach(ps.0));
    assert Step(l0, Attach(ps.0)) == l1;
    GoodStep(l1, Attach(ps.1));
    assert Step(l1, Attach(ps.1)) == l2;
    GoodStep(l2, Attach(ps.2));
    assert Step(l2, Attach(ps.2)) == Three(ps, 0, ([], [], []), ([], [], []), [], [], []);
  }

  lemma ToFirst(ps: (nat, nat, nat), boxes: (Text, Text, Text), sent: (seq<Text>, seq<Text>, seq<Text>), m: Text)
    requires Differ(ps) && Message(m) && Good(Three(ps, 0, boxes, sent, [], [], []))
    ensures Good(Three(ps, 0, (boxes.0 + m, boxes.1, boxes.2), (sent.0 + [m], sent.1, sent.2), [], [], []))
  {
    var l := Three(ps, 0, boxes, sent, [], [], []);
    GoodStep(l, Deliver(ps.0, m));
    assert Step(l, Deliver(ps.0, m))
        == Three(ps, 0, (boxes.0 + m, boxes.1, boxes.2), (sent.0 + [m], sent.1, sent.2), [], [], []);
  }

  lemma ToSecond(ps: (nat, nat, nat), boxes: (Text, Text, Text), sent: (seq<Text>, seq<Text>, seq<Text>), m: Text)
    requires Differ(ps) && Message(m) && Good(Three(ps, 0, boxes, sent, [], [], []))
    ensures Good(Three(ps, 0, (boxes.0, boxes.1 + m, boxes.2), (sent.0, sent.1 + [m], sent.2), [], [], []))
  {
    var l := Three(ps, 0, boxes, sent, [], [], []);
    GoodStep(l, Deliver(ps.1, m));
    assert Step(l, Deliver(ps.1, m))
        == Three(ps, 0, (boxes.0, boxes.1 + m, boxes.2), (sent.0, sent.1 + [m], sent.2), [], [], []);
  }

  lemma ToThird(ps: (nat, nat, nat), boxes: (Text, Text, Text), sent: (seq<Text>, seq<Text>, seq<Text>), m: Text)
    requires Differ(ps) && Message(m) && Good(Three(ps, 0, boxes, sent, [], [], []))
    ensures Good(Three(ps, 0, (boxes.0, boxes.1, boxes.2 + m), (sent.0, sent.1, sent.2 + [m]), [], [], []))
  {
    var l := Three(ps, 0, boxes, sent, [], [], []);
    GoodStep(l, Deliver(ps.2, m));
    assert Step(l, Deliver(ps.2, m))
        == Three(ps, 0, (boxes.0, boxes.1, boxes.2 + m), (sent.0, sent.1, sent.2 + [m]), [], [], []);
  }

  lemma ThreeSent(ps: (nat, nat, nat), x: Text, y: Text, z: Text, m: Text)
    requires Differ(ps) && Message(x) && Message(y) && Message(z) && Message(m)
    ensures Good(Three(ps, 0, (x + z, y, m), ([x, z], [y], [m]), [], [], []))
  {
    ThreeAttached(ps);
    ToFirst(ps, ([], [], []), ([], [], []), x);
    assert [] + x == x && [] + [x] == [x];
    ToFirst(ps, (x, [], []), ([x], [], []), z);
    assert [x] + [z] == [x, z];
    ToSecond(ps, (x + z, [], []), ([x, z], [], []), y);
    assert [] + y == y && [] + [y] == [y];
    ToThird(ps, (x + z, y, []), ([x, z], [y], []), m);
    assert [] + m == m && [] + [m] == [m];
  }

  /* Reading, one frame at a time. */

  lemma FirstRead(ps: (nat, nat, nat), sent: (seq<Text>, seq<Text>, seq<Text>), x: Frame, rest: Text, y: Text,
                    m: Text)
    requires Differ(ps) && !x.more && Good(Three(ps, 0, ([x] + rest, y, m), sent, [], [], []))
    ensures Good(Three(ps, 1, (rest, y, m), sent, [x], [Parcel(ps.0, [x])], []))
  {
    var l := Three(ps, 0, ([x] + rest, y, m), sent, [], [], []);
    GoodRead(l, ps.0);
    FirstReadIs(ps, sent, x, rest, y, m);
  }

  lemma FirstReadIs(ps: (nat, nat, nat), sent: (seq<Text>, seq<Text>, seq<Text>), x: Frame, rest: Text, y: Text,
                    m: Text)
    requires Differ(ps) && !x.more
    ensures Read(Three(ps, 0, ([x] + rest, y, m), sent, [], [], []))
            == Three(ps, 1, (rest, y, m), sent, [x], [Parcel(ps.0, [x])], [])
  {
    var v, w := Read(Three(ps, 0, ([x] + rest, y, m), sent, [], [], [])),
                Three(ps, 1, (rest, y, m), sent, [x], [Parcel(ps.0, [x])], []);
    assert ([x] + rest)[1..] == rest && [] + [x] == [x];
    assert v.boxes == w.boxes && v.done == w.done && v.ring == w.ring;
  }

  lemma SecondRead(ps: (nat, nat, nat), sent: (seq<Text>, seq<Text>, seq<Text>), x: Frame, y: Frame, z: Text, m: Text,
                   done: seq<Parcel<nat>>)
    requires Differ(ps) && !y.more && Good(Three(ps, 1, (z, [y], m), sent, [x], done, []))
    ensures Good(Three(ps, 2, (z, [], m), sent, [x, y], done + [Parcel(ps.1, [y])], []))
  {
    var l := Three(ps, 1, (z, [y], m), sent, [x], done, []);
    GoodRead(l, ps.1);
    SecondReadIs(ps, sent, x, y, z, m, done);
  }

  lemma SecondReadIs(ps: (nat, nat, nat), sent: (seq<Text>, seq<Text>, seq<Text>), x: Frame, y: Frame, z: Text, m: Text,
                     done: seq<Parcel<nat>>)
    requires Differ(ps) && !y.more
    ensures Read(Three(ps, 1, (z, [y], m), sent, [x], done, []))
            == Three(ps, 2, (z, [], m), sent, [x, y], done + [Parcel(ps.1, [y])], [])
  {
    var v, w := Read(Three(ps, 1, (z, [y], m), sent, [x], done, [])),
                Three(ps, 2, (z, [], m), sent, [x, y], done + [Parcel(ps.1, [y])], []);
    assert [y][1..] == [] && [] + [y] == [y] && [x] + [y] == [x, y];
    assert v.boxes == w.boxes && v.ring == w.ring;
  }

  lemma ThirdBegun(ps: (nat, nat, nat), sent: (seq<Text>, seq<Text>, seq<Text>), z: Text, f: Frame, g: Frame,
                   out: Text, done: seq<Parcel<nat>>)
    requires Differ(ps) && f.more && Good(Three(ps, 2, (z, [], [f, g]), sent, out, done, []))
    ensures Good(Three(ps, 2, (z, [], [g]), sent, out + [f], done, [f]))
  {
    var l := Three(ps, 2, (z, [], [f, g]), sent, out, done, []);
    GoodRead(l, ps.2);
    ThirdBegunIs(ps, sent, z, f, g, out, done);
  }

  lemma ThirdBegunIs(ps: (nat, nat, nat), sent: (seq<Text>, seq<Text>, seq<Text>), z: Text, f: Frame, g: Frame,
                     out: Text, done: seq<Parcel<nat>>)
    requires Differ(ps) && f.more
    ensures Read(Three(ps, 2, (z, [], [f, g]), sent, out, done, []))
            == Three(ps, 2, (z, [], [g]), sent, out + [f], done, [f])
  {
    var v, w := Read(Three(ps, 2, (z, [], [f, g]), sent, out, done, [])),
                Three(ps, 2, (z, [], [g]), sent, out + [f], done, [f]);
    assert [f, g][1..] == [g] && [] + [f] == [f];
    assert v.boxes == w.boxes;
  }

  // The first two pipes have been served, and the last has begun a message of two frames.
  function InTheMiddle(ps: (nat, nat, nat), sent: (seq<Text>, seq<Text>, seq<Text>), x: Frame, y: Frame, z: Frame,
                       f: Frame, g: Frame): Line<nat>
  {
    Three(ps, 2, ([z], [], [g]), sent, [x, y] + [f], [Parcel(ps.0, [x])] + [Parcel(ps.1, [y])], [f])
  }

  lemma MiddleReached(ps: (nat, nat, nat), x: Frame, y: Frame, z: Frame, f: Frame, g: Frame)
    requires Differ(ps) && !x.more && !y.more && !z.more && f.more && !g.more
    ensures Good(InTheMiddle(ps, ([[x], [z]], [[y]], [[f, g]]), x, y, z, f, g))
  {
    var sent := ([[x], [z]], [[y]], [[f, g]]);
    ThreeSent(ps, [x], [y], [z], [f, g]);
    FirstRead(ps, sent, x, [z], [y], [f, g]);
    SecondRead(ps, sent, x, y, [z], [f, g], [Parcel(ps.0, [x])]);
    ThirdBegun(ps, sent, [z], f, g, [x, y], [Parcel(ps.0, [x])] + [Parcel(ps.1, [y])]);
  }

  // It happens: the second of the three pipes terminates, and a message of the first comes out behind the
  // first frame of the last.
  lemma MixedUp(ps: (nat, nat, nat), x: Frame, y: Frame, z: Frame, f: Frame, g: Frame)
    requires Differ(ps) && !x.more && !y.more && !z.more && f.more && !g.more
    ensures exists l: Line<nat> ::
              && Reached(l) && l.out == [x, y, f] && l.part == [f] && l.ring.items[..] == [ps.0, ps.1, ps.2]
              && !KeepsTurn(l, 1)
              && Ready(l.(ring := R.Terminated(l.ring, 1)), ps.0)
              && Read(l.(ring := R.Terminated(l.ring, 1))).out == [x, y, f, z]
  {
    var l := InTheMiddle(ps, ([[x], [z]], [[y]], [[f, g]]), x, y, z, f, g);
    MiddleReached(ps, x, y, z, f, g);
    assert R.Terminated(l.ring, 1).items == [ps.0, ps.2];
    assert l.out == [x, y, f] && l.out + [z] == [x, y, f, z];
  }
}
