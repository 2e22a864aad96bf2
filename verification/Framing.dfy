/** Messages as sequences of frames. */
module Framing {
  import opened Pipes

  type Text = seq<Frame>

  // A message is frames that announce one another, up to one that does not.
  predicate Message(m: Text)
  {
    && m != []
    && !m[|m| - 1].more
    && forall k | 0 <= k < |m| - 1 :: m[k].more
  }

  predicate Messages(ms: seq<Text>)
  {
    forall k | 0 <= k < |ms| :: Message(ms[k])
  }

  function Flat(ms: seq<Text>): Text
  {
    if ms == [] then [] else ms[0] + Flat(ms[1..])
  }

  lemma {:induction false} FlatSnoc(ms: seq<Text>, m: Text)
    ensures Flat(ms + [m]) == Flat(ms) + m
  {
    if ms == [] {
      assert Flat([] + [m]) == m + Flat([]);
    } else {
      FlatSnoc(ms[1..], m);
      assert (ms + [m])[1..] == ms[1..] + [m];
    }
  }

  // The first frame that ends a message ends the first message.
  lemma FirstMessage(ms: seq<Text>, k: nat)
    requires Messages(ms) && k < |Flat(ms)|
    requires !Flat(ms)[k].more && forall j | 0 <= j < k :: Flat(ms)[j].more
    ensures ms != [] && k == |ms[0]| - 1
  {
    assert ms != [] && Message(ms[0]);
    var m := ms[0];
    assert Flat(ms)[|m| - 1] == m[|m| - 1];
    assert k < |m| ==> Flat(ms)[k] == m[k];
  }

  lemma {:induction false} EndsWhole(ms: seq<Text>)
    requires Messages(ms) && Flat(ms) != []
    ensures !Flat(ms)[|Flat(ms)| - 1].more
  {
    assert Message(ms[0]);
    if Flat(ms[1..]) != [] {
      EndsWhole(ms[1..]);
    }
  }

  // A message and the pipe it passed through.
  datatype Parcel<T> = Parcel(pipe: T, text: Text)

  function Texts<T>(rs: seq<Parcel<T>>): seq<Text>
  {
    seq(|rs|, i requires 0 <= i < |rs| => rs[i].text)
  }

  function Through<T(==)>(rs: seq<Parcel<T>>, p: T): (ms: seq<Text>)
  {
    if rs == [] then []
    else
      var r := rs[|rs| - 1];
      Through(rs[..|rs| - 1], p) + if r.pipe == p then [r.text] else []
  }

  lemma DoneSnoc<T>(rs: seq<Parcel<T>>, r: Parcel<T>)
    ensures Flat(Texts(rs + [r])) == Flat(Texts(rs)) + r.text
    ensures forall p :: Through(rs + [r], p) == Through(rs, p) + if r.pipe == p then [r.text] else []
  {
    assert (rs + [r])[..|rs|] == rs;
    assert Texts(rs + [r]) == Texts(rs) + [r.text];
    FlatSnoc(Texts(rs), r.text);
  }

  lemma ThroughSnoc<T>(rs: seq<Parcel<T>>, p: T, m: Text)
    ensures Through(rs + [Parcel(p, m)], p) == Through(rs, p) + [m]
  {
    assert (rs + [Parcel(p, m)])[..|rs|] == rs;
  }

  lemma {:induction false} NeverThrough<T>(rs: seq<Parcel<T>>, p: T)
    requires forall k | 0 <= k < |rs| :: rs[k].pipe != p
    ensures Through(rs, p) == []
  {
    if rs != [] {
      NeverThrough(rs[..|rs| - 1], p);
    }
  }
}
