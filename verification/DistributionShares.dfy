/** Distributing a message whose content the pipes share. */
module DistributionShares {
  import opened Distribution
  import opened MessageHands
  import opened MessageRuns
  import opened Messages
  import opened Pipes
  import Sequences

  // The i-th handle's message is distributed over the matching pipes; meanwhile readers close other handles.
  // Each pipe that takes the frame gets a handle, and each that refuses it gives a reference back.  The content has
  // afterwards one reference for each handle still open among those that shared it before and those of the pipes; if
  // no handle is closed, that is one for each pipe that took the frame in place of the one that was there before.
  method Distribute(d: Dist, pool: Pool, i: nat, f: Frame, readers: seq<seq<nat>>)
    returns (ghost took: nat, ghost takes: seq<bool>)
    requires d.Valid() && pool.Valid() && i < |pool.msgs| && !pool.msgs[i].kind.Closed?
    requires |readers| == d.matching > 0
    modifies d`matching, d`active, d`eligible, d.pipes, d.pipes.Members()
    modifies pool`msgs, pool.msgs, pool.contents
    ensures took == |old(d.View()).matching - old(d.Refusing())| == d.matching
    ensures |takes| == |readers| && Sequences.Trues(takes) == took
    ensures pool.Shots() == OfferEach(old(pool.Shots()), i, takes, readers, |takes|)[i := Blank()]
    ensures pool.Valid() && |pool.msgs| == |old(pool.msgs)| + took && pool.msgs[i].kind == Plain
    ensures forall c | c in old(pool.msgs[i].Held()) ::
              c.References() == |pool.StillOpen(old(pool.Holding(c)) - {pool.msgs[i]}, |old(pool.msgs)|)|
    ensures Pool.Quiet(readers) ==>
              forall c | c in old(pool.msgs[i].Held()) :: c.References() == old(pool.References(i)) - 1 + took
  {
    var taken := Offer(d, f);
    took, takes := d.matching, taken;
    assert pool.Shots() == old(pool.Shots()) && pool.References(i) == old(pool.References(i));
    assert pool.msgs[i].Held() == old(pool.msgs[i].Held());
    assert forall c | c in pool.msgs[i].Held() :: pool.Holding(c) == old(pool.Holding(c));
    pool.DoDistribute(i, taken, readers);
  }

  method Offer(d: Dist, f: Frame) returns (takes: seq<bool>)
    requires d.Valid()
    modifies d`matching, d`active, d`eligible, d.pipes, d.pipes.Members()
    ensures |takes| == old(d.matching)
    ensures Sequences.Trues(takes) == d.matching == |old(d.View()).matching - old(d.Refusing())|
  {
    takes := d.Distribute(f);
    d.pipes.Distinct();
    FirstSize(d.pipes.items, d.matching);
  }

  lemma {:induction false} FirstSize<T>(s: seq<T>, n: nat)
    requires Sequences.Distinct(s) && n <= |s|
    ensures |First(s, n)| == n
  {
    if n > 0 {
      FirstSize(s, n - 1);
      OneMore(s, n - 1);
    }
  }
}
