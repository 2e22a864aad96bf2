/** The distributor of outbound messages: one array of pipes cut into matching, active and eligible ones.

    The array is swapped about in place.  What the operations do is told by sets of pipes: `View` of the
    state after an operation is a function of `View` before it. */
module Distribution {
  import opened Pipes
  import opened Sequences

  datatype Parts<T> = Parts(all: set<T>, eligible: set<T>, active: set<T>, matching: set<T>, more: bool)

  /* The operations on sets. */

  function Attached<T>(v: Parts<T>, p: T): Parts<T>
  {
    v.(all := v.all + {p}, eligible := v.eligible + {p}, active := if v.more then v.active else v.active + {p})
  }

  function Removed<T>(v: Parts<T>, p: T): Parts<T>
  {
    v.(all := v.all - {p}, eligible := v.eligible - {p}, active := v.active - {p}, matching := v.matching - {p})
  }

  function Activated<T>(v: Parts<T>, p: T): Parts<T>
  {
    v.(eligible := v.eligible + {p}, active := if v.more then v.active else v.active + {p})
  }

  function Refused<T>(v: Parts<T>, refused: set<T>): Parts<T>
  {
    v.(eligible := v.eligible - refused, active := v.active - refused, matching := v.matching - refused)
  }

  function Sent<T>(v: Parts<T>, refused: set<T>, more: bool): Parts<T>
  {
    var w := Refused(v, refused);
    w.(active := if more then w.active else w.eligible, more := more)
  }

  lemma RefusedMore<T>(v: Parts<T>, refused: set<T>, p: T)
    ensures Refused(Refused(v, refused), {p}) == Refused(v, refused + {p})
  {
    assert forall s: set<T> :: s - refused - {p} == s - (refused + {p});
  }

  /* Prefixes of an array, as sets. */

  ghost function First<T>(s: seq<T>, n: nat): set<T>
    requires n <= |s|
  {
    set i | 0 <= i < n :: s[i]
  }

  lemma SamePrefix<T>(s: seq<T>, t: seq<T>, n: nat)
    requires n <= |s| && n <= |t| && forall i | 0 <= i < n :: s[i] == t[i]
    ensures First(s, n) == First(t, n)
  {
    forall x | x in First(s, n) ensures x in First(t, n) {
      var i :| 0 <= i < n && s[i] == x;
      assert t[i] == x;
    }
    forall x | x in First(t, n) ensures x in First(s, n) {
      var i :| 0 <= i < n && t[i] == x;
      assert s[i] == x;
    }
  }

  lemma SwapSym<T>(s: seq<T>, i: nat, j: nat)
    requires i < |s| && j < |s|
    ensures Swapped(s, i, j) == Swapped(s, j, i)
  {
  }

  lemma SwapKeeps<T>(s: seq<T>, i: nat, j: nat, n: nat)
    requires i < |s| && j < |s| && n <= |s| && ((i < n) == (j < n))
    ensures First(Swapped(s, i, j), n) == First(s, n)
  {
    var t := Swapped(s, i, j);
    forall x ensures x in First(s, n) ==> x in First(t, n) {
      if x in First(s, n) {
        var k :| 0 <= k < n && s[k] == x;
        assert t[if k == i then j else if k == j then i else k] == x;
      }
    }
  }

  lemma OneMore<T>(s: seq<T>, n: nat)
    requires n < |s|
    ensures First(s, n + 1) == First(s, n) + {s[n]}
    ensures Distinct(s) ==> s[n] !in First(s, n)
  {
  }

  lemma InFirst<T>(s: seq<T>, k: nat, n: nat)
    requires Distinct(s) && k < |s| && n <= |s|
    ensures s[k] in First(s, n) <==> k < n
  {
  }

  lemma SwapDistinct<T>(s: seq<T>, i: nat, j: nat)
    requires i < |s| && j < |s| && Distinct(s)
    ensures Distinct(Swapped(s, i, j))
  {
  }

  // The item at i joins the first b.
  lemma Up<T>(s: seq<T>, i: nat, b: nat)
    requires Distinct(s) && b <= i < |s|
    ensures Distinct(Swapped(s, i, b))
    ensures First(Swapped(s, i, b), b + 1) == First(s, b) + {s[i]}
    ensures forall n | 0 <= n <= b || i < n <= |s| :: First(Swapped(s, i, b), n) == First(s, n)
  {
    SwapDistinct(s, i, b);
    SwapKeeps(s, i, b, b);
    OneMore(Swapped(s, i, b), b);
    forall n | 0 <= n <= b || i < n <= |s| ensures First(Swapped(s, i, b), n) == First(s, n) {
      SwapKeeps(s, i, b, n);
    }
  }

  // The item at i leaves the first b.
  lemma Down<T>(s: seq<T>, i: nat, b: nat)
    requires Distinct(s) && i < b <= |s|
    ensures Distinct(Swapped(s, i, b - 1))
    ensures First(Swapped(s, i, b - 1), b - 1) == First(s, b) - {s[i]}
    ensures forall n | 0 <= n <= i || b <= n <= |s| :: First(Swapped(s, i, b - 1), n) == First(s, n)
  {
    SwapDistinct(s, i, b - 1);
    SwapKeeps(s, i, b - 1, b);
    OneMore(Swapped(s, i, b - 1), b - 1);
    forall n | 0 <= n <= i || b <= n <= |s| ensures First(Swapped(s, i, b - 1), n) == First(s, n) {
      SwapKeeps(s, i, b - 1, n);
    }
  }

  lemma Appended<T>(s: seq<T>, x: T)
    requires Distinct(s) && x !in s
    ensures Distinct(s + [x])
    ensures forall n | 0 <= n <= |s| :: First(s + [x], n) == First(s, n)
    ensures First(s + [x], |s| + 1) == First(s, |s|) + {x}
  {
    forall n | 0 <= n <= |s| ensures First(s + [x], n) == First(s, n) {
      SamePrefix(s + [x], s, n);
    }
    OneMore(s + [x], |s|);
  }

  lemma ErasedSet<T>(s: seq<T>, k: nat)
    requires Distinct(s) && k < |s|
    ensures Distinct(Erased(s, k))
    ensures First(Erased(s, k), |s| - 1) == First(s, |s|) - {s[k]}
    ensures forall n | 0 <= n <= k :: First(Erased(s, k), n) == First(s, n)
  {
    var t := Erased(s, k);
    forall n | 0 <= n <= k ensures First(t, n) == First(s, n) {
      SamePrefix(t, s, n);
    }
    forall x | x in First(s, |s|) && x != s[k] ensures x in First(t, |s| - 1) {
      var i :| 0 <= i < |s| && s[i] == x;
      assert t[if i == |s| - 1 then k else i] == x;
    }
  }

  // What is seen of a pipe from outside.
  datatype Sight = Sight(offers: seq<Frame>, outbox: seq<Frame>, flushed: nat, hasOut: bool, canWrite: bool)

  // The pipe was offered the frame once; it took it if it could, and its reader may see a message that is complete.
  predicate Shown(was: Sight, now: Sight, f: Frame)
  {
    && now.offers == was.offers + [f] && now.hasOut == was.hasOut
    && now.outbox == (if was.canWrite then was.outbox + [f] else was.outbox)
    && now.flushed == if was.canWrite && !f.more && now.hasOut then |Whole(now.outbox)| else was.flushed
  }

  class Dist {
    const pipes: PipeArray
    var matching: nat
    var active: nat
    var eligible: nat
    var more: bool

    ghost predicate Valid()
      reads this, pipes, pipes.items
    {
      && pipes.Valid()
      && matching <= active <= eligible <= |pipes.items|
      && (!more ==> active == eligible)
    }

    ghost function View(): Parts<Pipe>
      reads this, pipes, pipes.items
      requires Valid()
    {
      PartsNow()
    }

    ghost function PartsNow(): Parts<Pipe>
      reads this, pipes
      requires matching <= active <= eligible <= |pipes.items|
    {
      Parts(First(pipes.items, |pipes.items|), First(pipes.items, eligible), First(pipes.items, active),
            First(pipes.items, matching), more)
    }

    constructor ()
      ensures Valid() && View() == Parts({}, {}, {}, {}, false)
      ensures fresh(pipes)
    {
      pipes := new PipeArray();
      matching, active, eligible, more := 0, 0, 0, false;
    }

    // A pipe that comes in the middle of a message waits for the next one.
    method Attach(p: Pipe)
      requires Valid() && p !in pipes.items
      modifies this, pipes, pipes.Members()`arrayIndex, p`arrayIndex
      ensures Valid() && View() == Attached(old(View()), p)
    {
      pipes.Distinct();
      Appended(pipes.items, p);
      pipes.PushBack(p);
      if more {
        Up(pipes.items, |pipes.items| - 1, eligible);
        SwapSym(pipes.items, |pipes.items| - 1, eligible);
        pipes.Swap(eligible, |pipes.items| - 1);
        eligible := eligible + 1;
      } else {
        Up(pipes.items, |pipes.items| - 1, active);
        SwapSym(pipes.items, |pipes.items| - 1, active);
        pipes.Swap(active, |pipes.items| - 1);
        active := active + 1;
        eligible := eligible + 1;
      }
    }

    // Only between messages are the active pipes all the eligible ones.
    method Match(p: Pipe)
      requires Valid() && !more && p in pipes.items
      modifies this, pipes, pipes.Members()`arrayIndex
      ensures Valid()
      ensures View() == old(View()).(matching := old(View()).matching + (if p in old(View()).eligible then {p} else {}))
    {
      pipes.Distinct();
      var i := pipes.Index(p);
      InFirst(pipes.items, i, matching);
      InFirst(pipes.items, i, eligible);
      if i < matching {
        return;
      }
      if i >= eligible {
        return;
      }
      Up(pipes.items, i, matching);
      pipes.Swap(i, matching);
      matching := matching + 1;
    }

    method Unmatch()
      requires Valid()
      modifies this`matching
      ensures Valid() && View() == old(View()).(matching := {}) && matching == 0
    {
      matching := 0;
    }

    // The pipes that did not match move to the front, in their order, and those that did behind them.
    method ReverseMatch()
      requires Valid() && !more
      modifies this, pipes, pipes.Members()`arrayIndex
      ensures Valid()
      ensures View() == old(View()).(matching := old(View()).eligible - old(View()).matching)
    {
      pipes.Distinct();
      ghost var s := pipes.items;
      var prev := matching;
      Unmatch();
      var i := prev;
      while i < eligible
        invariant prev <= i <= eligible && matching == i - prev
        invariant active == old(active) && eligible == old(eligible) && more == old(more)
        invariant pipes.Valid() && Reversing(s, pipes.items, prev, i, eligible)
        invariant pipes.Members() == old(pipes.Members())
      {
        ReverseOne(s, prev, i);
        i := i + 1;
      }
      BackToFront(s, pipes.items, prev, eligible);
    }

    // One turn of the loop: the item at i goes to the front.
    method ReverseOne(ghost s: seq<Pipe>, ghost prev: nat, i: nat)
      requires pipes.Valid() && Reversing(s, pipes.items, prev, i, eligible) && i < eligible && matching == i - prev
      modifies this`matching, pipes, pipes.Members()`arrayIndex
      ensures pipes.Valid() && Reversing(s, pipes.items, prev, i + 1, eligible) && matching == i + 1 - prev
      ensures pipes.Members() == old(pipes.Members())
    {
      ReverseStep(s, pipes.items, prev, i, eligible);
      SwapMembers(pipes.items, i, matching);
      pipes.Swap(i, matching);
      matching := matching + 1;
    }

    method PipeTerminated(p: Pipe)
      requires Valid() && p in pipes.items
      modifies this, pipes, pipes.Members()`arrayIndex
      ensures Valid() && View() == Removed(old(View()), p)
    {
      LeaveMatching(p);
      LeaveActive(p);
      LeaveEligible(p);
      ghost var s := pipes.items;
      pipes.Distinct();
      assert p in pipes.Members();
      ghost var k := p.arrayIndex;
      pipes.Erase(p);
      InFirst(s, k, eligible);
      ErasedSet(s, k);
    }

    // The pipe leaves the matching, the active and the eligible ones, in this order.
    method LeaveMatching(p: Pipe)
      requires pipes.Valid() && matching <= active <= eligible <= |pipes.items|
      requires p in pipes.items
      modifies this`matching, pipes, pipes.Members()`arrayIndex
      ensures pipes.Valid() && matching <= active <= eligible <= |pipes.items| == |old(pipes.items)|
      ensures pipes.Members() == old(pipes.Members()) && p in pipes.items
      ensures First(pipes.items, matching) == First(old(pipes.items), old(matching)) - {p}
      ensures First(pipes.items, active) == First(old(pipes.items), active)
      ensures First(pipes.items, eligible) == First(old(pipes.items), eligible)
      ensures First(pipes.items, |pipes.items|) == First(old(pipes.items), |pipes.items|)
    {
      pipes.Distinct();
      var i := pipes.Index(p);
      InFirst(pipes.items, i, matching);
      if i < matching {
        Down(pipes.items, i, matching);
        SwapMembers(pipes.items, i, matching - 1);
        pipes.Swap(i, matching - 1);
        matching := matching - 1;
      }
    }

    method LeaveActive(p: Pipe)
      requires pipes.Valid() && matching <= active <= eligible <= |pipes.items|
      requires p in pipes.items && p !in First(pipes.items, matching)
      modifies this`active, pipes, pipes.Members()`arrayIndex
      ensures pipes.Valid() && matching <= active <= eligible <= |pipes.items| == |old(pipes.items)|
      ensures pipes.Members() == old(pipes.Members()) && p in pipes.items
      ensures First(pipes.items, active) == First(old(pipes.items), old(active)) - {p}
      ensures First(pipes.items, matching) == First(old(pipes.items), matching)
      ensures First(pipes.items, eligible) == First(old(pipes.items), eligible)
      ensures First(pipes.items, |pipes.items|) == First(old(pipes.items), |pipes.items|)
      ensures active == old(active) || (active == old(active) - 1 && p in First(pipes.items, old(active)))
      ensures active == old(active) <==> p !in First(old(pipes.items), old(active))
    {
      pipes.Distinct();
      var i := pipes.Index(p);
      InFirst(pipes.items, i, matching);
      InFirst(pipes.items, i, active);
      if i < active {
        Down(pipes.items, i, active);
        SwapMembers(pipes.items, i, active - 1);
        pipes.Swap(i, active - 1);
        active := active - 1;
        OneMore(pipes.items, active);
      }
    }

    method LeaveEligible(p: Pipe)
      requires pipes.Valid() && matching <= active <= eligible <= |pipes.items|
      requires p in pipes.items && p !in First(pipes.items, active)
      modifies this`eligible, pipes, pipes.Members()`arrayIndex
      ensures pipes.Valid() && matching <= active <= eligible <= |pipes.items| == |old(pipes.items)|
      ensures pipes.Members() == old(pipes.Members()) && p in pipes.items
      ensures First(pipes.items, eligible) == First(old(pipes.items), old(eligible)) - {p}
      ensures First(pipes.items, matching) == First(old(pipes.items), matching)
      ensures First(pipes.items, active) == First(old(pipes.items), active)
      ensures First(pipes.items, |pipes.items|) == First(old(pipes.items), |pipes.items|)
      ensures eligible == if p in First(old(pipes.items), old(eligible)) then old(eligible) - 1 else old(eligible)
    {
      pipes.Distinct();
      var i := pipes.Index(p);
      InFirst(pipes.items, i, active);
      InFirst(pipes.items, i, eligible);
      if i < eligible {
        Down(pipes.items, i, eligible);
        SwapMembers(pipes.items, i, eligible - 1);
        pipes.Swap(i, eligible - 1);
        eligible := eligible - 1;
      }
    }

    // A pipe that had refused a frame takes part again: at once, or from the next message on.
    method ActivatedPipe(p: Pipe)
      requires Valid() && p in pipes.items && p !in View().eligible
      modifies this, pipes, pipes.Members()`arrayIndex
      ensures Valid() && View() == Activated(old(View()), p)
    {
      assert Distinct(pipes.items) by { pipes.Distinct(); }
      if eligible < |pipes.items| {
        ghost var i :| 0 <= i < |pipes.items| && pipes.items[i] == p;
        InFirst(pipes.items, i, eligible);
        Up(pipes.items, i, eligible);
        SwapPipe(p, i, eligible);
        eligible := eligible + 1;
      }
      if !more && active < |pipes.items| {
        assert Swapped(pipes.items, eligible - 1, active) == pipes.items;
        SwapPipe(pipes.items[eligible - 1], eligible - 1, active);
        active := active + 1;
      }
    }

    // Offers a frame to one matching pipe; a pipe that refuses it is out of the running.
    method Write(p: Pipe, f: Frame, ghost i: nat) returns (ok: bool)
      requires pipes.Valid() && matching <= active <= eligible <= |pipes.items|
      requires i < matching && pipes.items[i] == p
      modifies this`matching, this`active, this`eligible, pipes, pipes.Members()`arrayIndex
      modifies p`outActive, p`msgsWritten, p`outbox, p`offers, p`flushed
      ensures pipes.Valid() && matching <= active <= eligible <= |pipes.items|
      ensures pipes.Members() == old(pipes.Members())
      ensures ok == old(p.CanWrite()) && Shown(old(Look(p)), Look(p), f)
      ensures forall q | q in old(pipes.Members()) && q != p :: Look(q) == old(Look(q))
      ensures ok ==> pipes.items == old(pipes.items)
                     && matching == old(matching) && active == old(active) && eligible == old(eligible)
      ensures !ok ==> matching == old(matching) - 1 && eligible - active == old(eligible) - old(active)
                      && PartsNow() == Refused(old(PartsNow()), {p})
                      && forall n | 0 <= n <= i :: First(pipes.items, n) == First(old(pipes.items), n)
    {
      ok := Show(p, f);
      if !ok {
        assert Distinct(pipes.items) by { pipes.Distinct(); }
        DemotedParts(pipes.items, i, matching, active, eligible);
        DemoteInArray(p, i);
      }
    }

    // Writes a frame, and lets the reader have the message if it is the last.
    method Show(p: Pipe, f: Frame) returns (ok: bool)
      modifies p`outActive, p`msgsWritten, p`outbox, p`offers, p`flushed
      ensures ok == old(p.CanWrite()) && Shown(old(Look(p)), Look(p), f)
    {
      ok := p.Write(f);
      if ok && !f.more {
        p.Flush();
      }
    }

    // Moves a matching pipe behind the eligible ones.
    method DemoteInArray(p: Pipe, ghost i: nat)
      requires pipes.Valid() && matching <= active <= eligible <= |pipes.items|
      requires i < matching && pipes.items[i] == p
      modifies this`matching, this`active, this`eligible, pipes, pipes.Members()`arrayIndex
      ensures pipes.Valid() && pipes.items == Demoted(old(pipes.items), i, old(matching), old(active), old(eligible))
      ensures pipes.Members() == old(pipes.Members())
      ensures matching == old(matching) - 1 && active == old(active) - 1 && eligible == old(eligible) - 1
    {
      SwapPipe(p, i, matching - 1);
      matching := matching - 1;
      SwapPipe(p, matching, active - 1);
      active := active - 1;
      SwapPipe(pipes.items[active], active, eligible - 1);
      eligible := eligible - 1;
    }

    // Swaps a pipe, wherever it is, with the one at j.
    method SwapPipe(p: Pipe, ghost i: nat, j: nat)
      requires pipes.Valid() && i < |pipes.items| && pipes.items[i] == p && j < |pipes.items|
      modifies pipes, pipes.Members()`arrayIndex
      ensures pipes.Valid() && pipes.items == Swapped(old(pipes.items), i, j)
      ensures pipes.items[j] == p && pipes.Members() == old(pipes.Members())
    {
      var k := pipes.Index(p);
      assert pipes.items[i].arrayIndex == i && pipes.items[k].arrayIndex == k;
      SwapMembers(pipes.items, k, j);
      pipes.Swap(k, j);
    }

    // The matching pipes that would refuse a frame.
    ghost function Refusing(): set<Pipe>
      reads this, pipes, pipes.items
      requires matching <= |pipes.items|
    {
      set p | p in First(pipes.items, matching) && !p.CanWrite()
    }

    // What an offer did to a pipe.
    twostate predicate TookOffer(p: Pipe, f: Frame)
      reads p
    {
      Shown(old(Look(p)), Look(p), f)
    }

    twostate predicate NoOffer(p: Pipe)
      reads p
    {
      Look(p) == old(Look(p))
    }

    // The frame is the last in the pipe if the pipe was to have it and could take it, and nothing else is changed.
    twostate predicate GotIf(p: Pipe, f: Frame, chosen: bool)
      reads p
    {
      p.outbox == old(p.outbox) + if chosen && old(p.CanWrite()) then [f] else []
    }

    static ghost function Look(p: Pipe): Sight
      reads p`offers, p`outbox, p`flushed, p`hasOut
      reads p`outActive, p`open, p`hwm, p`msgsWritten, p`peersMsgsRead
    {
      Sight(p.offers, p.outbox, p.flushed, p.hasOut, p.CanWrite())
    }

    // Every matching pipe is offered the frame once, and `takes` tells which offers were taken, although each
    // refusal changes the array under way.
    method Distribute(f: Frame) returns (takes: seq<bool>)
      requires Valid()
      modifies this`matching, this`active, this`eligible, pipes, pipes.Members()
      ensures pipes.Valid() && matching <= active <= eligible <= |pipes.items| && (!more ==> active == eligible)
      ensures pipes.Members() == old(pipes.Members())
      ensures PartsNow() == Refused(old(View()), old(Refusing()))
      ensures forall p | p in old(View()).matching :: TookOffer(p, f)
      ensures forall p | p in old(pipes.Members()) && p !in old(View()).matching :: NoOffer(p)
      ensures |takes| == old(matching) && Trues(takes) == matching
    {
      takes := [];
      ghost var was := map p | p in pipes.Members() :: Look(p);
      ghost var v, gone := PartsNow(), {};
      var i := 0;
      while i < matching
        invariant eligible - active == old(eligible) - old(active)
        invariant Progress(was, v, gone, i, f)
        invariant |takes| == i + old(matching) - matching && Trues(takes) == i
        decreases matching - i
      {
        var ok;
        ok, gone := OfferNext(was, v, gone, i, f);
        assert (takes + [ok])[..|takes|] == takes;
        takes := takes + [ok];
        if ok {
          i := i + 1;
        }
      }
      assert First(pipes.items, i) == v.matching - gone;
      assert gone == old(Refusing());
    }

    // The pipes up to i, and those gone, have been offered the frame, the others not.
    ghost predicate Progress(was: map<Pipe, Sight>, v: Parts<Pipe>, gone: set<Pipe>, i: nat, f: Frame)
      reads this, pipes, pipes.items
    {
      && i <= matching <= active <= eligible <= |pipes.items|
      && pipes.Valid() && pipes.Members() == was.Keys
      && PartsNow() == Refused(v, gone) && gone <= v.matching <= was.Keys
      && forall p | p in was ::
           if p in gone || p in First(pipes.items, i)
           then (p in gone <==> !was[p].canWrite) && Shown(was[p], Look(p), f)
           else Look(p) == was[p]
    }

    method OfferNext(ghost was: map<Pipe, Sight>, ghost v: Parts<Pipe>, ghost gone: set<Pipe>, i: nat, f: Frame)
      returns (ok: bool, ghost gone': set<Pipe>)
      requires Progress(was, v, gone, i, f) && i < matching
      modifies this`matching, this`active, this`eligible, pipes, pipes.Members()
      ensures Progress(was, v, gone', if ok then i + 1 else i, f)
      ensures eligible - active == old(eligible) - old(active)
      ensures matching == if ok then old(matching) else old(matching) - 1
    {
      NotSeen(i);
      OneMore(pipes.items, i);
      var p := pipes.items[i];
      assert p in pipes.Members() && p !in gone;
      RefusedMore(v, gone, p);
      ok := Write(p, f, i);
      gone' := if ok then gone else gone + {p};
    }

    lemma NotSeen(i: nat)
      requires pipes.Valid() && i < matching <= |pipes.items|
      ensures pipes.items[i] in First(pipes.items, matching) && pipes.items[i] !in First(pipes.items, i)
    {
      pipes.Distinct();
      InFirst(pipes.items, i, matching);
      InFirst(pipes.items, i, i);
    }

    // Sends a frame to the matching pipes; after the last frame all eligible pipes are active again.
    method SendToMatching(f: Frame)
      requires Valid()
      modifies this, pipes, pipes.Members()
      ensures Valid() && View() == Sent(old(View()), old(Refusing()), f.more)
      ensures pipes.Members() == old(pipes.Members())
      ensures forall p | p in old(View()).matching :: TookOffer(p, f)
      ensures forall p | p in old(pipes.Members()) && p !in old(View()).matching :: NoOffer(p)
      ensures forall p | p in old(pipes.Members()) :: GotIf(p, f, p in old(View()).matching)
    {
      var takes := Distribute(f);
      if !f.more {
        active := eligible;
      }
      more := f.more;
    }

    method SendToAll(f: Frame)
      requires Valid()
      modifies this, pipes, pipes.Members()
      ensures Valid() && pipes.Members() == old(pipes.Members())
      ensures var refused := old(set p | p in First(pipes.items, active) && !p.CanWrite());
              View() == Sent(old(View()).(matching := old(View()).active), refused, f.more)
      ensures forall p | p in old(View()).active :: TookOffer(p, f)
      ensures forall p | p in old(pipes.Members()) && p !in old(View()).active :: NoOffer(p)
      ensures forall p | p in old(pipes.Members()) :: GotIf(p, f, p in old(View()).active)
    {
      matching := active;
      SendToMatching(f);
    }
  }

  function Demoted<T>(s: seq<T>, k: nat, m: nat, a: nat, e: nat): (t: seq<T>)
    requires k < m <= a <= e <= |s|
    ensures |t| == |s|
  {
    Swapped(Swapped(Swapped(s, k, m - 1), m - 1, a - 1), a - 1, e - 1)
  }

  // Three swaps take an item out of three nested prefixes and leave everything before it alone.
  lemma DemotedParts<T>(s: seq<T>, k: nat, m: nat, a: nat, e: nat)
    requires Distinct(s) && k < m <= a <= e <= |s|
    ensures var t := Demoted(s, k, m, a, e);
            && First(t, m - 1) == First(s, m) - {s[k]}
            && First(t, a - 1) == First(s, a) - {s[k]}
            && First(t, e - 1) == First(s, e) - {s[k]}
            && First(t, |s|) == First(s, |s|)
            && (forall n | 0 <= n <= k :: First(t, n) == First(s, n))
            && (forall x :: x in t <==> x in s)
  {
    var t1 := Swapped(s, k, m - 1);
    var t2 := Swapped(t1, m - 1, a - 1);
    Down(s, k, m);
    Down(t1, m - 1, a);
    Down(t2, a - 1, e);
    SwapMembers(s, k, m - 1);
    SwapMembers(t1, m - 1, a - 1);
    SwapMembers(t2, a - 1, e - 1);
  }

  // The items prev..i of s are in front of t, and those from i on where they were.
  ghost predicate Reversing<T>(s: seq<T>, t: seq<T>, prev: nat, i: nat, eligible: nat)
  {
    && |t| == |s| && Distinct(t) && prev <= i <= eligible <= |s|
    && (forall k | 0 <= k < i - prev :: t[k] == s[prev + k])
    && (forall k | i <= k < |s| :: t[k] == s[k])
    && First(t, eligible) == First(s, eligible)
    && First(t, |s|) == First(s, |s|)
  }

  lemma ReverseStep<T>(s: seq<T>, t: seq<T>, prev: nat, i: nat, eligible: nat)
    requires Reversing(s, t, prev, i, eligible) && i < eligible
    ensures Reversing(s, Swapped(t, i, i - prev), prev, i + 1, eligible)
  {
    SwapKeeps(t, i, i - prev, eligible);
    SwapKeeps(t, i, i - prev, |s|);
    SwapDistinct(t, i, i - prev);
  }

  lemma BackToFront<T>(s: seq<T>, t: seq<T>, prev: nat, eligible: nat)
    requires Distinct(s) && |t| == |s| && prev <= eligible <= |s|
    requires forall k | 0 <= k < eligible - prev :: t[k] == s[prev + k]
    ensures First(t, eligible - prev) == First(s, eligible) - First(s, prev)
  {
    forall x | x in First(s, eligible) && x !in First(s, prev) ensures x in First(t, eligible - prev) {
      var i :| 0 <= i < eligible && s[i] == x;
      assert i >= prev;
      assert t[i - prev] == x;
    }
    forall x | x in First(t, eligible - prev) ensures x in First(s, eligible) && x !in First(s, prev) {
      var k :| 0 <= k < eligible - prev && t[k] == x;
      assert s[prev + k] == x;
    }
  }
}
