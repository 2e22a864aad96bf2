/** The subscription multi-trie: a compressed trie over bytes whose nodes hold sets of pipes.

    Every node keeps a ghost set `entries` of (prefix, pipe) pairs.  `Valid` ties it to the real
    fields, and the methods say how the set changes; nothing about tables shows in a contract. */
module MultiTrie {
  import opened Bytes

  type Path = seq<Byte>
  type Pipe = nat
  type Entry = (Path, Pipe)

  datatype RmResult = NotFound | LastValueRemoved | ValuesRemain

  // The pairs of a node, given the pipes attached to it and the pairs of its 256 possible children.
  ghost predicate Gathers(entries: set<Entry>, own: Option<set<Pipe>>, kids: seq<set<Entry>>)
    requires |kids| == 256
  {
    forall e :: e in entries <==>
                if e.0 == [] then own.Some? && e.1 in own.value
                else (e.0[1..], e.1) in kids[e.0[0]]
  }

  lemma GathersAdd(entries: set<Entry>, own: Option<set<Pipe>>, kids: seq<set<Entry>>, path: Path, pipe: Pipe)
    requires |kids| == 256 && Gathers(entries, own, kids) && path != []
    ensures Gathers(entries + {(path, pipe)}, own, kids[path[0] := kids[path[0]] + {(path[1..], pipe)}])
  {
    forall e: Entry | e.0 != [] && e.0[0] == path[0] && e.0[1..] == path[1..] ensures e.0 == path {
      assert e.0 == [e.0[0]] + e.0[1..];
      assert path == [path[0]] + path[1..];
    }
  }

  lemma GathersRemove(entries: set<Entry>, own: Option<set<Pipe>>, kids: seq<set<Entry>>, path: Path, pipe: Pipe)
    requires |kids| == 256 && Gathers(entries, own, kids) && path != []
    ensures Gathers(entries - {(path, pipe)}, own, kids[path[0] := kids[path[0]] - {(path[1..], pipe)}])
  {
    forall e: Entry | e.0 != [] && e.0[0] == path[0] && e.0[1..] == path[1..] ensures e.0 == path {
      assert e.0 == [e.0[0]] + e.0[1..];
      assert path == [path[0]] + path[1..];
    }
  }

  // Whether a prefix has a pair is decided in the child.
  ghost predicate NoPairAt(entries: set<Entry>, path: Path)
  {
    forall e | e in entries :: e.0 != path
  }

  lemma NoPairBelow(entries: set<Entry>, own: Option<set<Pipe>>, kids: seq<set<Entry>>, path: Path)
    requires |kids| == 256 && Gathers(entries, own, kids) && path != []
    ensures NoPairAt(entries, path) <==> NoPairAt(kids[path[0]], path[1..])
  {
    if e :| e in kids[path[0]] && e.0 == path[1..] {
      assert (path, e.1) in entries;
    }
    if e :| e in entries && e.0 == path {
      assert (path[1..], e.1) in kids[path[0]];
    }
  }

  // The answer `rm` owes for a pair, given all pairs.
  ghost function RmAnswer(entries: set<Entry>, path: Path, pipe: Pipe): RmResult
  {
    if (path, pipe) !in entries then NotFound
    else if NoPairAt(entries - {(path, pipe)}, path) then LastValueRemoved
    else ValuesRemain
  }

  // That the pair was not there; that the prefix has no pair any more; that it still has some.
  lemma RmAnswers(entries: set<Entry>, path: Path, pipe: Pipe)
    ensures var r, rest := RmAnswer(entries, path, pipe), entries - {(path, pipe)};
            && (r.NotFound? <==> (path, pipe) !in entries)
            && (r.LastValueRemoved? <==> (path, pipe) in entries && forall x :: (path, x) !in rest)
            && (r.ValuesRemain? <==> (path, pipe) in entries && exists x :: (path, x) in rest)
  {
    var rest := entries - {(path, pipe)};
    if !NoPairAt(rest, path) {
      var e :| e in rest && e.0 == path;
      assert (path, e.1) in rest;
    }
  }

  lemma RmAnswerBelow(entries: set<Entry>, own: Option<set<Pipe>>, kids: seq<set<Entry>>, path: Path, pipe: Pipe)
    requires |kids| == 256 && Gathers(entries, own, kids) && path != []
    ensures RmAnswer(entries, path, pipe) == RmAnswer(kids[path[0]], path[1..], pipe)
  {
    GathersRemove(entries, own, kids, path, pipe);
    NoPairBelow(entries - {(path, pipe)}, own, kids[path[0] := kids[path[0]] - {(path[1..], pipe)}], path);
  }

  /* What a lookup owes. */

  ghost function PipesAt(entries: set<Entry>, path: Path): set<Pipe>
  {
    set e | e in entries && e.0 == path :: e.1
  }

  // Each pair whose prefix is one of the first n prefixes of data, once.
  ghost function Matches(entries: set<Entry>, data: Path, n: nat): multiset<Pipe>
    requires n <= |data| + 1
  {
    if n == 0 then multiset{}
    else Matches(entries, data, n - 1) + multiset(PipesAt(entries, data[..n - 1]))
  }

  // `below` holds the pairs of `all` whose prefix starts with path, without it.
  ghost predicate Below(below: set<Entry>, all: set<Entry>, path: Path)
  {
    forall q, x :: (q, x) in below <==> (path + q, x) in all
  }

  lemma BelowSelf(all: set<Entry>)
    ensures Below(all, all, [])
  {
    forall q: Path, x: Pipe ensures (q, x) in all <==> ([] + q, x) in all {
      assert [] + q == q;
    }
  }

  lemma BelowKid(below: set<Entry>, own: Option<set<Pipe>>, kids: seq<set<Entry>>, all: set<Entry>, path: Path, c: Byte)
    requires |kids| == 256 && Gathers(below, own, kids) && Below(below, all, path)
    ensures Below(kids[c], all, path + [c])
  {
    forall q, x ensures (q, x) in kids[c] <==> (path + [c] + q, x) in all {
      assert ([c] + q)[1..] == q;
      assert path + ([c] + q) == path + [c] + q;
      assert ([c] + q, x) in below <==> (path + ([c] + q), x) in all;
    }
  }

  lemma BelowPipes(below: set<Entry>, own: Option<set<Pipe>>, kids: seq<set<Entry>>, all: set<Entry>, path: Path)
    requires |kids| == 256 && Gathers(below, own, kids) && Below(below, all, path)
    ensures PipesAt(all, path) == if own.Some? then own.value else {}
  {
    assert path + [] == path;
    forall x ensures x in PipesAt(all, path) <==> own.Some? && x in own.value {
      assert ([], x) in below <==> (path + [], x) in all;
      assert x in PipesAt(all, path) <==> (path, x) in all;
    }
  }

  lemma NothingFurther(all: set<Entry>, data: Path, k: nat, n: nat)
    requires k < n <= |data|
    requires Below({}, all, data[..k + 1])
    ensures Matches(all, data, n + 1) == Matches(all, data, k + 1)
    decreases n
  {
    forall x ensures (data[..n], x) !in all {
      assert data[..n] == data[..k + 1] + data[k + 1..n];
      assert (data[k + 1..n], x) !in {};
    }
    assert PipesAt(all, data[..n]) == {};
    if k + 1 < n {
      NothingFurther(all, data, k, n - 1);
    }
  }

  /* What the removal of a pipe owes. */

  // The pairs left when `pipe` has gone from this node and from the children of bytes under lim.
  ghost function Without(entries: set<Entry>, pipe: Pipe, lim: int): set<Entry>
  {
    set e | e in entries && !(e.1 == pipe && (e.0 == [] || e.0[0] < lim))
  }

  // The pairs left when `pipe` has gone from the child of byte c.
  ghost function WithoutKid(entries: set<Entry>, pipe: Pipe, c: int): set<Entry>
  {
    set e | e in entries && !(e.1 == pipe && e.0 != [] && e.0[0] == c)
  }

  lemma GathersWithout(entries: set<Entry>, own: Option<set<Pipe>>, kids: seq<set<Entry>>, c: Byte, pipe: Pipe)
    requires |kids| == 256 && Gathers(entries, own, kids)
    ensures Gathers(WithoutKid(entries, pipe, c), own, kids[c := Without(kids[c], pipe, 256)])
  {
  }

  lemma WithoutStep(entries: set<Entry>, pipe: Pipe, c: Byte)
    ensures WithoutKid(Without(entries, pipe, c), pipe, c) == Without(entries, pipe, c + 1)
  {
  }

  // Bytes lo..hi have no entries.
  lemma WithoutSkip(entries: set<Entry>, pipe: Pipe, lo: int, hi: int)
    requires lo <= hi
    requires forall e | e in entries && e.0 != [] :: !(lo <= e.0[0] < hi)
    ensures Without(entries, pipe, lo) == Without(entries, pipe, hi)
  {
  }

  // Is the removal of `pipe` to be reported for path?
  ghost predicate Reported(entries: set<Entry>, path: Path, pipe: Pipe, onUniq: bool)
  {
    (path, pipe) in entries && (onUniq ==> forall e | e in entries && e.0 == path :: e.1 == pipe)
  }

  // a comes before b in the order in which bytes are visited.
  ghost predicate Before(a: Path, b: Path)
  {
    exists k: nat :: k <= |a| && k < |b| && a[..k] == b[..k] && (k == |a| || a[k] < b[k])
  }

  ghost predicate OnlyReported(calls: seq<Path>, entries: set<Entry>, path: Path, pipe: Pipe, onUniq: bool, lim: int)
  {
    forall i | 0 <= i < |calls| ::
      && path <= calls[i]
      && Reported(entries, calls[i][|path|..], pipe, onUniq)
      && (|calls[i]| == |path| || calls[i][|path|] < lim)
  }

  ghost predicate AllReported(calls: seq<Path>, entries: set<Entry>, path: Path, pipe: Pipe, onUniq: bool, lim: int)
  {
    forall q {:trigger Reported(entries, q, pipe, onUniq)}
      | Reported(entries, q, pipe, onUniq) && (q == [] || q[0] < lim) ::
      path + q in calls
  }

  ghost predicate InOrder(calls: seq<Path>)
  {
    forall i, j | 0 <= i < j < |calls| :: Before(calls[i], calls[j])
  }

  // Exactly the paths to report, each once and in order; only those whose byte after `path` is under lim.
  ghost predicate Reports(calls: seq<Path>, entries: set<Entry>, path: Path, pipe: Pipe, onUniq: bool, lim: int)
  {
    && OnlyReported(calls, entries, path, pipe, onUniq, lim)
    && AllReported(calls, entries, path, pipe, onUniq, lim)
    && InOrder(calls)
  }

  lemma ReportHere(entries: set<Entry>, own: Option<set<Pipe>>, kids: seq<set<Entry>>,
                   path: Path, pipe: Pipe, onUniq: bool)
    requires |kids| == 256 && Gathers(entries, own, kids)
    ensures var due := own.Some? && pipe in own.value && (!onUniq || own.value == {pipe});
            Reports(if due then [path] else [], entries, path, pipe, onUniq, 0)
  {
    assert path + [] == path;
    assert forall x :: ([], x) in entries <==> own.Some? && x in own.value;
    if own.Some? && pipe in own.value && onUniq && own.value != {pipe} {
      var x :| x in own.value && x != pipe;
      assert ([], x) in entries;
    }
  }

  lemma GathersHere(entries: set<Entry>, own: Option<set<Pipe>>, kids: seq<set<Entry>>, pipe: Pipe)
    requires |kids| == 256 && Gathers(entries, own, kids)
    ensures Gathers(Without(entries, pipe, 0), if own.Some? then Some(own.value - {pipe}) else None, kids)
  {
  }

  lemma ReportedBelow(entries: set<Entry>, own: Option<set<Pipe>>, kids: seq<set<Entry>>,
                      q: Path, pipe: Pipe, onUniq: bool)
    requires |kids| == 256 && Gathers(entries, own, kids) && q != []
    ensures Reported(entries, q, pipe, onUniq) <==> Reported(kids[q[0]], q[1..], pipe, onUniq)
  {
    assert q == [q[0]] + q[1..];
    forall e | e in kids[q[0]] && e.0 == q[1..] ensures (q, e.1) in entries {
    }
    forall e | e in entries && e.0 == q ensures (q[1..], e.1) in kids[q[0]] {
    }
  }

  lemma OnlyReportedKid(entries: set<Entry>, own: Option<set<Pipe>>, kids: seq<set<Entry>>, path: Path, c: Byte,
                        pipe: Pipe, onUniq: bool, kidCalls: seq<Path>)
    requires |kids| == 256 && Gathers(entries, own, kids)
    requires OnlyReported(kidCalls, kids[c], path + [c], pipe, onUniq, 256)
    ensures OnlyReported(kidCalls, entries, path, pipe, onUniq, c + 1)
    ensures forall i | 0 <= i < |kidCalls| :: |kidCalls[i]| > |path| && kidCalls[i][|path|] == c
  {
    forall i | 0 <= i < |kidCalls|
      ensures path <= kidCalls[i] && |kidCalls[i]| > |path| && kidCalls[i][|path|] == c
      ensures Reported(entries, kidCalls[i][|path|..], pipe, onUniq)
    {
      var q := kidCalls[i][|path|..];
      assert kidCalls[i][..|path| + 1] == path + [c];
      assert kidCalls[i][|path|] == (path + [c])[|path|];
      assert q[1..] == kidCalls[i][|path| + 1..];
      ReportedBelow(entries, own, kids, q, pipe, onUniq);
    }
  }

  lemma AllReportedKid(entries: set<Entry>, own: Option<set<Pipe>>, kids: seq<set<Entry>>, path: Path, c: Byte,
                       pipe: Pipe, onUniq: bool, calls: seq<Path>, kidCalls: seq<Path>)
    requires |kids| == 256 && Gathers(entries, own, kids)
    requires AllReported(calls, entries, path, pipe, onUniq, c)
    requires AllReported(kidCalls, kids[c], path + [c], pipe, onUniq, 256)
    ensures AllReported(calls + kidCalls, entries, path, pipe, onUniq, c + 1)
  {
    forall q | Reported(entries, q, pipe, onUniq) && (q == [] || q[0] < c + 1)
      ensures path + q in calls + kidCalls
    {
      if q != [] && q[0] == c {
        ReportedBelow(entries, own, kids, q, pipe, onUniq);
        assert path + q == path + [c] + q[1..];
        assert path + q in kidCalls;
      } else {
        assert path + q in calls;
      }
    }
  }

  // The calls of a child come after those of this node and of the children before it.
  lemma ReportsKid(entries: set<Entry>, own: Option<set<Pipe>>, kids: seq<set<Entry>>, path: Path, c: Byte,
                   pipe: Pipe, onUniq: bool, calls: seq<Path>, kidCalls: seq<Path>)
    requires |kids| == 256 && Gathers(entries, own, kids)
    requires Reports(calls, entries, path, pipe, onUniq, c)
    requires Reports(kidCalls, kids[c], path + [c], pipe, onUniq, 256)
    ensures Reports(calls + kidCalls, entries, path, pipe, onUniq, c + 1)
  {
    OnlyReportedKid(entries, own, kids, path, c, pipe, onUniq, kidCalls);
    AllReportedKid(entries, own, kids, path, c, pipe, onUniq, calls, kidCalls);
    OrderAppend(calls, kidCalls, path, c);
  }

  lemma OrderAppend(calls: seq<Path>, kidCalls: seq<Path>, path: Path, c: Byte)
    requires InOrder(calls) && InOrder(kidCalls)
    requires forall i | 0 <= i < |calls| :: path <= calls[i] && (|calls[i]| == |path| || calls[i][|path|] < c)
    requires forall i | 0 <= i < |kidCalls| :: path <= kidCalls[i] && |kidCalls[i]| > |path| && kidCalls[i][|path|] == c
    ensures InOrder(calls + kidCalls)
  {
    var all := calls + kidCalls;
    forall i, j | 0 <= i < j < |all| ensures Before(all[i], all[j]) {
      if i < |calls| <= j {
        assert all[i][..|path|] == path == all[j][..|path|];
      } else if j < |calls| {
        assert Before(calls[i], calls[j]);
      } else {
        assert Before(kidCalls[i - |calls|], kidCalls[j - |calls|]);
      }
    }
  }

  // Bytes lo..hi have nothing to report.
  lemma ReportsSkip(calls: seq<Path>, entries: set<Entry>, path: Path, pipe: Pipe, onUniq: bool, lo: int, hi: int)
    requires lo <= hi
    requires forall e | e in entries && e.0 != [] :: !(lo <= e.0[0] < hi)
    requires Reports(calls, entries, path, pipe, onUniq, lo)
    ensures Reports(calls, entries, path, pipe, onUniq, hi)
  {
  }

  class PathBuffer {
    var data: seq<Byte>

    constructor ()
      ensures data == []
    {
      data := [];
    }

    // What was in the buffer stays as far as it fits; the rest is arbitrary.
    method Realloc(n: nat)
      modifies this
      ensures |data| == n
      ensures forall i | 0 <= i < n && i < |old(data)| :: data[i] == old(data)[i]
    {
      data := if n <= |data| then data[..n] else data + seq(n - |data|, _ => 0);
    }
  }

  /* How the 256 possible children of a node are packed into its fields. */

  ghost predicate Packs(min: int, count: int, node: Mtrie?, table: seq<Mtrie?>, kids: seq<Mtrie?>)
  {
    && |kids| == 256
    && 0 <= min && 0 <= count && min + count <= 256
    && (count > 1 ==> |table| == count)
    && (forall b | 0 <= b < 256 ::
          kids[b] == if count == 0 || b < min || b >= min + count then null
                     else if count == 1 then node
                     else table[b - min])
  }

  // No more room is used than needed.
  ghost predicate Compact(min: int, count: int, kids: seq<Mtrie?>)
  {
    count > 0 ==> 0 <= min && min + count <= |kids| && kids[min] != null && kids[min + count - 1] != null
  }

  ghost function Live(kids: seq<Mtrie?>): nat
  {
    |set b | 0 <= b < |kids| && kids[b] != null|
  }

  lemma LiveUpdate(kids: seq<Mtrie?>, b: int, kid: Mtrie?)
    requires 0 <= b < |kids|
    requires (kids[b] == null) != (kid == null)
    ensures Live(kids[b := kid]) == if kid != null then Live(kids) + 1 else Live(kids) - 1
  {
    var updated := kids[b := kid];
    var was := set i | 0 <= i < |kids| && kids[i] != null;
    var now := set i | 0 <= i < |kids| && updated[i] != null;
    if kid != null {
      assert now == was + {b};
    } else {
      assert now == was - {b};
    }
  }

  lemma LiveTwo(kids: seq<Mtrie?>, a: int, b: int)
    requires 0 <= a < b < |kids| && kids[a] != null && kids[b] != null
    ensures Live(kids) >= 2
  {
    var all := set i | 0 <= i < |kids| && kids[i] != null;
    assert {a, b} <= all;
    Cardinal({a, b}, all);
  }

  lemma LiveOnly(kids: seq<Mtrie?>, a: int)
    requires 0 <= a < |kids| && kids[a] != null && Live(kids) == 1
    ensures forall b | 0 <= b < |kids| && b != a :: kids[b] == null
  {
    forall b | 0 <= b < |kids| && b != a ensures kids[b] == null {
      if kids[b] != null {
        LiveTwo(kids, if a < b then a else b, if a < b then b else a);
      }
    }
  }

  lemma LiveSome(kids: seq<Mtrie?>)
    requires Live(kids) > 0
    ensures exists b :: 0 <= b < |kids| && kids[b] != null
  {
    var all := set i | 0 <= i < |kids| && kids[i] != null;
    var b :| b in all;
  }

  lemma LiveAtLeast(kids: seq<Mtrie?>, a: int)
    requires 0 <= a < |kids| && kids[a] != null
    ensures Live(kids) >= 1
  {
    var all := set i | 0 <= i < |kids| && kids[i] != null;
    Cardinal({a}, all);
  }

  lemma LiveAlone(kids: seq<Mtrie?>, a: int)
    requires 0 <= a < |kids| && kids[a] != null
    requires forall b | 0 <= b < |kids| && b != a :: kids[b] == null
    ensures Live(kids) == 1
  {
    var all := set i | 0 <= i < |kids| && kids[i] != null;
    assert all == {a};
  }

  lemma Cardinal<T>(a: set<T>, b: set<T>)
    requires a <= b
    ensures |a| <= |b|
  {
    assert b == a + (b - a);
  }

  // Of the live children under byte lim, lo is the first and hi the last; each keeps its start value if there is none.
  ghost predicate Spans(kids: seq<Mtrie?>, min: int, count: int, lim: int, lo: int, hi: int)
  {
    && |kids| == 256 && 0 <= min && min + count <= 256 && lim <= min + count
    && min <= lo <= min + count - 1 && min <= hi <= min + count - 1
    && (forall b | min <= b < lim && kids[b] != null :: lo <= b <= hi)
    && (lo == min + count - 1 || (lo < lim && kids[lo] != null))
    && (hi == min || (hi < lim && kids[hi] != null))
  }

  lemma SpansStep(was: seq<Mtrie?>, kids: seq<Mtrie?>, min: int, count: int, lim: int, lo: int, hi: int)
    requires Spans(was, min, count, lim, lo, hi)
    requires min <= lim < min + count
    requires kids == was || kids == was[lim := null]
    ensures kids[lim] == null ==> Spans(kids, min, count, lim + 1, lo, hi)
    ensures kids[lim] != null ==>
              Spans(kids, min, count, lim + 1, if lim < lo then lim else lo, if lim > hi then lim else hi)
  {
  }

  class Mtrie {
    var pipes: Option<set<Pipe>>
    var min: Byte
    var count: nat
    var live: nat
    var node: Mtrie?          // the only child, while count == 1
    var table: seq<Mtrie?>    // the children of min..min+count, while count > 1

    ghost var kids: seq<Mtrie?>
    ghost var Repr: set<object>
    ghost var entries: set<Entry>

    ghost function KidSets(): (s: seq<set<Entry>>)
      reads this, Repr
      ensures |s| == 256
    {
      seq(256, b requires 0 <= b reads this, Repr =>
        if b >= |kids| || kids[b] == null || kids[b] !in Repr then {} else kids[b].entries)
    }

    ghost predicate Apart(b: int, c: int)
      reads this, Repr
      requires |kids| == 256 && 0 <= b < c < 256
    {
      kids[b] != null && kids[c] != null && kids[b] in Repr && kids[c] in Repr ==>
        kids[b].Repr !! kids[c].Repr
    }

    // Links, counters and entries agree.  Says nothing on how compact this node is.
    ghost predicate Core()
      reads this, Repr
      decreases Repr
    {
      && this in Repr
      && Packs(min, count, node, table, kids)
      && live == Live(kids)
      && (forall b | 0 <= b < 256 && kids[b] != null ::
            && kids[b] in Repr
            && kids[b].Repr <= Repr
            && this !in kids[b].Repr
            && kids[b].Core()
            && kids[b].Tight())
      && (forall b, c | 0 <= b < c < 256 :: Apart(b, c))
      && Gathers(entries, pipes, KidSets())
    }

    // No room is wasted, no set of pipes is empty, no child is redundant.
    ghost predicate Tight()
      reads this, Repr
    {
      && Compact(min, count, kids)
      && (pipes.Some? ==> pipes.value != {})
      && (forall b | 0 <= b < |kids| && b < 256 && kids[b] != null :: KidSets()[b] != {})
    }

    ghost predicate Valid()
      reads this, Repr
      ensures Valid() ==> this in Repr
    {
      Core() && Tight()
    }

    ghost predicate Blank()
      reads this
    {
      && pipes == None && count == 0 && live == 0
      && kids == seq(256, _ => null) && Repr == {this} && entries == {}
    }

    lemma BlankIsValid()
      requires Blank()
      ensures Valid()
    {
    }

    twostate lemma Undisturbed()
      requires old(Valid())
      requires forall o | o in old(Repr) :: unchanged(o)
      ensures Valid() && Repr == old(Repr) && entries == old(entries)
    {
    }

    // The child at c was replaced, or changed within its own part of the heap; nothing else was.
    twostate predicate OnlyKid(c: Byte, new kid: Mtrie)
      reads this, Repr, kid, kid.Repr
    {
      && old(Core())
      && kids == old(kids)[c := kid]
      && kid.Valid()
      && Repr == old(Repr) + kid.Repr && this !in kid.Repr
      && (old(kids)[c] == null ==> fresh(kid.Repr))
      && (old(kids)[c] != null ==> kid == old(kids)[c] && fresh(kid.Repr - old(kid.Repr)))
      && (forall o | o in old(Repr) && o != this && o !in kid.Repr :: unchanged(o))
    }

    twostate predicate Kept(o: Mtrie, new kid: Mtrie)
      reads o, o.Repr, kid
    {
      o.Valid() && o.Repr == old(o.Repr) && o.Repr !! kid.Repr && o.entries == old(o.entries)
    }

    twostate lemma OtherKids(c: Byte, new kid: Mtrie)
      requires OnlyKid(c, kid)
      ensures forall b | 0 <= b < 256 && b != c && old(kids)[b] != null :: Kept(old(kids)[b], kid)
    {
      forall b | 0 <= b < 256 && b != c && old(kids)[b] != null
        ensures Kept(old(kids)[b], kid)
      {
        if b < c {
          assert old(Apart(b, c));
        } else {
          assert old(Apart(c, b));
        }
        old(kids)[b].Undisturbed();
      }
    }

    twostate lemma SetsAfter(c: Byte, new kid: Mtrie)
      requires OnlyKid(c, kid)
      ensures KidSets() == old(KidSets())[c := kid.entries]
    {
      OtherKids(c, kid);
    }

    twostate lemma ApartAfter(c: Byte, new kid: Mtrie)
      requires OnlyKid(c, kid)
      ensures forall b, d | 0 <= b < d < 256 :: Apart(b, d)
    {
      OtherKids(c, kid);
      forall b, d | 0 <= b < d < 256 ensures Apart(b, d) {
        assert old(Apart(b, d));
      }
    }

    // What is left to show of Core is that the entries were adapted too.
    twostate lemma OneKidChanged(c: Byte, new kid: Mtrie)
      requires OnlyKid(c, kid)
      requires Packs(min, count, node, table, kids) && live == Live(kids)
      requires Gathers(entries, pipes, old(KidSets())[c := kid.entries])
      ensures Core() && KidSets() == old(KidSets())[c := kid.entries]
    {
      OtherKids(c, kid);
      SetsAfter(c, kid);
      ApartAfter(c, kid);
    }

    twostate lemma OneKidGrown(c: Byte, new kid: Mtrie)
      requires OnlyKid(c, kid)
      requires Packs(min, count, node, table, kids) && live == Live(kids)
      requires Gathers(entries, pipes, old(KidSets())[c := kid.entries])
      requires Compact(min, count, kids) && (pipes.Some? ==> pipes.value != {})
      requires kid.entries != {}
      requires forall b | 0 <= b < 256 && b != c && old(kids)[b] != null :: old(KidSets())[b] != {}
      ensures Valid()
    {
      OneKidChanged(c, kid);
    }

    // The children were not touched, only what hangs on this node itself.
    twostate predicate OnlyHere()
      reads this, Repr
    {
      && old(Valid())
      && kids == old(kids) && Repr == old(Repr)
      && (forall o | o in old(Repr) && o != this :: unchanged(o))
    }

    twostate lemma AllKids()
      requires OnlyHere()
      ensures forall b | 0 <= b < 256 && kids[b] != null :: kids[b].Valid() && kids[b].Repr == old(kids[b].Repr)
      ensures KidSets() == old(KidSets())
    {
      forall b | 0 <= b < 256 && kids[b] != null
        ensures kids[b].Valid() && kids[b].Repr == old(kids[b].Repr) && kids[b].entries == old(kids[b].entries)
      {
        old(kids)[b].Undisturbed();
      }
    }

    twostate lemma OnlyHereChanged()
      requires OnlyHere()
      requires Packs(min, count, node, table, kids) && live == Live(kids)
      requires Gathers(entries, pipes, old(KidSets()))
      ensures Core() && KidSets() == old(KidSets())
    {
      AllKids();
      forall b, d | 0 <= b < d < 256 ensures Apart(b, d) {
        assert old(Apart(b, d));
      }
    }

    constructor ()
      ensures Blank()
    {
      pipes, min, count, live := None, 0, 0, 0;
      node, table := null, [];
      kids, Repr, entries := seq(256, _ => null), {this}, {};
    }

    lemma RedundantIffEmpty()
      requires Valid()
      ensures pipes.None? && live == 0 <==> entries == {}
    {
      if pipes.Some? {
        var x :| x in pipes.value;
        assert ([], x) in entries;
      } else if live != 0 {
        LiveSome(kids);
        var b :| 0 <= b < |kids| && kids[b] != null;
        var e :| e in KidSets()[b];
        assert ([b] + e.0)[1..] == e.0;
        assert ([b] + e.0, e.1) in entries;
      } else {
        forall b | 0 <= b < 256 ensures KidSets()[b] == {} {
          if kids[b] != null {
            LiveAtLeast(kids, b);
          }
        }
      }
    }

    // A valid node is redundant exactly when nothing hangs on it.
    method IsRedundant() returns (r: bool)
      requires Valid()
      ensures r <==> entries == {}
    {
      RedundantIffEmpty();
      r := pipes.None? && live == 0;
    }

    // Make room for byte c, outside the current range: from no child to one, from one to a
    // table, or a longer table at either end.
    method Reserve(c: Byte)
      requires Packs(min, count, node, table, kids) && Compact(min, count, kids)
      requires !(min <= c < min + count)
      modifies this`min, this`count, this`node, this`table
      ensures Packs(min, count, node, table, kids)
      ensures min <= c < min + count
      ensures Compact(min, count, kids[c := this])
    {
      if count == 0 {
        min, count, node := c, 1, null;
      } else if count == 1 {
        var oldc, oldp := min, node;
        count := (if min < c then c - min else min - c) + 1;
        table := seq(count, _ => null);
        min := if min < c then min else c;
        table := table[oldc - min := oldp];
      } else if min < c {
        var oldCount := count;
        count := c - min + 1;
        table := table + seq(count - oldCount, _ => null);
      } else {
        var oldCount := count;
        count := min + oldCount - c;
        table := seq(min - c, _ => null) + table;
        min := c;
      }
    }

    // The child for byte c, created if it is missing.
    method EnsureKid(c: Byte) returns (kid: Mtrie)
      requires Packs(min, count, node, table, kids) && Compact(min, count, kids)
      requires live == Live(kids)
      modifies this`min, this`count, this`live, this`node, this`table, this`kids
      ensures Packs(min, count, node, table, kids) && Compact(min, count, kids)
      ensures live == Live(kids)
      ensures kids == old(kids)[c := kid]
      ensures old(kids)[c] != null ==> kid == old(kids)[c]
      ensures old(kids)[c] == null ==> fresh(kid) && kid.Blank()
    {
      if c < min || c >= min + count {
        Reserve(c);
      }
      kid := FillSlot(c);
    }

    // The slot for byte c is there.
    method FillSlot(c: Byte) returns (kid: Mtrie)
      requires Packs(min, count, node, table, kids) && min <= c < min + count && live == Live(kids)
      modifies this`live, this`node, this`table, this`kids
      ensures Packs(min, count, node, table, kids) && live == Live(kids)
      ensures kids == old(kids)[c := kid]
      ensures old(kids)[c] != null ==> kid == old(kids)[c]
      ensures old(kids)[c] == null ==> fresh(kid) && kid.Blank()
    {
      if count == 1 {
        if node == null {
          node := new Mtrie();
          live := live + 1;
        }
        kid := node;
      } else {
        if table[c - min] == null {
          var made := new Mtrie();
          table := table[c - min := made];
          live := live + 1;
        }
        kid := table[c - min];
      }
      if kids[c] == null {
        LiveUpdate(kids, c, kid);
      } else {
        assert kids[c := kid] == kids;
      }
      kids := kids[c := kid];
    }

    method AddHere(pipe: Pipe) returns (isNew: bool)
      requires Valid()
      modifies this`pipes, this`entries
      ensures Valid()
      ensures entries == old(entries) + {([], pipe)}
      ensures isNew <==> forall e | e in old(entries) :: e.0 != []
    {
      isNew := pipes.None?;
      if pipes.None? {
        pipes := Some({});
      } else {
        ghost var x :| x in pipes.value;
        assert ([], x) in entries;
      }
      pipes := Some(pipes.value + {pipe});
      entries := entries + {([], pipe)};
      OnlyHereChanged();
    }

    // The child for byte c, created if it is missing: an empty child hangs in the trie for now.
    method KidFor(c: Byte) returns (kid: Mtrie)
      requires Valid()
      modifies this
      ensures Core() && Compact(min, count, kids)
      ensures pipes == old(pipes) && entries == old(entries)
      ensures kid == kids[c] && kid.Valid() && kids == old(kids)[c := kid]
      ensures KidSets() == old(KidSets()) && old(Repr) <= Repr && fresh(Repr - old(Repr))
      ensures forall b | 0 <= b < 256 && b != c && kids[b] != null :: KidSets()[b] != {}
    {
      kid := EnsureKid(c);
      if old(kids)[c] == null {
        Repr := Repr + {kid};
        kid.BlankIsValid();
      } else {
        kid.Undisturbed();
      }
      assert old(KidSets()) == old(KidSets())[c := kid.entries];
      OneKidChanged(c, kid);
    }

    method AddBelow(kid: Mtrie, prefix: Path, pipe: Pipe) returns (isNew: bool)
      requires Core() && Compact(min, count, kids) && (pipes.Some? ==> pipes.value != {})
      requires prefix != [] && kid == kids[prefix[0]]
      requires forall b | 0 <= b < 256 && b != prefix[0] && kids[b] != null :: KidSets()[b] != {}
      modifies Repr
      decreases |prefix|, 1
      ensures Valid() && old(Repr) <= Repr && fresh(Repr - old(Repr))
      ensures entries == old(entries) + {(prefix, pipe)}
      ensures isNew <==> NoPairAt(old(entries), prefix)
    {
      ghost var sets := KidSets();
      assert NoPairAt(entries, prefix) <==> NoPairAt(kid.entries, prefix[1..]) by {
        NoPairBelow(entries, pipes, sets, prefix);
      }
      isNew := AddToKid(kid, prefix, pipe, sets[prefix[0]]);
      assert Gathers(entries, pipes, sets[prefix[0] := kid.entries]) by {
        GathersAdd(old(entries), pipes, sets, prefix, pipe);
      }
      OneKidGrown(prefix[0], kid);
    }

    // The child gets the pair; of this node only what it has and holds on the whole is brought up to date.
    method AddToKid(kid: Mtrie, prefix: Path, pipe: Pipe, ghost had: set<Entry>) returns (isNew: bool)
      requires Core() && prefix != [] && kid == kids[prefix[0]] && kid.Valid() && had == kid.entries
      modifies Repr
      decreases |prefix|, 0
      ensures OnlyKid(prefix[0], kid) && entries == old(entries) + {(prefix, pipe)}
      ensures kid.entries == had + {(prefix[1..], pipe)} && (isNew <==> NoPairAt(had, prefix[1..]))
      ensures old(Repr) <= Repr && fresh(Repr - old(Repr))
      ensures pipes == old(pipes) && min == old(min) && count == old(count) && live == old(live)
      ensures node == old(node) && table == old(table) && kids == old(kids)
    {
      isNew := kid.Add(prefix[1..], pipe);
      label called:
      Repr := Repr + kid.Repr;
      entries := entries + {(prefix, pipe)};
      assert kid.Valid() && kid.entries == had + {(prefix[1..], pipe)} by {
        kid.Undisturbed@called();
      }
    }

    // Adds a pair; true exactly when its prefix had no pair before.
    method Add(prefix: Path, pipe: Pipe) returns (isNew: bool)
      requires Valid()
      modifies Repr
      decreases |prefix|, 2
      ensures Valid() && old(Repr) <= Repr && fresh(Repr - old(Repr))
      ensures entries == old(entries) + {(prefix, pipe)}
      ensures isNew <==> NoPairAt(old(entries), prefix)
      ensures isNew <==> forall x :: (prefix, x) !in old(entries)
    {
      assert NoPairAt(entries, prefix) <==> forall x :: (prefix, x) !in entries by {
        if e :| e in entries && e.0 == prefix {
          assert (prefix, e.1) in entries;
        }
      }
      if |prefix| == 0 {
        isNew := AddHere(pipe);
      } else {
        var kid := KidFor(prefix[0]);
        isNew := AddBelow(kid, prefix, pipe);
      }
    }

    // Drops the child at c and makes the node compact again.
    method Prune(c: Byte)
      requires Packs(min, count, node, table, kids) && Compact(min, count, kids)
      requires live == Live(kids) && kids[c] != null
      modifies this`min, this`count, this`live, this`node, this`table, this`kids
      ensures Packs(min, count, node, table, kids) && Compact(min, count, kids)
      ensures live == Live(kids) && kids == old(kids)[c := null]
    {
      LiveUpdate(kids, c, null);
      kids := kids[c := null];
      if count == 1 {
        node := null;
        count := 0;
        live := live - 1;
        assert live == 0 by {
          if Live(kids) > 0 { LiveSome(kids); }
        }
      } else {
        assert live > 1 by {
          LiveTwo(old(kids), min, min + count - 1);
        }
        table := table[c - min := null];
        live := live - 1;
        if live == 1 {
          CompactToOne();
        } else if c == min {
          CompactLeft();
        } else if c == min + count - 1 {
          CompactRight();
        }
      }
    }

    // One live child is left in the table: keep it alone.
    method CompactToOne()
      requires Packs(min, count, node, table, kids) && count > 1
      requires live == Live(kids) == 1
      modifies this`min, this`count, this`node, this`table
      ensures Packs(min, count, node, table, kids) && Compact(min, count, kids)
    {
      LiveSome(kids);
      var i := 0;
      while i < count && table[i] == null
        invariant i <= count
        invariant forall b | min <= b < min + i :: kids[b] == null
      {
        assert kids[min + i] == table[i];
        i := i + 1;
      }
      assert i < count;
      assert kids[min + i] == table[i];
      LiveOnly(kids, min + i);
      min := min + i;
      count := 1;
      node := table[i];
      table := [];
    }

    // The first entry of the table was dropped: close the gap.
    method CompactLeft()
      requires Packs(min, count, node, table, kids) && count > 1
      requires live == Live(kids) > 1 && kids[min] == null && kids[min + count - 1] != null
      modifies this`min, this`count, this`table
      ensures Packs(min, count, node, table, kids) && Compact(min, count, kids)
    {
      var i := 1;
      while i < count && table[i] == null
        invariant 1 <= i <= count
        invariant forall b | min <= b < min + i :: kids[b] == null
      {
        assert kids[min + i] == table[i];
        i := i + 1;
      }
      assert i < count;
      assert kids[min + i] == table[i];
      if i == count - 1 {
        LiveAlone(kids, min + i);
      }
      min := min + i;
      count := count - i;
      table := table[i..];
    }

    // The last entry of the table was dropped: close the gap.
    method CompactRight()
      requires Packs(min, count, node, table, kids) && count > 1
      requires live == Live(kids) > 1 && kids[min + count - 1] == null && kids[min] != null
      modifies this`count, this`table
      ensures Packs(min, count, node, table, kids) && Compact(min, count, kids)
    {
      var i := 1;
      while i < count && table[count - 1 - i] == null
        invariant 1 <= i <= count
        invariant forall b | min + count - i <= b < min + count :: kids[b] == null
      {
        assert kids[min + (count - 1 - i)] == table[count - 1 - i];
        i := i + 1;
      }
      assert i < count;
      assert kids[min + (count - 1 - i)] == table[count - 1 - i];
      if i == count - 1 {
        LiveAlone(kids, min);
      }
      count := count - i;
      table := table[..count];
    }

    method RmHere(pipe: Pipe) returns (r: RmResult)
      requires Valid()
      modifies this`pipes, this`entries
      ensures Valid()
      ensures entries == old(entries) - {([], pipe)}
      ensures r == RmAnswer(old(entries), [], pipe)
    {
      ghost var sets := KidSets();
      if pipes.None? {
        assert ([], pipe) !in entries;
        return NotFound;
      }
      var erased := pipe in pipes.value;
      var left := pipes.value - {pipe};
      if left == {} {
        assert erased;
        pipes := None;
        r := LastValueRemoved;
      } else {
        pipes := Some(left);
        r := if erased then ValuesRemain else NotFound;
        ghost var x :| x in left;
        assert ([], x) in entries - {([], pipe)};
      }
      entries := entries - {([], pipe)};
      OnlyHereChanged();
    }

    // The recursive step of a removal: the child may be left empty.
    method RmBelow(kid: Mtrie, prefix: Path, pipe: Pipe) returns (r: RmResult)
      requires Valid()
      requires prefix != [] && kid == kids[prefix[0]]
      modifies Repr
      decreases |prefix|, 0
      ensures Core() && Compact(min, count, kids) && Repr == old(Repr)
      ensures pipes == old(pipes) && kids == old(kids)
      ensures pipes.Some? ==> pipes.value != {}
      ensures kid.Valid() && kid.entries == KidSets()[prefix[0]]
      ensures forall b | 0 <= b < 256 && b != prefix[0] && kids[b] != null :: KidSets()[b] != {}
      ensures entries == old(entries) - {(prefix, pipe)}
      ensures r == RmAnswer(old(entries), prefix, pipe)
    {
      ghost var sets := KidSets();
      assert RmAnswer(entries, prefix, pipe) == RmAnswer(kid.entries, prefix[1..], pipe) by {
        RmAnswerBelow(entries, pipes, sets, prefix, pipe);
      }
      r := kid.RmEntry(prefix[1..], pipe);
      label called:
      entries := entries - {(prefix, pipe)};
      assert kid.Valid() && kid.entries == sets[prefix[0]] - {(prefix[1..], pipe)} by {
        kid.Undisturbed@called();
      }
      assert Gathers(entries, pipes, sets[prefix[0] := kid.entries]) by {
        GathersRemove(old(entries), pipes, sets, prefix, pipe);
      }
      OneKidChanged(prefix[0], kid);
    }

    // The child for byte c, if there is one.
    function Next(c: Byte): (next: Mtrie?)
      reads this
      requires Packs(min, count, node, table, kids)
      ensures next == kids[c]
    {
      if count == 0 || c < min || c >= min + count then null
      else if count == 1 then node
      else table[c - min]
    }

    // Removes a pair.
    method RmEntry(prefix: Path, pipe: Pipe) returns (r: RmResult)
      requires Valid()
      modifies Repr
      decreases |prefix|, 2
      ensures Valid() && Repr == old(Repr)
      ensures entries == old(entries) - {(prefix, pipe)}
      ensures r == RmAnswer(old(entries), prefix, pipe)
      ensures r.NotFound? <==> (prefix, pipe) !in old(entries)
      ensures r.LastValueRemoved? <==> (prefix, pipe) in old(entries) && forall x :: (prefix, x) !in entries
      ensures r.ValuesRemain? <==> (prefix, pipe) in old(entries) && exists x :: (prefix, x) in entries
    {
      RmAnswers(entries, prefix, pipe);
      if |prefix| == 0 {
        r := RmHere(pipe);
        return;
      }
      var next := Next(prefix[0]);
      if next == null {
        NoKid(prefix, pipe);
        return NotFound;
      }
      r := RmFrom(next, prefix, pipe);
    }

    method RmFrom(next: Mtrie, prefix: Path, pipe: Pipe) returns (r: RmResult)
      requires Valid()
      requires prefix != [] && next == kids[prefix[0]]
      modifies Repr
      decreases |prefix|, 1
      ensures Valid() && Repr == old(Repr)
      ensures entries == old(entries) - {(prefix, pipe)}
      ensures r == RmAnswer(old(entries), prefix, pipe)
    {
      r := RmBelow(next, prefix, pipe);
      SettleNext(next, prefix[0]);
    }

    // Keeps the child on the path if anything is left of it.
    method SettleNext(next: Mtrie, c: Byte)
      requires Core() && Compact(min, count, kids) && (pipes.Some? ==> pipes.value != {})
      requires next == kids[c] && next.Valid() && next.entries == KidSets()[c]
      requires forall b | 0 <= b < 256 && b != c && kids[b] != null :: KidSets()[b] != {}
      modifies this
      ensures Valid() && Repr == old(Repr) && entries == old(entries)
    {
      var redundant := next.IsRedundant();
      if redundant {
        PruneEmpty(c);
      }
    }

    lemma NoKid(prefix: Path, pipe: Pipe)
      requires Core() && prefix != [] && kids[prefix[0]] == null
      ensures (prefix, pipe) !in entries && entries - {(prefix, pipe)} == entries
    {
      assert KidSets()[prefix[0]] == {};
    }

    // Dropping an empty child loses no entry.
    method PruneEmpty(c: Byte)
      requires Core() && Compact(min, count, kids) && (pipes.Some? ==> pipes.value != {})
      requires kids[c] != null && kids[c].entries == {}
      requires forall b | 0 <= b < 256 && b != c && kids[b] != null :: KidSets()[b] != {}
      modifies this
      ensures Valid() && Repr == old(Repr) && entries == old(entries)
    {
      Prune(c);
      KidsDropped();
    }

    // Children without entries were dropped, nothing else below this node changed.
    twostate predicate OnlyDropped()
      reads this, Repr
    {
      && old(Core()) && Repr == old(Repr)
      && |kids| == 256 && |old(kids)| == 256
      && (forall b | 0 <= b < 256 :: kids[b] == old(kids)[b] || (kids[b] == null && old(KidSets())[b] == {}))
      && (forall o | o in old(Repr) && o != this :: unchanged(o))
    }

    twostate lemma KeptKids()
      requires OnlyDropped()
      ensures forall b | 0 <= b < 256 && kids[b] != null ::
                kids[b].Valid() && kids[b].Repr == old(kids[b].Repr) && kids[b].entries == old(kids[b].entries)
      ensures KidSets() == old(KidSets())
    {
      forall b | 0 <= b < 256 && kids[b] != null
        ensures kids[b].Valid() && kids[b].Repr == old(kids[b].Repr) && kids[b].entries == old(kids[b].entries)
      {
        old(kids)[b].Undisturbed();
      }
    }

    twostate lemma KeptApart()
      requires OnlyDropped()
      ensures forall b, d | 0 <= b < d < 256 :: Apart(b, d)
    {
      KeptKids();
      forall b, d | 0 <= b < d < 256 ensures Apart(b, d) {
        assert old(Apart(b, d));
      }
    }

    twostate lemma KidsDropped()
      requires OnlyDropped()
      requires Packs(min, count, node, table, kids) && live == Live(kids)
      requires pipes == old(pipes) && entries == old(entries)
      ensures Core() && KidSets() == old(KidSets())
    {
      KeptKids();
      KeptApart();
    }

    ghost function Own(): set<Pipe>
      reads this
    {
      if pipes.Some? then pipes.value else {}
    }

    // One node of a lookup: what it signals, and where the lookup goes on.
    lemma AtNode(all: set<Entry>, data: Path, k: nat)
      requires Valid() && k <= |data|
      requires Below(entries, all, data[..k])
      ensures Matches(all, data, k + 1) == Matches(all, data, k) + multiset(Own())
      ensures k < |data| && kids[data[k]] == null ==> Matches(all, data, |data| + 1) == Matches(all, data, k + 1)
    {
      BelowPipes(entries, pipes, KidSets(), all, data[..k]);
      if k < |data| && kids[data[k]] == null {
        assert data[..k + 1] == data[..k] + [data[k]];
        assert KidSets()[data[k]] == {};
        BelowKid(entries, pipes, KidSets(), all, data[..k], data[k]);
        NothingFurther(all, data, k, |data|);
      }
    }

    lemma ToKid(all: set<Entry>, data: Path, k: nat)
      requires Valid() && k < |data| && kids[data[k]] != null
      requires Below(entries, all, data[..k])
      ensures kids[data[k]].Valid() && Below(kids[data[k]].entries, all, data[..k + 1])
    {
      assert data[..k + 1] == data[..k] + [data[k]];
      BelowKid(entries, pipes, KidSets(), all, data[..k], data[k]);
    }

    // One turn of the loop of `Match`.
    method MatchStep(data: Path, k: nat, ghost all: set<Entry>) returns (hits: seq<Pipe>, next: Mtrie?)
      requires Valid() && k <= |data|
      requires Below(entries, all, data[..k])
      ensures Matches(all, data, k + 1) == Matches(all, data, k) + multiset(hits)
      ensures next == null ==> Matches(all, data, |data| + 1) == Matches(all, data, k + 1)
      ensures next != null ==> k < |data| && next.Valid() && Below(next.entries, all, data[..k + 1])
    {
      AtNode(all, data, k);
      hits := SignalAll();
      next := if k == |data| then null else Next(data[k]);
      if next != null {
        ToKid(all, data, k);
      }
    }

    // Returns the pipes in the order in which they are signalled.
    method Match(data: Path) returns (signalled: seq<Pipe>)
      requires Valid()
      ensures multiset(signalled) == Matches(entries, data, |data| + 1)
    {
      BelowSelf(entries);
      var hits, next := MatchStep(data, 0, entries);
      signalled := hits;
      var k := 1;
      while next != null
        invariant 1 <= k && (next != null ==> k <= |data| && next.Valid() && Below(next.entries, entries, data[..k]))
        invariant k <= |data| + 1 && multiset(signalled) == Matches(entries, data, k)
        invariant next == null ==> Matches(entries, data, |data| + 1) == Matches(entries, data, k)
        decreases |data| + 1 - k
      {
        hits, next := next.MatchStep(data, k, entries);
        signalled := signalled + hits;
        k := k + 1;
      }
    }

    // Signals the pipes attached to this node, in some order.
    method SignalAll() returns (signalled: seq<Pipe>)
      ensures multiset(signalled) == multiset(Own())
    {
      signalled := [];
      if pipes.Some? {
        var rest := pipes.value;
        while rest != {}
          invariant rest <= pipes.value
          invariant multiset(signalled) + multiset(rest) == multiset(pipes.value)
          decreases rest
        {
          var x :| x in rest;
          signalled := signalled + [x];
          rest := rest - {x};
        }
      }
    }

    // The pipe goes from this node; the call made for it, if any.
    method RmPipeHere(pipe: Pipe, buff: PathBuffer, buffSize: nat, onUniq: bool) returns (calls: seq<Path>)
      requires Valid() && buff !in Repr
      requires buffSize <= |buff.data|
      modifies this`pipes, this`entries
      ensures Valid() && KidSets() == old(KidSets())
      ensures entries == Without(old(entries), pipe, 0) && Swept(old(entries), old(KidSets()), pipe, 0, -1)
      ensures Reports(calls, old(entries), buff.data[..buffSize], pipe, onUniq, 0)
    {
      calls := [];
      ReportHere(entries, pipes, KidSets(), buff.data[..buffSize], pipe, onUniq);
      GathersHere(entries, pipes, KidSets(), pipe);
      if pipes.Some? && pipe in pipes.value {
        pipes := Some(pipes.value - {pipe});
        if !onUniq || pipes.value == {} {
          calls := [buff.data[..buffSize]];
        }
        if pipes.value == {} {
          pipes := None;
        }
      }
      entries := Without(entries, pipe, 0);
      OnlyHereChanged();
    }

    // Visits one child; the byte of its branch is in the buffer.
    method RmPipeKid(kid: Mtrie, c: Byte, pipe: Pipe, buff: PathBuffer, ghost path: Path, buffSize: nat,
                     maxBuffSize: nat, onUniq: bool)
      returns (calls: seq<Path>)
      requires Core() && kid == kids[c] && buff !in Repr
      requires |path| == buffSize < maxBuffSize <= |buff.data| && buff.data[..buffSize + 1] == path + [c]
      modifies Repr, buff
      decreases Repr, 0
      ensures Core() && Repr == old(Repr)
      ensures pipes == old(pipes) && kids == old(kids)
      ensures min == old(min) && count == old(count) && live == old(live)
      ensures node == old(node) && table == old(table)
      ensures entries == WithoutKid(old(entries), pipe, c)
      ensures KidSets() == old(KidSets())[c := Without(old(KidSets())[c], pipe, 256)]
      ensures kid.Valid() && kid.entries == KidSets()[c]
      ensures maxBuffSize <= |buff.data| && buff.data[..buffSize] == path
      ensures Reports(calls, old(KidSets())[c], path + [c], pipe, onUniq, 256)
    {
      ghost var sets := KidSets();
      calls := kid.RmPipe(pipe, buff, path + [c], buffSize + 1, maxBuffSize, onUniq);
      label called:
      entries := WithoutKid(entries, pipe, c);
      assert kid.Valid() && kid.entries == Without(sets[c], pipe, 256) by {
        kid.Undisturbed@called();
      }
      assert Gathers(entries, pipes, sets[c := kid.entries]) by {
        GathersWithout(old(entries), pipes, sets, c, pipe);
      }
      OneKidChanged(c, kid);
      assert buff.data[..buffSize] == buff.data[..buffSize + 1][..buffSize];
    }

    // In the middle of a removal: the pipe has gone from this node and the children of bytes under lim;
    // no child is redundant, the one at `but` not looked at.
    ghost predicate Swept(all: set<Entry>, sets: seq<set<Entry>>, pipe: Pipe, lim: int, but: int)
      reads this, Repr
      requires |sets| == 256
    {
      && Core()
      && (pipes.Some? ==> pipes.value != {})
      && entries == Without(all, pipe, lim)
      && (forall b | 0 <= b < 256 && lim <= b :: KidSets()[b] == sets[b])
      && (forall b | 0 <= b < 256 && b < |kids| && kids[b] != null && b != but :: KidSets()[b] != {})
    }

    method ClearSlot(i: nat)
      requires Packs(min, count, node, table, kids) && live == Live(kids)
      requires count > 1 && i < count && table[i] != null
      modifies this`table, this`live, this`kids
      ensures Packs(min, count, node, table, kids) && live == Live(kids)
      ensures kids == old(kids)[min + i := null]
    {
      LiveUpdate(kids, min + i, null);
      assert live > 0;
      table := table[i := null];
      live := live - 1;
      kids := kids[min + i := null];
    }

    // Drops an empty child out of the table, which stays as long as it is.
    method DropFromTable(i: nat, pipe: Pipe, ghost all: set<Entry>, ghost sets: seq<set<Entry>>)
      requires |sets| == 256
      requires count > 1 && i < count && Swept(all, sets, pipe, min + i + 1, min + i)
      requires table[i] != null && KidSets()[min + i] == {}
      modifies this`table, this`live, this`kids
      ensures Swept(all, sets, pipe, min + i + 1, -1)
      ensures kids == old(kids)[min + i := null]
    {
      ClearSlot(i);
      KidsDropped();
    }

    method VisitKid(kid: Mtrie, c: Byte, pipe: Pipe, buff: PathBuffer, ghost path: Path, buffSize: nat,
                    maxBuffSize: nat, onUniq: bool, ghost all: set<Entry>, ghost sets: seq<set<Entry>>)
      returns (calls: seq<Path>)
      requires |sets| == 256
      requires Swept(all, sets, pipe, c, -1) && kid == kids[c]
      requires buff !in Repr
      requires |path| == buffSize < maxBuffSize <= |buff.data| && buff.data[..buffSize + 1] == path + [c]
      modifies Repr, buff
      decreases Repr, 1
      ensures Swept(all, sets, pipe, c + 1, c)
      ensures Repr == old(Repr) && min == old(min) && count == old(count)
      ensures kids == old(kids) && table == old(table) && node == old(node)
      ensures kid.Valid() && kid.entries == KidSets()[c]
      ensures maxBuffSize <= |buff.data| && buff.data[..buffSize] == path
      ensures Reports(calls, sets[c], path + [c], pipe, onUniq, 256)
    {
      calls := RmPipeKid(kid, c, pipe, buff, path, buffSize, maxBuffSize, onUniq);
      WithoutStep(all, pipe, c);
    }

    // Keeps a visited child if anything is left of it.
    method SettleKid(i: nat, kid: Mtrie, pipe: Pipe, ghost all: set<Entry>, ghost sets: seq<set<Entry>>)
      returns (stays: bool)
      requires |sets| == 256
      requires count > 1 && i < count && Swept(all, sets, pipe, min + i + 1, min + i)
      requires kid == table[i] && kid.Valid() && kid.entries == KidSets()[min + i]
      modifies this`table, this`live, this`kids
      ensures Swept(all, sets, pipe, min + i + 1, -1)
      ensures kids == if stays then old(kids) else old(kids)[min + i := null]
    {
      var redundant := kid.IsRedundant();
      if redundant {
        DropFromTable(i, pipe, all, sets);
        return false;
      }
      StaysSwept(all, sets, pipe, min + i);
      return true;
    }

    lemma StaysSwept(all: set<Entry>, sets: seq<set<Entry>>, pipe: Pipe, but: nat)
      requires |sets| == 256 && but < 256 && Swept(all, sets, pipe, but + 1, but) && KidSets()[but] != {}
      ensures Swept(all, sets, pipe, but + 1, -1)
    {
    }

    // One turn of the loop over the table.
    method SweepKid(i: nat, pipe: Pipe, buff: PathBuffer, ghost path: Path, buffSize: nat, maxBuffSize: nat,
                    onUniq: bool, ghost all: set<Entry>, ghost sets: seq<set<Entry>>)
      returns (calls: seq<Path>, stays: bool)
      requires |sets| == 256
      requires count > 1 && i < count && Swept(all, sets, pipe, min + i, -1) && table[i] != null
      requires buff !in Repr
      requires |path| == buffSize < maxBuffSize <= |buff.data|
      requires buff.data[..buffSize + 1] == path + [(min + i) as Byte]
      modifies Repr, buff
      decreases Repr, 2
      ensures Swept(all, sets, pipe, min + i + 1, -1)
      ensures Repr == old(Repr) && min == old(min) && count == old(count)
      ensures kids == if stays then old(kids) else old(kids)[min + i := null]
      ensures maxBuffSize <= |buff.data| && buff.data[..buffSize] == path
      ensures Reports(calls, sets[min + i], path + [(min + i) as Byte], pipe, onUniq, 256)
    {
      var kid := table[i];
      calls := VisitKid(kid, min + i, pipe, buff, path, buffSize, maxBuffSize, onUniq, all, sets);
      stays := SettleKid(i, kid, pipe, all, sets);
    }

    // Bytes lo..hi have no child, so there is nothing to remove there and nothing to report.
    lemma SkipBytes(all: set<Entry>, own: Option<set<Pipe>>, sets: seq<set<Entry>>, pipe: Pipe, lo: int, hi: int,
                    calls: seq<Path>, path: Path, onUniq: bool, but: int)
      requires |sets| == 256 && Gathers(all, own, sets)
      requires lo <= hi && Swept(all, sets, pipe, lo, but)
      requires forall b | lo <= b < hi && 0 <= b < 256 :: kids[b] == null
      requires Reports(calls, all, path, pipe, onUniq, lo)
      ensures Swept(all, sets, pipe, hi, but)
      ensures Reports(calls, all, path, pipe, onUniq, hi)
    {
      forall e | e in all && e.0 != [] ensures !(lo <= e.0[0] < hi) {
        assert (e.0[1..], e.1) in sets[e.0[0]];
      }
      WithoutSkip(all, pipe, lo, hi);
      ReportsSkip(calls, all, path, pipe, onUniq, lo, hi);
    }

    // One turn of the loop over the table, the byte of the branch being in the buffer: the entry may be null.
    method SweepEntry(i: nat, pipe: Pipe, buff: PathBuffer, ghost path: Path, buffSize: nat, maxBuffSize: nat,
                      onUniq: bool, ghost all: set<Entry>, ghost own: Option<set<Pipe>>, ghost sets: seq<set<Entry>>,
                      callsBefore: seq<Path>)
      returns (calls: seq<Path>, stays: bool)
      requires |sets| == 256 && Gathers(all, own, sets)
      requires count > 1 && i < count && Swept(all, sets, pipe, min + i, -1)
      requires buff !in Repr
      requires |path| == buffSize < maxBuffSize <= |buff.data|
      requires buff.data[..buffSize + 1] == path + [(min + i) as Byte]
      requires buff.data[..buffSize] == path
      requires Reports(callsBefore, all, path, pipe, onUniq, min + i)
      modifies Repr, buff
      decreases Repr, 3
      ensures Swept(all, sets, pipe, min + i + 1, -1)
      ensures Repr == old(Repr) && min == old(min) && count == old(count)
      ensures kids == old(kids) || kids == old(kids)[min + i := null]
      ensures stays <==> kids[min + i] != null
      ensures maxBuffSize <= |buff.data| && buff.data[..buffSize] == path
      ensures Reports(calls, all, path, pipe, onUniq, min + i + 1)
    {
      ghost var c: Byte := min + i;
      if table[i] == null {
        calls, stays := callsBefore, false;
        SkipBytes(all, own, sets, pipe, c, c + 1, calls, path, onUniq, -1);
      } else {
        var more;
        more, stays := SweepKid(i, pipe, buff, path, buffSize, maxBuffSize, onUniq, all, sets);
        calls := callsBefore + more;
        assert Reports(calls, all, path, pipe, onUniq, c + 1) by {
          ReportsKid(all, own, sets, path, c, pipe, onUniq, callsBefore, more);
        }
      }
    }

    method SweepSlot(i: nat, pipe: Pipe, buff: PathBuffer, ghost path: Path, buffSize: nat, maxBuffSize: nat,
                     onUniq: bool, ghost all: set<Entry>, ghost own: Option<set<Pipe>>, ghost sets: seq<set<Entry>>,
                     callsBefore: seq<Path>)
      returns (calls: seq<Path>, stays: bool)
      requires |sets| == 256 && Gathers(all, own, sets)
      requires count > 1 && i < count && Swept(all, sets, pipe, min + i, -1)
      requires buff !in Repr
      requires |path| == buffSize < maxBuffSize <= |buff.data| && buff.data[..buffSize] == path
      requires Reports(callsBefore, all, path, pipe, onUniq, min + i)
      modifies Repr, buff
      decreases Repr, 4
      ensures Swept(all, sets, pipe, min + i + 1, -1)
      ensures Repr == old(Repr) && min == old(min) && count == old(count)
      ensures kids == old(kids) || kids == old(kids)[min + i := null]
      ensures stays <==> kids[min + i] != null
      ensures maxBuffSize <= |buff.data| && buff.data[..buffSize] == path
      ensures Reports(calls, all, path, pipe, onUniq, min + i + 1)
    {
      buff.data := buff.data[buffSize := min + i];
      assert buff.data[..buffSize + 1] == path + [(min + i) as Byte];
      calls, stays := SweepEntry(i, pipe, buff, path, buffSize, maxBuffSize, onUniq, all, own, sets, callsBefore);
    }

    // One turn of the loop over the table, with the candidates for the new range.
    method SweepTurn(i: nat, pipe: Pipe, buff: PathBuffer, ghost path: Path, buffSize: nat, maxBuffSize: nat,
                     onUniq: bool, ghost all: set<Entry>, ghost own: Option<set<Pipe>>, ghost sets: seq<set<Entry>>,
                     callsBefore: seq<Path>, minBefore: Byte, maxBefore: Byte)
      returns (calls: seq<Path>, newMin: Byte, newMax: Byte)
      requires |sets| == 256 && Gathers(all, own, sets)
      requires count > 1 && i < count && Swept(all, sets, pipe, min + i, -1)
      requires buff !in Repr
      requires |path| == buffSize < maxBuffSize <= |buff.data| && buff.data[..buffSize] == path
      requires Reports(callsBefore, all, path, pipe, onUniq, min + i)
      requires Spans(kids, min, count, min + i, minBefore, maxBefore)
      modifies Repr, buff
      decreases Repr, 5
      ensures Swept(all, sets, pipe, min + i + 1, -1)
      ensures Repr == old(Repr) && min == old(min) && count == old(count)
      ensures maxBuffSize <= |buff.data| && buff.data[..buffSize] == path
      ensures Reports(calls, all, path, pipe, onUniq, min + i + 1)
      ensures Spans(kids, min, count, min + i + 1, newMin, newMax)
    {
      var stays;
      calls, stays := SweepSlot(i, pipe, buff, path, buffSize, maxBuffSize, onUniq, all, own, sets, callsBefore);
      SpansStep(old(kids), kids, min, count, min + i, minBefore, maxBefore);
      newMin, newMax := minBefore, maxBefore;
      if stays {
        if min + i < newMin {
          newMin := min + i;
        }
        if min + i > newMax {
          newMax := min + i;
        }
      }
    }

    // The whole loop over the table, and the first and last byte still in use.
    method SweepTable(pipe: Pipe, buff: PathBuffer, ghost path: Path, buffSize: nat, maxBuffSize: nat,
                      onUniq: bool, ghost all: set<Entry>, ghost own: Option<set<Pipe>>, ghost sets: seq<set<Entry>>,
                      callsBefore: seq<Path>)
      returns (calls: seq<Path>, newMin: Byte, newMax: Byte)
      requires |sets| == 256 && Gathers(all, own, sets)
      requires count > 1 && Swept(all, sets, pipe, 0, -1)
      requires buff !in Repr
      requires |path| == buffSize < maxBuffSize <= |buff.data| && buff.data[..buffSize] == path
      requires Reports(callsBefore, all, path, pipe, onUniq, 0)
      modifies Repr, buff
      decreases Repr, 6
      ensures Swept(all, sets, pipe, 256, -1)
      ensures Repr == old(Repr) && count > 1
      ensures maxBuffSize <= |buff.data| && buff.data[..buffSize] == path
      ensures Reports(calls, all, path, pipe, onUniq, 256)
      ensures Spans(kids, min, count, min + count, newMin, newMax)
    {
      calls := callsBefore;
      SkipBytes(all, own, sets, pipe, 0, min, calls, path, onUniq, -1);
      newMin, newMax := min + count - 1, min;
      var i := 0;
      while i < count
        invariant i <= count && count == old(count) && min == old(min) && Repr == old(Repr)
        invariant Swept(all, sets, pipe, min + i, -1)
        invariant maxBuffSize <= |buff.data| && buff.data[..buffSize] == path
        invariant Reports(calls, all, path, pipe, onUniq, min + i)
        invariant Spans(kids, min, count, min + i, newMin, newMax)
      {
        calls, newMin, newMax :=
          SweepTurn(i, pipe, buff, path, buffSize, maxBuffSize, onUniq, all, own, sets, calls, newMin, newMax);
        i := i + 1;
      }
      SkipBytes(all, own, sets, pipe, min + count, 256, calls, path, onUniq, -1);
    }

    // The table after a removal: dropped, replaced by its last child, or cut at both ends.
    method Shrink(newMin: Byte, newMax: Byte)
      requires Packs(min, count, node, table, kids) && live == Live(kids) && count > 1
      requires Spans(kids, min, count, min + count, newMin, newMax)
      modifies this`min, this`count, this`node, this`table
      ensures Packs(min, count, node, table, kids) && Compact(min, count, kids)
    {
      if live == 0 {
        forall b | 0 <= b < 256 ensures kids[b] == null {
          if kids[b] != null {
            LiveAtLeast(kids, b);
          }
        }
        table := [];
        count := 0;
      } else if live == 1 {
        LiveSome(kids);
        ghost var only :| 0 <= only < 256 && kids[only] != null;
        LiveOnly(kids, only);
        assert newMin == newMax == only;
        node := table[newMin - min];
        table := [];
        count := 1;
        min := newMin;
      } else {
        EndsAreLive(newMin, newMax);
        if newMin > min || newMax < min + count - 1 {
          var oldTable := table;
          assert 1 < newMax - newMin + 1 < count;
          count := newMax - newMin + 1;
          table := oldTable[newMin - min..newMin - min + count];
          min := newMin;
        }
      }
    }

    lemma EndsAreLive(newMin: Byte, newMax: Byte)
      requires Packs(min, count, node, table, kids) && Live(kids) > 1 && count > 1
      requires Spans(kids, min, count, min + count, newMin, newMax)
      ensures kids[newMin] != null && kids[newMax] != null && newMin < newMax
    {
      LiveSome(kids);
      var b :| 0 <= b < 256 && kids[b] != null;
      if newMin >= newMax {
        LiveAlone(kids, b);
      }
    }

    method ShrinkSwept(newMin: Byte, newMax: Byte, pipe: Pipe, ghost all: set<Entry>, ghost sets: seq<set<Entry>>)
      requires |sets| == 256 && count > 1 && Swept(all, sets, pipe, 256, -1)
      requires Spans(kids, min, count, min + count, newMin, newMax)
      modifies this`min, this`count, this`node, this`table
      ensures Valid() && entries == old(entries) && Repr == old(Repr)
    {
      Shrink(newMin, newMax);
      KidsDropped();
    }

    // The removal from an only child.
    method SweepOnly(pipe: Pipe, buff: PathBuffer, ghost path: Path, buffSize: nat, maxBuffSize: nat,
                     onUniq: bool, ghost all: set<Entry>, ghost own: Option<set<Pipe>>, ghost sets: seq<set<Entry>>,
                     callsBefore: seq<Path>)
      returns (calls: seq<Path>)
      requires |sets| == 256 && Gathers(all, own, sets)
      requires count == 1 && Compact(min, count, kids) && Swept(all, sets, pipe, min, -1)
      requires buff !in Repr
      requires |path| == buffSize < maxBuffSize <= |buff.data| && buff.data[..buffSize + 1] == path + [min]
      requires Reports(callsBefore, all, path, pipe, onUniq, min)
      modifies Repr, buff
      decreases Repr, 2
      ensures Valid() && Repr == old(Repr) && entries == Without(all, pipe, 256)
      ensures maxBuffSize <= |buff.data| && buff.data[..buffSize] == path
      ensures Reports(calls, all, path, pipe, onUniq, 256)
    {
      var only := node;
      var more := VisitKid(only, min, pipe, buff, path, buffSize, maxBuffSize, onUniq, all, sets);
      ReportsKid(all, own, sets, path, min, pipe, onUniq, callsBefore, more);
      calls := callsBefore + more;
      SkipBytes(all, own, sets, pipe, min + 1, 256, calls, path, onUniq, min);
      var redundant := only.IsRedundant();
      if redundant {
        PruneEmpty(min);
      }
    }

    // The children of a node, whichever way they are stored.
    method SweepKids(pipe: Pipe, buff: PathBuffer, ghost path: Path, buffSize: nat, maxBuffSize: nat,
                     onUniq: bool, ghost all: set<Entry>, ghost own: Option<set<Pipe>>, ghost sets: seq<set<Entry>>,
                     callsBefore: seq<Path>)
      returns (calls: seq<Path>)
      requires |sets| == 256 && Gathers(all, own, sets)
      requires Valid() && Swept(all, sets, pipe, 0, -1)
      requires buff !in Repr
      requires |path| == buffSize < maxBuffSize <= |buff.data| && buff.data[..buffSize] == path
      requires Reports(callsBefore, all, path, pipe, onUniq, 0)
      modifies Repr, buff
      decreases Repr, 7
      ensures Valid() && Repr == old(Repr) && entries == Without(all, pipe, 256)
      ensures maxBuffSize <= |buff.data| && buff.data[..buffSize] == path
      ensures Reports(calls, all, path, pipe, onUniq, 256)
    {
      if count == 0 {
        SkipBytes(all, own, sets, pipe, 0, 256, callsBefore, path, onUniq, -1);
        calls := callsBefore;
      } else if count == 1 {
        SkipBytes(all, own, sets, pipe, 0, min, callsBefore, path, onUniq, -1);
        buff.data := buff.data[buffSize := min];
        assert buff.data[..buffSize + 1] == path + [min];
        calls := SweepOnly(pipe, buff, path, buffSize, maxBuffSize, onUniq, all, own, sets, callsBefore);
      } else {
        var newMin, newMax;
        calls, newMin, newMax :=
          SweepTable(pipe, buff, path, buffSize, maxBuffSize, onUniq, all, own, sets, callsBefore);
        ShrinkSwept(newMin, newMax, pipe, all, sets);
      }
    }

    // Removes every pair of a pipe below this node; returns the paths passed to the callback.
    // The buffer holds the path to this node in its first buffSize bytes, maxBuffSize is what the
    // caller believes its length to be.
    method RmPipe(pipe: Pipe, buff: PathBuffer, ghost path: Path, buffSize: nat, maxBuffSize: nat, onUniq: bool)
      returns (calls: seq<Path>)
      requires Valid() && buff !in Repr
      requires |path| == buffSize <= |buff.data| && buff.data[..buffSize] == path
      requires maxBuffSize <= |buff.data|
      modifies Repr, buff
      decreases Repr, 8
      ensures Valid() && Repr == old(Repr)
      ensures entries == Without(old(entries), pipe, 256)
      ensures maxBuffSize <= |buff.data| && buffSize <= |buff.data| && buff.data[..buffSize] == path
      ensures Reports(calls, old(entries), path, pipe, onUniq, 256)
    {
      ghost var own, sets := pipes, KidSets();
      calls := RmPipeHere(pipe, buff, buffSize, onUniq);
      var max := maxBuffSize;
      if buffSize >= max {
        max := buffSize + 256;
        buff.Realloc(max);
        assert buff.data[..buffSize] == path;
      }
      calls := SweepKids(pipe, buff, path, buffSize, max, onUniq, old(entries), own, sets, calls);
    }

    // Removes every pair of a pipe.
    method Rm(pipe: Pipe, onUniq: bool) returns (calls: seq<Path>)
      requires Valid()
      modifies Repr
      ensures Valid() && Repr == old(Repr)
      ensures entries == set e | e in old(entries) && e.1 != pipe
      ensures forall p :: p in calls <==> Reported(old(entries), p, pipe, onUniq)
      ensures forall p :: p in calls <==> (p, pipe) in old(entries) && (onUniq ==> forall x :: (p, x) !in entries)
      ensures InOrder(calls)
    {
      var buff := new PathBuffer();
      calls := RmPipe(pipe, buff, [], 0, 0, onUniq);
      assert forall p: Path :: [] + p == p;
    }
  }
}
