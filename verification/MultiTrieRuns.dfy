/** Whole runs of the subscription multi-trie, told without any of its nodes. */
module MultiTrieRuns {
  import opened Bytes
  import opened MultiTrie

  datatype Op =
    | AddPair(prefix: Path, pipe: Pipe)
    | RemovePair(prefix: Path, pipe: Pipe)
    | RemovePipe(pipe: Pipe)

  ghost function Apply(entries: set<Entry>, op: Op): set<Entry>
  {
    match op
    case AddPair(p, x) => entries + {(p, x)}
    case RemovePair(p, x) => entries - {(p, x)}
    case RemovePipe(x) => set e | e in entries && e.1 != x
  }

  ghost function ApplyAll(entries: set<Entry>, ops: seq<Op>): set<Entry>
  {
    if ops == [] then entries
    else Apply(ApplyAll(entries, ops[..|ops| - 1]), ops[|ops| - 1])
  }

  method Step(trie: Mtrie, op: Op)
    requires trie.Valid()
    modifies trie.Repr
    ensures trie.Valid() && old(trie.Repr) <= trie.Repr && fresh(trie.Repr - old(trie.Repr))
    ensures trie.entries == Apply(old(trie.entries), op)
  {
    match op {
      case AddPair(p, x) =>
        var isNew := trie.Add(p, x);
      case RemovePair(p, x) =>
        var r := trie.RmEntry(p, x);
      case RemovePipe(x) =>
        var calls := trie.Rm(x, true);
    }
  }

  // The trie and the relation stay together over any run.
  method Run(trie: Mtrie, ops: seq<Op>)
    requires trie.Valid()
    modifies trie.Repr
    ensures trie.Valid() && old(trie.Repr) <= trie.Repr && fresh(trie.Repr - old(trie.Repr))
    ensures trie.entries == ApplyAll(old(trie.entries), ops)
  {
    if ops != [] {
      Run(trie, ops[..|ops| - 1]);
      Step(trie, ops[|ops| - 1]);
    }
  }

  predicate Removes(op: Op, prefix: Path, pipe: Pipe)
  {
    op == RemovePair(prefix, pipe) || op == RemovePipe(pipe)
  }

  // Step i added the pair and no later step removed it.
  ghost predicate AddedForGood(ops: seq<Op>, i: int, prefix: Path, pipe: Pipe)
  {
    && 0 <= i < |ops|
    && ops[i] == AddPair(prefix, pipe)
    && forall j | i < j < |ops| :: !Removes(ops[j], prefix, pipe)
  }

  // A pair is subscribed after a run exactly when some step added it and no later step removed it.
  lemma {:induction false} LastWriteWins(ops: seq<Op>, prefix: Path, pipe: Pipe)
    ensures (prefix, pipe) in ApplyAll({}, ops) <==> exists i :: AddedForGood(ops, i, prefix, pipe)
  {
    if ops != [] {
      var n := |ops| - 1;
      var front := ops[..n];
      LastWriteWins(front, prefix, pipe);
      if ops[n] == AddPair(prefix, pipe) {
        assert AddedForGood(ops, n, prefix, pipe);
      } else {
        forall i | AddedForGood(ops, i, prefix, pipe)
          ensures AddedForGood(front, i, prefix, pipe) && !Removes(ops[n], prefix, pipe)
        {
          assert forall j | i < j < n :: front[j] == ops[j];
        }
        forall i | AddedForGood(front, i, prefix, pipe) && !Removes(ops[n], prefix, pipe)
          ensures AddedForGood(ops, i, prefix, pipe)
        {
          assert forall j | i < j < n :: front[j] == ops[j];
        }
      }
    }
  }

  // The bag of signals of a lookup holds a pipe once for every prefix of the data it is subscribed to.
  lemma {:induction false} MatchesCounts(entries: set<Entry>, data: Path, n: nat, pipe: Pipe)
    requires n <= |data| + 1
    ensures Matches(entries, data, n)[pipe] == |set k | 0 <= k < n && (data[..k], pipe) in entries|
  {
    var upTo := set k | 0 <= k < n && (data[..k], pipe) in entries;
    if n == 0 {
      assert upTo == {};
    } else {
      MatchesCounts(entries, data, n - 1, pipe);
      var before := set k | 0 <= k < n - 1 && (data[..k], pipe) in entries;
      assert pipe in PipesAt(entries, data[..n - 1]) <==> (data[..n - 1], pipe) in entries;
      if (data[..n - 1], pipe) in entries {
        assert upTo == before + {n - 1};
      } else {
        assert upTo == before;
      }
    }
  }

  // A list of callback paths in visiting order names no path twice.
  lemma OrderedOnce(calls: seq<Path>)
    requires InOrder(calls)
    ensures forall i, j | 0 <= i < j < |calls| :: calls[i] != calls[j]
  {
    forall i, j | 0 <= i < j < |calls| ensures calls[i] != calls[j] {
      assert Before(calls[i], calls[j]);
    }
  }

  // The nodes of two tries correspond, with their pipes, ranges and counts.
  ghost predicate SameShape(a: Mtrie, b: Mtrie)
    requires a.Valid() && b.Valid()
    reads a, a.Repr, b, b.Repr
    decreases a.Repr
  {
    && a.pipes == b.pipes && a.count == b.count && a.live == b.live
    && (a.count > 0 ==> a.min == b.min)
    && forall c | 0 <= c < 256 ::
         && ((a.kids[c] == null) <==> (b.kids[c] == null))
         && (a.kids[c] != null ==> SameShape(a.kids[c], b.kids[c]))
  }

  // How much room a trie takes depends on its pairs alone, never on the run that led to them.
  lemma {:induction false} ShapeFromEntries(a: Mtrie, b: Mtrie)
    requires a.Valid() && b.Valid() && a.entries == b.entries
    ensures SameShape(a, b)
    decreases a.Repr
  {
    NodeFromEntries(a, b);
    forall c | 0 <= c < 256 && a.kids[c] != null ensures SameShape(a.kids[c], b.kids[c]) {
      ShapeFromEntries(a.kids[c], b.kids[c]);
    }
  }

  lemma NodeFromEntries(a: Mtrie, b: Mtrie)
    requires a.Valid() && b.Valid() && a.entries == b.entries
    ensures a.pipes == b.pipes && a.count == b.count && a.live == b.live
    ensures a.count > 0 ==> a.min == b.min
    ensures forall c | 0 <= c < 256 :: (a.kids[c] == null) == (b.kids[c] == null)
    ensures forall c | 0 <= c < 256 && a.kids[c] != null ::
              a.kids[c].Valid() && b.kids[c].Valid() && a.kids[c].entries == b.kids[c].entries
  {
    SameKids(a, b);
    assert forall c | 0 <= c < 256 :: (a.kids[c] == null) <==> a.KidSets()[c] == {};
    assert forall c | 0 <= c < 256 :: (b.kids[c] == null) <==> b.KidSets()[c] == {};
    assert (set c | 0 <= c < |a.kids| && a.kids[c] != null) == (set c | 0 <= c < |b.kids| && b.kids[c] != null);
  }

  lemma SameKids(a: Mtrie, b: Mtrie)
    requires a.Valid() && b.Valid() && a.entries == b.entries
    ensures a.KidSets() == b.KidSets() && a.pipes == b.pipes
  {
    forall c: int | 0 <= c < 256 ensures a.KidSets()[c] == b.KidSets()[c] {
      forall e: Entry ensures e in a.KidSets()[c] <==> e in b.KidSets()[c] {
        assert ([c as Byte] + e.0)[1..] == e.0;
        assert ([c as Byte] + e.0, e.1) in a.entries <==> e in a.KidSets()[c];
        assert ([c as Byte] + e.0, e.1) in b.entries <==> e in b.KidSets()[c];
      }
    }
    assert forall x :: ([], x) in a.entries <==> x in a.Own();
    assert forall x :: ([], x) in b.entries <==> x in b.Own();
    assert a.Own() == b.Own();
  }
}
