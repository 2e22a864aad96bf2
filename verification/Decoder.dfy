/** The decoding engine: bytes come in pieces of any size, messages go out.

    What the bytes mean is up to a machine whose steps ask for a number of bytes each and look at them when
    they have come. */
module Decoder {
  import opened Bytes

  datatype Outcome<S, M> =
    | More(s: S, need: nat)                 // 0: the step wants `need` bytes for the next one
    | Message(m: M, s: S, need: nat)        // 1
    | Error                                 // -1

  datatype Machine<!S, M> = Machine(
    next: (S, Data) -> Outcome<S, M>,
    inPlace: (S, nat, nat) -> bool,         // may bytes be left where they were received, given the room there?
    rank: S -> nat)                         // why steps that want nothing come to an end

  ghost predicate Productive<S(!new), M>(machine: Machine<S, M>)
  {
    forall s, got :: Sound(machine, s, got)
  }

  ghost predicate Sound<S, M>(machine: Machine<S, M>, s: S, got: Data)
  {
    match machine.next(s, got)
    case More(t, need) => need == 0 ==> machine.rank(t) < machine.rank(s)
    case Message(_, _, need) => need > 0
    case Error => true
  }

  function AsSeq<T>(o: Option<T>): seq<T>
  {
    if o.Some? then [o.value] else []
  }

  /* What decoding means, byte by byte. */

  datatype Conf<S> = Live(s: S, got: Data, need: nat) | Dead

  datatype Out<S, M> = Out(conf: Conf<S>, msgs: seq<M>)

  ghost function Settle<S(!new), M>(machine: Machine<S, M>, s: S, got: Data): (o: Out<S, M>)
    requires Productive(machine)
    ensures o.conf.Live? ==> o.conf.need > 0 && o.conf.got == []
    decreases machine.rank(s)
  {
    assert Sound(machine, s, got);
    match machine.next(s, got)
    case More(t, need) => if need == 0 then Settle(machine, t, []) else Out(Live(t, [], need), [])
    case Message(m, t, need) => Out(Live(t, [], need), [m])
    case Error => Out(Dead, [])
  }

  ghost function Push<S(!new), M>(machine: Machine<S, M>, c: Conf<S>, b: Byte): Out<S, M>
    requires Productive(machine)
  {
    if c.Dead? then Out(c, [])
    else if c.need > 1 then Out(Live(c.s, c.got + [b], c.need - 1), [])
    else Settle(machine, c.s, c.got + [b])
  }

  // The bytes from i up to j.
  ghost function Feed<S(!new), M>(machine: Machine<S, M>, c: Conf<S>, bytes: Data, i: nat, j: nat): Out<S, M>
    requires Productive(machine) && i <= j <= |bytes|
    decreases j
  {
    if i == j then Out(c, [])
    else
      var before := Feed(machine, c, bytes, i, j - 1);
      var last := Push(machine, before.conf, bytes[j - 1]);
      Out(last.conf, before.msgs + last.msgs)
  }

  // Where the bytes are cut makes no difference.
  lemma {:induction false} FeedSplit<S(!new), M>(machine: Machine<S, M>, c: Conf<S>, bytes: Data,
                                                 i: nat, j: nat, k: nat)
    requires Productive(machine) && i <= j <= k <= |bytes|
    ensures var first := Feed(machine, c, bytes, i, j);
            var second := Feed(machine, first.conf, bytes, j, k);
            Feed(machine, c, bytes, i, k) == Out(second.conf, first.msgs + second.msgs)
    decreases k
  {
    if j < k {
      FeedSplit(machine, c, bytes, i, j, k - 1);
    }
  }

  // Nothing comes out of a broken stream any more.
  lemma {:induction false} FeedDead<S(!new), M>(machine: Machine<S, M>, bytes: Data, i: nat, j: nat)
    requires Productive(machine) && i <= j <= |bytes|
    ensures Feed(machine, Dead, bytes, i, j) == Out(Dead, [])
    decreases j
  {
    if i < j {
      FeedDead(machine, bytes, i, j - 1);
    }
  }

  // Bytes that have been asked for are collected; the last of them makes the machine go on.
  lemma {:induction false} Collect<S(!new), M>(machine: Machine<S, M>, s: S, got: Data, need: nat,
                                               bytes: Data, i: nat, j: nat)
    requires Productive(machine) && i < j <= |bytes| && j - i <= need
    ensures Feed(machine, Live(s, got, need), bytes, i, j) ==
            if j - i < need then Out(Live(s, got + bytes[i..j], need - (j - i)), [])
            else Settle(machine, s, got + bytes[i..j])
    decreases j
  {
    if i + 1 < j {
      Collect(machine, s, got, need, bytes, i, j - 1);
    }
    assert got + bytes[i..j - 1] + [bytes[j - 1]] == got + bytes[i..j];
    assert i + 1 == j ==> got + bytes[i..j - 1] == got;
  }

  lemma {:induction false} SameBytes<S(!new), M>(machine: Machine<S, M>, c: Conf<S>, a: Data, i: nat, b: Data, j: nat,
                                                 n: nat)
    requires Productive(machine) && i + n <= |a| && j + n <= |b| && a[i..i + n] == b[j..j + n]
    ensures Feed(machine, c, a, i, i + n) == Feed(machine, c, b, j, j + n)
    decreases n
  {
    if n > 0 {
      assert a[i..i + n - 1] == a[i..i + n][..n - 1] == b[j..j + n][..n - 1] == b[j..j + n - 1];
      SameBytes(machine, c, a, i, b, j, n - 1);
      assert a[i + n - 1] == a[i..i + n][n - 1] == b[j..j + n][n - 1] == b[j + n - 1];
    }
  }

  function Flat(chunks: seq<Data>): Data
  {
    if chunks == [] then [] else Flat(chunks[..|chunks| - 1]) + chunks[|chunks| - 1]
  }

  // Feeding piece by piece, whatever the pieces.
  ghost function FeedAll<S(!new), M>(machine: Machine<S, M>, c: Conf<S>, chunks: seq<Data>): Out<S, M>
    requires Productive(machine)
    decreases |chunks|
  {
    if chunks == [] then Out(c, [])
    else
      var before, chunk := FeedAll(machine, c, chunks[..|chunks| - 1]), chunks[|chunks| - 1];
      var last := Feed(machine, before.conf, chunk, 0, |chunk|);
      Out(last.conf, before.msgs + last.msgs)
  }

  lemma {:induction false} ChunksDoNotMatter<S(!new), M>(machine: Machine<S, M>, c: Conf<S>,
                                                         some: seq<Data>, others: seq<Data>)
    requires Productive(machine) && Flat(some) == Flat(others)
    ensures FeedAll(machine, c, some) == FeedAll(machine, c, others)
  {
    FeedAllFlat(machine, c, some);
    FeedAllFlat(machine, c, others);
  }

  lemma {:induction false} FeedAllFlat<S(!new), M>(machine: Machine<S, M>, c: Conf<S>, chunks: seq<Data>)
    requires Productive(machine)
    ensures FeedAll(machine, c, chunks) == Feed(machine, c, Flat(chunks), 0, |Flat(chunks)|)
    decreases |chunks|
  {
    if chunks != [] {
      var n := |chunks| - 1;
      var front, chunk, all := Flat(chunks[..n]), chunks[n], Flat(chunks);
      FeedAllFlat(machine, c, chunks[..n]);
      SameBytes(machine, c, front, 0, all, 0, |front|);
      SameBytes(machine, FeedAll(machine, c, chunks[..n]).conf, chunk, 0, all, |front|, |chunk|);
      FeedSplit(machine, c, all, 0, |front|, |all|);
    }
  }

  /* The engine. */

  class Engine<S(!new), M> {
    const machine: Machine<S, M>
    var alive: bool
    var s: S                     // _next, and what the derived class knows
    var dest: array<Byte>        // where the bytes that are asked for go: from `start` on, next to `readPos`
    var start: nat
    var readPos: nat
    var toRead: nat

    ghost predicate Valid()
      reads this
    {
      && Productive(machine)
      && start <= readPos && readPos + toRead <= dest.Length
      && (alive ==> toRead > 0)
    }

    ghost function Conf(): Conf<S>
      reads this, dest
      requires Valid()
    {
      if alive then Live(s, dest[start..readPos], toRead) else Dead
    }

    // What a result code means.
    ghost predicate Answer(rc: int, msg: Option<M>)
      reads this
    {
      if alive then rc == (if msg.Some? then 1 else 0) else rc == -1 && msg == None
    }

    constructor (machine: Machine<S, M>, s: S, need: nat)
      requires Productive(machine) && need > 0
      ensures Valid() && alive && Conf() == Live(s, [], need) && this.machine == machine && fresh(dest)
    {
      this.machine, this.s, alive := machine, s, true;
      dest := new Byte[need](_ => 0);
      start, readPos, toRead := 0, 0, need;
    }

    // A large message is read to where it belongs, without a detour.
    method GetBuffer(buf: array<Byte>) returns (data: array<Byte>, from: nat, size: nat)
      requires Valid()
      ensures from + size <= data.Length
      ensures if toRead >= buf.Length then data == dest && from == readPos && size == toRead
              else data == buf && from == 0 && size == buf.Length
    {
      if toRead >= buf.Length {
        return dest, readPos, toRead;
      }
      return buf, 0, buf.Length;
    }

    // One step of the machine.  The bytes it asks for go to a place of their own, or stay where they lie.
    method NextStep(data: array<Byte>, at: nat) returns (rc: int, msg: Option<M>)
      requires Productive(machine) && alive && start <= readPos <= dest.Length && at <= data.Length
      modifies this
      ensures Answer(rc, msg)
      ensures rc != -1 ==> start == readPos && readPos + toRead <= dest.Length
      ensures rc != -1 ==> fresh(dest) || (rc == 0 && dest == data && readPos == at)
      ensures rc == -1 ==> dest == old(dest) && start == old(start) && readPos == old(readPos) && toRead == old(toRead)
      ensures match machine.next(old(s), old(dest[start..readPos]))
              case More(t, need) => rc == 0 && s == t && toRead == need
              case Message(m, t, need) => rc == 1 && msg == Some(m) && s == t && toRead == need
              case Error => rc == -1
    {
      msg := None;
      match machine.next(s, dest[start..readPos]) {
        case More(t, need) =>
          rc, s := 0, t;
          Place(data, at, need);
        case Message(m, t, need) =>
          rc, msg, s := 1, Some(m), t;
          PlaceApart(need);
        case Error =>
          rc, alive := -1, false;
      }
    }

    method Place(data: array<Byte>, at: nat, need: nat)
      requires at <= data.Length
      modifies this`dest, this`start, this`readPos, this`toRead
      ensures start == readPos && readPos + toRead <= dest.Length && toRead == need
      ensures fresh(dest) || (dest == data && readPos == at)
    {
      toRead := need;
      if need <= data.Length - at && machine.inPlace(s, need, data.Length - at) {
        dest, start, readPos := data, at, at;
      } else {
        PlaceApart(need);
      }
    }

    method PlaceApart(need: nat)
      modifies this`dest, this`start, this`readPos, this`toRead
      ensures start == readPos && readPos + toRead <= dest.Length && toRead == need && fresh(dest)
    {
      dest := new Byte[need](_ => 0);
      start, readPos, toRead := 0, 0, need;
    }

    // Runs the machine while it wants no bytes.
    method RunSteps(data: array<Byte>, at: nat, ghost got: Data) returns (rc: int, msg: Option<M>)
      requires Productive(machine) && alive && toRead == 0 && start <= readPos <= dest.Length && at <= data.Length
      requires dest[start..readPos] == got
      modifies this
      ensures Valid() && Answer(rc, msg)
      ensures Settle(machine, old(s), got) == Out(Conf(), AsSeq(msg))
      ensures alive ==> fresh(dest) || (rc == 0 && dest == data && readPos == at)
    {
      rc, msg := 0, None;
      ghost var goal := Settle(machine, s, got);
      while toRead == 0
        invariant alive && start <= readPos && readPos + toRead <= dest.Length && rc == 0 && msg == None
        invariant goal == if toRead == 0 then Settle(machine, s, dest[start..readPos]) else Out(Conf(), [])
        invariant toRead > 0 ==> fresh(dest) || (dest == data && readPos == at)
        decreases toRead == 0, machine.rank(s)
      {
        assert Sound(machine, s, dest[start..readPos]);
        rc, msg := NextStep(data, at);
        assert rc != -1 ==> dest[start..readPos] == [];
        if rc != 0 {
          return;
        }
      }
    }

    // Puts the next bytes where they belong; they may be there already.
    method Copy(data: array<Byte>, at: nat, n: nat)
      requires start <= readPos && readPos + n <= dest.Length && at + n <= data.Length && n <= toRead
      requires dest == data ==> readPos == at
      modifies this`readPos, this`toRead, if dest == data then {} else {dest}
      ensures readPos == old(readPos) + n && toRead == old(toRead) - n
      ensures dest[start..readPos] == old(dest[start..readPos]) + old(data[at..at + n])
      ensures data[..] == old(data[..])
    {
      if dest != data || readPos != at {
        CopyBytes(data, at, dest, readPos, n);
      }
      assert dest[start..readPos + n] == dest[start..readPos] + dest[readPos..readPos + n];
      readPos := readPos + n;
      toRead := toRead - n;
    }

    // 0: all bytes are used up; 1: a message is complete; -1: the stream is broken.
    method Decode(data: array<Byte>, from: nat, size: nat, ghost bytes: Data, ghost c: Conf<S>)
      returns (rc: int, used: nat, msg: Option<M>)
      requires Valid() && alive && from + size <= data.Length && data[..] == bytes && c == Conf()
      requires data == dest ==> readPos == from && size <= toRead
      modifies this, dest, data
      ensures Valid() && used <= size && Answer(rc, msg)
      ensures rc == 0 ==> used == size
      ensures rc == 1 ==> used > 0 && fresh(dest)
      ensures data[..] == bytes
      ensures Fed(c, bytes, from, from + used, AsSeq(msg))
      ensures rc != -1 ==> fresh(dest) || dest == old(dest) || (dest == data && readPos == from + used)
    {
      if data == dest && from == readPos {
        rc, msg := Advance(data, from, size, bytes, c);
        used := size;
        return;
      }
      rc, used, msg := DecodeCopying(data, from, size, bytes, c);
    }

    // What the bytes from i up to j have led to.
    ghost predicate Fed(c: Conf<S>, bytes: Data, i: nat, j: nat, msgs: seq<M>)
      requires Valid() && i <= j <= |bytes|
      reads this, dest
    {
      Feed(machine, c, bytes, i, j) == Out(Conf(), msgs)
    }

    lemma Joined(c: Conf<S>, bytes: Data, i: nat, j: nat, k: nat, c1: Conf<S>, before: seq<M>, after: seq<M>)
      requires Valid() && i <= j <= k <= |bytes| && Feed(machine, c, bytes, i, j) == Out(c1, before)
      requires Fed(c1, bytes, j, k, after)
      ensures Fed(c, bytes, i, k, before + after)
    {
      FeedSplit(machine, c, bytes, i, j, k);
    }

    method DecodeCopying(data: array<Byte>, from: nat, size: nat, ghost bytes: Data, ghost c: Conf<S>)
      returns (rc: int, used: nat, msg: Option<M>)
      requires Valid() && alive && from + size <= data.Length && data[..] == bytes && data != dest && c == Conf()
      modifies this, dest, data
      ensures Valid() && used <= size && Answer(rc, msg)
      ensures rc == 0 ==> used == size
      ensures rc == 1 ==> used > 0 && fresh(dest)
      ensures data[..] == bytes
      ensures Fed(c, bytes, from, from + used, AsSeq(msg))
      ensures rc != -1 ==> fresh(dest) || dest == old(dest) || (dest == data && readPos == from + used)
    {
      rc, used, msg := 0, 0, None;
      while used < size
        invariant Valid() && alive && used <= size && rc == 0 && msg == None
        invariant dest == data ==> readPos == from + used
        invariant data[..] == bytes
        invariant fresh(dest) || dest == old(dest) || dest == data
        invariant Fed(c, bytes, from, from + used, [])
      {
        rc, used, msg := Round(data, from, size, used, c, bytes);
        if rc != 0 {
          return;
        }
      }
    }

    method Round(data: array<Byte>, from: nat, size: nat, used: nat, ghost c: Conf<S>, ghost bytes: Data)
      returns (rc: int, used': nat, msg: Option<M>)
      requires Valid() && alive && used < size && from + size <= data.Length && data[..] == bytes
      requires dest == data ==> readPos == from + used
      requires Fed(c, bytes, from, from + used, [])
      modifies this, dest
      ensures Valid() && used < used' <= size && Answer(rc, msg)
      ensures data[..] == bytes
      ensures Fed(c, bytes, from, from + used', AsSeq(msg))
      ensures rc == 1 ==> fresh(dest)
      ensures rc != -1 ==> fresh(dest) || dest == old(dest) || dest == data
      ensures rc != -1 ==> dest == data ==> readPos == from + used'
    {
      var n := if toRead < size - used then toRead else size - used;
      used' := used + n;
      ghost var c1 := Conf();
      assert Feed(machine, c, bytes, from, from + used) == Out(c1, []);
      rc, msg := Take(data, from + used, n, bytes, c1);
      Joined(c, bytes, from, from + used, from + used', c1, [], AsSeq(msg));
      assert [] + AsSeq(msg) == AsSeq(msg);
    }

    // The bytes were received where they belong: nothing has to be copied.
    method Advance(data: array<Byte>, from: nat, size: nat, ghost bytes: Data, ghost c: Conf<S>)
      returns (rc: int, msg: Option<M>)
      requires Valid() && alive && data == dest && readPos == from && size <= toRead && data[..] == bytes && c == Conf()
      modifies this
      ensures Valid() && Answer(rc, msg)
      ensures Fed(c, bytes, from, from + size, AsSeq(msg))
      ensures rc == 1 ==> size > 0 && fresh(dest)
      ensures rc != -1 ==> fresh(dest) || (dest == data && readPos == from + size)
    {
      if size == 0 {
        return 0, None;
      }
      ghost var got, more := dest[start..readPos], bytes[from..from + size];
      Collect(machine, s, got, toRead, bytes, from, from + size);
      readPos := readPos + size;
      toRead := toRead - size;
      assert dest[start..readPos] == got + more;
      if toRead == 0 {
        rc, msg := RunSteps(data, from + size, got + more);
      } else {
        rc, msg := 0, None;
      }
    }

    // Copies bytes that are asked for, and runs the machine when it has them all.
    method Take(data: array<Byte>, at: nat, n: nat, ghost bytes: Data, ghost c: Conf<S>)
      returns (rc: int, msg: Option<M>)
      requires Valid() && alive && 0 < n <= toRead && at + n <= data.Length && data[..] == bytes && c == Conf()
      requires dest == data ==> readPos == at
      modifies this, dest
      ensures Valid() && Answer(rc, msg)
      ensures data[..] == bytes
      ensures Fed(c, bytes, at, at + n, AsSeq(msg))
      ensures rc == 1 ==> fresh(dest)
      ensures rc != -1 ==> fresh(dest) || dest == old(dest) || dest == data
      ensures rc != -1 ==> dest == data ==> readPos == at + n
    {
      ghost var got, more := dest[start..readPos], bytes[at..at + n];
      Collect(machine, s, got, toRead, bytes, at, at + n);
      assert data[at..at + n] == more;
      Copy(data, at, n);
      assert dest[start..readPos] == got + more;
      if toRead == 0 {
        rc, msg := RunSteps(data, at + n, got + more);
      } else {
        rc, msg := 0, None;
      }
    }

    // The caller's loop: what is left after a message is decoded as well.
    method DecodeAll(data: array<Byte>, from: nat, size: nat) returns (msgs: seq<M>)
      requires Valid() && from + size <= data.Length
      requires data == dest ==> readPos == from && size <= toRead
      modifies this, dest, data
      ensures Valid() && Out(Conf(), msgs) == Feed(machine, old(Conf()), data[..], from, from + size)
      ensures data[..] == old(data[..])
      ensures alive ==> fresh(dest) || dest == old(dest) || dest == data
    {
      msgs := [];
      var at, end := from, from + size;
      ghost var c, bytes := Conf(), data[..];
      while at < end && alive
        invariant Valid() && from <= at <= end && data[..] == bytes
        invariant alive && at < end ==> dest == old(dest) || fresh(dest)
        invariant alive ==> fresh(dest) || dest == old(dest) || dest == data
        invariant alive && at < end && dest == data ==> readPos == at && end - at <= toRead
        invariant Fed(c, bytes, from, at, msgs)
        decreases end - at, alive
      {
        at, msgs := DecodeNext(data, from, at, end, c, bytes, msgs);
      }
      FeedSplit(machine, c, bytes, from, at, end);
      if !alive {
        FeedDead(machine, bytes, at, end);
      }
    }

    method DecodeNext(data: array<Byte>, ghost from: nat, at: nat, end: nat, ghost c: Conf<S>, ghost bytes: Data,
                      msgs: seq<M>)
      returns (at': nat, msgs': seq<M>)
      requires Valid() && alive && from <= at < end <= data.Length && data[..] == bytes
      requires data == dest ==> readPos == at && end - at <= toRead
      requires Fed(c, bytes, from, at, msgs)
      modifies this, dest, data
      ensures Valid() && at <= at' <= end && (at < at' || !alive)
      ensures data[..] == bytes
      ensures alive ==> fresh(dest) || (at' == end && (dest == old(dest) || dest == data))
      ensures Fed(c, bytes, from, at', msgs')
    {
      ghost var c1 := Conf();
      var rc, used, msg := Decode(data, at, end - at, bytes, c1);
      at' := at + used;
      msgs' := msgs + AsSeq(msg);
      Joined(c, bytes, from, at, at', c1, msgs, AsSeq(msg));
    }
  }
}
