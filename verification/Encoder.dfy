/** The encoding engine: messages go in one at a time, bytes come out in portions of any size. */
module Encoder {
  import opened Bytes
  import opened Sequences

  // One step of a machine: bytes to be written, and whether the message is complete with them.
  datatype Piece<S> = Piece(bytes: Data, s: S, last: bool)

  datatype Machine<!S, !M> = Machine(next: (S, M) -> Piece<S>, rank: S -> nat)

  ghost predicate Productive<S(!new), M(!new)>(machine: Machine<S, M>)
  {
    forall s, m :: Sound(machine, s, m)
  }

  ghost predicate Sound<S, M>(machine: Machine<S, M>, s: S, m: M)
  {
    var p := machine.next(s, m);
    p.last || machine.rank(p.s) < machine.rank(s)
  }

  // All the bytes of a message, and the state it leaves behind.
  ghost function Whole<S(!new), M(!new)>(machine: Machine<S, M>, s: S, m: M): Piece<S>
    requires Productive(machine)
    decreases machine.rank(s)
  {
    assert Sound(machine, s, m);
    var p := machine.next(s, m);
    if p.last then p
    else
      var rest := Whole(machine, p.s, m);
      Piece(p.bytes + rest.bytes, rest.s, true)
  }

  method CopyBehind(data: array<Byte>, at: nat, dest: array<Byte>, pos: nat, n: nat, ghost before: Data)
    requires dest != data && pos + n <= dest.Length && at + n <= data.Length
    requires |before| <= pos && before == dest[pos - |before|..pos]
    modifies dest
    ensures dest[pos - |before|..pos + n] == before + data[at..at + n]
  {
    CopyBytes(data, at, dest, pos, n);
    assert dest[pos - |before|..pos] == dest[..pos][pos - |before|..];
  }

  class Engine<S(!new), M(!new)> {
    const machine: Machine<S, M>
    const buf: array<Byte>
    var inProgress: Option<M>
    var s: S                     // _next
    var src: array<Byte>
    var writePos: nat            // what is to be written lies in src from here on
    var toWrite: nat
    var newMsgFlag: bool

    ghost predicate Valid()
      reads this
    {
      && Productive(machine)
      && buf.Length > 0 && src != buf
      && writePos + toWrite <= src.Length
      && (inProgress == None ==> toWrite == 0 && newMsgFlag)
    }

    // The bytes of the message in progress that have not gone out.
    ghost function Pending(): Data
      reads this, src
      requires Valid()
    {
      src[writePos..writePos + toWrite]
      + match inProgress
        case None => []
        case Some(m) => if newMsgFlag then [] else Whole(machine, s, m).bytes
    }

    // What the engine will be at when the message has gone out.
    ghost function Then(): S
      reads this
      requires Valid()
    {
      match inProgress
      case None => s
      case Some(m) => if newMsgFlag then s else Whole(machine, s, m).s
    }

    constructor (machine: Machine<S, M>, s: S, bufSize: nat)
      requires Productive(machine) && bufSize > 0
      ensures Valid() && inProgress == None && Then() == s && this.machine == machine && fresh(buf) && fresh(src)
    {
      this.machine, this.s := machine, s;
      buf := new Byte[bufSize](_ => 0);
      src := new Byte[0](_ => 0);
      inProgress, writePos, toWrite, newMsgFlag := None, 0, 0, true;
    }

    // Runs one step of the machine.
    method NextStep(m: M)
      requires Valid() && inProgress == Some(m) && toWrite == 0
      modifies this`s, this`src, this`writePos, this`toWrite, this`newMsgFlag
      ensures Valid() && fresh(src)
      ensures Pending() == Whole(machine, old(s), m).bytes && Then() == Whole(machine, old(s), m).s
      ensures newMsgFlag || machine.rank(s) < machine.rank(old(s))
    {
      assert Sound(machine, s, m);
      var p := machine.next(s, m);
      src := new Byte[|p.bytes|](i requires 0 <= i < |p.bytes| => p.bytes[i]);
      assert src[0..|p.bytes|] == p.bytes;
      writePos, toWrite, s, newMsgFlag := 0, |p.bytes|, p.s, p.last;
    }

    method LoadMsg(m: M)
      requires Valid() && inProgress == None
      modifies this
      ensures Valid() && inProgress == Some(m) && fresh(src)
      ensures Pending() == Whole(machine, old(Then()), m).bytes && Then() == Whole(machine, old(Then()), m).s
    {
      inProgress := Some(m);
      NextStep(m);
    }

    // Gets the next piece when there is nothing left of this one.
    method Refill(m: M)
      requires Valid() && inProgress == Some(m) && (toWrite > 0 || !newMsgFlag)
      modifies this`s, this`src, this`writePos, this`toWrite, this`newMsgFlag
      ensures Valid() && (fresh(src) || src == old(src))
      ensures Pending() == old(Pending()) && Then() == old(Then())
      ensures toWrite == 0 ==> Steps() < old(Steps())
      ensures Steps() <= old(Steps())
    {
      if toWrite == 0 {
        assert src[writePos..writePos] == [];
        NextStep(m);
      }
    }

    // Steps still to come, at the most.
    ghost function Steps(): nat
      reads this
    {
      if newMsgFlag then 0 else machine.rank(s) + 1
    }

    // Copies as much as there is room for, behind what is in the buffer.
    method CopyOut(buffer: array<Byte>, at: nat, room: nat, ghost before: Data) returns (n: nat, ghost part: Data)
      requires Valid() && at + room <= buffer.Length && buffer != src && |before| <= at
      requires before == buffer[at - |before|..at]
      modifies this`writePos, this`toWrite, buffer
      ensures Valid() && n == (if old(toWrite) < room then old(toWrite) else room)
      ensures buffer[at - |before|..at + n] == before + part
      ensures Then() == old(Then()) && part + Pending() == old(Pending())
    {
      n := if toWrite < room then toWrite else room;
      part := src[writePos..writePos + n];
      ghost var rest := src[writePos + n..writePos + toWrite];
      assert src[writePos..writePos + toWrite] == part + rest;
      CopyBehind(src, writePos, buffer, at, n, before);
      writePos := writePos + n;
      toWrite := toWrite - n;
      assert src[writePos..writePos + toWrite] == rest;
    }

    // Fills the buffer given, or one of the engine's own; a large piece is lent out as it is.
    method Encode(data: array?<Byte>, off: nat, size: nat) returns (out: array<Byte>, from: nat, n: nat)
      requires Valid() && (data != null ==> off + size <= data.Length && data != buf && data != src)
      modifies this, buf, data
      ensures Valid() && from + n <= out.Length
      ensures out[from..from + n] + Pending() == old(Pending()) && Then() == old(Then())
      ensures data != null ==> out == data && from == off && n <= size
      ensures n < (if data == null then buf.Length else size) ==> inProgress == None
      ensures inProgress == old(inProgress) || (inProgress == None && Pending() == [])
      ensures fresh(src) || src == old(src)
    {
      if inProgress == None {
        out, from, n := if data == null then buf else data, if data == null then 0 else off, 0;
        return;
      }
      var m := inProgress.value;
      if data == null {
        out, from, n := Fill(m, buf, 0, buf.Length, true);
      } else {
        out, from, n := Fill(m, data, off, size, false);
      }
    }

    method Fill(m: M, buffer: array<Byte>, off: nat, room: nat, mayLend: bool)
      returns (out: array<Byte>, from: nat, n: nat)
      requires Valid() && inProgress == Some(m) && off + room <= buffer.Length && buffer != src
      modifies this, buffer
      ensures Valid() && from + n <= out.Length
      ensures out[from..from + n] + Pending() == old(Pending()) && Then() == old(Then())
      ensures !mayLend ==> out == buffer && from == off && n <= room
      ensures n < room ==> inProgress == None
      ensures inProgress == old(inProgress) || (inProgress == None && Pending() == [])
      ensures fresh(src) || src == old(src)
    {
      out, from, n := buffer, off, 0;
      ghost var whole, done: Data := Pending(), [];
      assert done + whole == whole;
      var over := false;
      while n < room && !over
        invariant Valid() && Then() == old(Then()) && from + n <= out.Length
        invariant done == out[from..from + n] && done + Pending() == whole
        invariant Stage(over, m, buffer, n, room, mayLend, out == buffer && from == off && n <= room)
        invariant fresh(src) || src == old(src)
        decreases !over, room - n, Steps()
      {
        over, out, from, n, done := Portion(m, buffer, off, n, room, mayLend, done);
      }
    }

    // Copying goes on, or the message is released, or its piece has been lent out.
    ghost predicate Stage(over: bool, m: M, buffer: array<Byte>, n: nat, room: nat, mayLend: bool, inBuffer: bool)
      requires Valid()
      reads this, src
    {
      if !over then inProgress == Some(m) && buffer != src && inBuffer
      else if inProgress == None then Pending() == [] && inBuffer
      else inProgress == Some(m) && mayLend && n >= room
    }

    // One turn of the loop.
    method Portion(m: M, buffer: array<Byte>, off: nat, n: nat, room: nat, mayLend: bool, ghost done: Data)
      returns (over: bool, out: array<Byte>, from: nat, n': nat, ghost done': Data)
      requires Valid() && inProgress == Some(m) && buffer != src && n < room && off + room <= buffer.Length
      requires done == buffer[off..off + n]
      modifies this, buffer
      ensures Valid() && Then() == old(Then()) && from + n' <= out.Length
      ensures done' == out[from..from + n'] && done' + Pending() == done + old(Pending())
      ensures Stage(over, m, buffer, n', room, mayLend, out == buffer && from == off && n' <= room)
      ensures !over ==> n < n' || (n == n' && Steps() < old(Steps()))
      ensures fresh(src) || src == old(src)
    {
      over, out, from, n', done' := false, buffer, off, n, done;
      if toWrite == 0 && newMsgFlag {
        over := true;
        Release();
        return;
      }
      Refill(m);
      if n == 0 && mayLend && toWrite >= room {
        over := true;
        out, from, n', done' := Lend();
        return;
      }
      n', done' := CopyMore(buffer, off, n, room, done);
    }

    // Nothing is left of the message.
    method Release()
      requires Valid() && toWrite == 0 && newMsgFlag
      modifies this`inProgress
      ensures Valid() && inProgress == None && Then() == old(Then()) && Pending() == [] == old(Pending())
    {
      assert src[writePos..writePos] == [];
      inProgress := None;
    }

    method CopyMore(buffer: array<Byte>, off: nat, n: nat, room: nat, ghost done: Data)
      returns (n': nat, ghost done': Data)
      requires Valid() && buffer != src && n < room && off + room <= buffer.Length && done == buffer[off..off + n]
      modifies this`writePos, this`toWrite, buffer
      ensures Valid() && n <= n' <= room && (old(toWrite) > 0 ==> n < n')
      ensures done' == buffer[off..off + n'] && done' + Pending() == done + old(Pending()) && Then() == old(Then())
    {
      var k;
      ghost var part;
      k, part := CopyOut(buffer, off + n, room - n, done);
      n', done' := n + k, done + part;
      Assoc(done, part, Pending());
    }

    // The whole piece goes out as it lies there.
    method Lend() returns (out: array<Byte>, from: nat, n: nat, ghost part: Data)
      requires Valid()
      modifies this`writePos, this`toWrite
      ensures Valid() && n == old(toWrite) && from + n <= out.Length && Then() == old(Then())
      ensures part == out[from..from + n] && part + Pending() == [] + old(Pending())
    {
      out, from, n, part := src, writePos, toWrite, src[writePos..writePos + toWrite];
      writePos, toWrite := 0, 0;
      assert src[0..0] == [] && [] + old(Pending()) == old(Pending());
    }

    // A message goes out whole, whatever room there is for it each time; 0 stands for the engine's own buffer.
    method Send(m: M, room: nat -> nat) returns (bytes: Data)
      requires Valid() && inProgress == None
      modifies this, buf
      ensures Valid() && inProgress == None && fresh(src)
      ensures Piece(bytes, Then(), true) == Whole(machine, old(Then()), m)
    {
      LoadMsg(m);
      ghost var whole := Pending();
      bytes := [];
      assert bytes + whole == whole;
      var k := 0;
      while inProgress.Some?
        invariant Valid() && bytes + Pending() == whole && Then() == Whole(machine, old(Then()), m).s
        invariant inProgress == None ==> Pending() == []
        invariant fresh(src)
        decreases inProgress.Some?, |Pending()|
      {
        ghost var before, pending := bytes, Pending();
        var part := SendPart(room(k));
        bytes := bytes + part;
        Assoc(before, part, Pending());
        k := k + 1;
      }
    }

    method SendPart(size: nat) returns (part: Data)
      requires Valid() && inProgress.Some?
      modifies this, buf
      ensures Valid() && part + Pending() == old(Pending()) && Then() == old(Then())
      ensures (inProgress == None && Pending() == []) || (inProgress == old(inProgress) && |part| > 0)
      ensures fresh(src) || src == old(src)
    {
      var out, from, n;
      if size == 0 {
        out, from, n := Encode(null, 0, 0);
      } else {
        var data := new Byte[size](_ => 0);
        out, from, n := Encode(data, 0, size);
      }
      part := out[from..from + n];
    }
  }

  // The bytes of messages sent one after another.
  ghost function Stream<S(!new), M(!new)>(machine: Machine<S, M>, s: S, ms: seq<M>): Piece<S>
    requires Productive(machine)
    decreases |ms|
  {
    if ms == [] then Piece([], s, true)
    else
      var before := Stream(machine, s, ms[..|ms| - 1]);
      var last := Whole(machine, before.s, ms[|ms| - 1]);
      Piece(before.bytes + last.bytes, last.s, true)
  }

  method SendAll<S(!new), M(!new)>(engine: Engine<S, M>, ms: seq<M>, room: nat -> nat) returns (bytes: Data)
    requires engine.Valid() && engine.inProgress == None
    modifies engine, engine.buf
    ensures engine.Valid() && engine.inProgress == None
    ensures Piece(bytes, engine.Then(), true) == Stream(engine.machine, old(engine.Then()), ms)
  {
    bytes := [];
    var k := 0;
    while k < |ms|
      invariant k <= |ms| && engine.Valid() && engine.inProgress == None
      invariant Piece(bytes, engine.Then(), true) == Stream(engine.machine, old(engine.Then()), ms[..k])
    {
      assert ms[..k + 1][..k] == ms[..k];
      var part := engine.Send(ms[k], room);
      bytes := bytes + part;
      k := k + 1;
    }
    assert ms[..k] == ms;
  }
}
