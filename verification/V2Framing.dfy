/** ZMTP 2.0 framing: what one engine encodes the other decodes. */
module V2Framing {
  import opened Bytes
  import opened Wire
  import D = Decoder
  import E = Encoder

  datatype Flags = Flags(more: bool, command: bool)

  datatype Msg = Msg(flags: Flags, body: Data)

  /* The encoder. */

  datatype EncState = MessageReady | SizeReady

  function FlagByte(m: Msg): Byte
  {
    (if m.flags.more then 1 else 0) + (if |m.body| > 255 then 2 else 0) + (if m.flags.command then 4 else 0)
  }

  function EncNext(s: EncState, m: Msg): E.Piece<EncState>
  {
    match s
    case MessageReady =>
      var size := if |m.body| > 255 then Put(|m.body|, 8) else [|m.body|];
      E.Piece([FlagByte(m)] + size, SizeReady, false)
    case SizeReady =>
      E.Piece(m.body, MessageReady, true)
  }

  function EncMachine(): E.Machine<EncState, Msg>
  {
    E.Machine(EncNext, (s: EncState) => if s.MessageReady? then 1 else 0)
  }

  /* The decoder. */

  datatype DecState =
    | FlagsReady
    | OneByteSizeReady(flags: Flags)
    | EightByteSizeReady(flags: Flags)
    | BodyReady(flags: Flags)

  // The size is known.  A negative limit is none.
  function SizeKnown(flags: Flags, size: nat, maxMsgSize: int): D.Outcome<DecState, Msg>
  {
    if maxMsgSize >= 0 && size > maxMsgSize then D.Error else D.More(BodyReady(flags), size)
  }

  function DecNext(s: DecState, got: Data, maxMsgSize: int): D.Outcome<DecState, Msg>
  {
    match s
    case FlagsReady =>
      if got == [] then D.Error
      else
        var flags := Flags(got[0] % 2 == 1, (got[0] / 4) % 2 == 1);
        if (got[0] / 2) % 2 == 1 then D.More(EightByteSizeReady(flags), 8) else D.More(OneByteSizeReady(flags), 1)
    case OneByteSizeReady(flags) =>
      if got == [] then D.Error else SizeKnown(flags, got[0], maxMsgSize)
    case EightByteSizeReady(flags) =>
      SizeKnown(flags, Get(got), maxMsgSize)
    case BodyReady(flags) =>
      D.Message(Msg(flags, got), FlagsReady, 1)
  }

  function DecMachine(maxMsgSize: int, zeroCopy: bool): D.Machine<DecState, Msg>
  {
    D.Machine((s: DecState, got: Data) => DecNext(s, got, maxMsgSize),
              (s: DecState, need: nat, room: nat) => zeroCopy && s.BodyReady? && MAX_VSM_SIZE <= need <= room,
              (s: DecState) => match s case FlagsReady => 2 case BodyReady(_) => 0 case _ => 1)
  }

  lemma MachinesProductive(maxMsgSize: int, zeroCopy: bool)
    ensures E.Productive(EncMachine()) && D.Productive(DecMachine(maxMsgSize, zeroCopy))
  {
    var enc, dec := EncMachine(), DecMachine(maxMsgSize, zeroCopy);
    forall s, m ensures E.Sound(enc, s, m) {
    }
    forall s, got ensures D.Sound(dec, s, got) {
    }
  }

  // The bytes of a message.
  function Frame(m: Msg): Data
  {
    [FlagByte(m)] + (if |m.body| > 255 then Put(|m.body|, 8) else [|m.body|]) + m.body
  }

  lemma WholeIsFrame(m: Msg)
    requires E.Productive(EncMachine())
    ensures E.Whole(EncMachine(), MessageReady, m) == E.Piece(Frame(m), MessageReady, true)
  {
    assert E.Whole(EncMachine(), SizeReady, m) == E.Piece(m.body, MessageReady, true);
  }

  // Three flags, the size in one byte or in eight with the highest first, and the body.
  lemma Layout(m: Msg)
    requires E.Productive(EncMachine())
    ensures var f, n := Frame(m), |m.body|;
            && E.Stream(EncMachine(), MessageReady, [m]).bytes == f
            && f[0] < 8 && (f[0] % 2 == 1 <==> m.flags.more) && (f[0] / 2 % 2 == 1 <==> n > 255)
            && (f[0] / 4 % 2 == 1 <==> m.flags.command)
            && if n <= 255 then f[1..] == [n] + m.body
               else |f| == 9 + n && f[9..] == m.body && forall i | 1 <= i < 9 :: f[i] == n / Power(8 - i) % 256
    ensures m == Msg(Flags(true, false), [65]) ==> Frame(m) == [1, 1, 65]
  {
    FlagsBack(m);
    WholeIsFrame(m);
    StreamGrows([m]);
    var n := |m.body|;
    if n > 255 {
      forall i | 1 <= i < 9 ensures Frame(m)[i] == n / Power(8 - i) % 256 {
        PutByte(n, 8, i - 1);
        assert Frame(m)[i] == Put(n, 8)[i - 1];
      }
    }
  }

  predicate Allowed(m: Msg, maxMsgSize: int)
  {
    maxMsgSize < 0 || |m.body| <= maxMsgSize
  }

  // The decoder between two messages.
  function Start(): D.Conf<DecState>
  {
    D.Live(FlagsReady, [], 1)
  }

  lemma FlagsBack(m: Msg)
    ensures (FlagByte(m) % 2 == 1) == m.flags.more
    ensures ((FlagByte(m) / 2) % 2 == 1) == (|m.body| > 255)
    ensures ((FlagByte(m) / 4) % 2 == 1) == m.flags.command
  {
  }

  function Header(m: Msg): Data
  {
    [FlagByte(m)] + if |m.body| > 255 then Put(|m.body|, 8) else [|m.body|]
  }

  // What the decoder makes of the size in a header: it asks for the body, or refuses it.
  function Sized(m: Msg, maxMsgSize: int): D.Out<DecState, Msg>
  {
    if !Allowed(m, maxMsgSize) then D.Out(D.Dead, [])
    else if m.body == [] then D.Out(Start(), [m])
    else D.Out(D.Live(BodyReady(m.flags), [], |m.body|), [])
  }

  lemma FlagsDecoded(m: Msg, maxMsgSize: int, zeroCopy: bool, bytes: Data)
    requires D.Productive(DecMachine(maxMsgSize, zeroCopy)) && bytes != [] && bytes[0] == FlagByte(m)
    ensures D.Feed(DecMachine(maxMsgSize, zeroCopy), Start(), bytes, 0, 1) ==
            D.Out(if |m.body| > 255 then D.Live(EightByteSizeReady(m.flags), [], 8)
                  else D.Live(OneByteSizeReady(m.flags), [], 1), [])
  {
    FlagsBack(m);
    D.Collect(DecMachine(maxMsgSize, zeroCopy), FlagsReady, [], 1, bytes, 0, 1);
    assert [] + bytes[0..1] == [bytes[0]];
  }

  lemma SizeSettled(m: Msg, maxMsgSize: int, zeroCopy: bool, s: DecState, got: Data)
    requires D.Productive(DecMachine(maxMsgSize, zeroCopy))
    requires DecNext(s, got, maxMsgSize) == SizeKnown(m.flags, |m.body|, maxMsgSize)
    ensures D.Settle(DecMachine(maxMsgSize, zeroCopy), s, got) == Sized(m, maxMsgSize)
  {
  }

  lemma ShortSizeDecoded(m: Msg, maxMsgSize: int, zeroCopy: bool, bytes: Data)
    requires D.Productive(DecMachine(maxMsgSize, zeroCopy)) && |m.body| <= 255
    requires |bytes| >= 2 && bytes[1] == |m.body|
    ensures D.Feed(DecMachine(maxMsgSize, zeroCopy), D.Live(OneByteSizeReady(m.flags), [], 1), bytes, 1, 2)
            == Sized(m, maxMsgSize)
  {
    D.Collect(DecMachine(maxMsgSize, zeroCopy), OneByteSizeReady(m.flags), [], 1, bytes, 1, 2);
    assert [] + bytes[1..2] == [bytes[1]];
    SizeSettled(m, maxMsgSize, zeroCopy, OneByteSizeReady(m.flags), [bytes[1]]);
  }

  lemma LongSizeDecoded(m: Msg, maxMsgSize: int, zeroCopy: bool, bytes: Data)
    requires D.Productive(DecMachine(maxMsgSize, zeroCopy)) && 255 < |m.body|
    requires |bytes| >= 9 && Get(bytes[1..9]) == |m.body|
    ensures D.Feed(DecMachine(maxMsgSize, zeroCopy), D.Live(EightByteSizeReady(m.flags), [], 8), bytes, 1, 9)
            == Sized(m, maxMsgSize)
  {
    D.Collect(DecMachine(maxMsgSize, zeroCopy), EightByteSizeReady(m.flags), [], 8, bytes, 1, 9);
    assert [] + bytes[1..9] == bytes[1..9];
    SizeSettled(m, maxMsgSize, zeroCopy, EightByteSizeReady(m.flags), bytes[1..9]);
  }

  lemma HeaderDecoded(m: Msg, maxMsgSize: int, zeroCopy: bool, bytes: Data, n: nat)
    requires D.Productive(DecMachine(maxMsgSize, zeroCopy)) && |m.body| < Power(8)
    requires n <= |bytes| && bytes[..n] == Header(m)
    ensures D.Feed(DecMachine(maxMsgSize, zeroCopy), Start(), bytes, 0, n) == Sized(m, maxMsgSize)
  {
    assert bytes[0] == bytes[..n][0] == FlagByte(m);
    FlagsDecoded(m, maxMsgSize, zeroCopy, bytes);
    D.FeedSplit(DecMachine(maxMsgSize, zeroCopy), Start(), bytes, 0, 1, n);
    if |m.body| > 255 {
      assert bytes[1..9] == bytes[..n][1..];
      GetPut(|m.body|, 8);
      LongSizeDecoded(m, maxMsgSize, zeroCopy, bytes);
    } else {
      assert bytes[1] == bytes[..n][1];
      ShortSizeDecoded(m, maxMsgSize, zeroCopy, bytes);
    }
  }

  // A message that is allowed comes out as it went in; any other breaks the stream at its header.
  lemma FrameDecoded(m: Msg, maxMsgSize: int, zeroCopy: bool)
    requires D.Productive(DecMachine(maxMsgSize, zeroCopy)) && |m.body| < Power(8)
    ensures D.Feed(DecMachine(maxMsgSize, zeroCopy), Start(), Frame(m), 0, |Frame(m)|)
            == if Allowed(m, maxMsgSize) then D.Out(Start(), [m]) else D.Out(D.Dead, [])
  {
    var machine, bytes, n := DecMachine(maxMsgSize, zeroCopy), Frame(m), |Header(m)|;
    assert bytes[..n] == Header(m);
    HeaderDecoded(m, maxMsgSize, zeroCopy, bytes, n);
    D.FeedSplit(machine, Start(), bytes, 0, n, |bytes|);
    if !Allowed(m, maxMsgSize) {
      D.FeedDead(machine, bytes, n, |bytes|);
    } else if m.body != [] {
      D.Collect(machine, BodyReady(m.flags), [], |m.body|, bytes, n, |bytes|);
      assert [] + bytes[n..|bytes|] == m.body;
    }
  }

  // A stream goes on where the one before it ends.
  lemma FeedParts(machine: D.Machine<DecState, Msg>, c: D.Conf<DecState>, all: Data, i: nat)
    requires D.Productive(machine) && i <= |all|
    ensures var first := D.Feed(machine, c, all[..i], 0, i);
            var second := D.Feed(machine, first.conf, all[i..], 0, |all| - i);
            D.Feed(machine, c, all, 0, |all|) == D.Out(second.conf, first.msgs + second.msgs)
  {
    D.SameBytes(machine, c, all[..i], 0, all, 0, i);
    D.SameBytes(machine, D.Feed(machine, c, all, 0, i).conf, all[i..], 0, all, i, |all| - i);
    D.FeedSplit(machine, c, all, 0, i, |all|);
  }

  lemma FeedBehind(machine: D.Machine<DecState, Msg>, c: D.Conf<DecState>, a: Data, b: Data)
    requires D.Productive(machine)
    ensures var first := D.Feed(machine, c, a, 0, |a|);
            var second := D.Feed(machine, first.conf, b, 0, |b|);
            D.Feed(machine, c, a + b, 0, |a + b|) == D.Out(second.conf, first.msgs + second.msgs)
  {
    FeedParts(machine, c, a + b, |a|);
    assert (a + b)[..|a|] == a && (a + b)[|a|..] == b;
  }

  predicate AllAllowed(ms: seq<Msg>, maxMsgSize: int)
  {
    forall k | 0 <= k < |ms| :: Allowed(ms[k], maxMsgSize) && |ms[k].body| < Power(8)
  }

  // Between two messages before and after, and in between these come out.
  ghost predicate Decodes(machine: D.Machine<DecState, Msg>, bytes: Data, ms: seq<Msg>)
    requires D.Productive(machine)
  {
    D.Feed(machine, Start(), bytes, 0, |bytes|) == D.Out(Start(), ms)
  }

  lemma DecodesBehind(machine: D.Machine<DecState, Msg>, a: Data, ms: seq<Msg>, b: Data, m: Msg)
    requires D.Productive(machine) && Decodes(machine, a, ms) && Decodes(machine, b, [m])
    ensures Decodes(machine, a + b, ms + [m])
  {
    FeedBehind(machine, Start(), a, b);
  }

  lemma StreamGrows(ms: seq<Msg>)
    requires E.Productive(EncMachine()) && ms != []
    requires E.Stream(EncMachine(), MessageReady, ms[..|ms| - 1]).s == MessageReady
    ensures var before := E.Stream(EncMachine(), MessageReady, ms[..|ms| - 1]).bytes;
            E.Stream(EncMachine(), MessageReady, ms) == E.Piece(before + Frame(ms[|ms| - 1]), MessageReady, true)
  {
    WholeIsFrame(ms[|ms| - 1]);
  }

  // Decoding undoes encoding.
  lemma {:induction false} RoundTrip(ms: seq<Msg>, maxMsgSize: int, zeroCopy: bool)
    requires D.Productive(DecMachine(maxMsgSize, zeroCopy)) && E.Productive(EncMachine())
    requires AllAllowed(ms, maxMsgSize)
    ensures var sent := E.Stream(EncMachine(), MessageReady, ms);
            sent.s == MessageReady && Decodes(DecMachine(maxMsgSize, zeroCopy), sent.bytes, ms)
    decreases |ms|
  {
    if ms != [] {
      var front := ms[..|ms| - 1];
      assert AllAllowed(front, maxMsgSize);
      RoundTrip(front, maxMsgSize, zeroCopy);
      RoundTripOne(front, ms[|ms| - 1], maxMsgSize, zeroCopy, E.Stream(EncMachine(), MessageReady, front).bytes);
      StreamGrows(ms);
      assert ms == front + [ms[|ms| - 1]];
    }
  }

  lemma RoundTripOne(front: seq<Msg>, m: Msg, maxMsgSize: int, zeroCopy: bool, before: Data)
    requires D.Productive(DecMachine(maxMsgSize, zeroCopy)) && Allowed(m, maxMsgSize) && |m.body| < Power(8)
    requires Decodes(DecMachine(maxMsgSize, zeroCopy), before, front)
    ensures Decodes(DecMachine(maxMsgSize, zeroCopy), before + Frame(m), front + [m])
  {
    FrameDecoded(m, maxMsgSize, zeroCopy);
    DecodesBehind(DecMachine(maxMsgSize, zeroCopy), before, front, Frame(m), m);
  }

  // The messages before one that is too long come out, nothing after them.
  lemma TooLong(ms: seq<Msg>, m: Msg, rest: Data, maxMsgSize: int, zeroCopy: bool)
    requires D.Productive(DecMachine(maxMsgSize, zeroCopy)) && E.Productive(EncMachine())
    requires AllAllowed(ms, maxMsgSize) && |m.body| < Power(8) && !Allowed(m, maxMsgSize)
    ensures var bytes := E.Stream(EncMachine(), MessageReady, ms).bytes + (Frame(m) + rest);
            D.Feed(DecMachine(maxMsgSize, zeroCopy), Start(), bytes, 0, |bytes|) == D.Out(D.Dead, ms)
  {
    var machine := DecMachine(maxMsgSize, zeroCopy);
    RoundTrip(ms, maxMsgSize, zeroCopy);
    FrameDecoded(m, maxMsgSize, zeroCopy);
    FeedBehind(machine, Start(), Frame(m), rest);
    D.FeedDead(machine, rest, 0, |rest|);
    FeedBehind(machine, Start(), E.Stream(EncMachine(), MessageReady, ms).bytes, Frame(m) + rest);
  }

  /* From end to end. */

  // One read: as many bytes as are there and fit are put where the decoder wants them.
  method Receive(dec: D.Engine<DecState, Msg>, bytes: Data, pos: nat, bufSize: nat, upTo: nat)
    returns (pos': nat, msgs: seq<Msg>)
    requires dec.Valid() && dec.alive && pos < |bytes| && bufSize > 0 && upTo > 0
    modifies dec, dec.dest
    ensures dec.Valid() && pos < pos' <= |bytes|
    ensures D.Out(dec.Conf(), msgs) == D.Feed(dec.machine, old(dec.Conf()), bytes, pos, pos')
    ensures dec.alive ==> fresh(dec.dest) || dec.dest == old(dec.dest)
  {
    var buf := new Byte[bufSize](_ => 0);
    var data, from, size := dec.GetBuffer(buf);
    var n := if size < |bytes| - pos then size else |bytes| - pos;
    n := if upTo < n then upTo else n;
    pos' := pos + n;
    Place(dec, data, from, bytes[pos..pos + n]);
    D.SameBytes(dec.machine, dec.Conf(), data[..], from, bytes, pos, n);
    msgs := dec.DecodeAll(data, from, n);
  }

  // Bytes put behind what the decoder has got, or into another buffer, leave alone what it has got.
  method Place(dec: D.Engine<DecState, Msg>, data: array<Byte>, from: nat, d: Data)
    requires dec.Valid() && from + |d| <= data.Length && (data == dec.dest ==> dec.readPos <= from)
    modifies data
    ensures dec.Valid() && dec.Conf() == old(dec.Conf()) && data[..][from..from + |d|] == d
  {
    WriteBytes(d, data, from);
    assert data == dec.dest ==> dec.dest[dec.start..dec.readPos] == dec.dest[..from][dec.start..dec.readPos];
  }

  // Whatever room the encoder finds, and whatever pieces the decoder gets, in its buffer or at once where they
  // belong: the messages arrive as they were sent.
  method Transmit(ms: seq<Msg>, maxMsgSize: int, zeroCopy: bool, room: nat -> nat, bufSize: nat, upTo: nat -> nat)
    returns (received: seq<Msg>)
    requires AllAllowed(ms, maxMsgSize) && bufSize > 0 && forall k :: upTo(k) > 0
    ensures received == ms
  {
    MachinesProductive(maxMsgSize, zeroCopy);
    var enc := new E.Engine(EncMachine(), MessageReady, bufSize);
    var bytes := E.SendAll(enc, ms, room);
    RoundTrip(ms, maxMsgSize, zeroCopy);
    var dec := new D.Engine(DecMachine(maxMsgSize, zeroCopy), FlagsReady, 1);
    received := ReceiveAll(dec, bytes, bufSize, upTo);
  }

  method ReceiveAll(dec: D.Engine<DecState, Msg>, bytes: Data, bufSize: nat, upTo: nat -> nat) returns (msgs: seq<Msg>)
    requires dec.Valid() && bufSize > 0 && forall k :: upTo(k) > 0
    modifies dec, dec.dest
    ensures dec.Valid() && D.Out(dec.Conf(), msgs) == D.Feed(dec.machine, old(dec.Conf()), bytes, 0, |bytes|)
  {
    msgs := [];
    var pos, k := 0, 0;
    ghost var c := dec.Conf();
    while pos < |bytes| && dec.alive
      invariant dec.Valid() && pos <= |bytes|
      invariant dec.Fed(c, bytes, 0, pos, msgs)
      invariant dec.alive ==> fresh(dec.dest) || dec.dest == old(dec.dest)
      decreases |bytes| - pos
    {
      pos, msgs := ReceiveNext(dec, bytes, pos, bufSize, upTo(k), c, msgs);
      k := k + 1;
    }
    D.FeedSplit(dec.machine, c, bytes, 0, pos, |bytes|);
    if !dec.alive {
      D.FeedDead(dec.machine, bytes, pos, |bytes|);
    }
  }

  method ReceiveNext(dec: D.Engine<DecState, Msg>, bytes: Data, pos: nat, bufSize: nat, upTo: nat,
                     ghost c: D.Conf<DecState>, msgs: seq<Msg>)
    returns (pos': nat, msgs': seq<Msg>)
    requires dec.Valid() && dec.alive && pos < |bytes| && bufSize > 0 && upTo > 0
    requires dec.Fed(c, bytes, 0, pos, msgs)
    modifies dec, dec.dest
    ensures dec.Valid() && pos < pos' <= |bytes|
    ensures dec.Fed(c, bytes, 0, pos', msgs')
    ensures dec.alive ==> fresh(dec.dest) || dec.dest == old(dec.dest)
  {
    ghost var c1 := dec.Conf();
    var more;
    pos', more := Receive(dec, bytes, pos, bufSize, upTo);
    msgs' := msgs + more;
    dec.Joined(c, bytes, 0, pos, pos', c1, msgs, more);
  }
}
