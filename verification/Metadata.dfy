/** The metadata of a ZMTP handshake (`metadata` in the grammar of ZeroMQ RFC 23, ZMTP 3.0): printing it into
    a message of exactly the length foretold, and reading it back. */
module Metadata {
  import opened Bytes
  import opened Sequences
  import opened Wire

  datatype SocketType = PAIR | PUB | SUB | REQ | REP | DEALER | ROUTER | PULL | PUSH | XPUB | XSUB | STREAM

  function Ascii(s: string): (d: Data)
    requires forall k | 0 <= k < |s| :: s[k] as int < 256
    ensures |d| == |s|
  {
    seq(|s|, k requires 0 <= k < |s| => s[k] as int)
  }

  function TypeName(t: SocketType): string
  {
    match t
    case PAIR => "PAIR"
    case PUB => "PUB"
    case SUB => "SUB"
    case REQ => "REQ"
    case REP => "REP"
    case DEALER => "DEALER"
    case ROUTER => "ROUTER"
    case PULL => "PULL"
    case PUSH => "PUSH"
    case XPUB => "XPUB"
    case XSUB => "XSUB"
    case STREAM => "STREAM"
  }

  function TypeBytes(t: SocketType): Data
  {
    Ascii(TypeName(t))
  }

  const SOCKET_TYPE := Ascii("Socket-Type")
  const IDENTITY := Ascii("Identity")

  lemma TypeNamesDiffer(t: SocketType, u: SocketType)
    ensures TypeBytes(t) == TypeBytes(u) ==> t == u
  {
    var a, b := TypeName(t), TypeName(u);
    if TypeBytes(t) == TypeBytes(u) {
      assert forall k | 0 <= k < |a| :: a[k] as int == TypeBytes(t)[k] == TypeBytes(u)[k] == b[k] as int;
      assert a == b;
    }
  }

  // The types a peer may say it has.
  function Peers(t: SocketType): set<SocketType>
  {
    match t
    case REQ => {REP, ROUTER}
    case REP => {REQ, DEALER}
    case DEALER => {REP, DEALER, ROUTER}
    case ROUTER => {REQ, DEALER, ROUTER}
    case PUSH => {PULL}
    case PULL => {PUSH}
    case PUB => {SUB, XSUB}
    case SUB => {PUB, XPUB}
    case XPUB => {SUB, XSUB}
    case XSUB => {PUB, XPUB}
    case PAIR => {PAIR}
    case STREAM => {}
  }

  predicate CheckSocketType(t: SocketType, said: Data)
  {
    exists u | u in Peers(t) :: said == TypeBytes(u)
  }

  // Each side of a connection accepts the other or neither does.
  lemma CheckIsMutual(t: SocketType, u: SocketType)
    ensures CheckSocketType(t, TypeBytes(u)) <==> CheckSocketType(u, TypeBytes(t))
  {
    CheckIsPeers(t, u);
    CheckIsPeers(u, t);
    PeersMutual(t, u);
  }

  lemma PeersMutual(t: SocketType, u: SocketType)
    ensures u in Peers(t) <==> t in Peers(u)
  {
  }

  predicate Couple(t: SocketType, u: SocketType)
  {
    || (t.REQ? && (u.REP? || u.ROUTER?))
    || (t.DEALER? && (u.REP? || u.DEALER? || u.ROUTER?))
    || (t.ROUTER? && u.ROUTER?)
    || (t.PUSH? && u.PULL?)
    || (t.PUB? && (u.SUB? || u.XSUB?))
    || (t.XPUB? && (u.SUB? || u.XSUB?))
    || (t.PAIR? && u.PAIR?)
  }

  // Which types go together.
  lemma Compatible(t: SocketType, u: SocketType)
    ensures CheckSocketType(t, TypeBytes(u)) <==> Couple(t, u) || Couple(u, t)
  {
    CheckIsPeers(t, u);
  }

  // The names as they are sent.
  lemma NamesSent()
    ensures TypeBytes(PAIR) == [80, 65, 73, 82] && TypeBytes(PUB) == [80, 85, 66] && TypeBytes(SUB) == [83, 85, 66]
    ensures TypeBytes(REQ) == [82, 69, 81] && TypeBytes(REP) == [82, 69, 80]
    ensures TypeBytes(DEALER) == [68, 69, 65, 76, 69, 82] && TypeBytes(ROUTER) == [82, 79, 85, 84, 69, 82]
    ensures TypeBytes(PULL) == [80, 85, 76, 76] && TypeBytes(PUSH) == [80, 85, 83, 72]
    ensures TypeBytes(XPUB) == [88, 80, 85, 66] && TypeBytes(XSUB) == [88, 83, 85, 66]
    ensures TypeBytes(STREAM) == [83, 84, 82, 69, 65, 77]
    ensures SOCKET_TYPE == [83, 111, 99, 107, 101, 116, 45, 84, 121, 112, 101]
    ensures IDENTITY == [73, 100, 101, 110, 116, 105, 116, 121]
  {
  }

  lemma CheckIsPeers(t: SocketType, u: SocketType)
    ensures CheckSocketType(t, TypeBytes(u)) <==> u in Peers(t)
  {
    forall v | v in Peers(t) && TypeBytes(u) == TypeBytes(v) ensures u == v {
      TypeNamesDiffer(u, v);
    }
  }

  /* Properties. */

  datatype Prop = Prop(name: Data, value: Data)

  predicate Fits(p: Prop)
  {
    |p.name| <= 255 && |p.value| < Power(4)
  }

  lemma ShortValueFits(p: Prop)
    requires |p.name| <= 255 && |p.value| <= 0x7FFFFFFF
    ensures Fits(p)
  {
    assert Power(4) == 256 * Power(3) == 256 * 256 * Power(2);
  }

  predicate AllFit(ps: seq<Prop>)
  {
    forall k | 0 <= k < |ps| :: Fits(ps[k])
  }

  function PropLen(name: Data, valueLen: nat): nat
  {
    1 + |name| + 4 + valueLen
  }

  function Print(p: Prop): (d: Data)
    requires Fits(p)
    ensures |d| == PropLen(p.name, |p.value|)
  {
    [|p.name|] + p.name + Put(|p.value|, 4) + p.value
  }

  function PrintAll(ps: seq<Prop>): Data
    requires AllFit(ps)
  {
    if ps == [] then [] else Print(ps[0]) + PrintAll(ps[1..])
  }

  lemma PrintCons(p: Prop, ps: seq<Prop>)
    requires Fits(p) && AllFit(ps)
    ensures AllFit([p] + ps) && PrintAll([p] + ps) == Print(p) + PrintAll(ps)
  {
    assert ([p] + ps)[1..] == ps;
  }

  lemma {:induction false} PrintSnoc(ps: seq<Prop>, p: Prop)
    requires AllFit(ps) && Fits(p)
    ensures AllFit(ps + [p]) && PrintAll(ps + [p]) == PrintAll(ps) + Print(p)
  {
    if ps == [] {
      assert PrintAll([p]) == Print(p) + PrintAll([]);
    } else {
      PrintSnoc(ps[1..], p);
      assert (ps + [p])[1..] == ps[1..] + [p];
      Assoc(Print(ps[0]), PrintAll(ps[1..]), Print(p));
    }
  }

  datatype Options = Options(kind: SocketType, routingId: Data, recvRoutingId: bool, appMetadata: seq<Prop>)

  // What the socket options let through.  Names of the application's own properties begin with X-.
  predicate ValidOptions(o: Options)
  {
    && |o.routingId| <= 255
    && (forall k | 0 <= k < |o.appMetadata| :: |o.appMetadata[k].name| <= 255 && |o.appMetadata[k].value| <= 0x7FFFFFFF)
    && (forall k | 0 <= k < |o.appMetadata| ::
          |o.appMetadata[k].name| >= 2 && o.appMetadata[k].name[..2] == Ascii("X-"))
    && (forall j, k | 0 <= j < k < |o.appMetadata| :: o.appMetadata[j].name != o.appMetadata[k].name)
  }

  predicate SaysIdentity(t: SocketType)
  {
    t.REQ? || t.DEALER? || t.ROUTER?
  }

  function BasicProperties(o: Options): (ps: seq<Prop>)
    requires ValidOptions(o)
    ensures AllFit(ps)
  {
    [Prop(SOCKET_TYPE, TypeBytes(o.kind))]
    + (if SaysIdentity(o.kind) then [Prop(IDENTITY, o.routingId)] else [])
    + o.appMetadata
  }

  /* Reading. */

  datatype Peer = Peer(routingId: Data, props: map<Data, Data>)

  datatype Verdict = Accepted | Invalid | Malformed

  datatype Result = Result(verdict: Verdict, peer: Peer)

  // One property taken in: what was said first counts, but the last identity is remembered.
  function Learn(o: Options, peer: Peer, p: Prop): Peer
  {
    Peer(if p.name == IDENTITY && o.recvRoutingId then p.value else peer.routingId,
         if p.name in peer.props then peer.props else peer.props[p.name := p.value])
  }

  predicate Refused(o: Options, p: Prop)
  {
    p.name == SOCKET_TYPE && !CheckSocketType(o.kind, p.value)
  }

  // Of the bytes that do not make up another property, none may be left when reading stops.
  function Stopped(left: Data, peer: Peer): Result
  {
    Result(if left == [] then Accepted else Malformed, peer)
  }

  function Parse(o: Options, bytes: Data, peer: Peer): Result
    decreases |bytes|
  {
    if |bytes| <= 1 then Stopped(bytes, peer)
    else
      var nameLen, rest := bytes[0], bytes[1..];
      if |rest| < nameLen then Stopped(rest, peer)
      else
        var name, rest := rest[..nameLen], rest[nameLen..];
        if |rest| < 4 then Stopped(rest, peer)
        else
          var valueLen, rest := Get(rest[..4]), rest[4..];
          if |rest| < valueLen then Stopped(rest, peer)
          else
            var p := Prop(name, rest[..valueLen]);
            if Refused(o, p) then Result(Invalid, peer)
            else Parse(o, rest[valueLen..], Learn(o, peer, p))
  }

  // A property is read back as it was printed.
  lemma ParsePrinted(o: Options, p: Prop, tail: Data, peer: Peer)
    requires Fits(p)
    ensures Parse(o, Print(p) + tail, peer)
            == if Refused(o, p) then Result(Invalid, peer) else Parse(o, tail, Learn(o, peer, p))
  {
    var bytes := Print(p) + tail;
    var rest := bytes[1..];
    GetPut(|p.value|, 4);
    assert rest == p.name + (Put(|p.value|, 4) + (p.value + tail));
    assert rest[..|p.name|] == p.name;
    var rest2 := rest[|p.name|..];
    assert rest2 == Put(|p.value|, 4) + (p.value + tail);
    assert rest2[..4] == Put(|p.value|, 4);
    var rest3 := rest2[4..];
    assert rest3 == p.value + tail;
    assert rest3[..|p.value|] == p.value && rest3[|p.value|..] == tail;
  }

  function LearnAll(o: Options, peer: Peer, ps: seq<Prop>): Peer
    decreases |ps|
  {
    if ps == [] then peer else LearnAll(o, Learn(o, peer, ps[0]), ps[1..])
  }

  lemma {:induction false} ParsePrintedAll(o: Options, ps: seq<Prop>, tail: Data, peer: Peer)
    requires AllFit(ps) && forall k | 0 <= k < |ps| :: !Refused(o, ps[k])
    ensures Parse(o, PrintAll(ps) + tail, peer) == Parse(o, tail, LearnAll(o, peer, ps))
    decreases |ps|
  {
    if ps == [] {
      assert PrintAll(ps) + tail == tail;
    } else {
      Assoc(Print(ps[0]), PrintAll(ps[1..]), tail);
      ParsePrinted(o, ps[0], PrintAll(ps[1..]) + tail, peer);
      ParsePrintedAll(o, ps[1..], tail, Learn(o, peer, ps[0]));
    }
  }

  /* What is accepted. */

  predicate NoneRefused(o: Options, ps: seq<Prop>)
  {
    forall k | 0 <= k < |ps| :: !Refused(o, ps[k])
  }

  // Nothing, or a property that ends right behind its name, or right behind the length of a value to come.
  predicate Cut(tail: Data)
  {
    || tail == []
    || (|tail| >= 2 && |tail| == 1 + tail[0] as int)
    || (|tail| >= 5 && |tail| == 5 + tail[0] as int && Get(tail[|tail| - 4..]) > 0)
  }

  lemma CutAccepted(o: Options, tail: Data, peer: Peer)
    requires Cut(tail)
    ensures Parse(o, tail, peer) == Result(Accepted, peer)
  {
    if |tail| >= 5 && |tail| == 5 + tail[0] as int {
      var rest := tail[1..][tail[0]..];
      assert rest == tail[|tail| - 4..] == rest[..4];
    }
  }

  // Whether the bytes begin with a whole property.
  predicate HasProp(bytes: Data)
  {
    && |bytes| > 1 && |bytes| >= 5 + bytes[0] as int
    && |bytes| >= 5 + bytes[0] as int + Get(bytes[1 + bytes[0] as int..5 + bytes[0] as int])
  }

  lemma FirstProp(bytes: Data) returns (p: Prop, rest: Data)
    requires HasProp(bytes)
    ensures Fits(p) && bytes == Print(p) + rest
    ensures var n, m := 1 + bytes[0] as int, 5 + bytes[0] as int;
            var len := Get(bytes[n..m]);
            p == Prop(bytes[1..n], bytes[m..m + len]) && rest == bytes[m + len..]
  {
    var n := 1 + bytes[0] as int;
    var len := bytes[n..n + 4];
    PutGet(len);
    p, rest := Prop(bytes[1..n], bytes[n + 4..n + 4 + Get(len)]), bytes[n + 4 + Get(len)..];
    assert bytes[n..] == len + (p.value + rest);
    assert bytes == [bytes[0]] + bytes[1..n] + bytes[n..];
    assert bytes == [bytes[0]] + bytes[1..n] + len + p.value + rest;
  }

  lemma NoProp(o: Options, bytes: Data, peer: Peer)
    requires !HasProp(bytes)
    ensures Parse(o, bytes, peer) == Result(if Cut(bytes) then Accepted else Malformed, peer)
  {
    if |bytes| > 1 && |bytes| >= 5 + bytes[0] as int {
      var n := 1 + bytes[0] as int;
      assert bytes[1..][bytes[0]..] == bytes[n..];
      assert bytes[n..][..4] == bytes[n..n + 4];
      assert |bytes| == n + 4 ==> bytes[n..n + 4] == bytes[|bytes| - 4..];
    }
  }

  // The properties that are there as a whole, and what is left behind them, if reading stops without complaint.
  lemma {:induction false} Accept(o: Options, bytes: Data, peer: Peer) returns (ps: seq<Prop>, tail: Data)
    requires Parse(o, bytes, peer).verdict.Accepted?
    ensures AllFit(ps) && NoneRefused(o, ps) && Cut(tail) && bytes == PrintAll(ps) + tail
    decreases |bytes|
  {
    if !HasProp(bytes) {
      NoProp(o, bytes, peer);
      return [], bytes;
    }
    var p, rest := FirstProp(bytes);
    ParsePrinted(o, p, rest, peer);
    var qs;
    qs, tail := Accept(o, rest, Learn(o, peer, p));
    ps := [p] + qs;
    PrintCons(p, qs);
    Assoc(Print(p), PrintAll(qs), tail);
  }

  // Exactly these byte strings are accepted.
  lemma AcceptedIff(o: Options, bytes: Data, peer: Peer)
    ensures Parse(o, bytes, peer).verdict.Accepted? <==>
            exists ps, tail :: AllFit(ps) && NoneRefused(o, ps) && Cut(tail) && bytes == PrintAll(ps) + tail
  {
    if Parse(o, bytes, peer).verdict.Accepted? {
      var ps, tail := Accept(o, bytes, peer);
    }
    forall ps, tail | AllFit(ps) && NoneRefused(o, ps) && Cut(tail) && bytes == PrintAll(ps) + tail
      ensures Parse(o, bytes, peer).verdict.Accepted?
    {
      ParsePrintedAll(o, ps, tail, peer);
      CutAccepted(o, tail, LearnAll(o, peer, ps));
    }
  }

  // A name with no value is let pass, although it is no list of properties.
  lemma NameAlonePasses(o: Options, peer: Peer)
    ensures Parse(o, [1, 88], peer) == Result(Accepted, peer)
    ensures forall ps | AllFit(ps) :: PrintAll(ps) != [1, 88]
  {
    CutAccepted(o, [1, 88], peer);
    forall ps | AllFit(ps) ensures PrintAll(ps) != [1, 88] {
      if ps != [] {
        assert |PrintAll(ps)| >= |Print(ps[0])| >= 5;
      }
    }
  }

  /* The handshake. */

  // Every property is known by its first value.
  predicate Knows(props: map<Data, Data>, ps: seq<Prop>)
  {
    && (forall k | 0 <= k < |ps| :: ps[k].name in props)
    && (forall k | 0 <= k < |ps| && (forall j | 0 <= j < k :: ps[j].name != ps[k].name) ::
          props[ps[k].name] == ps[k].value)
  }

  lemma {:induction false} LearnKnows(o: Options, before: seq<Prop>, peer: Peer, ps: seq<Prop>)
    requires Knows(peer.props, before) && peer.props.Keys == Names(before)
    ensures var w := LearnAll(o, peer, ps);
            Knows(w.props, before + ps) && w.props.Keys == Names(before + ps)
    decreases |ps|
  {
    if ps == [] {
      assert before + ps == before;
    } else {
      var next := before + [ps[0]];
      NamesSnoc(before, ps[0]);
      KnowsSnoc(o, before, peer, ps[0]);
      LearnKnows(o, next, Learn(o, peer, ps[0]), ps[1..]);
      assert next + ps[1..] == before + ps;
    }
  }

  function Names(ps: seq<Prop>): set<Data>
  {
    set k | 0 <= k < |ps| :: ps[k].name
  }

  lemma NamesSnoc(ps: seq<Prop>, p: Prop)
    ensures Names(ps + [p]) == Names(ps) + {p.name}
  {
    var qs := ps + [p];
    forall x | x in Names(ps) + {p.name} ensures x in Names(qs) {
      if x == p.name {
        assert qs[|ps|].name == x;
      } else {
        var k :| 0 <= k < |ps| && ps[k].name == x;
        assert qs[k].name == x;
      }
    }
  }

  lemma KnowsSnoc(o: Options, ps: seq<Prop>, peer: Peer, p: Prop)
    requires Knows(peer.props, ps) && peer.props.Keys == Names(ps)
    ensures Knows(Learn(o, peer, p).props, ps + [p])
  {
    var qs, props := ps + [p], Learn(o, peer, p).props;
    forall k | 0 <= k < |qs| ensures qs[k].name in props {
    }
    forall k | 0 <= k < |qs| && (forall j | 0 <= j < k :: qs[j].name != qs[k].name)
      ensures props[qs[k].name] == qs[k].value
    {
      if k < |ps| {
        assert forall j | 0 <= j < k :: ps[j].name == qs[j].name;
      } else {
        assert forall j | 0 <= j < |ps| :: ps[j].name == qs[j].name;
      }
    }
  }

  lemma FirstLetters()
    ensures SOCKET_TYPE[0] == 83 && IDENTITY[0] == 73 && Ascii("X-")[0] == 88 && SOCKET_TYPE != IDENTITY
  {
    assert "Socket-Type"[0] as int == 83 && "Identity"[0] as int == 73 && "X-"[0] as int == 88;
    assert |SOCKET_TYPE| == 11 && |IDENTITY| == 8;
  }

  // The application's own properties are neither.
  lemma OwnNames(o: Options, k: nat)
    requires ValidOptions(o) && k < |o.appMetadata|
    ensures o.appMetadata[k].name != SOCKET_TYPE && o.appMetadata[k].name != IDENTITY
  {
    FirstLetters();
    assert o.appMetadata[k].name[..2][0] == 88;
  }

  lemma OthersNotRefused(me: Options, peer: Options)
    requires ValidOptions(peer) && peer.kind in Peers(me.kind)
    ensures NoneRefused(me, BasicProperties(peer))
  {
    var said := BasicProperties(peer);
    CheckIsPeers(me.kind, peer.kind);
    FirstLetters();
    var n := |said| - |peer.appMetadata|;
    forall k | 0 <= k < |said| ensures !Refused(me, said[k]) {
      if k >= n {
        OwnNames(peer, k - n);
      }
    }
  }

  lemma {:induction false} IdentityKept(o: Options, peer: Peer, ps: seq<Prop>)
    requires forall k | 0 <= k < |ps| :: ps[k].name != IDENTITY
    ensures LearnAll(o, peer, ps).routingId == peer.routingId
    decreases |ps|
  {
    if ps != [] {
      IdentityKept(o, Learn(o, peer, ps[0]), ps[1..]);
    }
  }

  lemma IdentityHeard(me: Options, peer: Options)
    requires ValidOptions(peer)
    ensures LearnAll(me, Peer([], map[]), BasicProperties(peer)).routingId
            == if me.recvRoutingId && SaysIdentity(peer.kind) then peer.routingId else []
  {
    var said, start := BasicProperties(peer), Peer([], map[]);
    FirstLetters();
    forall k | 0 <= k < |peer.appMetadata| ensures peer.appMetadata[k].name != IDENTITY {
      OwnNames(peer, k);
    }
    var heard := Learn(me, start, said[0]);
    if SaysIdentity(peer.kind) {
      assert said[1..][0] == Prop(IDENTITY, peer.routingId) && said[1..][1..] == peer.appMetadata;
      IdentityKept(me, Learn(me, heard, said[1]), peer.appMetadata);
    } else {
      assert said[1..] == peer.appMetadata;
      IdentityKept(me, heard, peer.appMetadata);
    }
  }

  // Sockets whose peers route by it say who they are.
  lemma IdentitySaid(o: Options)
    requires ValidOptions(o)
    ensures (exists p | p in BasicProperties(o) :: p.name == IDENTITY) <==> o.kind in {REQ, DEALER, ROUTER}
    ensures o.kind in {REQ, DEALER, ROUTER} ==> Prop(IDENTITY, o.routingId) in BasicProperties(o)
  {
    FirstLetters();
    if SaysIdentity(o.kind) {
      assert BasicProperties(o)[1] == Prop(IDENTITY, o.routingId);
    } else {
      forall p | p in BasicProperties(o) ensures p.name != IDENTITY {
        if p != BasicProperties(o)[0] {
          var k :| 0 <= k < |o.appMetadata| && o.appMetadata[k] == p;
          OwnNames(o, k);
        }
      }
    }
  }

  lemma PutSmall(n: Byte)
    ensures Put(n, 4) == [0, 0, 0, n]
  {
    assert Put(0, 1) == [0] && Put(0, 2) == [0, 0] && Put(0, 3) == [0, 0, 0];
  }

  // A DEALER socket with the identity 7.
  lemma Example(o: Options)
    requires o == Options(DEALER, [7], false, [])
    ensures ValidOptions(o)
    ensures PrintAll(BasicProperties(o)) ==
            ([11] + SOCKET_TYPE + [0, 0, 0, 6] + TypeBytes(DEALER)) + ([8] + IDENTITY + [0, 0, 0, 1] + [7])
  {
    var first, second := Prop(SOCKET_TYPE, TypeBytes(DEALER)), Prop(IDENTITY, [7]);
    assert BasicProperties(o) == [first] + [second];
    PutSmall(6);
    PutSmall(1);
    PrintCons(second, []);
    PrintCons(first, [second]);
    assert [second] + [] == [second] && Print(second) + [] == Print(second);
  }

  // What a peer says is what the other side learns, if their types go together; otherwise the handshake ends.
  lemma Handshake(me: Options, peer: Options)
    requires ValidOptions(me) && ValidOptions(peer)
    ensures var said := BasicProperties(peer);
            var heard := Parse(me, PrintAll(said), Peer([], map[]));
            && (heard.verdict.Accepted? <==> peer.kind in Peers(me.kind))
            && (heard.verdict.Accepted? || heard.verdict.Invalid?)
            && (heard.verdict.Accepted? ==>
                  && Knows(heard.peer.props, said) && heard.peer.props.Keys == Names(said)
                  && heard.peer.routingId == if me.recvRoutingId && SaysIdentity(peer.kind) then peer.routingId else [])
  {
    var said := BasicProperties(peer);
    var first := said[0];
    CheckIsPeers(me.kind, peer.kind);
    assert said == [first] + said[1..];
    PrintCons(first, said[1..]);
    ParsePrinted(me, first, PrintAll(said[1..]), Peer([], map[]));
    if peer.kind in Peers(me.kind) {
      OthersNotRefused(me, peer);
      ParsePrintedAll(me, said, [], Peer([], map[]));
      assert PrintAll(said) + [] == PrintAll(said);
      LearnKnows(me, [], Peer([], map[]), said);
      assert [] + said == said;
      IdentityHeard(me, peer);
    }
  }
}
