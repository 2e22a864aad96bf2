/** The security mechanism's part in the handshake, as it works on buffers. */
module Mechanism {
  import opened Bytes
  import opened Metadata
  import opened Sequences
  import opened Wire

  // Appends d to what lies between from and at.
  method Append(d: Data, buf: array<Byte>, ghost from: nat, at: nat)
    requires from <= at && at + |d| <= buf.Length
    modifies buf
    ensures buf[from..at + |d|] == old(buf[from..at]) + d && buf[..from] == old(buf[..from])
  {
    WriteBytes(d, buf, at);
    assert buf[..from] == buf[..at][..from] && buf[from..at] == buf[..at][from..];
    assert buf[from..at + |d|] == buf[from..at] + buf[at..at + |d|];
  }

  // Writes one property and returns how long it is.
  method AddProperty(buf: array<Byte>, at: nat, capacity: nat, name: Data, value: Data, ghost from: nat)
    returns (n: nat)
    requires from <= at && at + capacity <= buf.Length
    requires |name| <= 255 && |value| <= 0x7FFFFFFF && PropLen(name, |value|) <= capacity
    modifies buf
    ensures n == PropLen(name, |value|) && Fits(Prop(name, value))
    ensures buf[from..at + n] == old(buf[from..at]) + Print(Prop(name, value)) && buf[..from] == old(buf[..from])
  {
    ShortValueFits(Prop(name, value));
    Append([|name|] + name, buf, from, at);
    Append(Put(|value|, 4) + value, buf, from, at + 1 + |name|);
    n := PropLen(name, |value|);
    Assoc(old(buf[from..at]), [|name|] + name, Put(|value|, 4) + value);
    Assoc([|name|] + name, Put(|value|, 4), value);
  }

  class Mechanism {
    const options: Options
    var routingId: Data
    var zapProperties: map<Data, Data>
    var zmtpProperties: map<Data, Data>

    constructor (options: Options)
      ensures this.options == options && routingId == [] && zapProperties == zmtpProperties == map[]
    {
      this.options := options;
      routingId, zapProperties, zmtpProperties := [], map[], map[];
    }

    // The length foretold is the length written.
    method BasicPropertiesLen() returns (n: nat)
      requires ValidOptions(options)
      ensures n == |PrintAll(BasicProperties(options))|
    {
      var metaLen, k := 0, 0;
      var own := options.appMetadata;
      FitOwn(options);
      while k < |own|
        invariant k <= |own| && AllFit(own[..k]) && metaLen == |PrintAll(own[..k])|
      {
        PrintSnoc(own[..k], own[k]);
        assert own[..k + 1] == own[..k] + [own[k]];
        metaLen := metaLen + PropLen(own[k].name, |own[k].value|);
        k := k + 1;
      }
      assert own[..k] == own;
      n := PropLen(SOCKET_TYPE, |TypeBytes(options.kind)|) + metaLen
           + if SaysIdentity(options.kind) then PropLen(IDENTITY, |options.routingId|) else 0;
      BasicLen(options);
    }

    method AddBasicProperties(buf: array<Byte>, at: nat, capacity: nat) returns (n: nat)
      requires ValidOptions(options) && at + capacity <= buf.Length
      requires |PrintAll(BasicProperties(options))| <= capacity
      modifies buf
      ensures n == |PrintAll(BasicProperties(options))|
      ensures buf[at..at + n] == PrintAll(BasicProperties(options)) && buf[..at] == old(buf[..at])
    {
      ghost var all := BasicProperties(options);
      n := AddFixed(buf, at, capacity, all);
      n := AddOwn(buf, at, n, capacity, all, if SaysIdentity(options.kind) then 2 else 1);
    }

    // The properties every socket has, before those of the application.
    method AddFixed(buf: array<Byte>, at: nat, capacity: nat, ghost all: seq<Prop>) returns (n: nat)
      requires ValidOptions(options) && at + capacity <= buf.Length
      requires all == BasicProperties(options) && |PrintAll(all)| <= capacity
      modifies buf
      ensures var first := if SaysIdentity(options.kind) then 2 else 1;
              && n <= capacity && n == |PrintAll(all[..first])| && buf[at..at + n] == PrintAll(all[..first])
      ensures buf[..at] == old(buf[..at])
    {
      assert all[..0] == [] && all[0] == Prop(SOCKET_TYPE, TypeBytes(options.kind));
      n := AddNext(buf, at, 0, capacity, SOCKET_TYPE, TypeBytes(options.kind), all, 0);
      if SaysIdentity(options.kind) {
        assert all[1] == Prop(IDENTITY, options.routingId);
        n := AddNext(buf, at, n, capacity, IDENTITY, options.routingId, all, 1);
      }
    }

    method AddOwn(buf: array<Byte>, at: nat, n: nat, capacity: nat, ghost all: seq<Prop>, ghost first: nat)
      returns (n': nat)
      requires at + capacity <= buf.Length && AllFit(all) && |PrintAll(all)| <= capacity
      requires first <= |all| && all[first..] == options.appMetadata && ValidOptions(options)
      requires n <= capacity && n == |PrintAll(all[..first])| && buf[at..at + n] == PrintAll(all[..first])
      modifies buf
      ensures n' == |PrintAll(all)| && buf[at..at + n'] == PrintAll(all) && buf[..at] == old(buf[..at])
    {
      n' := n;
      var own, k := options.appMetadata, 0;
      while k < |own|
        invariant k <= |own| && buf[..at] == old(buf[..at])
        invariant n' <= capacity && n' == |PrintAll(all[..first + k])| && buf[at..at + n'] == PrintAll(all[..first + k])
      {
        assert all[first + k] == own[k];
        n' := AddNext(buf, at, n', capacity, own[k].name, own[k].value, all, first + k);
        k := k + 1;
      }
      assert all[..first + k] == all;
    }

    // Writes the j-th of all properties behind those before it; there is room for all of them.
    method AddNext(buf: array<Byte>, at: nat, n: nat, capacity: nat, name: Data, value: Data,
                   ghost all: seq<Prop>, ghost j: nat)
      returns (n': nat)
      requires at + capacity <= buf.Length && AllFit(all) && |PrintAll(all)| <= capacity
      requires j < |all| && all[j] == Prop(name, value) && |value| <= 0x7FFFFFFF
      requires n <= capacity && n == |PrintAll(all[..j])| && buf[at..at + n] == PrintAll(all[..j])
      modifies buf
      ensures n' <= capacity && n' == |PrintAll(all[..j + 1])| && buf[at..at + n'] == PrintAll(all[..j + 1])
      ensures buf[..at] == old(buf[..at])
    {
      PrintSnoc(all[..j], all[j]);
      assert all[..j + 1] == all[..j] + [all[j]];
      PrintFront(all, j + 1);
      var len := AddProperty(buf, at + n, capacity - n, name, value, at);
      n' := n + len;
    }

    // A command of exactly the size needed.
    method MakeCommandWithBasicProperties(prefix: Data) returns (data: array<Byte>)
      requires ValidOptions(options)
      ensures fresh(data) && data[..] == prefix + PrintAll(BasicProperties(options))
    {
      var len := BasicPropertiesLen();
      data := new Byte[|prefix| + len](_ => 0);
      WriteBytes(prefix, data, 0);
      assert data[..|prefix|] == prefix;
      var n := AddBasicProperties(data, |prefix|, len);
      assert data[..] == data[..|prefix|] + data[|prefix|..|prefix| + n];
    }

    ghost function Known(zap: bool): Peer
      reads this
    {
      Peer(routingId, if zap then zapProperties else zmtpProperties)
    }

    // 0, -1 with EINVAL or -1 with EPROTO; what has been read up to an error is kept.
    method ParseMetadata(bytes: Data, zap: bool) returns (verdict: Verdict)
      modifies this
      ensures Result(verdict, Known(zap)) == Parse(options, bytes, old(Known(zap)))
      ensures if zap then zmtpProperties == old(zmtpProperties) else zapProperties == old(zapProperties)
    {
      var pos: nat, left: nat := 0, |bytes|;
      ghost var goal := Parse(options, bytes, Known(zap));
      assert bytes[0..] == bytes;
      while left > 1
        invariant pos + left == |bytes|
        invariant if zap then zmtpProperties == old(zmtpProperties) else zapProperties == old(zapProperties)
        invariant goal == Parse(options, bytes[pos..], Known(zap))
      {
        ghost var rest := bytes[pos..];
        var whole, p;
        whole, p, pos, left := ReadProperty(bytes, pos, left);
        if !whole {
          NoProp(options, rest, Known(zap));
          return if left > 0 then Malformed else Accepted;
        }
        ParsePrinted(options, p, bytes[pos..], Known(zap));
        if Refused(options, p) {
          return Invalid;
        }
        Keep(p, zap);
      }
      verdict := if left > 0 then Malformed else Accepted;
    }

    // Reads name, length and value, as far as they are there.
    method ReadProperty(bytes: Data, pos: nat, left: nat) returns (whole: bool, p: Prop, pos': nat, left': nat)
      requires pos + left == |bytes| && left > 1
      ensures pos' + left' == |bytes| && left' < left
      ensures whole ==> Fits(p) && bytes[pos..] == Print(p) + bytes[pos'..]
      ensures !whole ==> !HasProp(bytes[pos..]) && (left' == 0 <==> Cut(bytes[pos..]))
    {
      whole, p := false, Prop([], []);
      ghost var rest := bytes[pos..];
      var nameLen := bytes[pos] as int;
      assert rest[0] == bytes[pos];
      pos', left' := pos + 1, left - 1;
      if left' < nameLen {
        return;
      }
      var name := bytes[pos'..pos' + nameLen];
      pos', left' := pos' + nameLen, left' - nameLen;
      if left' < 4 {
        return;
      }
      var valueLen := Get(bytes[pos'..pos' + 4]);
      assert rest[1 + nameLen..5 + nameLen] == bytes[pos'..pos' + 4];
      pos', left' := pos' + 4, left' - 4;
      if left' < valueLen {
        assert left' == 0 ==> rest[|rest| - 4..] == bytes[pos' - 4..pos'];
        return;
      }
      whole, p := true, Prop(name, bytes[pos'..pos' + valueLen]);
      pos', left' := pos' + valueLen, left' - valueLen;
      ghost var q, more := FirstProp(rest);
      assert rest[1..1 + nameLen] == name;
      assert rest[5 + nameLen..5 + nameLen + valueLen] == p.value && rest[5 + nameLen + valueLen..] == bytes[pos'..];
    }

    method Keep(p: Prop, zap: bool)
      modifies this
      ensures Known(zap) == Learn(options, old(Known(zap)), p)
      ensures if zap then zmtpProperties == old(zmtpProperties) else zapProperties == old(zapProperties)
    {
      if p.name == IDENTITY && options.recvRoutingId {
        routingId := p.value;
      }
      if zap {
        if p.name !in zapProperties {
          zapProperties := zapProperties[p.name := p.value];
        }
      } else if p.name !in zmtpProperties {
        zmtpProperties := zmtpProperties[p.name := p.value];
      }
    }
  }

  lemma FitOwn(o: Options)
    requires ValidOptions(o)
    ensures AllFit(o.appMetadata)
  {
    forall k | 0 <= k < |o.appMetadata| ensures Fits(o.appMetadata[k]) {
      ShortValueFits(o.appMetadata[k]);
    }
  }

  lemma BasicLen(o: Options)
    requires ValidOptions(o) && AllFit(o.appMetadata)
    ensures |PrintAll(BasicProperties(o))| ==
            PropLen(SOCKET_TYPE, |TypeBytes(o.kind)|) + |PrintAll(o.appMetadata)|
            + if SaysIdentity(o.kind) then PropLen(IDENTITY, |o.routingId|) else 0
  {
    var all := BasicProperties(o);
    if SaysIdentity(o.kind) {
      assert all[1..][1..] == o.appMetadata;
    } else {
      assert all[1..] == o.appMetadata;
    }
  }

  lemma {:induction false} PrintFront(ps: seq<Prop>, j: nat)
    requires AllFit(ps) && j <= |ps|
    ensures |PrintAll(ps[..j])| <= |PrintAll(ps)|
    decreases |ps| - j
  {
    if j < |ps| {
      PrintSnoc(ps[..j], ps[j]);
      assert ps[..j + 1] == ps[..j] + [ps[j]];
      PrintFront(ps, j + 1);
    } else {
      assert ps[..j] == ps;
    }
  }
}
