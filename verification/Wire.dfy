/** Integers on the wire: network byte order. */
module Wire {
  import opened Bytes

  function Power(k: nat): (p: nat)
    ensures p > 0
  {
    if k == 0 then 1 else 256 * Power(k - 1)
  }

  // The k lowest bytes of n, the highest of them first.
  function Put(n: nat, k: nat): (bytes: seq<Byte>)
    ensures |bytes| == k
  {
    if k == 0 then [] else Put(n / 256, k - 1) + [n % 256]
  }

  function Get(bytes: seq<Byte>): nat
  {
    if bytes == [] then 0 else 256 * Get(bytes[..|bytes| - 1]) + bytes[|bytes| - 1]
  }

  lemma ByteOff(n: nat, b: nat)
    requires b > 0
    ensures n / (256 * b) == n / 256 / b
  {
    var m := n / 256;
    var q, r := m / b, 256 * (m % b) + n % 256;
    assert m == b * q + m % b;
    assert n == 256 * (b * q) + r == 256 * b * q + r;
    Quotient(n, 256 * b, q, r);
  }

  lemma Quotient(n: nat, d: nat, q: nat, r: nat)
    requires n == d * q + r && r < d
    ensures n / d == q
  {
    var more := n / d - q;
    assert n == d * (n / d) + n % d;
    assert d * more == r - n % d;
    assert more >= 1 ==> d * more >= d;
    assert more <= -1 ==> d * (more + 1) <= 0;
  }

  // Each byte counts 256 times as much as the one behind it.
  lemma {:induction false} PutByte(n: nat, k: nat, i: nat)
    requires i < k
    ensures Put(n, k)[i] == n / Power(k - 1 - i) % 256
  {
    if i < k - 1 {
      PutByte(n / 256, k - 1, i);
      ByteOff(n, Power(k - 2 - i));
    }
  }

  lemma {:induction false} GetPut(n: nat, k: nat)
    requires n < Power(k)
    ensures Get(Put(n, k)) == n
  {
    if k > 0 {
      assert n / 256 < Power(k - 1);
      GetPut(n / 256, k - 1);
      assert Put(n, k)[..k - 1] == Put(n / 256, k - 1);
    }
  }

  lemma {:induction false} PutGet(bytes: seq<Byte>)
    ensures Get(bytes) < Power(|bytes|) && Put(Get(bytes), |bytes|) == bytes
  {
    if bytes != [] {
      var front := bytes[..|bytes| - 1];
      PutGet(front);
      assert Get(bytes) / 256 == Get(front) && Get(bytes) % 256 == bytes[|bytes| - 1];
      assert bytes == front + [bytes[|bytes| - 1]];
    }
  }
}
