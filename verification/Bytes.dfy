/** Bytes as the engine's `unsigned char`: every assignment to one is checked to lie in 0..255. */
module Bytes {
  type Byte = x: int | 0 <= x < 256

  type Data = seq<Byte>

  datatype Option<+T> = None | Some(value: T)

  // The size of a message structure without the fields of its smallest form; messages up to this many bytes
  // lie in the structure itself.
  const MAX_VSM_SIZE := 64 - (8 + 3 + 16 + 4)

  method CopyBytes(data: array<Byte>, at: nat, dest: array<Byte>, pos: nat, n: nat)
    requires dest != data && pos + n <= dest.Length && at + n <= data.Length
    modifies dest
    ensures dest[pos..pos + n] == data[at..at + n] && dest[..pos] == old(dest[..pos])
  {
    var k := 0;
    while k < n
      invariant k <= n
      invariant dest[..pos] == old(dest[..pos]) && dest[pos..pos + k] == data[at..at + k]
    {
      dest[pos + k] := data[at + k];
      k := k + 1;
    }
  }

  method WriteBytes(d: Data, buf: array<Byte>, at: nat)
    requires at + |d| <= buf.Length
    modifies buf
    ensures buf[at..at + |d|] == d && buf[..at] == old(buf[..at])
  {
    var k := 0;
    while k < |d|
      invariant k <= |d| && buf[..at] == old(buf[..at]) && buf[at..at + k] == d[..k]
    {
      buf[at + k] := d[k];
      k := k + 1;
    }
  }
}
