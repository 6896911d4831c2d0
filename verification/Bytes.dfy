/** Byte strings and the big-endian length fields of image containers. */
module Bytes {
  type Byte = n: nat | n < 256 witness 0
  type Bytes = seq<Byte>

  function U16(b: Bytes): nat
    requires |b| >= 2
  {
    var hi: int := b[0];
    hi * 256 + b[1]
  }

  function U32(b: Bytes): nat
    requires |b| >= 4
  {
    U16(b) * 0x1_0000 + U16(b[2..])
  }

  function Flatten(parts: seq<Bytes>): Bytes {
    if parts == [] then [] else parts[0] + Flatten(parts[1..])
  }

  lemma {:induction false} FlattenAppend(a: seq<Bytes>, b: seq<Bytes>)
    ensures Flatten(a + b) == Flatten(a) + Flatten(b)
  {
    if a == [] {
      assert a + b == b;
    } else {
      assert (a + b)[0] == a[0] && (a + b)[1..] == a[1..] + b;
      FlattenAppend(a[1..], b);
    }
  }

  /** Length fields are read most significant byte first. */
  lemma BigEndian(a: Byte, b: Byte, c: Byte, d: Byte)
    ensures U16([a, b]) == 0x100 * (a as int) + b
    ensures U32([a, b, c, d]) == 0x100_0000 * (a as int) + 0x1_0000 * (b as int) + 0x100 * (c as int) + d
  {
    assert [a, b, c, d][2..] == [c, d];
  }
}
