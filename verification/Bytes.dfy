/** Big-endian integers as the PostgreSQL wire format writes them. */
module Bytes {
  newtype byte = b: int | 0 <= b < 256

  function U16(n: int): (r: seq<byte>)
    requires 0 <= n < 0x1_0000
    ensures |r| == 2
  {
    [(n / 256) as byte, (n % 256) as byte]
  }

  predicate IsI16(n: int) { -0x8000 <= n < 0x8000 }

  function I16(n: int): (r: seq<byte>)
    requires IsI16(n)
    ensures |r| == 2
  {
    U16(if n < 0 then n + 0x1_0000 else n)
  }

  function ReadU16(b: seq<byte>, at: nat): (n: int)
    requires at + 2 <= |b|
    ensures 0 <= n < 0x1_0000
  {
    b[at] as int * 256 + b[at + 1] as int
  }

  function ReadI16(b: seq<byte>, at: nat): (n: int)
    requires at + 2 <= |b|
    ensures IsI16(n)
  {
    var n := ReadU16(b, at);
    if n < 0x8000 then n else n - 0x1_0000
  }

  lemma ReadBackU16(n: int, b: seq<byte>, at: nat)
    requires 0 <= n < 0x1_0000 && at + 2 <= |b| && b[at..at + 2] == U16(n)
    ensures ReadU16(b, at) == n
  {
    assert b[at] == b[at..at + 2][0] && b[at + 1] == b[at..at + 2][1];
  }

  lemma ReadBackI16(n: int, b: seq<byte>, at: nat)
    requires IsI16(n) && at + 2 <= |b| && b[at..at + 2] == I16(n)
    ensures ReadI16(b, at) == n
  {
    ReadBackU16(if n < 0 then n + 0x1_0000 else n, b, at);
  }

  predicate IsI32(n: int) { -0x8000_0000 <= n < 0x8000_0000 }

  function U32(n: int): (r: seq<byte>)
    requires 0 <= n < 0x1_0000_0000
    ensures |r| == 4
  {
    U16(n / 0x1_0000) + U16(n % 0x1_0000)
  }

  function I32(n: int): (r: seq<byte>)
    requires IsI32(n)
    ensures |r| == 4
  {
    U32(if n < 0 then n + 0x1_0000_0000 else n)
  }

  function ReadI32(b: seq<byte>, at: nat): (n: int)
    requires at + 4 <= |b|
    ensures IsI32(n)
  {
    var n := ReadU16(b, at) * 0x1_0000 + ReadU16(b, at + 2);
    if n < 0x8000_0000 then n else n - 0x1_0000_0000
  }

  lemma ReadBackI32(n: int, b: seq<byte>, at: nat)
    requires IsI32(n) && at + 4 <= |b| && b[at..at + 4] == I32(n)
    ensures ReadI32(b, at) == n
  {
    var m := if n < 0 then n + 0x1_0000_0000 else n;
    assert b[at..at + 2] == b[at..at + 4][..2] == U16(m / 0x1_0000);
    assert b[at + 2..at + 4] == b[at..at + 4][2..] == U16(m % 0x1_0000);
    ReadBackU16(m / 0x1_0000, b, at);
    ReadBackU16(m % 0x1_0000, b, at + 2);
  }
}
