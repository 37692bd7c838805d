/** Bytes, unsigned 32-bit words and their big-endian wire form (Go's encoding/binary). */
module Bytes {

  type byte = b: int | 0 <= b < 256
  type uint32 = n: int | 0 <= n < 0x1_0000_0000

  datatype Option<+T> = None | Some(value: T)

  function Min(a: int, b: int): int {
    if a <= b then a else b
  }

  /** binary.BigEndian.PutUint32 */
  function PutUint32(n: uint32): (b: seq<byte>)
    ensures |b| == 4
  {
    [n / 0x100_0000, n / 0x1_0000 % 256, n / 0x100 % 256, n % 256]
  }

  /** binary.BigEndian.Uint32 */
  function Uint32(b: seq<byte>): uint32
    requires |b| == 4
  {
    var b0: int, b1: int, b2: int, b3: int := b[0], b[1], b[2], b[3];
    b0 * 0x100_0000 + b1 * 0x1_0000 + b2 * 0x100 + b3
  }

  /** Go's conversion int32(n) of an unsigned word: two's complement. */
  function Int32(n: uint32): (r: int)
    ensures -0x8000_0000 <= r < 0x8000_0000 && (r - n) % 0x1_0000_0000 == 0
  {
    if n < 0x8000_0000 then n else n - 0x1_0000_0000
  }

  lemma Uint32RoundTrip(n: uint32)
    ensures Uint32(PutUint32(n)) == n
  {
    var q := n / 0x100;
    var r := n / 0x1_0000;
    assert n / 0x1_0000 == q / 0x100;
    assert n / 0x100_0000 == r / 0x100;
  }

  lemma PutUint32RoundTrip(b: seq<byte>)
    requires |b| == 4
    ensures PutUint32(Uint32(b)) == b
  {
    var n := Uint32(b);
    var b0: int, b1: int, b2: int := b[0], b[1], b[2];
    assert n / 0x100 == b0 * 0x1_0000 + b1 * 0x100 + b2;
    assert n / 0x1_0000 == b0 * 0x100 + b1;
    assert n / 0x100_0000 == b0;
  }

  ghost predicate Precedes(a: seq<byte>, b: seq<byte>) {
    exists i | 0 <= i < |a| && i < |b| :: a[..i] == b[..i] && a[i] < b[i]
  }

  /** The most significant byte comes first: the order of numbers is the order of their encodings.
      With the round trips this leaves no other encoding in four bytes. */
  lemma BigEndian(n: uint32, m: uint32)
    requires n < m
    ensures Precedes(PutUint32(n), PutUint32(m))
  {
    var a, b := PutUint32(n), PutUint32(m);
    Uint32RoundTrip(n);
    Uint32RoundTrip(m);
    var i := if a[0] != b[0] then 0 else if a[1] != b[1] then 1 else if a[2] != b[2] then 2 else 3;
    assert a[..i] == b[..i] && a[i] < b[i];
  }

  /** Go's copy(dst[at:], src) for a source that fits. */
  method Copy(dst: array<byte>, at: nat, src: seq<byte>)
    requires at + |src| <= dst.Length
    modifies dst
    ensures dst[at..at + |src|] == src
    ensures forall i | 0 <= i < dst.Length && !(at <= i < at + |src|) :: dst[i] == old(dst[i])
  {
    forall i | 0 <= i < |src| {
      dst[at + i] := src[i];
    }
  }

  function Concat(parts: seq<seq<byte>>): seq<byte> {
    if parts == [] then [] else Concat(parts[..|parts| - 1]) + parts[|parts| - 1]
  }

  lemma ConcatNone(parts: seq<seq<byte>>)
    ensures Concat(parts[..0]) == []
  {
  }

  lemma ConcatStep(parts: seq<seq<byte>>, k: nat)
    requires k < |parts|
    ensures Concat(parts[..k + 1]) == Concat(parts[..k]) + parts[k]
  {
    assert parts[..k + 1][..k] == parts[..k];
  }
}
