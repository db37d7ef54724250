/** Little-endian fields and in-place splices, shared by every on-disk format. */
module Bytes {

  datatype Option<+T> = None | Some(value: T)

  type byte = b: int | 0 <= b < 256

  function Pow256(n: nat): (r: nat)
    ensures r > 0
  {
    if n == 0 then 1 else 256 * Pow256(n - 1)
  }

  /** `v` as `n` little-endian bytes (`to_le_bytes`). */
  function LE(v: nat, n: nat): (r: seq<byte>)
    requires v < Pow256(n)
    ensures |r| == n
  {
    if n == 0 then [] else [v % 256] + LE(v / 256, n - 1)
  }

  /** The number a little-endian field stands for (`from_le_bytes`). */
  function FromLE(s: seq<byte>): (r: nat)
    ensures r < Pow256(|s|)
  {
    if |s| == 0 then 0 else s[0] + 256 * FromLE(s[1..])
  }

  lemma {:induction false} LERoundTrip(v: nat, n: nat)
    requires v < Pow256(n)
    ensures FromLE(LE(v, n)) == v
  {
    if n > 0 {
      LERoundTrip(v / 256, n - 1);
      assert LE(v, n)[1..] == LE(v / 256, n - 1);
    }
  }

  /** The last byte of a field is its most significant one. */
  lemma {:induction false} LastDigit(s: seq<byte>, d: byte)
    ensures FromLE(s + [d]) == FromLE(s) + d * Pow256(|s|)
  {
    if s == [] {
      assert [d][1..] == [];
    } else {
      LastDigit(s[1..], d);
      assert (s + [d])[1..] == s[1..] + [d];
      var x, y, q := FromLE(s[1..] + [d]), FromLE(s[1..]), Pow256(|s| - 1);
      assert Pow256(|s|) == 256 * q;
      Scale(x, y, d, q);
    }
  }

  lemma Scale(x: int, y: int, d: int, q: int)
    requires x == y + d * q
    ensures 256 * x == 256 * y + d * (256 * q)
  {}

  lemma Widths()
    ensures Pow256(2) == 0x1_0000
    ensures Pow256(4) == 0x1_0000_0000
    ensures Pow256(8) == 0x1_0000_0000_0000_0000
  {
    assert Pow256(2) == 256 * Pow256(1);
    assert Pow256(3) == 256 * Pow256(2);
    assert Pow256(4) == 256 * Pow256(3);
    assert Pow256(5) == 256 * Pow256(4);
    assert Pow256(6) == 256 * Pow256(5);
    assert Pow256(7) == 256 * Pow256(6);
  }

  const U64_SIZE := 0x1_0000_0000_0000_0000

  /** The `n`-byte field at `off`. */
  function Field(p: seq<byte>, off: nat, n: nat): (r: nat)
    requires off + n <= |p|
    ensures r < Pow256(n)
  {
    FromLE(p[off..off + n])
  }

  /** A 16-bit little-endian field, as slot directories use it. */
  function U16(v: nat): (r: seq<byte>)
    requires v < 0x1_0000
    ensures |r| == 2
  {
    [v % 256, v / 256]
  }

  function U16At(p: seq<byte>, off: nat): (r: nat)
    requires off + 2 <= |p|
    ensures r < 0x1_0000
  {
    (p[off] as int) + 256 * (p[off + 1] as int)
  }

  /** Slot directories use ordinary two-byte fields. */
  lemma {:induction false} U16IsField(p: seq<byte>, off: nat, v: nat)
    requires off + 2 <= |p| && v < 0x1_0000
    ensures U16At(p, off) == Field(p, off, 2) && FromLE(U16(v)) == v
  {
    TwoBytes(p[off], p[off + 1]);
    assert p[off..off + 2] == [p[off], p[off + 1]];
    TwoBytes(v % 256, v / 256);
  }

  lemma TwoBytes(a: byte, b: byte)
    ensures FromLE([a, b]) == a + 256 * b
  {
    assert [a, b][1..] == [b] && [b][1..] == [];
    assert FromLE([b]) == b;
  }

  /** `p` with the bytes from `off` on replaced by `b`. */
  function Splice(p: seq<byte>, off: nat, b: seq<byte>): (r: seq<byte>)
    requires off + |b| <= |p|
    ensures |r| == |p|
    ensures forall k :: 0 <= k < |p| ==> r[k] == if off <= k < off + |b| then b[k - off] else p[k]
  {
    p[..off] + b + p[off + |b|..]
  }

  /** Copy `b` into the buffer at `off` (`copy_from_slice`). */
  method CopyInto(page: array<byte>, off: nat, b: seq<byte>)
    requires off + |b| <= page.Length
    modifies page
    ensures page[..] == Splice(old(page[..]), off, b)
  {
    ghost var before := page[..];
    for k := 0 to |b|
      invariant forall m :: 0 <= m < k ==> page[off + m] == b[m]
      invariant forall m :: 0 <= m < page.Length && !(off <= m < off + k) ==> page[m] == before[m]
    {
      page[off + k] := b[k];
    }
    var want := Splice(before, off, b);
    assert forall m :: 0 <= m < page.Length ==> page[..][m] == want[m];
  }
}
