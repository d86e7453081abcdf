/** Byte strings shared by the models of the streaming code. */
module Bytes {

  type Byte = n: int | 0 <= n < 256

  type Bytes = seq<Byte>

  function Zeros(n: nat): (z: Bytes)
    ensures |z| == n
    ensures forall i :: 0 <= i < n ==> z[i] == 0
  {
    seq(n, _ => 0)
  }

  function Min(a: int, b: int): int {
    if a < b then a else b
  }

  function Max(a: int, b: int): int {
    if a < b then b else a
  }

  lemma SliceTake(b: Bytes, from: nat, to: nat, n: nat)
    requires from <= to <= |b| && n <= to - from
    ensures b[from..to][..n] == b[from..from + n]
  {
  }

  /** Concatenation of a list of chunks. */
  function Flatten(chunks: seq<Bytes>): Bytes {
    if chunks == [] then [] else chunks[0] + Flatten(chunks[1..])
  }

  lemma {:induction false} FlattenAppend(chunks: seq<Bytes>, last: Bytes)
    ensures Flatten(chunks + [last]) == Flatten(chunks) + last
  {
    if chunks == [] {
      assert [last][1..] == [];
    } else {
      FlattenAppend(chunks[1..], last);
      assert (chunks + [last])[1..] == chunks[1..] + [last];
    }
  }
}
