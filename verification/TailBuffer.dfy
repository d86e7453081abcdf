/** The ring buffer that keeps the end of a stream of unknown length. */
module TailBuffer {
  import opened Bytes

  /** The last `k` bytes of `b`, or all of it. */
  function Last(b: Bytes, k: nat): (r: Bytes)
    ensures |r| == Min(k, |b|)
  {
    b[|b| - Min(k, |b|)..]
  }

  /** Keeping the tail as one goes is keeping the tail of the whole. */
  lemma LastOfLast(a: Bytes, b: Bytes, k: nat)
    ensures Last(Last(a, k) + b, k) == Last(a + b, k)
  {
  }

  /** The contents of a ring, oldest byte first. */
  function Ring(b: Bytes, pos: nat, full: bool): Bytes
    requires pos <= |b|
  {
    if full then b[pos..] + b[..pos] else b[..pos]
  }

  /** `b` with `piece` written over it at `at`. */
  function Spliced(b: Bytes, at: nat, piece: Bytes): (r: Bytes)
    requires at + |piece| <= |b|
    ensures |r| == |b|
  {
    b[..at] + piece + b[at + |piece|..]
  }

  lemma SplicedHalves(b: Bytes, at: nat, piece: Bytes)
    requires at + |piece| <= |b|
    ensures var r := Spliced(b, at, piece);
            r[..at + |piece|] == b[..at] + piece && r[at + |piece|..] == b[at + |piece|..]
  {
  }

  lemma LastOfSum(a: Bytes, b: Bytes, k: nat)
    requires |b| <= k <= |a| + |b|
    ensures Last(a + b, k) == a[|a| + |b| - k..] + b
  {
  }

  lemma DropFromRing(was: Bytes, at: nat, n: nat)
    requires at + n <= |was|
    ensures (was[at..] + was[..at])[n..] == was[at + n..] + was[..at]
  {
  }

  /** Overwriting a stretch of the ring at its position drops the oldest bytes. */
  lemma RingRound(was: Bytes, at: nat, full: bool, piece: Bytes)
    requires at < |was| && 0 < |piece| <= |was| - at
    ensures var pos := at + |piece|;
            var wraps := pos == |was|;
            Ring(Spliced(was, at, piece), if wraps then 0 else pos, full || wraps)
              == Last(Ring(was, at, full) + piece, |was|)
  {
    var now, pos := Spliced(was, at, piece), at + |piece|;
    SplicedHalves(was, at, piece);
    if full {
      LastOfSum(was[at..] + was[..at], piece, |was|);
      DropFromRing(was, at, |piece|);
      assert now[pos..] + now[..pos] == was[pos..] + was[..at] + piece;
    }
    if pos == |was| {
      assert now[0..] + now[..0] == now[..pos] == now[pos..] + now[..pos];
    }
  }

  /** The same for any ring: one without room holds nothing, before and after. */
  lemma AnyRingRound(was: Bytes, at: nat, full: bool, piece: Bytes, pos: nat)
    requires at + |piece| <= |was| && (piece == [] ==> was == [])
    requires pos == if at + |piece| == |was| then 0 else at + |piece|
    ensures Ring(Spliced(was, at, piece), pos, full || at + |piece| == |was|) == Last(Ring(was, at, full) + piece, |was|)
  {
    if piece != [] {
      RingRound(was, at, full, piece);
    }
  }

  /** Keeping the tail after the first `k` bytes loses nothing of the tail in the end. */
  lemma TailGoesOn(held: Bytes, rest: Bytes, k: nat, size: nat)
    requires k <= |rest|
    ensures Last(Last(held + rest[..k], size) + rest[k..], size) == Last(held + rest, size)
  {
    LastOfLast(held + rest[..k], rest[k..], size);
    assert held + rest[..k] + rest[k..] == held + rest;
  }

  lemma NothingLeft(held: Bytes, size: nat)
    requires |held| <= size
    ensures Last(held + [], size) == held
  {
    assert held + [] == held;
  }

  class TailBuffer {
    const size: nat
    const buffer: array<Byte>
    var writePos: nat
    var full: bool

    ghost predicate Valid()
      reads this, buffer
    {
      buffer.Length == size && writePos <= size && (writePos == size ==> size == 0)
    }

    /** What the buffer holds, oldest byte first. */
    ghost function Contents(): Bytes
      requires Valid()
      reads this, buffer
    {
      Ring(buffer[..], writePos, full)
    }

    constructor (size: nat)
      ensures Valid() && fresh(buffer) && this.size == size && Contents() == []
    {
      this.size := size;
      buffer := new Byte[size](_ => 0);
      writePos := 0;
      full := false;
    }

    method CopyInto(at: nat, piece: Bytes)
      requires at + |piece| <= buffer.Length
      modifies buffer
      ensures buffer[..] == Spliced(old(buffer[..]), at, piece)
    {
      ghost var was := buffer[..];
      forall i | 0 <= i < |piece| {
        buffer[at + i] := piece[i];
      }
      assert buffer[..at] == was[..at];
      assert buffer[at..at + |piece|] == piece;
      assert buffer[at + |piece|..] == was[at + |piece|..];
      assert buffer[..] == buffer[..at] + buffer[at..at + |piece|] + buffer[at + |piece|..];
    }

    /**
      One round of the loop in Write: fill up to the end of the array, then wrap. It gets
      further exactly if the buffer has any room at all.
    */
    method Round(p: Bytes) returns (toCopy: nat)
      requires Valid() && p != []
      modifies this, buffer
      ensures Valid()
      ensures toCopy <= |p| && (0 < toCopy <==> 0 < size)
      ensures Contents() == Last(old(Contents()) + p[..toCopy], size)
    {
      var available := size - writePos;
      toCopy := |p|;
      if toCopy > available {
        toCopy := available;
      }

      ghost var was, at, wasFull, piece := buffer[..], writePos, full, p[..toCopy];
      CopyInto(writePos, p[..toCopy]);
      writePos := writePos + toCopy;
      if writePos >= size {
        writePos := 0;
        full := true;
      }
      AnyRingRound(was, at, wasFull, piece, writePos);
    }

    /** A write ends, and keeps the tail, unless there are bytes and no room for any. */
    method Write(p: Bytes) returns (n: nat)
      requires Valid() && (0 < size || p == [])
      modifies this, buffer
      ensures Valid()
      ensures n == |p|
      ensures Contents() == Last(old(Contents()) + p, size)
    {
      n := |p|;
      var rest := p;
      ghost var final := Last(Contents() + p, size);
      while |rest| > 0
        invariant Valid() && Last(Contents() + rest, size) == final
        decreases |rest|
      {
        ghost var held := Contents();
        var toCopy := Round(rest);
        TailGoesOn(held, rest, toCopy, size);
        rest := rest[toCopy..];
      }
      NothingLeft(Contents(), size);
    }

    method Bytes() returns (r: Bytes)
      requires Valid()
      ensures r == Contents()
    {
      if !full {
        return buffer[..writePos];
      }
      var result := new Byte[size](_ => 0);
      var tail := size - writePos;
      forall i | 0 <= i < tail {
        result[i] := buffer[writePos + i];
      }
      forall i | 0 <= i < writePos {
        result[tail + i] := buffer[i];
      }
      assert result[..tail] == buffer[writePos..];
      assert result[tail..] == buffer[..writePos];
      assert result[..] == result[..tail] + result[tail..];
      return result[..];
    }
  }

  /** What a fresh buffer of the given size holds after a sequence of writes. */
  function Held(size: nat, writes: seq<Bytes>): Bytes {
    if writes == [] then [] else Last(Held(size, writes[..|writes| - 1]) + writes[|writes| - 1], size)
  }

  lemma HeldNext(size: nat, writes: seq<Bytes>, i: nat)
    requires i < |writes|
    ensures Held(size, writes[..i + 1]) == Last(Held(size, writes[..i]) + writes[i], size)
  {
    assert writes[..i + 1][..i] == writes[..i];
  }

  /** However the stream is cut into writes, the buffer holds the end of the stream. */
  lemma {:induction false} HeldIsTailOfStream(size: nat, writes: seq<Bytes>)
    ensures Held(size, writes) == Last(Flatten(writes), size)
  {
    if writes != [] {
      var k := |writes| - 1;
      HeldIsTailOfStream(size, writes[..k]);
      assert writes == writes[..k] + [writes[k]];
      FlattenAppend(writes[..k], writes[k]);
      LastOfLast(Flatten(writes[..k]), writes[k], size);
    }
  }

  /** Any sequence of writes into a new buffer, read back. */
  method WriteAll(size: nat, writes: seq<Bytes>) returns (r: Bytes)
    requires 0 < size || forall i :: 0 <= i < |writes| ==> writes[i] == []
    ensures r == Last(Flatten(writes), size)
  {
    var tb := new TailBuffer(size);
    for i := 0 to |writes|
      invariant tb.Valid() && fresh(tb) && fresh(tb.buffer) && tb.size == size
      invariant tb.Contents() == Held(size, writes[..i])
    {
      var _ := tb.Write(writes[i]);
      HeldNext(size, writes, i);
    }
    assert writes[..|writes|] == writes;
    HeldIsTailOfStream(size, writes);
    r := tb.Bytes();
  }
}
