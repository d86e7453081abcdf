/**
  What the inspection reads and what it leaves for the external tools: the synthetic VMDK
  file, which holds both ends of the stream, and the size of a raw image.
*/
module ImageInfo {
  import opened Bytes
  import opened TailBuffer

  const HEAD_SIZE: nat := 10 * 1024 * 1024
  const TAIL_SIZE: nat := 50 * 1024 * 1024
  const SAMPLE_SIZE: nat := 64 * 1024 * 1024

  datatype ReadEnd = More | EndOfFile | UnexpectedEnd | ReadError

  datatype Result<T> = Ok(value: T) | Err

  /** A reader that hands out `rest` in pieces of its own choosing, then ends or fails. */
  class Reader {
    var rest: Bytes
    const fails: bool

    constructor (data: Bytes, fails: bool)
      ensures rest == data && this.fails == fails
    {
      this.rest := data;
      this.fails := fails;
    }

    method Read(max: nat) returns (b: Bytes, end: ReadEnd)
      requires 0 < max
      modifies this
      ensures |b| <= max && old(rest) == b + rest
      ensures old(rest) != [] ==> b != [] && end == More
      ensures old(rest) == [] ==> end == if fails then ReadError else EndOfFile
    {
      if rest == [] {
        return [], if fails then ReadError else EndOfFile;
      }
      var n: nat :| 0 < n <= max && n <= |rest|;
      b, end := rest[..n], More;
      rest := rest[n..];
    }
  }

  /** Reads exactly `n` bytes unless the reader ends before. */
  method ReadFull(r: Reader, n: nat) returns (b: Bytes, end: ReadEnd)
    modifies r
    ensures old(r.rest) == b + r.rest && |b| == Min(n, |old(r.rest)|)
    ensures |b| == n ==> end == More
    ensures |b| < n ==> end == if r.fails then ReadError else if b == [] then EndOfFile else UnexpectedEnd
  {
    b, end := [], More;
    while |b| < n
      invariant |b| <= n && old(r.rest) == b + r.rest && end == More
      decreases |r.rest|, n - |b|
    {
      var piece, e := r.Read(n - |b|);
      if e != More {
        end := if e == EndOfFile && b != [] then UnexpectedEnd else e;
        return;
      }
      b := b + piece;
    }
  }

  /** Copies the reader into the buffer. */
  method CopyToTail(tail: TailBuffer, r: Reader) returns (written: Result<nat>)
    requires tail.Valid() && 0 < tail.size
    modifies r, tail, tail.buffer
    ensures tail.Valid() && r.rest == []
    ensures tail.Contents() == Last(old(tail.Contents()) + old(r.rest), tail.size)
    ensures written == if r.fails then Err else Ok(|old(r.rest)|)
  {
    ghost var final := Last(tail.Contents() + r.rest, tail.size);
    ghost var total := |r.rest|;
    var n: nat := 0;
    while true
      invariant tail.Valid() && n + |r.rest| == total
      invariant Last(tail.Contents() + r.rest, tail.size) == final
      decreases |r.rest|
    {
      ghost var held, rest := tail.Contents(), r.rest;
      var piece, end := r.Read(32 * 1024);
      if end != More {
        NothingLeft(held, tail.size);
        return if end == EndOfFile then Ok(n) else Err;
      }
      var k := tail.Write(piece);
      assert rest[..k] == piece && rest[k..] == r.rest;
      TailGoesOn(held, rest, k, tail.size);
      n := n + k;
    }
  }

  // ---------------------------------------------------------------- the synthetic file

  /** The bytes of a file after writing `b` at `pos`: a gap before it reads as zeros. */
  function Overwritten(file: Bytes, pos: nat, b: Bytes): Bytes {
    if b == [] then file
    else if pos <= |file| then
      file[..pos] + b + (if pos + |b| <= |file| then file[pos + |b|..] else [])
    else file + Zeros(pos - |file|) + b
  }

  class TempFile {
    var content: Bytes
    var pos: nat

    constructor ()
      ensures content == [] && pos == 0
    {
      content, pos := [], 0;
    }

    method Write(b: Bytes)
      modifies this
      ensures content == Overwritten(old(content), old(pos), b) && pos == old(pos) + |b|
    {
      content := Overwritten(content, pos, b);
      pos := pos + |b|;
    }

    method Seek(offset: nat)
      modifies this
      ensures pos == offset && content == old(content)
    {
      pos := offset;
    }
  }

  /**
    `file` stands for the stream `head + copied`: it has its length, its head and its last
    bytes, at the places where the stream has them, and nothing in between.
  */
  predicate Synthetic(file: Bytes, head: Bytes, copied: Bytes) {
    var tail := Last(copied, TAIL_SIZE);
    && |file| == |head| + |copied|
    && file[..|head|] == head
    && file[|file| - |tail|..] == tail
    && forall i :: |head| <= i < |file| - |tail| ==> file[i] == 0
  }

  /** Head and tail written one after the other, with or without a gap. */
  lemma HeadThenTail(head: Bytes, data: Bytes, offset: int)
    ensures Overwritten([], 0, head) == head
    ensures Overwritten(head, Max(offset, |head|), data) ==
            if data == [] then head else head + Zeros(Max(offset - |head|, 0)) + data
  {
    assert [] + head + [] == head;
    if offset <= |head| {
      assert head[..|head|] + data + [] == head + Zeros(0) + data;
    }
  }

  /** The file for any claimed total size: head, gap and tail, never overlapping. */
  method CreateSyntheticVMDK(head: Bytes, tail: TailBuffer, totalSize: int) returns (file: Bytes)
    requires tail.Valid()
    ensures var data := tail.Contents();
            file == if data == [] then head
                    else head + Zeros(Max(totalSize - |data| - |head|, 0)) + data
  {
    var tmp := new TempFile();
    tmp.Write(head);
    var tailData := tail.Bytes();
    var tailOffset := totalSize - |tailData|;
    if tailOffset > |head| {
      tmp.Seek(tailOffset);
    }
    tmp.Write(tailData);
    file := tmp.content;
    HeadThenTail(head, tailData, tailOffset);
  }

  /** With the true total size the gap is exactly the part that was not kept. */
  lemma GapFits(head: Bytes, copied: Bytes, file: Bytes)
    requires var data := Last(copied, TAIL_SIZE);
             file == if data == [] then head
                     else head + Zeros(Max(|head| + |copied| - |data| - |head|, 0)) + data
    ensures Synthetic(file, head, copied)
  {
  }

  /** Streams what follows the head through a new tail buffer. */
  method FillTail(headerRest: Bytes, r: Reader) returns (tail: TailBuffer, written: Result<nat>)
    modifies r
    ensures fresh(tail) && tail.Valid()
    ensures tail.Contents() == Last(headerRest + old(r.rest), TAIL_SIZE)
    ensures written == if r.fails then Err else Ok(|old(r.rest)|)
  {
    ghost var rest := r.rest;
    tail := new TailBuffer(TAIL_SIZE);
    if headerRest != [] {
      var _ := tail.Write(headerRest);
      assert [] + headerRest == headerRest;
    }
    assert tail.Contents() == Last(headerRest, TAIL_SIZE);
    written := CopyToTail(tail, r);
    LastOfLast(headerRest, rest, TAIL_SIZE);
  }

  /** Streams what follows the head through the tail buffer and writes the file. */
  method StreamAndCreate(head: Bytes, headerRest: Bytes, r: Reader) returns (file: Result<Bytes>)
    modifies r
    ensures file.Err? <==> r.fails
    ensures file.Ok? ==> Synthetic(file.value, head, headerRest + old(r.rest))
  {
    ghost var copied := headerRest + r.rest;
    var tail, written := FillTail(headerRest, r);
    if written.Err? {
      return Err;
    }
    var f := CreateSyntheticVMDK(head, tail, |head| + |headerRest| + written.value);
    GapFits(head, copied, f);
    return Ok(f);
  }

  /**
    The part of `getImageInfoVMDK` that prepares the file. The stream is the header, if
    there is one, and whatever the reader still gives.
  */
  method SyntheticVMDK(header: Bytes, r: Reader) returns (file: Result<Bytes>)
    modifies r
    ensures file.Err? <==> r.fails || (header == [] && old(r.rest) == [])
    ensures file.Ok? ==>
              var stream := header + old(r.rest);
              var head := if header != [] then header[..Min(HEAD_SIZE, |header|)]
                          else stream[..Min(HEAD_SIZE, |stream|)];
              Synthetic(file.value, head, stream[|head|..])
  {
    ghost var stream := header + r.rest;
    if header != [] {
      var head := header[..Min(HEAD_SIZE, |header|)];
      assert header[|head|..] + r.rest == stream[|head|..];
      file := StreamAndCreate(head, header[|head|..], r);
    } else {
      var head, end := ReadFull(r, HEAD_SIZE);
      if end != More && end != UnexpectedEnd {
        return Err;
      }
      assert stream == head + r.rest;
      assert [] + r.rest == stream[|head|..];
      file := StreamAndCreate(head, [], r);
    }
  }

  /** Both ends and the length leave no choice. */
  lemma SyntheticIsUnique(f: Bytes, g: Bytes, head: Bytes, copied: Bytes)
    requires Synthetic(f, head, copied) && Synthetic(g, head, copied)
    ensures f == g
  {
    var tail := Last(copied, TAIL_SIZE);
    forall i | 0 <= i < |f|
      ensures f[i] == g[i]
    {
      if i < |head| {
        assert f[i] == f[..|head|][i] && g[i] == g[..|head|][i];
      } else if i >= |f| - |tail| {
        var j := i - (|f| - |tail|);
        assert f[i] == f[|f| - |tail|..][j] && g[i] == g[|g| - |tail|..][j];
      }
    }
  }

  /** A reader that continues after the header: the file has the length of the source. */
  lemma ContinuingReader(src: Bytes, n: nat, file: Bytes)
    requires n <= |src| && Synthetic(file, src[..n], src[n..])
    ensures |file| == |src| && file[..n] == src[..n]
    ensures var k := Min(52_428_800, |src| - n);
            file[|src| - k..] == src[|src| - k..]
  {
    var k := Min(TAIL_SIZE, |src| - n);
    assert src[n..][|src| - n - k..] == src[|src| - k..];
  }

  /**
    A reader that replays the header: the file is longer than the source by the header,
    so it has the length of the source only if there is no header, and the tail sits that
    much too far from the start. Its ends are still those of the source.
  */
  lemma ReplayingReader(src: Bytes, n: nat, file: Bytes)
    requires n <= |src| && Synthetic(file, src[..n], src)
    ensures |file| == |src| + n && (|file| == |src| <==> n == 0)
    ensures file[..n] == src[..n]
    ensures var k := Min(52_428_800, |src|);
            file[|file| - k..] == src[|src| - k..]
  {
  }

  /**
    The start of `getImageInfo` for a VMDK source: probe the header, put it back in front
    of the rest, and prepare the file from both.
  */
  method ProbeAndPrepareVMDK(source: Reader) returns (file: Result<Bytes>)
    modifies source
    ensures file.Err? <==> source.fails || old(source.rest) == []
    ensures file.Ok? ==>
              var src := old(source.rest);
              Synthetic(file.value, src[..Min(10_485_760, |src|)], src)
  {
    ghost var src := source.rest;
    var header, end := ReadFull(source, HEAD_SIZE);
    if end == EndOfFile || end == ReadError {
      return Err;
    }
    var combined := new Reader(header + source.rest, source.fails);
    file := SyntheticVMDK(header, combined);
    assert header[..|header|] == header && header == src[..|header|];
    assert (header + src)[|header|..] == src;
  }

  // ---------------------------------------------------------------- raw images

  /** Copies up to `max` bytes, or all of them. */
  method CopyUpTo(r: Reader, max: nat) returns (b: Bytes, end: ReadEnd)
    modifies r
    ensures old(r.rest) == b + r.rest && |b| == Min(max, |old(r.rest)|)
    ensures |b| == max ==> end == More
    ensures |b| < max ==> end == if r.fails then ReadError else EndOfFile
  {
    b, end := [], More;
    while |b| < max
      invariant |b| <= max && old(r.rest) == b + r.rest && end == More
      decreases |r.rest|, max - |b|
    {
      var piece, e := r.Read(max - |b|);
      if e != More {
        end := e;
        return;
      }
      b := b + piece;
    }
  }

  /** Reads to the end and counts. */
  method CountAll(r: Reader) returns (n: Result<nat>)
    modifies r
    ensures n == if r.fails then Err else Ok(|old(r.rest)|)
  {
    var count: nat := 0;
    while true
      invariant count <= |old(r.rest)| && r.rest == old(r.rest)[count..]
      decreases |r.rest|
    {
      var piece, e := r.Read(32 * 1024);
      if e != More {
        return if e == EndOfFile then Ok(count) else Err;
      }
      count := count + |piece|;
    }
  }

  /**
    The size of a raw image and the sample that is written to the temporary file: every byte
    of the source is counted once although the header is read twice, and the sample is the
    first 64 MiB.
  */
  method RawVirtualSize(source: Reader) returns (size: Result<nat>, sample: Bytes)
    modifies source
    ensures size == if source.fails || old(source.rest) == [] then Err else Ok(|old(source.rest)|)
    ensures size.Ok? ==> sample == old(source.rest)[..Min(67_108_864, |old(source.rest)|)]
  {
    sample := [];
    ghost var src := source.rest;
    var header, end := ReadFull(source, HEAD_SIZE);
    if end == EndOfFile || end == ReadError {
      return Err, sample;
    }
    var combined := new Reader(header + source.rest, source.fails);
    assert combined.rest == src;
    var sampleEnd;
    sample, sampleEnd := CopyUpTo(combined, SAMPLE_SIZE);
    assert sample == src[..|sample|];
    if sampleEnd == ReadError {
      return Err, sample;
    }
    var rest := CountAll(combined);
    if rest.Err? {
      return Err, sample;
    }
    return Ok(|sample| + rest.value), sample;
  }
}
