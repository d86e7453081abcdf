/** The adaptor between websocket messages and byte streams. */
module Websocket {
  import opened Bytes
  import opened Wrappers

  const CLOSE_NORMAL: nat := 1000

  datatype Kind = Binary | Text

  /** A message; an incomplete one breaks off after its payload. */
  datatype Message = Message(kind: Kind, payload: Bytes, complete: bool)

  datatype Failure = CloseError(code: nat) | OtherFailure

  datatype Error = NoError | Eof | Failed(failure: Failure)

  function Convert(f: Failure): Error {
    if f == CloseError(CLOSE_NORMAL) then Eof else Failed(f)
  }

  /** What the binary messages of a connection carry. */
  function BinaryPayload(ms: seq<Message>): Bytes {
    if ms == [] then []
    else (if ms[0].kind.Binary? then ms[0].payload else []) + BinaryPayload(ms[1..])
  }

  /** The receiving side: messages, and the failure that ends every connection. */
  class Conn {
    var incoming: seq<Message>
    const final: Failure

    constructor (incoming: seq<Message>, final: Failure)
      ensures this.incoming == incoming && this.final == final
    {
      this.incoming := incoming;
      this.final := final;
    }

    /** The connection ends with its first incomplete message. */
    ghost predicate Valid()
      reads this
    {
      forall i :: 0 <= i < |incoming| - 1 ==> incoming[i].complete
    }

    method NextReader() returns (m: Option<Message>)
      requires Valid()
      modifies this
      ensures Valid()
      ensures old(incoming) == [] ==> m == None && incoming == []
      ensures old(incoming) != [] ==> m == Some(old(incoming)[0]) && incoming == old(incoming)[1..]
    {
      if incoming == [] {
        return None;
      }
      m := Some(incoming[0]);
      incoming := incoming[1..];
    }
  }

  /** One read of a message: some of the rest, and possibly its end along with the last byte. */
  method ReadMessage(rest: Bytes, max: nat) returns (out: Bytes, left: Bytes, ended: bool)
    ensures rest == out + left && |out| <= max
    ensures rest != [] && 0 < max ==> out != []
    ensures rest == [] && 0 < max ==> ended
    ensures ended ==> left == []
  {
    if max == 0 {
      return [], rest, false;
    }
    if rest == [] {
      return [], [], true;
    }
    var n: nat :| 0 < n <= max && n <= |rest|;
    var early: bool := *;
    out, left := rest[..n], rest[n..];
    ended := early && left == [];
  }

  lemma Regroup(a: Bytes, b: Bytes, c: Bytes)
    ensures (a + b) + c == a + (b + c)
    ensures b == [] ==> b + c == c
    ensures a == [] ==> a + b == b
  {
  }

  lemma PrefixOfPrefix(a: Bytes, p: Bytes, i: nat)
    requires i <= |p| && a <= p[..i]
    ensures a <= p
  {
  }

  lemma TakeMore(p: Bytes, i: nat, n: nat)
    requires i + n <= |p|
    ensures p[..i] + p[i..i + n] == p[..i + n]
  {
  }

  class BinaryReader {
    const conn: Conn
    /** The message being read and what is left of it. */
    var reader: Option<Message>

    constructor (conn: Conn)
      ensures this.conn == conn && reader == None
    {
      this.conn := conn;
      this.reader := None;
    }

    ghost predicate Valid()
      reads this, conn
    {
      && conn.Valid()
      && (reader.Some? ==> reader.value.kind.Binary? && (!reader.value.complete ==> conn.incoming == []))
    }

    /** Everything that is still to come out of this reader. */
    ghost function Stream(): Bytes
      reads this, conn
    {
      (if reader.Some? then reader.value.payload else []) + BinaryPayload(conn.incoming)
    }

    /**
      A read hands out the next bytes of the stream and nothing else. It reports the end
      only after the last byte and only for a normal close, and any other failure as it is.
    */
    method Read(max: nat) returns (out: Bytes, err: Error)
      requires Valid()
      modifies this, conn
      ensures Valid() && |out| <= max
      ensures old(Stream()) == out + Stream()
      ensures err == NoError && 0 < max ==> out != []
      ensures err != NoError ==> Stream() == [] && err == Convert(conn.final)
    {
      ghost var whole := Stream();
      while true
        invariant Valid() && Stream() == whole
        decreases |conn.incoming|, if reader.Some? then 1 else 0
      {
        var kind := Binary;
        if reader.None? {
          var m := conn.NextReader();
          if m.None? {
            return [], Convert(conn.final);
          }
          reader := m;
          kind := m.value.kind;
        }
        if kind.Text? {
          reader := None;
          continue;
        }
        ghost var later := BinaryPayload(conn.incoming);
        var message := reader.value;
        assert whole == message.payload + later;
        var bytes, left, ended := ReadMessage(message.payload, max);
        Regroup(bytes, left, later);
        if !ended {
          reader := Some(message.(payload := left));
          return bytes, NoError;
        }
        reader := None;
        assert Stream() == later;
        if !message.complete {
          return bytes, Convert(conn.final);
        }
        if bytes != [] {
          return bytes, NoError;
        }
      }
    }
  }

  /**
    Copies a connection to its end, with buffers of any sizes: all of its binary payload,
    however it is cut up.
  */
  method CopyFrom(conn: Conn, size: nat -> nat) returns (data: Bytes, err: Error)
    requires conn.Valid() && forall k :: 0 < size(k)
    modifies conn
    ensures data == BinaryPayload(old(conn.incoming))
    ensures err == if conn.final == CloseError(1000) then NoError else Failed(conn.final)
  {
    var r := new BinaryReader(conn);
    ghost var whole := r.Stream();
    assert whole == BinaryPayload(conn.incoming);
    data := [];
    var k := 0;
    while true
      invariant r.Valid() && fresh(r) && r.conn == conn
      invariant data + r.Stream() == whole
      decreases |r.Stream()|
    {
      ghost var before := data;
      var bytes, e := r.Read(size(k));
      data, k := data + bytes, k + 1;
      Regroup(before, bytes, r.Stream());
      if e != NoError {
        return data, if e == Eof then NoError else e;
      }
    }
  }

  // ---------------------------------------------------------------- the sending side

  /** What becomes of a frame: it goes through, or the connection breaks after some of its bytes. */
  datatype Flush = Through | Broken(arrived: nat)

  /**
    What a sender works on: the fate of every frame, the error of a broken connection, the
    size of the write buffer, and whether it is the server, which does not buffer large writes.
  */
  datatype Network = Network(flush: nat -> Flush, failure: Failure, buffer: nat, server: bool)

  /** How often a buffer of `b` bytes is full with more to come while `n` bytes are written. */
  function Overflows(n: nat, b: nat): nat
    requires 0 < b
  {
    if n <= b then 0 else 1 + Overflows(n - b, b)
  }

  /** The frames that go out while `n` bytes are written, before the one that closes the message. */
  function Inner(net: Network, n: nat): nat
    requires 0 < net.buffer
  {
    if net.server && n > 2 * net.buffer then 1 else Overflows(n, net.buffer)
  }

  predicate AllThrough(net: Network, from: nat, count: nat) {
    forall k :: from <= k < from + count ==> net.flush(k).Through?
  }

  class Sender {
    const net: Network
    /** The messages that have gone out whole, and what arrived of one that has not. */
    var sent: seq<Message>
    var partial: Option<Bytes>
    var pending: Bytes
    var flushes: nat
    var broken: bool

    constructor (net: Network)
      requires 0 < net.buffer
      ensures Valid() && this.net == net
      ensures sent == [] && partial == None && flushes == 0 && !broken
    {
      this.net := net;
      sent, partial, pending, flushes, broken := [], None, [], 0, false;
    }

    /** Between messages nothing is in flight unless the connection is broken. */
    ghost predicate Valid()
      reads this
    {
      0 < net.buffer && (!broken ==> partial == None)
    }

    /** What has arrived of the message in progress. */
    ghost function Arrived(): Bytes
      reads this
    {
      if partial.Some? then partial.value else []
    }

    /** Sends what is buffered, and `extra`, as one frame. A failure stays with the connection. */
    method FlushFrame(extra: Bytes, final: bool) returns (ok: bool)
      modifies this
      ensures ok <==> net.flush(old(flushes)).Through?
      ensures broken == (old(broken) || !ok) && flushes == old(flushes) + 1 && pending == []
      ensures ok && final ==>
                && sent == old(sent) + [Message(Binary, old(Arrived()) + (old(pending) + extra), true)]
                && partial == None
      ensures ok && !final ==> sent == old(sent) && Arrived() == old(Arrived()) + (old(pending) + extra)
      ensures !ok ==> sent == old(sent) && Arrived() <= old(Arrived()) + (old(pending) + extra)
    {
      var payload := pending + extra;
      var before := if partial.Some? then partial.value else [];
      var fate := net.flush(flushes);
      pending, flushes := [], flushes + 1;
      match fate
      case Through =>
        if final {
          sent, partial := sent + [Message(Binary, before + payload, true)], None;
        } else {
          partial := Some(before + payload);
        }
        return true;
      case Broken(arrived) =>
        if arrived > 0 {
          partial := Some(before + payload[..Min(arrived, |payload|)]);
        }
        broken := true;
        return false;
    }

    /** Everything of the message in progress. */
    ghost function Held(): Bytes
      reads this
    {
      Arrived() + pending
    }

    /** Makes room in the buffer, with a frame if it is full. */
    method MakeRoom() returns (ok: bool)
      requires 0 < net.buffer && |pending| <= net.buffer && !broken
      modifies this
      ensures sent == old(sent)
      ensures old(|pending|) < net.buffer ==>
                ok && !broken && flushes == old(flushes) && pending == old(pending) && partial == old(partial)
      ensures old(|pending|) == net.buffer ==>
                && flushes == old(flushes) + 1 && pending == []
                && (ok <==> net.flush(old(flushes)).Through?) && (broken <==> !ok)
      ensures ok ==> Held() == old(Held())
      ensures !ok ==> Arrived() <= old(Held())
    {
      if |pending| < net.buffer {
        return true;
      }
      assert pending + [] == pending;
      ok := FlushFrame([], false);
      assert Arrived() + [] == Arrived();
    }

    /** The writer of one message: frames go out only when the buffer is full. */
    method WriteBuffered(p: Bytes) returns (ok: bool)
      requires Valid() && !broken && pending == []
      modifies this
      ensures sent == old(sent)
      ensures ok <==> AllThrough(net, old(flushes), Overflows(|p|, net.buffer))
      ensures ok ==> !broken && flushes == old(flushes) + Overflows(|p|, net.buffer) && Held() == p
      ensures !ok ==> broken && Arrived() <= p
    {
      var i: nat := 0;
      ghost var all := Overflows(|p|, net.buffer);
      while i < |p|
        invariant i <= |p| && !broken && sent == old(sent) && Held() == p[..i] && |pending| <= net.buffer
        invariant old(flushes) <= flushes && AllThrough(net, old(flushes), flushes - old(flushes))
        invariant flushes - old(flushes) + Overflows(|pending| + (|p| - i), net.buffer) == all
      {
        var room := MakeRoom();
        if !room {
          PrefixOfPrefix(Arrived(), p, i);
          return false;
        }
        var n := Min(net.buffer - |pending|, |p| - i);
        Regroup(Arrived(), pending, p[i..i + n]);
        TakeMore(p, i, n);
        pending, i := pending + p[i..i + n], i + n;
      }
      assert p[..i] == p;
      return true;
    }

    /** A server sends a large write directly. */
    method WriteBody(p: Bytes) returns (ok: bool)
      requires Valid() && !broken && pending == []
      modifies this
      ensures sent == old(sent)
      ensures ok <==> AllThrough(net, old(flushes), Inner(net, |p|))
      ensures ok ==> !broken && flushes == old(flushes) + Inner(net, |p|) && Held() == p
      ensures !ok ==> broken && Arrived() <= p
    {
      if net.server && |p| > 2 * net.buffer {
        assert [] + ([] + p) == p;
        ok := FlushFrame(p, false);
        assert Arrived() + [] == Arrived();
      } else {
        ok := WriteBuffered(p);
      }
    }

    /**
      Opens a message, writes it and closes it. The write is acknowledged as soon as the
      bytes are out of hand; the message has gone out only if closing it went through, and
      the error of that is dropped.
    */
    method Write(p: Bytes) returns (n: nat, err: Error)
      requires Valid()
      modifies this
      ensures Valid()
      ensures old(broken) ==>
                && n == 0 && err == Convert(net.failure)
                && broken && sent == old(sent) && partial == old(partial) && flushes == old(flushes)
      ensures !old(broken) ==>
                && (err == NoError <==> AllThrough(net, old(flushes), Inner(net, |p|)))
                && n == (if err == NoError then |p| else 0)
                && (err == NoError || err == Failed(net.failure))
                && (!broken <==> AllThrough(net, old(flushes), Inner(net, |p|) + 1))
      ensures !broken ==>
                && sent == old(sent) + [Message(Binary, p, true)]
                && flushes == old(flushes) + Inner(net, |p|) + 1
      ensures !old(broken) && broken ==> sent == old(sent) && Arrived() <= p
    {
      if broken {
        return 0, Convert(net.failure);
      }
      pending := [];
      var ok := WriteBody(p);
      if !ok {
        return 0, Failed(net.failure);
      }
      assert Arrived() + (pending + []) == p by {
        assert pending + [] == pending;
      }
      ghost var k := flushes;
      var closed := FlushFrame([], true);
      assert closed <==> net.flush(k).Through?;
      return |p|, NoError;
    }
  }

  // ---------------------------------------------------------------- whole runs of writes

  /** How many frames these chunks take if all of them go through. */
  function Frames(net: Network, chunks: seq<Bytes>): nat
    requires 0 < net.buffer
  {
    if chunks == [] then 0
    else Frames(net, chunks[..|chunks| - 1]) + Inner(net, |chunks[|chunks| - 1]|) + 1
  }

  /** The frames of the chunk whose turn it is after `i` chunks have gone through. */
  predicate GoesThrough(net: Network, chunks: seq<Bytes>, i: nat)
    requires 0 < net.buffer && i < |chunks|
  {
    AllThrough(net, Frames(net, chunks[..i]), Inner(net, |chunks[i]|) + 1)
  }

  /** The number of chunks that go through, starting with chunk `i`, until the first one that does not. */
  function WholeFrom(net: Network, chunks: seq<Bytes>, i: nat): (w: nat)
    requires 0 < net.buffer && i <= |chunks|
    ensures i <= w <= |chunks|
    ensures forall j :: i <= j < w ==> GoesThrough(net, chunks, j)
    ensures w < |chunks| ==> !GoesThrough(net, chunks, w)
    decreases |chunks| - i
  {
    if i < |chunks| && GoesThrough(net, chunks, i) then WholeFrom(net, chunks, i + 1) else i
  }

  function Whole(net: Network, chunks: seq<Bytes>): nat
    requires 0 < net.buffer
  {
    WholeFrom(net, chunks, 0)
  }

  /** The frame that closes the message of chunk `i`. */
  function ClosingFrame(net: Network, chunks: seq<Bytes>, i: nat): nat
    requires 0 < net.buffer && i < |chunks|
  {
    Frames(net, chunks[..i]) + Inner(net, |chunks[i]|)
  }

  /** The number of chunks whose write is acknowledged. */
  function Acknowledged(net: Network, chunks: seq<Bytes>): (a: nat)
    requires 0 < net.buffer
    ensures Whole(net, chunks) <= a <= |chunks| && a <= Whole(net, chunks) + 1
  {
    var w := Whole(net, chunks);
    if w < |chunks| && AllThrough(net, Frames(net, chunks[..w]), Inner(net, |chunks[w]|)) then w + 1 else w
  }

  /** An acknowledged chunk has gone out if and only if the frame that closes its message has. */
  lemma AcknowledgedIsSentExactlyWhen(net: Network, chunks: seq<Bytes>, i: nat)
    requires 0 < net.buffer && i < Acknowledged(net, chunks)
    ensures i < Whole(net, chunks) <==> net.flush(ClosingFrame(net, chunks, i)).Through?
  {
    var from, inner := Frames(net, chunks[..i]), Inner(net, |chunks[i]|);
    if i < Whole(net, chunks) {
      assert GoesThrough(net, chunks, i);
      assert AllThrough(net, from, inner + 1);
    } else {
      assert AllThrough(net, from, inner) && !AllThrough(net, from, inner + 1);
    }
  }

  /** A chunk that fits the buffer is acknowledged although its only frame breaks. */
  lemma LostWrite(net: Network, chunk: Bytes)
    requires |chunk| <= net.buffer && 0 < net.buffer && net.flush(0).Broken?
    ensures Acknowledged(net, [chunk]) == 1 && Whole(net, [chunk]) == 0
  {
    assert [chunk][..0] == [];
    assert Inner(net, |chunk|) == 0;
    assert !net.flush(0).Through?;
    assert !GoesThrough(net, [chunk], 0);
  }

  function Binaries(chunks: seq<Bytes>): (ms: seq<Message>)
    ensures |ms| == |chunks|
  {
    seq(|chunks|, i requires 0 <= i < |chunks| => Message(Binary, chunks[i], true))
  }

  lemma BinariesNext(chunks: seq<Bytes>, i: nat)
    requires i < |chunks|
    ensures Binaries(chunks[..i + 1]) == Binaries(chunks[..i]) + [Message(Binary, chunks[i], true)]
  {
  }

  lemma FramesNext(net: Network, chunks: seq<Bytes>, i: nat)
    requires 0 < net.buffer && i < |chunks|
    ensures Frames(net, chunks[..i + 1]) == Frames(net, chunks[..i]) + Inner(net, |chunks[i]|) + 1
  {
    assert chunks[..i + 1][..i] == chunks[..i];
  }

  /**
    Writes all chunks, or as many as are acknowledged. What has gone out is every chunk up
    to the first one with a frame that broke; at most that one is acknowledged all the same,
    and the copy reports success exactly if all of them are.
  */
  method WriteAll(s: Sender, chunks: seq<Bytes>) returns (written: nat, err: Error)
    requires s.Valid() && s.sent == [] && s.flushes == 0 && !s.broken
    modifies s
    ensures s.Valid()
    ensures s.sent == Binaries(chunks[..Whole(s.net, chunks)])
    ensures s.broken <==> Whole(s.net, chunks) < |chunks|
    ensures s.broken ==> s.Arrived() <= chunks[Whole(s.net, chunks)]
    ensures written == |Flatten(chunks[..Acknowledged(s.net, chunks)])|
    ensures err == if Acknowledged(s.net, chunks) == |chunks| then NoError
                   else if Acknowledged(s.net, chunks) > Whole(s.net, chunks) then Convert(s.net.failure)
                   else Failed(s.net.failure)
  {
    ghost var w, a := Whole(s.net, chunks), Acknowledged(s.net, chunks);
    written := 0;
    for i := 0 to |chunks|
      invariant s.Valid() && i <= a && written == |Flatten(chunks[..i])|
      invariant s.sent == Binaries(chunks[..Min(i, w)]) && (s.broken <==> w < i)
      invariant !s.broken ==> s.flushes == Frames(s.net, chunks[..i])
      invariant s.broken ==> s.Arrived() <= chunks[w]
    {
      ghost var was := s.broken;
      var n, e := s.Write(chunks[i]);
      FlattenNext(chunks, i);
      FramesNext(s.net, chunks, i);
      BinariesNext(chunks, i);
      if !was {
        assert GoesThrough(s.net, chunks, i) <==> !s.broken;
      }
      if e != NoError {
        return written, e;
      }
      written := written + n;
    }
    assert chunks[..|chunks|] == chunks;
    return written, NoError;
  }

  // ---------------------------------------------------------------- the way between

  /** The messages of `ms` that are binary, in order. */
  function OnlyBinary(ms: seq<Message>): seq<Message> {
    if ms == [] then []
    else (if ms[0].kind.Binary? then [ms[0]] else []) + OnlyBinary(ms[1..])
  }

  lemma {:induction false} OnlyBinaryAppend(a: seq<Message>, b: seq<Message>)
    ensures OnlyBinary(a + b) == OnlyBinary(a) + OnlyBinary(b)
  {
    if a == [] {
      assert a + b == b;
    } else {
      assert (a + b)[1..] == a[1..] + b;
      OnlyBinaryAppend(a[1..], b);
    }
  }

  lemma {:induction false} PayloadOfBinary(ms: seq<Message>)
    ensures BinaryPayload(OnlyBinary(ms)) == BinaryPayload(ms)
  {
    if ms != [] {
      PayloadOfBinary(ms[1..]);
      if ms[0].kind.Binary? {
        assert OnlyBinary(ms)[1..] == OnlyBinary(ms[1..]);
      } else {
        assert OnlyBinary(ms) == OnlyBinary(ms[1..]);
      }
    }
  }

  lemma {:induction false} PayloadAppend(a: seq<Message>, b: seq<Message>)
    ensures BinaryPayload(a + b) == BinaryPayload(a) + BinaryPayload(b)
  {
    if a == [] {
      assert a + b == b;
    } else {
      assert (a + b)[1..] == a[1..] + b;
      PayloadAppend(a[1..], b);
    }
  }

  lemma {:induction false} PayloadOfBinaries(chunks: seq<Bytes>)
    ensures BinaryPayload(Binaries(chunks)) == Flatten(chunks)
  {
    if chunks != [] {
      PayloadOfBinaries(chunks[1..]);
      assert Binaries(chunks)[1..] == Binaries(chunks[1..]);
    }
  }

  /** What a sender has got out: whole messages, and one that breaks off. */
  function Outgoing(sent: seq<Message>, partial: Option<Bytes>): seq<Message> {
    sent + (if partial.Some? then [Message(Binary, partial.value, false)] else [])
  }

  /** What is written in any chunks goes out as it is, up to the message that breaks off. */
  lemma StreamSurvives(chunks: seq<Bytes>, partial: Option<Bytes>)
    ensures BinaryPayload(Outgoing(Binaries(chunks), partial)) ==
            Flatten(chunks) + (if partial.Some? then partial.value else [])
  {
    PayloadOfBinaries(chunks);
    if partial.Some? {
      var last := [Message(Binary, partial.value, false)];
      PayloadAppend(Binaries(chunks), last);
      assert last[1..] == [];
      assert BinaryPayload(last) == partial.value;
    } else {
      assert Binaries(chunks) + [] == Binaries(chunks);
    }
  }

  function Texts(ts: seq<Bytes>): (ms: seq<Message>)
    ensures |ms| == |ts| && forall i :: 0 <= i < |ms| ==> ms[i].kind.Text? && ms[i].complete
  {
    seq(|ts|, i requires 0 <= i < |ts| => Message(Text, ts[i], true))
  }

  lemma {:induction false} TextsAreNotBinary(ms: seq<Message>)
    requires forall i :: 0 <= i < |ms| ==> ms[i].kind.Text?
    ensures OnlyBinary(ms) == []
  {
    if ms != [] {
      TextsAreNotBinary(ms[1..]);
    }
  }

  /** The messages with any text messages before each of them. */
  function Mixed(ms: seq<Message>, texts: nat -> seq<Bytes>): seq<Message> {
    if ms == [] then []
    else Mixed(ms[..|ms| - 1], texts) + Texts(texts(|ms| - 1)) + [ms[|ms| - 1]]
  }

  lemma {:induction false} MixedKeepsBinary(ms: seq<Message>, texts: nat -> seq<Bytes>)
    requires forall i :: 0 <= i < |ms| ==> ms[i].kind.Binary?
    ensures OnlyBinary(Mixed(ms, texts)) == ms
  {
    if ms != [] {
      var init, last := ms[..|ms| - 1], ms[|ms| - 1];
      var some := Texts(texts(|ms| - 1));
      MixedKeepsBinary(init, texts);
      OnlyBinaryAppend(Mixed(init, texts) + some, [last]);
      OnlyBinaryAppend(Mixed(init, texts), some);
      TextsAreNotBinary(some);
      assert [last][1..] == [] && OnlyBinary([last]) == [last];
      assert ms == init + [] + [last];
    }
  }

  lemma {:induction false} MixedIsComplete(ms: seq<Message>, texts: nat -> seq<Bytes>)
    requires forall i :: 0 <= i < |ms| ==> ms[i].complete
    ensures forall i :: 0 <= i < |Mixed(ms, texts)| ==> Mixed(ms, texts)[i].complete
  {
    if ms != [] {
      MixedIsComplete(ms[..|ms| - 1], texts);
    }
  }

  /** The other end reads the binary payload, whatever texts come in between. */
  method Receive(out: seq<Message>, texts: nat -> seq<Bytes>, final: Failure, size: nat -> nat)
    returns (data: Bytes, err: Error)
    requires forall i :: 0 <= i < |out| ==> out[i].kind.Binary?
    requires forall i :: 0 <= i < |out| - 1 ==> out[i].complete
    requires forall k :: 0 < size(k)
    ensures data == BinaryPayload(out)
    ensures err == NoError <==> final == CloseError(1000)
  {
    var incoming := Mixed(out, texts);
    MixedKeepsBinary(out, texts);
    PayloadOfBinary(incoming);
    if out != [] {
      MixedIsComplete(out[..|out| - 1], texts);
    }
    var conn := new Conn(incoming, final);
    data, err := CopyFrom(conn, size);
  }

  lemma PrefixOfSum(a: Bytes, b: Bytes, part: Bytes)
    requires part <= b
    ensures a <= a + part && a + part <= a + b
  {
  }

  lemma FlattenNext(chunks: seq<Bytes>, w: nat)
    requires w < |chunks|
    ensures Flatten(chunks[..w + 1]) == Flatten(chunks[..w]) + chunks[w]
  {
    assert chunks[..w + 1] == chunks[..w] + [chunks[w]];
    FlattenAppend(chunks[..w], chunks[w]);
  }

  /** The first chunks and then a part of the next one. */
  lemma UpToAPart(chunks: seq<Bytes>, w: nat, whole: Bytes, part: Bytes)
    requires w < |chunks| && whole == Flatten(chunks[..w]) && part <= chunks[w]
    ensures whole <= whole + part && whole + part <= Flatten(chunks[..w + 1])
  {
    FlattenNext(chunks, w);
    PrefixOfSum(whole, chunks[w], part);
  }

  /**
    The whole way, from the writer at one end through a connection that may break, among
    any text messages, to the copy at the other end. What is read is every chunk that went
    through and then at most a part of the next one, and never anything else.
  */
  method Transfer(net: Network, chunks: seq<Bytes>, texts: nat -> seq<Bytes>, final: Failure, size: nat -> nat)
    returns (written: nat, sendErr: Error, data: Bytes, err: Error)
    requires 0 < net.buffer && forall k :: 0 < size(k)
    ensures Flatten(chunks[..Whole(net, chunks)]) <= data
    ensures Whole(net, chunks) == |chunks| ==> data == Flatten(chunks)
    ensures Whole(net, chunks) < |chunks| ==> data <= Flatten(chunks[..Whole(net, chunks) + 1])
    ensures written == |Flatten(chunks[..Acknowledged(net, chunks)])|
    ensures sendErr == NoError <==> Acknowledged(net, chunks) == |chunks|
    ensures err == NoError <==> final == CloseError(1000)
  {
    var s := new Sender(net);
    written, sendErr := WriteAll(s, chunks);
    ghost var w := Whole(net, chunks);
    StreamSurvives(chunks[..w], s.partial);
    data, err := Receive(Outgoing(s.sent, s.partial), texts, final, size);
    if w < |chunks| {
      UpToAPart(chunks, w, Flatten(chunks[..w]), s.Arrived());
    } else {
      assert chunks[..w] == chunks && Flatten(chunks) + [] == Flatten(chunks);
    }
  }
}
