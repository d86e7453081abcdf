/**
  The end-of-archive marker of the layer. It is written to the pipe directly, next to the
  tar writer, and the pipe is closed before the tar writer could pad the image to a whole
  record.
*/
module Tar {
  import opened Bytes

  const RECORD_SIZE: nat := 512
  const MARKER_COUNT: nat := 2
  const MARKER_SIZE: nat := RECORD_SIZE * MARKER_COUNT

  datatype WriteError = ShortWrite | PipeError

  datatype Outcome = Done | Failed(error: WriteError)

  /** The writing end of a pipe whose reader takes `limit` bytes and is closed then. */
  class PipeWriter {
    const limit: nat
    var written: Bytes

    constructor (limit: nat)
      ensures this.limit == limit && written == []
    {
      this.limit := limit;
      written := [];
    }

    method Write(b: Byte) returns (n: nat, res: Outcome)
      modifies this
      ensures old(|written|) < limit ==> n == 1 && res == Done && written == old(written) + [b]
      ensures old(|written|) >= limit ==> n == 0 && res == Failed(PipeError) && written == old(written)
    {
      if |written| < limit {
        written := written + [b];
        return 1, Done;
      }
      return 0, Failed(PipeError);
    }
  }

  /**
    The marker is complete exactly when the reader takes all of it, what is written is
    always zeros, and a failure never shows the error of the pipe.
  */
  method WriteEOFMarker(w: PipeWriter) returns (res: Outcome)
    modifies w
    ensures res == Done <==> old(|w.written|) + 1024 <= w.limit
    ensures res == Done ==> w.written == old(w.written) + Zeros(1024)
    ensures res != Done ==>
              res == Failed(ShortWrite)
              && w.written == old(w.written) + Zeros(Max(w.limit - old(|w.written|), 0))
  {
    var i := 0;
    while i < MARKER_SIZE
      invariant 0 <= i <= MARKER_SIZE
      invariant w.written == old(w.written) + Zeros(i)
      invariant i > 0 ==> old(|w.written|) + i <= w.limit
    {
      var n, err := w.Write(0);
      if n != 1 {
        return Failed(ShortWrite);
      }
      if err.Failed? {
        return err;
      }
      assert old(w.written) + Zeros(i) + [0] == old(w.written) + Zeros(i + 1);
      i := i + 1;
    }
    return Done;
  }

  // ---------------------------------------------------------------- the records

  /** A whole record of zeros that starts on a record boundary. */
  predicate ZeroRecordAt(layer: Bytes, i: nat) {
    && i % 512 == 0
    && i + 512 <= |layer|
    && forall j :: i <= j < i + 512 ==> layer[j] == 0
  }

  /** Where a reader of the archive looks for the entry after an image of `n` bytes. */
  function NextEntry(head: nat, n: nat): (at: nat)
    requires head % 512 == 0
    ensures at % 512 == 0 && head + n <= at < head + n + 512
  {
    head + (n + RECORD_SIZE - 1) / RECORD_SIZE * RECORD_SIZE
  }

  /**
    Where the next entry would start there is a whole zero record, it is the first one
    after the image, and the second one the format asks for follows it exactly when the
    image fills its last record.
  */
  lemma MarkerRecords(head: Bytes, data: Bytes)
    requires |head| % 512 == 0
    ensures var layer := head + data + Zeros(1024);
            var at := NextEntry(|head|, |data|);
            && ZeroRecordAt(layer, at)
            && (ZeroRecordAt(layer, at + 512) <==> |data| % 512 == 0)
            && forall i: nat :: |head| + |data| <= i && ZeroRecordAt(layer, i) ==>
                                i == at || (|data| % 512 == 0 && i == at + 512)
  {
    var layer := head + data + Zeros(MARKER_SIZE);
    var at := NextEntry(|head|, |data|);
    assert forall j :: |head| + |data| <= j < |layer| ==> layer[j] == 0;
  }
}
