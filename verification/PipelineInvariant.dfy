/** What every step of the import pipeline keeps. */
module PipelineInvariant {
  import opened Bytes
  import opened Pipeline
  import Tar

  // ---------------------------------------------------------------- content

  /** The copy went through to the end of a source that passes every check. */
  predicate Complete(c: Config, cp: Copy, seen: Bytes) {
    HeaderAccepted(c) && c.end == Eof && Accepted(c, c.data) && cp.hashed == c.data && seen == c.data
  }

  predicate Before(c: Config, b: Bytes) {
    |b| <= |c.data| && b == c.data[..|b|]
  }

  /** Where the bytes are: what the inspector has seen, what is hashed, what is uploaded. */
  predicate ContentInv(c: Config, cp: Copy, seen: Bytes, got: Bytes) {
    && cp.read <= |c.data| && Before(c, seen) && Before(c, cp.hashed)
    && (cp.hashed != [] ==> |cp.hashed| <= c.declared)
    && match cp.pc
       case Header(second, rest) =>
         && cp.read == 0 && seen == [] && cp.hashed == []
         && (second ==> HeaderAccepted(c))
         && got + rest == (if second then Head(c) else c.dirHeader)
       case NeverSpawned => seen == []
       case Reading =>
         && HeaderAccepted(c)
         && |cp.hashed| == cp.read && |seen| == cp.read && got == Head(c) + cp.hashed
       case Teeing(chunk, rest) =>
         && HeaderAccepted(c)
         && 0 < |chunk| && |rest| <= |chunk|
         && |cp.hashed| + |chunk| == cp.read && |seen| + |rest| == cp.read
         && chunk == c.data[|cp.hashed|..cp.read] && rest == c.data[|seen|..cp.read]
         && got == Head(c) + cp.hashed
       case Taring(piece, rest, after) =>
         && HeaderAccepted(c)
         && |cp.hashed| + |piece| <= cp.read && |cp.hashed| + |piece| <= c.declared
         && piece == c.data[|cp.hashed|..|cp.hashed| + |piece|]
         && got + rest == Head(c) + cp.hashed + piece
         && (after == Next ==> |cp.hashed| + |piece| == cp.read && |seen| == cp.read)
         && (after == Stop(Other) ==> |cp.hashed| + |piece| == c.declared)
         && (after == Stop(ClosedPipe) ==> |cp.hashed| + |piece| < cp.read && |seen| == |cp.hashed| + |piece|)
       case Marking(left) =>
         && left <= Tar.MARKER_SIZE && Complete(c, cp, seen)
         && got == Head(c) + c.data + Zeros(Tar.MARKER_SIZE - left)
       case _ =>
         && HeaderAccepted(c)
         && (cp.res == Ok ==> Complete(c, cp, seen) && got == Archive(c))
  }

  /** What the tar writer takes of a piece. */
  lemma TarTakes(c: Config, hashed: Bytes, piece: Bytes, after: After)
    requires hashed != [] ==> |hashed| <= c.declared
    requires c.declared >= 0
    ensures var pc := StartTar(c, hashed, piece, after);
            && pc.rest == pc.piece && |pc.piece| <= |piece| && pc.piece == piece[..|pc.piece|]
            && |hashed| + |pc.piece| <= c.declared
            && ((pc.after == after && |pc.piece| == |piece|)
                || (pc.after == Stop(Other) && |hashed| + |pc.piece| == c.declared))
  {
  }

  lemma TarStarts(c: Config, cp: Copy, seen: Bytes, got: Bytes, taken: nat, after: After)
    requires ContentInv(c, cp, seen, got) && cp.pc.Teeing?
    requires taken <= |cp.pc.chunk|
    requires after != Stop(Other)
    requires after == Next ==> cp.pc.rest == [] && taken == |cp.pc.chunk|
    requires after == Stop(ClosedPipe) ==> taken == |cp.pc.chunk| - |cp.pc.rest| < |cp.pc.chunk|
    ensures ContentInv(c, cp.(pc := StartTar(c, cp.hashed, cp.pc.chunk[..taken], after)), seen, got)
    ensures cp.pc.chunk[..|cp.pc.chunk|] == cp.pc.chunk
  {
    var pc := StartTar(c, cp.hashed, cp.pc.chunk[..taken], after);
    TarTakes(c, cp.hashed, cp.pc.chunk[..taken], after);
    var n := |pc.piece|;
    assert pc.piece == cp.pc.chunk[..n];
    SliceTake(c.data, |cp.hashed|, cp.read, n);
  }

  lemma PieceWritten(c: Config, cp: Copy, seen: Bytes, got: Bytes)
    requires ContentInv(c, cp, seen, got) && cp.pc.Taring? && cp.pc.rest == []
    ensures got == Head(c) + (cp.hashed + cp.pc.piece)
    ensures Before(c, cp.hashed + cp.pc.piece)
  {
    assert got + [] == got;
    assert Head(c) + cp.hashed + cp.pc.piece == Head(c) + (cp.hashed + cp.pc.piece);
  }

  lemma SourceExhausted(c: Config, cp: Copy, seen: Bytes, got: Bytes)
    requires ContentInv(c, cp, seen, got) && cp.pc.Reading? && cp.read == |c.data|
    ensures ContentInv(c, EndOfCopy(c, cp), seen, got)
  {
    assert cp.hashed == c.data && seen == c.data;
    assert got == Head(c) + c.data + Zeros(0);
  }

  lemma ChunkRead(c: Config, cp: Copy, seen: Bytes, got: Bytes, n: nat)
    requires ContentInv(c, cp, seen, got) && cp.pc.Reading? && 1 <= n && cp.read + n <= |c.data|
    ensures var chunk := c.data[cp.read..cp.read + n];
            ContentInv(c, cp.(pc := Teeing(chunk, chunk), read := cp.read + n), seen, got)
  {
  }

  lemma TeeFinished(c: Config, cp: Copy, seen: Bytes, got: Bytes, infoR: bool, mainR: bool)
    requires ContentInv(c, cp, seen, got) && CopyEnabled(c, cp, infoR, mainR, TeeDone)
    ensures ContentInv(c, CopyStep(c, cp, infoR, mainR, TeeDone), seen, got)
  {
    TarStarts(c, cp, seen, got, |cp.pc.chunk|, Next);
  }

  lemma TeeCutShort(c: Config, cp: Copy, seen: Bytes, got: Bytes, infoR: bool, mainR: bool)
    requires ContentInv(c, cp, seen, got) && CopyEnabled(c, cp, infoR, mainR, TeeClosed)
    ensures ContentInv(c, CopyStep(c, cp, infoR, mainR, TeeClosed), seen, got)
  {
    TarStarts(c, cp, seen, got, |cp.pc.chunk| - |cp.pc.rest|, Stop(ClosedPipe));
  }

  lemma TarFinished(c: Config, cp: Copy, seen: Bytes, got: Bytes, infoR: bool, mainR: bool)
    requires ContentInv(c, cp, seen, got) && CopyEnabled(c, cp, infoR, mainR, TarDone)
    ensures ContentInv(c, CopyStep(c, cp, infoR, mainR, TarDone), seen, got)
  {
    PieceWritten(c, cp, seen, got);
  }

  /** The steps that end the copy or close its pipes. */
  lemma EndingKeepsContent(c: Config, cp: Copy, seen: Bytes, got: Bytes, infoR: bool, mainR: bool, l: CopyLabel)
    requires ContentInv(c, cp, seen, got) && CopyEnabled(c, cp, infoR, mainR, l)
    requires l.TarClosed? || l.MarkDone? || l.MarkClosed? || l.CloseInfoWriter? || l.CloseMainWriter?
    ensures ContentInv(c, CopyStep(c, cp, infoR, mainR, l), seen, got)
  {
  }

  lemma CopyKeepsContent(c: Config, cp: Copy, seen: Bytes, got: Bytes, infoR: bool, mainR: bool, l: CopyLabel)
    requires ContentInv(c, cp, seen, got) && CopyEnabled(c, cp, infoR, mainR, l)
    ensures ContentInv(c, CopyStep(c, cp, infoR, mainR, l), seen, got)
  {
    match l
    case ReadChunk(n) => ChunkRead(c, cp, seen, got, n);
    case ReadEnd => SourceExhausted(c, cp, seen, got);
    case TeeDone => TeeFinished(c, cp, seen, got, infoR, mainR);
    case TeeClosed => TeeCutShort(c, cp, seen, got, infoR, mainR);
    case TarDone => TarFinished(c, cp, seen, got, infoR, mainR);
    case _ => EndingKeepsContent(c, cp, seen, got, infoR, mainR, l);
  }

  lemma InspectKeepsContent(c: Config, cp: Copy, i: Inspect, got: Bytes, l: InspectLabel)
    requires ContentInv(c, cp, i.seen, got) && InspectEnabled(i, cp.pc, l)
    ensures var (i', pc') := InspectStep(i, cp.pc, l);
            ContentInv(c, cp.(pc := pc'), i'.seen, got)
  {
    if l.InspectTake? {
      SliceTake(c.data, |i.seen|, cp.read, l.k);
      assert i.seen + cp.pc.rest[..l.k] == c.data[..|i.seen| + l.k];
      assert cp.pc.rest[l.k..] == c.data[|i.seen| + l.k..cp.read];
    }
  }

  lemma HeaderTaken(c: Config, cp: Copy, seen: Bytes, got: Bytes, k: nat)
    requires ContentInv(c, cp, seen, got) && cp.pc.Header? && 1 <= k <= |cp.pc.rest|
    ensures ContentInv(c, cp.(pc := MainTaken(cp.pc, k)), seen, got + cp.pc.rest[..k])
  {
    assert got + cp.pc.rest[..k] + cp.pc.rest[k..] == got + cp.pc.rest;
  }

  lemma PieceTaken(c: Config, cp: Copy, seen: Bytes, got: Bytes, k: nat)
    requires ContentInv(c, cp, seen, got) && cp.pc.Taring? && 1 <= k <= |cp.pc.rest|
    ensures ContentInv(c, cp.(pc := MainTaken(cp.pc, k)), seen, got + cp.pc.rest[..k])
  {
    assert got + cp.pc.rest[..k] + cp.pc.rest[k..] == got + cp.pc.rest;
  }

  lemma MarkTaken(c: Config, cp: Copy, seen: Bytes, got: Bytes)
    requires ContentInv(c, cp, seen, got) && cp.pc.Marking? && cp.pc.left > 0
    ensures ContentInv(c, cp.(pc := MainTaken(cp.pc, 1)), seen, got + [0])
  {
    var n := Tar.MARKER_SIZE - cp.pc.left;
    assert Head(c) + c.data + Zeros(n) + [0] == Head(c) + c.data + Zeros(n + 1);
  }

  lemma UploadKeepsContent(c: Config, cp: Copy, seen: Bytes, u: Upload, cancelled: bool, l: UploadLabel)
    requires ContentInv(c, cp, seen, u.got) && UploadEnabled(u, cp.pc, cancelled, l)
    ensures var (u', pc') := UploadStep(u, cp.pc, cancelled, l);
            ContentInv(c, cp.(pc := pc'), seen, u'.got)
  {
    if l.UploadTake? {
      if cp.pc.Header? {
        HeaderTaken(c, cp, seen, u.got, l.k);
      } else if cp.pc.Taring? {
        PieceTaken(c, cp, seen, u.got, l.k);
      } else {
        assert MainPending(cp.pc)[..l.k] == [0];
        MarkTaken(c, cp, seen, u.got);
      }
    }
  }

  lemma GroupKeepsContent(c: Config, s: State, l: GroupLabel)
    requires ContentInv(c, s.copy, s.inspect.seen, s.upload.got) && GroupEnabled(s, l)
    ensures var t := GroupStep(c, s, l);
            ContentInv(c, t.copy, t.inspect.seen, t.upload.got)
  {
  }

  // ---------------------------------------------------------------- control

  predicate CopyInv(cp: Copy) {
    cp.res == Pending <==> !cp.pc.ClosingInfo? && !InfoWriterClosed(cp.pc)
  }

  predicate InspectInv(i: Inspect, pc: CopyPc) {
    && (i.pc.NotStarted? <==> pc.Header? || pc.NeverSpawned?)
    && (i.res == Pending <==> i.pc.NotStarted? || i.pc.Inspecting?)
    && (i.res == Ok ==> i.eof && i.seen != [])
    && (i.eof ==> InfoWriterClosed(pc))
    && i.informer == (if i.res == Ok then 1 else 0)
  }

  predicate UploadInv(u: Upload, pc: CopyPc) {
    && (u.res == Pending <==> u.pc.Uploading?)
    && (u.res == Ok ==> u.eof)
    && (u.eof ==> MainWriterClosed(pc))
    && (u.pc.UploadDone? ==> u.closed)
  }

  predicate GroupInv(s: State) {
    var g := s.group;
    && g.first != Pending
    && (s.copy.pc.Ended? && s.copy.res.Fail? ==> g.first.Fail?)
    && (s.inspect.pc.InspectEnded? && s.inspect.res.Fail? ==> g.first.Fail?)
    && (g.first.Fail? ==>
          || (s.copy.pc.Ended? && s.copy.res == g.first)
          || (s.inspect.pc.InspectEnded? && s.inspect.res == g.first))
    && (g.pc.Streaming? <==> g.res == Pending)
    && (s.copy.pc.NeverSpawned? ==> g.res.Fail?)
    && (!g.pc.Streaming? && !s.copy.pc.NeverSpawned? ==>
          s.copy.pc.Ended? && s.inspect.pc.InspectEnded? && g.res == g.first)
    && (s.copy.pc.NeverSpawned? && g.res == Fail(ClosedPipe) ==> s.upload.closed)
    && ((g.pc.ToSend? || g.pc.Sent?) && Masked(g.res) != Ok ==> s.cancelled)
  }

  predicate VerdictInv(s: State) {
    s.verdict.Returned? ==>
      && s.group.pc.Sent? && (s.upload.pc.UploadClosing? || s.upload.pc.UploadDone?)
      && (s.verdict.success <==> Success(s))
  }

  predicate ControlInv(s: State) {
    && CopyInv(s.copy) && InspectInv(s.inspect, s.copy.pc) && UploadInv(s.upload, s.copy.pc)
    && GroupInv(s) && VerdictInv(s)
  }

  lemma CopyKeepsControl(c: Config, s: State, l: CopyLabel)
    requires ControlInv(s) && Enabled(c, s, OfCopy(l))
    ensures ControlInv(Step(c, s, OfCopy(l)))
  {
  }

  lemma InspectKeepsControl(c: Config, s: State, l: InspectLabel)
    requires ControlInv(s) && Enabled(c, s, OfInspect(l))
    ensures ControlInv(Step(c, s, OfInspect(l)))
  {
  }

  lemma GroupKeepsControl(c: Config, s: State, l: GroupLabel)
    requires ControlInv(s) && Enabled(c, s, OfGroup(l))
    ensures ControlInv(Step(c, s, OfGroup(l)))
  {
    if l.RecordCopy? || l.RecordInspect? {
      RecordKeepsControl(s, l, c);
    }
  }

  lemma RecordKeepsControl(s: State, l: GroupLabel, c: Config)
    requires ControlInv(s) && GroupEnabled(s, l) && (l.RecordCopy? || l.RecordInspect?)
    ensures ControlInv(GroupStep(c, s, l))
  {
  }

  lemma UploadKeepsControl(c: Config, s: State, l: UploadLabel)
    requires ControlInv(s) && Enabled(c, s, OfUpload(l))
    ensures ControlInv(Step(c, s, OfUpload(l)))
  {
  }

  // ---------------------------------------------------------------- blame

  /** The sources whose own failure is taken for a pipe that the upload closed. */
  predicate Deceiving(c: Config) {
    c.headerOk && c.end == Broken(ClosedPipe) && 0 < |c.data| <= c.declared
  }

  /** Who is behind a copy that ended with a closed pipe. */
  predicate BlameInv(c: Config, cp: Copy, inspected: Result, seen: Bytes, u: Upload) {
    && (cp.pc.Taring? && cp.pc.after == Stop(ClosedPipe) ==> inspected.Fail?)
    && (cp.res == Fail(ClosedPipe) ==>
          || (u.closed && !u.eof)
          || inspected.Fail?
          || Deceiving(c)
          || c.data == [])
    && (cp.res == Fail(ClosedPipe) ==>
          c.end == Broken(ClosedPipe) || |u.got| < |Head(c)| + |c.data|)
    && (cp.res == Fail(ClosedPipe) && !u.closed ==> u.got == Head(c) + seen)
    && (cp.res == Fail(Other) && !u.closed && c.declared >= 0 ==> u.got == Head(c) + Wanted(c))
  }

  /** As much of the source as was declared. */
  function Wanted(c: Config): Bytes
    requires c.declared >= 0
  {
    c.data[..Min(|c.data|, c.declared)]
  }

  /** A header fails by itself only if the tar writer refuses it. */
  predicate HeaderInv(c: Config, pc: CopyPc, res: Result) {
    pc.NeverSpawned? && res == Fail(Other) ==> !(c.headerOk && c.declared >= 0)
  }

  predicate Inv(c: Config, s: State) {
    if c.declared == 0 then s == Init(c)
    else ContentInv(c, s.copy, s.inspect.seen, s.upload.got) && ControlInv(s)
         && BlameInv(c, s.copy, s.inspect.res, s.inspect.seen, s.upload)
         && HeaderInv(c, s.copy.pc, s.group.res)
  }

  lemma StepKeepsHeader(c: Config, s: State, l: Label)
    requires GroupInv(s) && HeaderInv(c, s.copy.pc, s.group.res) && Enabled(c, s, l)
    ensures var t := Step(c, s, l);
            HeaderInv(c, t.copy.pc, t.group.res)
  {
  }

  /** While a chunk is on its way the upload cannot have all of the image. */
  lemma UploadedSoFar(c: Config, cp: Copy, seen: Bytes, got: Bytes)
    requires ContentInv(c, cp, seen, got)
    ensures cp.pc.Teeing? ==> |got| < |Head(c)| + |c.data|
    ensures cp.pc.Taring? && (cp.pc.rest != [] || cp.pc.after == Stop(ClosedPipe)) ==>
              |got| < |Head(c)| + |c.data|
  {
    if cp.pc.Taring? {
      assert |got + cp.pc.rest| == |Head(c) + cp.hashed + cp.pc.piece|;
    }
  }

  /** A source that ends with a closed pipe has delivered no more than it declared. */
  lemma BrokenSourceDeceives(c: Config, cp: Copy, seen: Bytes, got: Bytes)
    requires ContentInv(c, cp, seen, got) && cp.pc.Reading? && cp.read == |c.data|
    ensures c.end == Broken(ClosedPipe) ==> Deceiving(c) || c.data == []
  {
  }

  lemma CopyKeepsBlame(c: Config, cp: Copy, i: Inspect, u: Upload, l: CopyLabel)
    requires ContentInv(c, cp, i.seen, u.got) && CopyInv(cp) && InspectInv(i, cp.pc) && UploadInv(u, cp.pc)
    requires BlameInv(c, cp, i.res, i.seen, u) && CopyEnabled(c, cp, InfoReaderClosed(i.pc), u.closed, l)
    ensures BlameInv(c, CopyStep(c, cp, InfoReaderClosed(i.pc), u.closed, l), i.res, i.seen, u)
  {
    match l
    case ReadEnd => SourceBlame(c, cp, i, u);
    case TeeClosed => TeeBlame(c, cp, i, u);
    case TarClosed => TarBlame(c, cp, i, u);
    case TarDone => PieceBlame(c, cp, i, u);
    case _ =>
  }

  lemma SourceBlame(c: Config, cp: Copy, i: Inspect, u: Upload)
    requires ContentInv(c, cp, i.seen, u.got) && cp.pc.Reading? && cp.read == |c.data|
    requires CopyInv(cp)
    ensures BlameInv(c, EndOfCopy(c, cp), i.res, i.seen, u)
  {
    BrokenSourceDeceives(c, cp, i.seen, u.got);
    assert cp.hashed == c.data == i.seen;
  }

  lemma PieceBlame(c: Config, cp: Copy, i: Inspect, u: Upload)
    requires ContentInv(c, cp, i.seen, u.got) && CopyInv(cp) && cp.pc.Taring? && cp.pc.rest == []
    requires BlameInv(c, cp, i.res, i.seen, u)
    ensures BlameInv(c, CopyStep(c, cp, InfoReaderClosed(i.pc), u.closed, TarDone), i.res, i.seen, u)
  {
    UploadedSoFar(c, cp, i.seen, u.got);
    PieceWritten(c, cp, i.seen, u.got);
  }

  /** A tee is closed by an inspection that has failed. */
  lemma TeeBlame(c: Config, cp: Copy, i: Inspect, u: Upload)
    requires ContentInv(c, cp, i.seen, u.got) && CopyInv(cp) && InspectInv(i, cp.pc)
    requires CopyEnabled(c, cp, InfoReaderClosed(i.pc), u.closed, TeeClosed)
    ensures i.res.Fail?
    ensures BlameInv(c, CopyStep(c, cp, InfoReaderClosed(i.pc), u.closed, TeeClosed), i.res, i.seen, u)
  {
    UploadedSoFar(c, cp, i.seen, u.got);
  }

  /** A write to the layer is refused by an upload that turned away before the end. */
  lemma TarBlame(c: Config, cp: Copy, i: Inspect, u: Upload)
    requires ContentInv(c, cp, i.seen, u.got) && UploadInv(u, cp.pc)
    requires CopyEnabled(c, cp, InfoReaderClosed(i.pc), u.closed, TarClosed)
    ensures u.closed && !u.eof
    ensures BlameInv(c, CopyStep(c, cp, InfoReaderClosed(i.pc), u.closed, TarClosed), i.res, i.seen, u)
  {
    UploadedSoFar(c, cp, i.seen, u.got);
  }

  lemma InspectKeepsBlame(c: Config, cp: Copy, i: Inspect, u: Upload, l: InspectLabel)
    requires CopyInv(cp) && InspectInv(i, cp.pc) && BlameInv(c, cp, i.res, i.seen, u) && InspectEnabled(i, cp.pc, l)
    ensures var (i', pc') := InspectStep(i, cp.pc, l);
            BlameInv(c, cp.(pc := pc'), i'.res, i'.seen, u)
  {
  }

  lemma UploadKeepsBlame(c: Config, cp: Copy, i: Inspect, u: Upload, cancelled: bool, l: UploadLabel)
    requires CopyInv(cp) && BlameInv(c, cp, i.res, i.seen, u) && UploadEnabled(u, cp.pc, cancelled, l)
    ensures var (u', pc') := UploadStep(u, cp.pc, cancelled, l);
            BlameInv(c, cp.(pc := pc'), i.res, i.seen, u')
  {
  }

  lemma GroupKeepsBlame(c: Config, s: State, l: GroupLabel)
    requires CopyInv(s.copy) && BlameInv(c, s.copy, s.inspect.res, s.inspect.seen, s.upload) && GroupEnabled(s, l)
    ensures var t := GroupStep(c, s, l);
            BlameInv(c, t.copy, t.inspect.res, t.inspect.seen, t.upload)
  {
  }

  lemma OthersKeepBlame(c: Config, s: State, l: Label)
    requires ControlInv(s) && BlameInv(c, s.copy, s.inspect.res, s.inspect.seen, s.upload) && Enabled(c, s, l) && !l.OfCopy?
    ensures var t := Step(c, s, l);
            BlameInv(c, t.copy, t.inspect.res, t.inspect.seen, t.upload)
  {
    match l
    case OfInspect(il) => InspectKeepsBlame(c, s.copy, s.inspect, s.upload, il);
    case OfUpload(ul) => UploadKeepsBlame(c, s.copy, s.inspect, s.upload, s.cancelled, ul);
    case OfGroup(gl) => GroupKeepsBlame(c, s, gl);
    case _ =>
  }

  lemma StepKeepsContent(c: Config, s: State, l: Label)
    requires ContentInv(c, s.copy, s.inspect.seen, s.upload.got) && Enabled(c, s, l)
    ensures var t := Step(c, s, l);
            ContentInv(c, t.copy, t.inspect.seen, t.upload.got)
  {
    match l
    case OfCopy(cl) =>
      CopyKeepsContent(c, s.copy, s.inspect.seen, s.upload.got,
                       InfoReaderClosed(s.inspect.pc), s.upload.closed, cl);
    case OfInspect(il) => InspectKeepsContent(c, s.copy, s.inspect, s.upload.got, il);
    case OfGroup(gl) => GroupKeepsContent(c, s, gl);
    case OfUpload(ul) => UploadKeepsContent(c, s.copy, s.inspect.seen, s.upload, s.cancelled, ul);
    case _ =>
  }

  lemma StepKeepsControl(c: Config, s: State, l: Label)
    requires ControlInv(s) && Enabled(c, s, l)
    ensures ControlInv(Step(c, s, l))
  {
    match l
    case OfCopy(cl) => CopyKeepsControl(c, s, cl);
    case OfInspect(il) => InspectKeepsControl(c, s, il);
    case OfGroup(gl) => GroupKeepsControl(c, s, gl);
    case OfUpload(ul) => UploadKeepsControl(c, s, ul);
    case _ =>
  }

  lemma StepKeepsInv(c: Config, s: State, l: Label)
    requires Inv(c, s) && Enabled(c, s, l)
    ensures Inv(c, Step(c, s, l))
  {
    if c.declared != 0 {
      StepKeepsContent(c, s, l);
      StepKeepsControl(c, s, l);
      StepKeepsHeader(c, s, l);
      if l.OfCopy? {
        CopyKeepsBlame(c, s.copy, s.inspect, s.upload, l.cl);
      } else {
        OthersKeepBlame(c, s, l);
      }
    }
  }

  lemma {:induction false} RunKeepsInv(c: Config, s: State, run: seq<Label>)
    requires Inv(c, s) && IsRun(c, s, run)
    ensures Inv(c, RunTo(c, s, run))
    decreases |run|
  {
    if run != [] {
      StepKeepsInv(c, s, run[0]);
      RunKeepsInv(c, Step(c, s, run[0]), run[1..]);
    }
  }

  lemma InitInv(c: Config)
    ensures Inv(c, Init(c))
  {
  }
}
