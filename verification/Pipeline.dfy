/**
  The import pipeline of the DVCR data processor as a step system.

  `Process` starts a streaming goroutine and an upload goroutine that meet at a
  synchronous pipe (the main pipe). The streaming goroutine writes two tar headers and
  then starts an error group of two: one copies the source through a tee into the tar
  writer and the checksums, the other inspects what the tee gives it through a second
  synchronous pipe (the info pipe). A label names one atomic step of one of them, so a
  sequence of labels is an interleaving.
*/
module Pipeline {
  import opened Bytes
  import Checksum
  import Tar

  // ---------------------------------------------------------------- state

  /** What `errors.Is(err, io.ErrClosedPipe)` answers about an error. */
  datatype Cause = ClosedPipe | Other

  datatype Result = Pending | Ok | Fail(cause: Cause)

  datatype SourceEnd = Eof | Broken(cause: Cause)

  /**
    What one call of `Process` is given: the bytes the source delivers and how it ends,
    the size it declares, the two tar headers, whether the tar writer accepts the second
    one, and the expected sums with the hash functions behind them.
  */
  datatype Config = Config(
    data: Bytes,
    end: SourceEnd,
    declared: int,
    dirHeader: Bytes,
    fileHeader: Bytes,
    headerOk: bool,
    sums: map<string, string>,
    hash: (string, Bytes) -> string)

  /** After a piece is in the tar layer: go on copying, or stop with an error. */
  datatype After = Next | Stop(cause: Cause)

  datatype CopyPc =
    | Header(second: bool, rest: Bytes)
    | NeverSpawned
    | Reading
    | Teeing(chunk: Bytes, rest: Bytes)
    | Taring(piece: Bytes, rest: Bytes, after: After)
    | Marking(left: nat)
    | ClosingInfo
    | ClosingMain
    | Recording
    | Ended

  /** The streaming goroutine: `hashed` is what the checksums have been fed with. */
  datatype Copy = Copy(pc: CopyPc, res: Result, read: nat, hashed: Bytes)

  datatype InspectPc = NotStarted | Inspecting | Closing | InspectRecording | InspectEnded

  /** The inspecting goroutine: `informer` counts the calls of `ImageInformer.Set`. */
  datatype Inspect = Inspect(pc: InspectPc, res: Result, eof: bool, seen: Bytes, informer: nat)

  datatype GroupPc = Streaming | Deciding | ToSend | Sent

  /** The error group and the goroutine that waits for it. */
  datatype Group = Group(pc: GroupPc, first: Result, res: Result)

  datatype UploadPc = Uploading | UploadToSend | UploadClosing | UploadDone

  /** The upload: `closed` is the reading end of the main pipe, `got` what was read from it. */
  datatype Upload = Upload(pc: UploadPc, res: Result, eof: bool, closed: bool, got: Bytes)

  datatype Verdict = Waiting | Returned(success: bool)

  datatype State = State(
    copy: Copy, inspect: Inspect, group: Group, upload: Upload, cancelled: bool, verdict: Verdict)

  // ---------------------------------------------------------------- vocabulary

  predicate HeaderAccepted(c: Config) {
    c.headerOk && c.declared >= 0
  }

  function Head(c: Config): Bytes {
    c.dirHeader + c.fileHeader
  }

  /** The layer of an import that went well. */
  function Archive(c: Config): Bytes {
    Head(c) + c.data + Zeros(Tar.MARKER_SIZE)
  }

  /** What the checks after the copy ask of the bytes that went through. */
  predicate Accepted(c: Config, copied: Bytes) {
    |copied| == c.declared && Checksum.AllMatch(c.hash, c.sums, copied)
  }

  function Masked(r: Result): Result {
    if r == Fail(ClosedPipe) then Ok else r
  }

  /** The writing end of the info pipe is closed from here on. */
  predicate InfoWriterClosed(pc: CopyPc) {
    pc.ClosingMain? || MainWriterClosed(pc)
  }

  predicate MainWriterClosed(pc: CopyPc) {
    pc.Recording? || pc.Ended?
  }

  predicate InfoReaderClosed(pc: InspectPc) {
    pc.InspectRecording? || pc.InspectEnded?
  }

  /** Bytes the streaming goroutine is blocked on in a write to the main pipe. */
  function MainPending(pc: CopyPc): Bytes {
    match pc
    case Header(_, rest) => rest
    case Taring(_, rest, _) => rest
    case Marking(left) => if left > 0 then [0] else []
    case _ => []
  }

  function TeePending(pc: CopyPc): Bytes {
    if pc.Teeing? then pc.rest else []
  }

  // ---------------------------------------------------------------- labels

  datatype CopyLabel =
    | ReadChunk(n: nat) | ReadEnd
    | TeeDone | TeeClosed
    | TarDone | TarClosed
    | MarkDone | MarkClosed
    | CloseInfoWriter | CloseMainWriter

  datatype InspectLabel =
    | InspectTake(k: nat) | InspectSeesEof
    | InspectOk | InspectEmpty | InspectFail(cause: Cause)
    | CloseInfoReader

  datatype GroupLabel =
    | HeaderDone | HeaderClosed | RecordCopy | RecordInspect
    | GroupWait | Decide | SendStream

  datatype UploadLabel =
    | UploadTake(k: nat) | UploadSeesEof | CloseReaderEarly
    | UploadOk | UploadAbort | UploadFail
    | SendUpload | CloseMainReader

  datatype Label =
    | OfCopy(cl: CopyLabel)
    | OfInspect(il: InspectLabel)
    | OfGroup(gl: GroupLabel)
    | OfUpload(ul: UploadLabel)
    | Return
    | ExternalCancel

  /** Steps the environment may take but need not: progress never relies on them. */
  predicate Spontaneous(l: Label) {
    match l
    case OfInspect(il) => il.InspectFail?
    case OfUpload(ul) => ul.CloseReaderEarly? || ul.UploadFail?
    case ExternalCancel => true
    case _ => false
  }

  // ---------------------------------------------------------------- the copy

  predicate CopyEnabled(c: Config, cp: Copy, infoR: bool, mainR: bool, l: CopyLabel) {
    match l
    case ReadChunk(n) => cp.pc.Reading? && 1 <= n && cp.read + n <= |c.data|
    case ReadEnd => cp.pc.Reading? && cp.read == |c.data|
    case TeeDone => cp.pc.Teeing? && cp.pc.rest == []
    case TeeClosed => cp.pc.Teeing? && cp.pc.rest != [] && infoR
    case TarDone => cp.pc.Taring? && cp.pc.rest == []
    case TarClosed => cp.pc.Taring? && cp.pc.rest != [] && mainR
    case MarkDone => cp.pc.Marking? && cp.pc.left == 0
    case MarkClosed => cp.pc.Marking? && cp.pc.left > 0 && mainR
    case CloseInfoWriter => cp.pc.ClosingInfo?
    case CloseMainWriter => cp.pc.ClosingMain?
  }

  function Failed(cp: Copy, cause: Cause): Copy {
    cp.(pc := ClosingInfo, res := Fail(cause))
  }

  /**
    A write of `piece` to the tar writer: bytes past the declared size are cut off and
    reported as an error other than a closed pipe.
  */
  function StartTar(c: Config, hashed: Bytes, piece: Bytes, after: After): CopyPc {
    var room := Max(c.declared - |hashed|, 0);
    if |piece| > room
    then Taring(piece[..room], piece[..room], Stop(Other))
    else Taring(piece, piece, after)
  }

  /** The source is exhausted: size, checksums and then the end-of-archive marker. */
  function EndOfCopy(c: Config, cp: Copy): Copy {
    match c.end
    case Broken(cause) => Failed(cp, cause)
    case Eof =>
      if Accepted(c, cp.hashed) then cp.(pc := Marking(Tar.MARKER_SIZE)) else Failed(cp, Other)
  }

  function CopyStep(c: Config, cp: Copy, infoR: bool, mainR: bool, l: CopyLabel): Copy
    requires CopyEnabled(c, cp, infoR, mainR, l)
  {
    match l
    case ReadChunk(n) =>
      var chunk := c.data[cp.read..cp.read + n];
      cp.(pc := Teeing(chunk, chunk), read := cp.read + n)
    case ReadEnd => EndOfCopy(c, cp)
    case TeeDone => cp.(pc := StartTar(c, cp.hashed, cp.pc.chunk, Next))
    case TeeClosed =>
      // The bytes the inspector did take still reach the tar writer.
      var taken := |cp.pc.chunk| - |cp.pc.rest|;
      if taken > 0
      then cp.(pc := StartTar(c, cp.hashed, cp.pc.chunk[..taken], Stop(ClosedPipe)))
      else Failed(cp, ClosedPipe)
    case TarDone =>
      if cp.pc.after.Next? then cp.(pc := Reading, hashed := cp.hashed + cp.pc.piece)
      // Nothing reads the checksums of a copy that failed.
      else Failed(cp, cp.pc.after.cause)
    case TarClosed => Failed(cp, ClosedPipe)
    case MarkDone => cp.(pc := ClosingInfo, res := Ok)
    // A short write of the marker is reported without the error of the pipe.
    case MarkClosed => Failed(cp, Other)
    case CloseInfoWriter => cp.(pc := ClosingMain)
    case CloseMainWriter => cp.(pc := Recording)
  }

  // ---------------------------------------------------------------- the inspection

  predicate InspectEnabled(i: Inspect, pc: CopyPc, l: InspectLabel) {
    match l
    case InspectTake(k) => i.pc.Inspecting? && 1 <= k <= |TeePending(pc)|
    case InspectSeesEof => i.pc.Inspecting? && InfoWriterClosed(pc) && !i.eof
    // Inspection succeeds only after it has read its pipe to the end.
    case InspectOk => i.pc.Inspecting? && i.eof && i.seen != []
    case InspectEmpty => i.pc.Inspecting? && i.eof && i.seen == []
    case InspectFail(_) => i.pc.Inspecting?
    case CloseInfoReader => i.pc.Closing?
  }

  function InspectStep(i: Inspect, pc: CopyPc, l: InspectLabel): (Inspect, CopyPc)
    requires InspectEnabled(i, pc, l)
  {
    match l
    case InspectTake(k) =>
      (i.(seen := i.seen + pc.rest[..k]), Teeing(pc.chunk, pc.rest[k..]))
    case InspectSeesEof => (i.(eof := true), pc)
    case InspectOk => (i.(pc := Closing, res := Ok, informer := i.informer + 1), pc)
    case InspectEmpty => (i.(pc := Closing, res := Fail(Other)), pc)
    case InspectFail(cause) => (i.(pc := Closing, res := Fail(cause)), pc)
    case CloseInfoReader => (i.(pc := InspectRecording), pc)
  }

  // ---------------------------------------------------------------- the upload

  predicate UploadEnabled(u: Upload, pc: CopyPc, cancelled: bool, l: UploadLabel) {
    match l
    // The layer reads in a goroutine of its own, which may outlast the client.
    case UploadTake(k) => !u.closed && 1 <= k <= |MainPending(pc)|
    case UploadSeesEof => !u.closed && MainWriterClosed(pc) && !u.eof
    case CloseReaderEarly => !u.closed
    // The registry client reports success only after its reader reached the end.
    case UploadOk => u.pc.Uploading? && u.eof
    // It gives up once the context is cancelled or its reader is closed under it.
    case UploadAbort => u.pc.Uploading? && (cancelled || (u.closed && !u.eof))
    case UploadFail => u.pc.Uploading?
    case SendUpload => u.pc.UploadToSend?
    case CloseMainReader => u.pc.UploadClosing?
  }

  /** What a read by the upload does to the blocked write. */
  function MainTaken(pc: CopyPc, k: nat): CopyPc
    requires 1 <= k <= |MainPending(pc)|
  {
    match pc
    case Header(second, rest) => Header(second, rest[k..])
    case Taring(piece, rest, after) => Taring(piece, rest[k..], after)
    case Marking(left) => Marking(left - 1)
    case _ => pc
  }

  function UploadStep(u: Upload, pc: CopyPc, cancelled: bool, l: UploadLabel): (Upload, CopyPc)
    requires UploadEnabled(u, pc, cancelled, l)
  {
    match l
    case UploadTake(k) => (u.(got := u.got + MainPending(pc)[..k]), MainTaken(pc, k))
    case UploadSeesEof => (u.(eof := true), pc)
    case CloseReaderEarly => (u.(closed := true), pc)
    case UploadOk => (u.(pc := UploadToSend, res := Ok), pc)
    case UploadAbort => (u.(pc := UploadToSend, res := Fail(Other)), pc)
    case UploadFail => (u.(pc := UploadToSend, res := Fail(Other)), pc)
    case SendUpload => (u.(pc := UploadClosing), pc)
    case CloseMainReader => (u.(pc := UploadDone, closed := true), pc)
  }

  // ---------------------------------------------------------------- the group and Process

  predicate GroupEnabled(s: State, l: GroupLabel) {
    match l
    case HeaderDone => s.copy.pc.Header? && s.copy.pc.rest == []
    case HeaderClosed => s.copy.pc.Header? && s.copy.pc.rest != [] && s.upload.closed
    case RecordCopy => s.copy.pc.Recording?
    case RecordInspect => s.inspect.pc.InspectRecording?
    case GroupWait => s.group.pc.Streaming? && s.copy.pc.Ended? && s.inspect.pc.InspectEnded?
    case Decide => s.group.pc.Deciding?
    case SendStream => s.group.pc.ToSend?
  }

  /** Headers are written before the group exists: a failure ends the goroutine at once. */
  function FailHeader(s: State, cause: Cause): State {
    s.(copy := s.copy.(pc := NeverSpawned), group := s.group.(pc := Deciding, res := Fail(cause)))
  }

  /** The group keeps the first error it is given. */
  function Record(g: Group, res: Result): Group {
    if g.first == Ok then g.(first := res) else g
  }

  function GroupStep(c: Config, s: State, l: GroupLabel): State
    requires GroupEnabled(s, l)
  {
    match l
    case HeaderDone =>
      if s.copy.pc.second then
        s.(copy := s.copy.(pc := Reading), inspect := s.inspect.(pc := Inspecting))
      else if HeaderAccepted(c) then
        s.(copy := s.copy.(pc := Header(true, c.fileHeader)))
      else
        FailHeader(s, Other)
    case HeaderClosed => FailHeader(s, ClosedPipe)
    case RecordCopy =>
      s.(copy := s.copy.(pc := Ended), group := Record(s.group, s.copy.res))
    case RecordInspect =>
      s.(inspect := s.inspect.(pc := InspectEnded), group := Record(s.group, s.inspect.res))
    case GroupWait => s.(group := s.group.(pc := Deciding, res := s.group.first))
    case Decide =>
      s.(group := s.group.(pc := ToSend), cancelled := s.cancelled || Masked(s.group.res) != Ok)
    case SendStream => s.(group := s.group.(pc := Sent))
  }

  function Init(c: Config): State {
    if c.declared == 0 then
      // A zero size is refused before any goroutine starts.
      State(Copy(NeverSpawned, Pending, 0, []), Inspect(NotStarted, Pending, false, [], 0),
            Group(Sent, Ok, Fail(Other)), Upload(UploadDone, Fail(Other), false, true, []),
            true, Returned(false))
    else
      State(Copy(Header(false, c.dirHeader), Pending, 0, []), Inspect(NotStarted, Pending, false, [], 0),
            Group(Streaming, Ok, Pending), Upload(Uploading, Pending, false, false, []),
            false, Waiting)
  }

  predicate Enabled(c: Config, s: State, l: Label) {
    match l
    case OfCopy(cl) => CopyEnabled(c, s.copy, InfoReaderClosed(s.inspect.pc), s.upload.closed, cl)
    case OfInspect(il) => InspectEnabled(s.inspect, s.copy.pc, il)
    case OfGroup(gl) => GroupEnabled(s, gl)
    case OfUpload(ul) => UploadEnabled(s.upload, s.copy.pc, s.cancelled, ul)
    case Return =>
      s.verdict.Waiting? && s.group.pc.Sent? && (s.upload.pc.UploadClosing? || s.upload.pc.UploadDone?)
    case ExternalCancel => s.verdict.Waiting? && !s.cancelled
  }

  predicate Success(s: State) {
    Masked(s.group.res) == Ok && s.upload.res == Ok && s.inspect.informer > 0
  }

  function Step(c: Config, s: State, l: Label): State
    requires Enabled(c, s, l)
  {
    match l
    case OfCopy(cl) =>
      s.(copy := CopyStep(c, s.copy, InfoReaderClosed(s.inspect.pc), s.upload.closed, cl))
    case OfInspect(il) =>
      var (i, pc) := InspectStep(s.inspect, s.copy.pc, il);
      s.(inspect := i, copy := s.copy.(pc := pc))
    case OfGroup(gl) => GroupStep(c, s, gl)
    case OfUpload(ul) =>
      var (u, pc) := UploadStep(s.upload, s.copy.pc, s.cancelled, ul);
      s.(upload := u, copy := s.copy.(pc := pc), cancelled := s.cancelled || u.res.Fail?)
    case Return => s.(verdict := Returned(Success(s)))
    case ExternalCancel => s.(cancelled := true)
  }

  // ---------------------------------------------------------------- runs

  predicate IsRun(c: Config, s: State, run: seq<Label>)
    decreases |run|
  {
    run == [] || (Enabled(c, s, run[0]) && IsRun(c, Step(c, s, run[0]), run[1..]))
  }

  function RunTo(c: Config, s: State, run: seq<Label>): State
    requires IsRun(c, s, run)
    decreases |run|
  {
    if run == [] then s else RunTo(c, Step(c, s, run[0]), run[1..])
  }
}
