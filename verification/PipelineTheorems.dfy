/** What the import pipeline guarantees over all of its runs. */
module PipelineTheorems {
  import opened Bytes
  import opened Pipeline
  import opened PipelineInvariant
  import opened PipelineRuns
  import Checksum
  import Tar

  // ---------------------------------------------------------------- safety

  /** The whole source was checked, inspected and uploaded as a finished archive. */
  predicate GoodImport(c: Config, s: State) {
    && c.end == Eof
    && |c.data| == c.declared
    && (forall a | a in c.sums :: c.hash(a, c.data) == c.sums[a])
    && s.copy.res == Ok
    && s.upload.got == c.dirHeader + c.fileHeader + c.data + Zeros(1024)
    && s.inspect.seen == c.data
    && s.inspect.informer == 1
  }

  /** A source that is not empty, keeps to its declared size and has every expected sum. */
  predicate Good(c: Config) {
    && c.headerOk && c.end == Eof && c.data != [] && |c.data| == c.declared
    && forall a | a in c.sums :: c.hash(a, c.data) == c.sums[a]
  }

  predicate Succeeded(s: State) {
    s.verdict == Returned(true)
  }

  lemma SuccessIsGood(c: Config, s: State)
    requires Inv(c, s) && Succeeded(s) && !Deceiving(c)
    ensures GoodImport(c, s)
  {
    // The informer rules out every failure of the inspection, and the upload rules out a
    // reader closed before the end, so nothing is left that a masked error could hide.
    assert s.inspect.res == Ok && s.upload.eof;
    assert s.copy.res != Fail(ClosedPipe);
  }

  /** Success in any interleaving means a good import, unless the source deceives. */
  lemma SuccessOnlyIfGood(c: Config, run: seq<Label>)
    requires IsRun(c, Init(c), run) && Succeeded(RunTo(c, Init(c), run)) && !Deceiving(c)
    ensures GoodImport(c, RunTo(c, Init(c), run))
  {
    InitInv(c);
    RunKeepsInv(c, Init(c), run);
    SuccessIsGood(c, RunTo(c, Init(c), run));
  }

  ghost predicate Safe(c: Config) {
    forall run | IsRun(c, Init(c), run) && Succeeded(RunTo(c, Init(c), run)) ::
      GoodImport(c, RunTo(c, Init(c), run))
  }

  /**
    Masking a closed pipe is harmless exactly when the source itself never reports one:
    a source that does so after some, but not too many, bytes can be imported truncated.
  */
  lemma SafeExactlyWhen(c: Config)
    ensures Safe(c) <==> !Deceiving(c)
  {
    if Deceiving(c) {
      FailedCopyRun(c, ClosedPipe);
      var t := Settled(c, Fail(ClosedPipe), Head(c) + c.data);
      var run :| IsRun(c, Init(c), run) && RunTo(c, Init(c), run) == t;
      assert Succeeded(t) && !GoodImport(c, t);
    } else {
      forall run | IsRun(c, Init(c), run) && Succeeded(RunTo(c, Init(c), run))
        ensures GoodImport(c, RunTo(c, Init(c), run))
      {
        SuccessOnlyIfGood(c, run);
      }
    }
  }

  /**
    What is masked: the source broke off as a closed pipe would, or the upload or the
    inspection turned away before all of the image had gone through. A reader that turns
    away from the marker is reported.
  */
  lemma MaskedBeforeTheMarker(c: Config, run: seq<Label>)
    requires IsRun(c, Init(c), run) && RunTo(c, Init(c), run).copy.res == Fail(ClosedPipe)
    ensures var s := RunTo(c, Init(c), run);
            c.end == Broken(ClosedPipe) || |s.upload.got| < |Head(c)| + |c.data|
  {
    InitInv(c);
    RunKeepsInv(c, Init(c), run);
  }

  /**
    What a failed stream leaves while the upload is there to take it, to the byte: what the
    inspector took, if it broke off as a closed pipe, and otherwise the source up to the
    declared size; never a marker.
  */
  lemma FailedStreamLeaves(c: Config, run: seq<Label>)
    requires IsRun(c, Init(c), run)
    requires RunTo(c, Init(c), run).copy.res.Fail? && !RunTo(c, Init(c), run).upload.closed
    ensures var s := RunTo(c, Init(c), run);
            && c.declared >= 0
            && (s.copy.res == Fail(ClosedPipe) ==> s.upload.got == c.dirHeader + c.fileHeader + s.inspect.seen)
            && (s.copy.res == Fail(Other) ==>
                  s.upload.got == c.dirHeader + c.fileHeader + c.data[..Min(|c.data|, c.declared)])
  {
    InitInv(c);
    RunKeepsInv(c, Init(c), run);
  }

  /**
    A stream that ends in its headers ends in the error of a closed pipe, which is masked,
    unless the tar writer refuses the second header, which is reported.
  */
  lemma HeaderFailureExactlyWhen(c: Config, run: seq<Label>)
    requires c.declared != 0 && IsRun(c, Init(c), run) && RunTo(c, Init(c), run).copy.pc.NeverSpawned?
    ensures var s := RunTo(c, Init(c), run);
            && (s.group.res == Fail(ClosedPipe) || s.group.res == Fail(Other))
            && (s.group.res == Fail(Other) ==> !c.headerOk || c.declared < 0)
            && (s.group.res == Fail(ClosedPipe) ==> s.upload.closed)
  {
    InitInv(c);
    RunKeepsInv(c, Init(c), run);
    OneOfThree(RunTo(c, Init(c), run).group.res);
  }

  /** A failure that is reported. */
  predicate Reported(s: State) {
    s.upload.res.Fail? || ((s.group.pc.ToSend? || s.group.pc.Sent?) && s.group.res == Fail(Other))
  }

  lemma OneOfThree(r: Result)
    ensures r.Fail? <==> r == Fail(ClosedPipe) || r == Fail(Other)
    ensures r != Pending ==> (Masked(r) != Ok <==> r == Fail(Other))
  {
    if r.Fail? {
      match r.cause
      case ClosedPipe =>
      case Other =>
    }
  }

  lemma StepCancels(c: Config, s: State, l: Label)
    requires ControlInv(s) && Enabled(c, s, l) && !l.ExternalCancel? && (s.cancelled <==> Reported(s))
    ensures Step(c, s, l).cancelled <==> Reported(Step(c, s, l))
  {
    OneOfThree(s.group.res);
  }

  lemma {:induction false} RunCancels(c: Config, s: State, run: seq<Label>)
    requires Inv(c, s) && IsRun(c, s, run) && (s.cancelled <==> Reported(s))
    requires forall i :: 0 <= i < |run| ==> !run[i].ExternalCancel?
    ensures RunTo(c, s, run).cancelled <==> Reported(RunTo(c, s, run))
    decreases |run|
  {
    if run != [] {
      if c.declared != 0 {
        StepCancels(c, s, run[0]);
      }
      StepKeepsInv(c, s, run[0]);
      RunCancels(c, Step(c, s, run[0]), run[1..]);
    }
  }

  /** Without a cancellation from outside, the context is cancelled exactly once a failure is reported. */
  lemma CancelledExactlyWhen(c: Config, run: seq<Label>)
    requires IsRun(c, Init(c), run) && forall i :: 0 <= i < |run| ==> !run[i].ExternalCancel?
    ensures RunTo(c, Init(c), run).cancelled <==> Reported(RunTo(c, Init(c), run))
  {
    InitInv(c);
    RunCancels(c, Init(c), run);
  }

  /** The steps that give an inspection its outcome. */
  predicate Gives(l: Label, res: Result) {
    match l
    case OfInspect(InspectOk) => res == Ok
    case OfInspect(InspectEmpty) => res == Fail(Other)
    case OfInspect(InspectFail(cause)) => res == Fail(cause)
    case _ => false
  }

  lemma StepGives(c: Config, s: State, l: Label, res: Result)
    requires ControlInv(s) && Enabled(c, s, l) && res != Pending
    ensures Step(c, s, l).inspect.res == res <==> s.inspect.res == res || Gives(l, res)
  {
  }

  predicate SomeGives(run: seq<Label>, res: Result) {
    exists i :: 0 <= i < |run| && Gives(run[i], res)
  }

  lemma SomeGivesNext(run: seq<Label>, res: Result)
    requires run != []
    ensures SomeGives(run, res) <==> Gives(run[0], res) || SomeGives(run[1..], res)
  {
    if i :| 0 <= i < |run[1..]| && Gives(run[1..][i], res) {
      assert Gives(run[i + 1], res);
    }
    if i :| 1 <= i < |run| && Gives(run[i], res) {
      assert Gives(run[1..][i - 1], res);
    }
  }

  lemma {:induction false} RunGives(c: Config, s: State, run: seq<Label>, res: Result)
    requires Inv(c, s) && IsRun(c, s, run) && res != Pending
    ensures RunTo(c, s, run).inspect.res == res <==>
            s.inspect.res == res || SomeGives(run, res)
    decreases |run|
  {
    if run != [] {
      if c.declared != 0 {
        StepGives(c, s, run[0], res);
      }
      StepKeepsInv(c, s, run[0]);
      RunGives(c, Step(c, s, run[0]), run[1..], res);
      SomeGivesNext(run, res);
    }
  }

  /**
    How an inspection ended is what it met: the end after some bytes, the end after none,
    which is no closed pipe, or the failure it was given.
  */
  lemma InspectionEndsAsItMet(c: Config, run: seq<Label>, res: Result)
    requires IsRun(c, Init(c), run) && res != Pending
    ensures RunTo(c, Init(c), run).inspect.res == res <==> SomeGives(run, res)
  {
    InitInv(c);
    RunGives(c, Init(c), run, res);
  }

  /** The error the group keeps is the first one it was given. */
  lemma {:induction false} FirstErrorStays(c: Config, s: State, run: seq<Label>)
    requires IsRun(c, s, run) && s.group.first.Fail?
    ensures RunTo(c, s, run).group.first == s.group.first
    decreases |run|
  {
    if run != [] {
      FirstErrorStays(c, Step(c, s, run[0]), run[1..]);
    }
  }

  /** A successful import leaves a layer whose archive ends where a reader looks for it. */
  lemma PublishedLayerEnds(c: Config, run: seq<Label>)
    requires IsRun(c, Init(c), run) && Succeeded(RunTo(c, Init(c), run)) && !Deceiving(c)
    requires |Head(c)| % 512 == 0
    ensures Tar.ZeroRecordAt(RunTo(c, Init(c), run).upload.got, Tar.NextEntry(|Head(c)|, |c.data|))
  {
    SuccessOnlyIfGood(c, run);
    Tar.MarkerRecords(Head(c), c.data);
  }

  // ---------------------------------------------------------------- progress

  predicate Final(s: State) {
    && s.verdict.Returned? && s.group.pc.Sent? && s.upload.pc.UploadDone?
    && (s.copy.pc.Ended? || s.copy.pc.NeverSpawned?)
    && (s.inspect.pc.InspectEnded? || s.inspect.pc.NotStarted?)
  }

  /** The step that unblocks a write to the main pipe. */
  function MainPeer(s: State): Label {
    match s.upload.pc
    case Uploading => OfUpload(UploadTake(|MainPending(s.copy.pc)|))
    case UploadToSend => OfUpload(SendUpload)
    case _ => OfUpload(CloseMainReader)
  }

  /** A step that moves the copy. */
  function CopyLabelFor(c: Config, s: State): Label {
    match s.copy.pc
    case Header(_, rest) =>
      if rest == [] then OfGroup(HeaderDone)
      else if s.upload.closed then OfGroup(HeaderClosed) else MainPeer(s)
    case Reading =>
      OfCopy(if s.copy.read < |c.data| then ReadChunk(|c.data| - s.copy.read) else ReadEnd)
    case Teeing(_, rest) =>
      if rest == [] then OfCopy(TeeDone)
      else if InfoReaderClosed(s.inspect.pc) then OfCopy(TeeClosed)
      else OfInspect(if s.inspect.pc.Inspecting? then InspectTake(|rest|) else CloseInfoReader)
    case Taring(_, rest, _) =>
      if rest == [] then OfCopy(TarDone)
      else if s.upload.closed then OfCopy(TarClosed) else MainPeer(s)
    case Marking(left) =>
      if left == 0 then OfCopy(MarkDone)
      else if s.upload.closed then OfCopy(MarkClosed) else MainPeer(s)
    case ClosingInfo => OfCopy(CloseInfoWriter)
    case ClosingMain => OfCopy(CloseMainWriter)
    case _ => OfGroup(RecordCopy)
  }

  function InspectLabelFor(i: Inspect): Label {
    match i.pc
    case Inspecting =>
      OfInspect(if !i.eof then InspectSeesEof else if i.seen == [] then InspectEmpty else InspectOk)
    case Closing => OfInspect(CloseInfoReader)
    case _ => OfGroup(RecordInspect)
  }

  function LastLabelFor(s: State): Label {
    match s.upload.pc
    case Uploading =>
      OfUpload(if s.upload.eof then UploadOk
               else if s.upload.closed || s.cancelled then UploadAbort else UploadSeesEof)
    case UploadToSend => OfUpload(SendUpload)
    case UploadClosing => OfUpload(CloseMainReader)
    case UploadDone => Return
  }

  /** A schedule: some process can always go on until all of them are done. */
  function Schedule(c: Config, s: State): Label {
    if !s.copy.pc.Ended? && !s.copy.pc.NeverSpawned? then CopyLabelFor(c, s)
    else if s.copy.pc.Ended? && !s.inspect.pc.InspectEnded? then InspectLabelFor(s.inspect)
    else match s.group.pc
      case Streaming => OfGroup(GroupWait)
      case Deciding => OfGroup(Decide)
      case ToSend => OfGroup(SendStream)
      case Sent => LastLabelFor(s)
  }

  lemma CopyLabelRuns(c: Config, s: State)
    requires ControlInv(s) && s.copy.read <= |c.data|
    requires !s.copy.pc.Ended? && !s.copy.pc.NeverSpawned?
    ensures Enabled(c, s, CopyLabelFor(c, s)) && !Spontaneous(CopyLabelFor(c, s))
  {
  }

  lemma LastLabelRuns(c: Config, s: State)
    requires ControlInv(s) && s.group.pc.Sent? && !Final(s)
    ensures Enabled(c, s, LastLabelFor(s)) && !Spontaneous(LastLabelFor(s))
  {
  }

  lemma ScheduleRuns(c: Config, s: State)
    requires Inv(c, s) && !Final(s)
    ensures Enabled(c, s, Schedule(c, s)) && !Spontaneous(Schedule(c, s))
  {
    if !s.copy.pc.Ended? && !s.copy.pc.NeverSpawned? {
      CopyLabelRuns(c, s);
    } else if s.group.pc.Sent? {
      LastLabelRuns(c, s);
    }
  }

  /**
    No deadlock: a reachable state in which no process can step on its own is one where
    both results have been delivered, Process has returned and every goroutine has ended.
  */
  lemma StuckOnlyWhenDone(c: Config, run: seq<Label>)
    requires IsRun(c, Init(c), run)
    requires forall l | Enabled(c, RunTo(c, Init(c), run), l) :: Spontaneous(l)
    ensures Final(RunTo(c, Init(c), run))
  {
    InitInv(c);
    RunKeepsInv(c, Init(c), run);
    var s := RunTo(c, Init(c), run);
    if !Final(s) {
      ScheduleRuns(c, s);
      assert false;
    }
  }

  // ---------------------------------------------------------------- termination

  function CopyRank(c: Config, cp: Copy): int {
    var ahead := Tar.MARKER_SIZE + 6 + 6 * (|c.data| - cp.read);
    match cp.pc
    case Header(second, rest) => ahead + 1 + |rest| + (if second then 0 else |c.fileHeader| + 1)
    case NeverSpawned => 0
    case Reading => ahead
    case Teeing(chunk, rest) => ahead + |chunk| + |rest| + 2
    case Taring(_, rest, _) => ahead + |rest| + 1
    case Marking(left) => 5 + left
    case ClosingInfo => 3
    case ClosingMain => 2
    case Recording => 1
    case Ended => 0
  }

  function InspectRank(i: Inspect): nat {
    match i.pc
    case NotStarted => 5
    case Inspecting => if i.eof then 3 else 4
    case Closing => 2
    case InspectRecording => 1
    case InspectEnded => 0
  }

  function GroupRank(g: Group): nat {
    match g.pc
    case Streaming => 3
    case Deciding => 2
    case ToSend => 1
    case Sent => 0
  }

  function UploadRank(u: Upload): nat {
    (if u.eof then 0 else 1) + (if u.closed then 0 else 1)
    + match u.pc
      case Uploading => 3
      case UploadToSend => 2
      case UploadClosing => 1
      case UploadDone => 0
  }

  function Rank(c: Config, s: State): int {
    CopyRank(c, s.copy) + InspectRank(s.inspect) + GroupRank(s.group) + UploadRank(s.upload)
    + (if s.cancelled then 0 else 1) + (if s.verdict.Waiting? then 1 else 0)
  }

  lemma CopyLowersRank(c: Config, cp: Copy, infoR: bool, mainR: bool, l: CopyLabel)
    requires CopyEnabled(c, cp, infoR, mainR, l) && cp.read <= |c.data|
    ensures 0 <= CopyRank(c, CopyStep(c, cp, infoR, mainR, l)) < CopyRank(c, cp)
  {
  }

  lemma InspectLowersRank(c: Config, cp: Copy, i: Inspect, l: InspectLabel)
    requires InspectEnabled(i, cp.pc, l) && cp.read <= |c.data|
    ensures var (i', pc') := InspectStep(i, cp.pc, l);
            0 <= CopyRank(c, cp.(pc := pc')) + InspectRank(i') < CopyRank(c, cp) + InspectRank(i)
  {
  }

  lemma UploadLowersRank(c: Config, cp: Copy, u: Upload, cancelled: bool, l: UploadLabel)
    requires UploadEnabled(u, cp.pc, cancelled, l) && cp.read <= |c.data|
    ensures var (u', pc') := UploadStep(u, cp.pc, cancelled, l);
            0 <= CopyRank(c, cp.(pc := pc')) + UploadRank(u') < CopyRank(c, cp) + UploadRank(u)
  {
  }

  lemma GroupLowersRank(c: Config, s: State, l: GroupLabel)
    requires GroupEnabled(s, l) && s.copy.read <= |c.data| && InspectInv(s.inspect, s.copy.pc)
    requires s.copy.pc.Header? ==> s.copy.read == 0
    ensures 0 <= Rank(c, GroupStep(c, s, l)) < Rank(c, s)
  {
  }

  lemma StepLowersRank(c: Config, s: State, l: Label)
    requires Inv(c, s) && Enabled(c, s, l)
    ensures 0 <= Rank(c, Step(c, s, l)) < Rank(c, s)
  {
    if c.declared != 0 {
      match l
      case OfCopy(cl) => CopyLowersRank(c, s.copy, InfoReaderClosed(s.inspect.pc), s.upload.closed, cl);
      case OfInspect(il) => InspectLowersRank(c, s.copy, s.inspect, il);
      case OfGroup(gl) => GroupLowersRank(c, s, gl);
      case OfUpload(ul) => UploadLowersRank(c, s.copy, s.upload, s.cancelled, ul);
      case _ =>
    }
  }

  /** Every run is finite: its length is bounded by what the configuration holds. */
  lemma {:induction false} RunsAreBounded(c: Config, s: State, run: seq<Label>)
    requires Inv(c, s) && IsRun(c, s, run)
    ensures |run| <= Rank(c, s)
    decreases |run|
  {
    if run != [] {
      StepLowersRank(c, s, run[0]);
      StepKeepsInv(c, s, run[0]);
      RunsAreBounded(c, Step(c, s, run[0]), run[1..]);
    }
  }

  lemma ImportTakesBoundedSteps(c: Config, run: seq<Label>)
    requires IsRun(c, Init(c), run)
    ensures |run| <= 6 * |c.data| + |c.dirHeader| + |c.fileHeader| + Tar.MARKER_SIZE + 23
  {
    InitInv(c);
    RunsAreBounded(c, Init(c), run);
  }

  // ---------------------------------------------------------------- what a verdict does not say

  /** Success is possible exactly for the sources it is meant for, and the deceiving ones. */
  lemma CanSucceedExactlyWhen(c: Config)
    ensures (exists t :: Reaches(c, Init(c), t) && Succeeded(t)) <==> Deceiving(c) || Good(c)
  {
    if Deceiving(c) {
      FailedCopyRun(c, ClosedPipe);
      assert Succeeded(Settled(c, Fail(ClosedPipe), Head(c) + c.data));
    } else if Good(c) {
      GoodRunExists(c);
      assert Succeeded(Settled(c, Ok, Archive(c)));
    } else {
      forall t | Reaches(c, Init(c), t) && Succeeded(t)
        ensures false
      {
        var run :| IsRun(c, Init(c), run) && RunTo(c, Init(c), run) == t;
        InitInv(c);
        RunKeepsInv(c, Init(c), run);
        SuccessIsGood(c, t);
        assert false;
      }
    }
  }

  /**
    A mismatched checksum fails the import, but does not keep the image out of the
    registry: the end of the failed stream looks to the upload like the end of a good one.
  */
  lemma MismatchMayStillBePublished(c: Config)
    requires c.headerOk && c.data != [] && c.end == Eof && |c.data| == c.declared
    requires exists a :: a in c.sums && c.hash(a, c.data) != c.sums[a]
    ensures exists t :: Reaches(c, Init(c), t) && t.upload.res == Ok && t.verdict == Returned(false)
                        && t.upload.got == c.dirHeader + c.fileHeader + c.data
  {
    FailedCopyRun(c, Other);
    var t := Settled(c, Fail(Other), Head(c) + c.data);
    assert t.upload.res == Ok && t.verdict == Returned(false);
  }

  /** The upload went well although the import did not. */
  predicate FailedButPublished(s: State) {
    s.upload.res == Ok && s.verdict == Returned(false)
  }

  /**
    A failed import leaves nothing in the registry only if it fails before the image is
    streamed: the size is zero or the tar writer refuses the header.
  */
  lemma FailurePublishesExactlyWhen(c: Config)
    ensures (exists t :: Reaches(c, Init(c), t) && FailedButPublished(t)) <==>
            c.declared > 0 && c.headerOk
  {
    if c.declared > 0 && c.headerOk {
      var cause := HeadersPublished(c);
      assert FailedButPublished(PublishedAnyway(c, cause));
    } else {
      forall t | Reaches(c, Init(c), t)
        ensures !FailedButPublished(t)
      {
        var run :| IsRun(c, Init(c), run) && RunTo(c, Init(c), run) == t;
        InitInv(c);
        RunKeepsInv(c, Init(c), run);
      }
    }
  }
}
