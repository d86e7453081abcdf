/** Runs of the import pipeline that do exist. */
module PipelineRuns {
  import opened Bytes
  import opened Pipeline
  import opened PipelineInvariant
  import Tar

  ghost predicate Reaches(c: Config, s: State, t: State) {
    exists run :: IsRun(c, s, run) && RunTo(c, s, run) == t
  }

  lemma Here(c: Config, s: State)
    ensures Reaches(c, s, s)
  {
    assert IsRun(c, s, []) && RunTo(c, s, []) == s;
  }

  lemma First(c: Config, s: State, l: Label, t: State)
    requires Enabled(c, s, l) && Reaches(c, Step(c, s, l), t)
    ensures Reaches(c, s, t)
  {
    var rest :| IsRun(c, Step(c, s, l), rest) && RunTo(c, Step(c, s, l), rest) == t;
    var run := [l] + rest;
    assert run[0] == l && run[1..] == rest;
    assert IsRun(c, s, run) && RunTo(c, s, run) == t;
  }

  /** Runs compose. */
  lemma {:induction false} Then(c: Config, s: State, run: seq<Label>, t: State)
    requires IsRun(c, s, run) && Reaches(c, RunTo(c, s, run), t)
    ensures Reaches(c, s, t)
    decreases |run|
  {
    if run != [] {
      Then(c, Step(c, s, run[0]), run[1..], t);
      First(c, s, run[0], t);
    }
  }

  lemma Compose(c: Config, s: State, m: State, t: State)
    requires Reaches(c, s, m) && Reaches(c, m, t)
    ensures Reaches(c, s, t)
  {
    var run :| IsRun(c, s, run) && RunTo(c, s, run) == m;
    Then(c, s, run, t);
  }

  /** The state with the given copy, all bytes so far seen and uploaded, and nobody failing. */
  function Calm(cp: Copy, seen: Bytes, got: Bytes): State {
    State(cp, Inspect(Inspecting, Pending, false, seen, 0), Group(Streaming, Ok, Pending),
          Upload(Uploading, Pending, false, false, got), false, Waiting)
  }

  function AfterHeaders(c: Config): State {
    Calm(Copy(Reading, Pending, 0, []), [], Head(c))
  }

  function AfterSource(c: Config): State {
    Calm(Copy(Reading, Pending, |c.data|, c.data), c.data, Head(c) + c.data)
  }

  /** One header goes through: the upload takes it whole. */
  lemma HeaderGoes(c: Config, s: State, t: State)
    requires s.copy.pc.Header? && s.upload.pc.Uploading? && !s.upload.closed && s.upload.res == Pending
    requires var drained := s.(copy := s.copy.(pc := Header(s.copy.pc.second, [])),
                               upload := s.upload.(got := s.upload.got + s.copy.pc.rest));
             Reaches(c, GroupStep(c, drained, HeaderDone), t)
    ensures Reaches(c, s, t)
  {
    var rest := s.copy.pc.rest;
    var drained := s.(copy := s.copy.(pc := Header(s.copy.pc.second, [])),
                      upload := s.upload.(got := s.upload.got + rest));
    First(c, drained, OfGroup(HeaderDone), t);
    if rest == [] {
      assert s.upload.got + rest == s.upload.got;
      assert drained == s;
    } else {
      assert rest[|rest|..] == [] && rest[..|rest|] == rest;
      var l := OfUpload(UploadTake(|rest|));
      assert Step(c, s, l) == drained;
      First(c, s, l, t);
    }
  }

  lemma HeadersGo(c: Config)
    requires c.declared != 0 && HeaderAccepted(c)
    ensures Reaches(c, Init(c), AfterHeaders(c))
  {
    Here(c, AfterHeaders(c));
    var second := Init(c).(copy := Copy(Header(true, c.fileHeader), Pending, 0, []),
                           upload := Upload(Uploading, Pending, false, false, c.dirHeader));
    HeaderGoes(c, second, AfterHeaders(c));
    assert [] + c.dirHeader == c.dirHeader;
    HeaderGoes(c, Init(c), AfterHeaders(c));
  }

  /** The source goes through in one chunk. */
  lemma SourceGoes(c: Config)
    requires 0 < |c.data| <= c.declared
    ensures Reaches(c, AfterHeaders(c), AfterSource(c))
  {
    var n := |c.data|;
    var l1, l2, l3 := OfCopy(ReadChunk(n)), OfInspect(InspectTake(n)), OfCopy(TeeDone);
    var l4, l5 := OfUpload(UploadTake(n)), OfCopy(TarDone);
    var s0 := AfterHeaders(c);
    assert c.data[0..n] == c.data && c.data[..n] == c.data && c.data[n..] == [];
    assert [] + c.data == c.data;
    var s1 := Calm(Copy(Teeing(c.data, c.data), Pending, n, []), [], Head(c));
    var s2 := Calm(Copy(Teeing(c.data, []), Pending, n, []), c.data, Head(c));
    var s3 := Calm(Copy(Taring(c.data, c.data, Next), Pending, n, []), c.data, Head(c));
    var s4 := Calm(Copy(Taring(c.data, [], Next), Pending, n, []), c.data, Head(c) + c.data);
    assert Step(c, s0, l1) == s1;
    assert Step(c, s1, l2) == s2;
    assert Step(c, s2, l3) == s3;
    assert Step(c, s3, l4) == s4;
    assert Step(c, s4, l5) == AfterSource(c);
    Here(c, AfterSource(c));
    First(c, s4, l5, AfterSource(c));
    First(c, s3, l4, AfterSource(c));
    First(c, s2, l3, AfterSource(c));
    First(c, s1, l2, AfterSource(c));
    First(c, s0, l1, AfterSource(c));
  }

  /** The marker goes through byte by byte. */
  lemma {:induction false} MarkerGoes(c: Config, left: nat, got: Bytes, t: State)
    requires Reaches(c, Calm(Copy(ClosingInfo, Ok, |c.data|, c.data), c.data, got + Zeros(left)), t)
    ensures Reaches(c, Calm(Copy(Marking(left), Pending, |c.data|, c.data), c.data, got), t)
  {
    var s := Calm(Copy(Marking(left), Pending, |c.data|, c.data), c.data, got);
    if left == 0 {
      assert got + Zeros(0) == got;
      First(c, s, OfCopy(MarkDone), t);
    } else {
      var next := Calm(Copy(Marking(left - 1), Pending, |c.data|, c.data), c.data, got + [0]);
      assert got + [0] + Zeros(left - 1) == got + Zeros(left);
      MarkerGoes(c, left - 1, got + [0], t);
      assert MainPending(s.copy.pc)[..1] == [0];
      assert Step(c, s, OfUpload(UploadTake(1))) == next;
      First(c, s, OfUpload(UploadTake(1)), t);
    }
  }

  /** The state in which everybody but the copy has done well. */
  function Settled(c: Config, res: Result, got: Bytes): State {
    State(Copy(Ended, res, |c.data|, c.data), Inspect(InspectEnded, Ok, true, c.data, 1),
          Group(Sent, res, res), Upload(UploadClosing, Ok, true, false, got),
          Masked(res) != Ok, Returned(Masked(res) == Ok))
  }

  /** Copy and inspection have ended, and nobody else has done anything. */
  function BothEnded(cp: Copy, i: Inspect, first: Result, u: Upload): State {
    State(cp, i, Group(Streaming, first, Pending), u, false, Waiting)
  }

  lemma GroupFinishes(c: Config, cp: Copy, i: Inspect, first: Result, u: Upload)
    requires cp.pc.Ended? && i.pc.InspectEnded? && first != Pending && u.pc.UploadClosing? && u.res == Ok
    ensures Reaches(c, BothEnded(cp, i, first, u),
                    State(cp, i, Group(Sent, first, first), u, Masked(first) != Ok,
                          Returned(Masked(first) == Ok && i.informer > 0)))
  {
    var s0 := BothEnded(cp, i, first, u);
    var s1 := s0.(group := Group(Deciding, first, first));
    var s2 := s1.(group := Group(ToSend, first, first), cancelled := Masked(first) != Ok);
    var s3 := s2.(group := Group(Sent, first, first));
    var t := s3.(verdict := Returned(Masked(first) == Ok && i.informer > 0));
    assert Step(c, s3, Return) == t;
    Here(c, t);
    First(c, s3, Return, t);
    First(c, s2, OfGroup(SendStream), t);
    First(c, s1, OfGroup(Decide), t);
    First(c, s0, OfGroup(GroupWait), t);
  }

  lemma UploadFinishes(c: Config, cp: Copy, i: Inspect, first: Result, got: Bytes)
    requires cp.pc.Ended? && i.pc.InspectEnded? && first != Pending
    ensures Reaches(c, BothEnded(cp, i, first, Upload(Uploading, Pending, false, false, got)),
                    State(cp, i, Group(Sent, first, first), Upload(UploadClosing, Ok, true, false, got),
                          Masked(first) != Ok, Returned(Masked(first) == Ok && i.informer > 0)))
  {
    var s0 := BothEnded(cp, i, first, Upload(Uploading, Pending, false, false, got));
    var s1 := BothEnded(cp, i, first, Upload(Uploading, Pending, true, false, got));
    var s2 := BothEnded(cp, i, first, Upload(UploadToSend, Ok, true, false, got));
    var s3 := BothEnded(cp, i, first, Upload(UploadClosing, Ok, true, false, got));
    var t := State(cp, i, Group(Sent, first, first), s3.upload, Masked(first) != Ok,
                   Returned(Masked(first) == Ok && i.informer > 0));
    GroupFinishes(c, cp, i, first, s3.upload);
    First(c, s2, OfUpload(SendUpload), t);
    First(c, s1, OfUpload(UploadOk), t);
    First(c, s0, OfUpload(UploadSeesEof), t);
  }

  lemma InspectionFinishes(c: Config, cp: Copy, first: Result, got: Bytes, t: State)
    requires cp.pc.Ended? && c.data != []
    requires Reaches(c, BothEnded(cp, Inspect(InspectEnded, Ok, true, c.data, 1), first,
                                  Upload(Uploading, Pending, false, false, got)), t)
    ensures Reaches(c, BothEnded(cp, Inspect(Inspecting, Pending, false, c.data, 0), first,
                                 Upload(Uploading, Pending, false, false, got)), t)
  {
    var u := Upload(Uploading, Pending, false, false, got);
    var s0 := BothEnded(cp, Inspect(Inspecting, Pending, false, c.data, 0), first, u);
    var s1 := BothEnded(cp, Inspect(Inspecting, Pending, true, c.data, 0), first, u);
    var s2 := BothEnded(cp, Inspect(Closing, Ok, true, c.data, 1), first, u);
    var s3 := BothEnded(cp, Inspect(InspectRecording, Ok, true, c.data, 1), first, u);
    First(c, s3, OfGroup(RecordInspect), t);
    First(c, s2, OfInspect(CloseInfoReader), t);
    First(c, s1, OfInspect(InspectOk), t);
    First(c, s0, OfInspect(InspectSeesEof), t);
  }

  /** However the copy ended, the inspection and the upload can still go well. */
  lemma OthersFinish(c: Config, res: Result, got: Bytes)
    requires res != Pending && c.data != []
    ensures Reaches(c, Calm(Copy(ClosingInfo, res, |c.data|, c.data), c.data, got), Settled(c, res, got))
  {
    var t := Settled(c, res, got);
    var ended := Copy(Ended, res, |c.data|, c.data);
    UploadFinishes(c, ended, Inspect(InspectEnded, Ok, true, c.data, 1), res, got);
    InspectionFinishes(c, ended, res, got, t);
    var s0 := Calm(Copy(ClosingInfo, res, |c.data|, c.data), c.data, got);
    var s1 := s0.(copy := Copy(ClosingMain, res, |c.data|, c.data));
    var s2 := s0.(copy := Copy(Recording, res, |c.data|, c.data));
    First(c, s2, OfGroup(RecordCopy), t);
    First(c, s1, OfCopy(CloseMainWriter), t);
    First(c, s0, OfCopy(CloseInfoWriter), t);
  }

  /** A copy that fails at the end of its source, with everybody else doing well. */
  lemma FailedCopyRun(c: Config, cause: Cause)
    requires HeaderAccepted(c) && 0 < |c.data| <= c.declared
    requires EndOfCopy(c, AfterSource(c).copy).res == Fail(cause)
    ensures Reaches(c, Init(c), Settled(c, Fail(cause), Head(c) + c.data))
  {
    var t := Settled(c, Fail(cause), Head(c) + c.data);
    OthersFinish(c, Fail(cause), Head(c) + c.data);
    First(c, AfterSource(c), OfCopy(ReadEnd), t);
    SourceGoes(c);
    Compose(c, AfterHeaders(c), AfterSource(c), t);
    HeadersGo(c);
    Compose(c, Init(c), AfterHeaders(c), t);
  }

  /** A source that passes the checks can be imported. */
  lemma GoodRunExists(c: Config)
    requires c.headerOk && c.data != [] && c.end == Eof && |c.data| == c.declared
    requires forall a | a in c.sums :: c.hash(a, c.data) == c.sums[a]
    ensures Reaches(c, Init(c), Settled(c, Ok, Archive(c)))
  {
    var t := Settled(c, Ok, Archive(c));
    OthersFinish(c, Ok, Archive(c));
    MarkerGoes(c, Tar.MARKER_SIZE, Head(c) + c.data, t);
    First(c, AfterSource(c), OfCopy(ReadEnd), t);
    SourceGoes(c);
    Compose(c, AfterHeaders(c), AfterSource(c), t);
    HeadersGo(c);
    Compose(c, Init(c), AfterHeaders(c), t);
  }

  /** The state with the given copy after an inspection that failed before its first byte. */
  function Uninspected(cp: Copy, g: Group, u: Upload): State {
    State(cp, Inspect(InspectEnded, Fail(Other), false, [], 0), g, u, false, Waiting)
  }

  /** Where such a run ends: the upload has gone well, and the import has failed. */
  function PublishedAnyway(c: Config, cause: Cause): State {
    State(Copy(Ended, Fail(cause), |c.data|, []), Inspect(InspectEnded, Fail(Other), false, [], 0),
          Group(Sent, Fail(Other), Fail(Other)), Upload(UploadClosing, Ok, true, false, Head(c)),
          true, Returned(false))
  }

  lemma UploadOutlivesInspection(c: Config, cause: Cause)
    ensures Reaches(c, Uninspected(Copy(ClosingInfo, Fail(cause), |c.data|, []), Group(Streaming, Fail(Other), Pending),
                                   Upload(Uploading, Pending, false, false, Head(c))),
                    PublishedAnyway(c, cause))
  {
    var t := PublishedAnyway(c, cause);
    var g, u := Group(Streaming, Fail(Other), Pending), Upload(Uploading, Pending, false, false, Head(c));
    var s0 := Uninspected(Copy(ClosingInfo, Fail(cause), |c.data|, []), g, u);
    var s1 := Uninspected(Copy(ClosingMain, Fail(cause), |c.data|, []), g, u);
    var s2 := Uninspected(Copy(Recording, Fail(cause), |c.data|, []), g, u);
    UploadFinishes(c, Copy(Ended, Fail(cause), |c.data|, []), s0.inspect, Fail(Other), Head(c));
    First(c, s2, OfGroup(RecordCopy), t);
    First(c, s1, OfCopy(CloseMainWriter), t);
    First(c, s0, OfCopy(CloseInfoWriter), t);
  }

  /** Nobody takes the first chunk, or there is none: the copy fails with nothing uploaded. */
  lemma CopyFailsUninspected(c: Config) returns (cause: Cause)
    requires c.declared > 0
    ensures Reaches(c, Uninspected(Copy(Reading, Pending, 0, []), Group(Streaming, Fail(Other), Pending),
                                   Upload(Uploading, Pending, false, false, Head(c))),
                    PublishedAnyway(c, cause))
  {
    var g, u := Group(Streaming, Fail(Other), Pending), Upload(Uploading, Pending, false, false, Head(c));
    var s0 := Uninspected(Copy(Reading, Pending, 0, []), g, u);
    if c.data == [] {
      cause := if c.end.Broken? then c.end.cause else Other;
      UploadOutlivesInspection(c, cause);
      First(c, s0, OfCopy(ReadEnd), PublishedAnyway(c, cause));
    } else {
      cause := ClosedPipe;
      var n := |c.data|;
      assert c.data[0..n] == c.data;
      var s1 := Uninspected(Copy(Teeing(c.data, c.data), Pending, n, []), g, u);
      assert Step(c, s0, OfCopy(ReadChunk(n))) == s1;
      UploadOutlivesInspection(c, cause);
      First(c, s1, OfCopy(TeeClosed), PublishedAnyway(c, cause));
      First(c, s0, OfCopy(ReadChunk(n)), PublishedAnyway(c, cause));
    }
  }

  /** An inspection that fails at once does not keep the headers out of the registry. */
  lemma HeadersPublished(c: Config) returns (cause: Cause)
    requires HeaderAccepted(c) && c.declared != 0
    ensures Reaches(c, Init(c), PublishedAnyway(c, cause))
  {
    cause := CopyFailsUninspected(c);
    var t := PublishedAnyway(c, cause);
    var s0 := AfterHeaders(c);
    var s1 := Step(c, s0, OfInspect(InspectFail(Other)));
    var s2 := Step(c, s1, OfInspect(CloseInfoReader));
    First(c, s2, OfGroup(RecordInspect), t);
    First(c, s1, OfInspect(CloseInfoReader), t);
    First(c, s0, OfInspect(InspectFail(Other)), t);
    HeadersGo(c);
    Compose(c, Init(c), s0, t);
  }
}
