/**
  The import pipeline with the single-pass layer between the main pipe and the registry
  client. The layer's copy goroutine reads the main pipe, the client reads the layer, and
  closing the layer's blob closes the reading end of the main pipe. The client is assumed to
  report success only if it reached the end of the layer's stream before its first Close.
*/
module Delivery {
  import opened Bytes
  import P = Pipeline
  import I = PipelineInvariant
  import R = PipelineRuns
  import T = PipelineTheorems
  import L = Layer

  datatype State = State(p: P.State, l: L.State)

  datatype Label =
    /** A step of the pipeline that is none of the layer's reads and closes. */
    | Stream(pl: P.Label)
    /** The layer reads the main pipe. */
    | ReadPipe(k: nat)
    | ReadPipeEof
    /** A call of the layer's Close closes its blob. */
    | CloseReader(who: nat)
    /** Any other step of the layer or of its client. */
    | OfLayer(ll: L.Label)
    /** The client gives up: it is cancelled, has closed early, or was given an error. */
    | GiveUp

  /** The layer's view: its blob is what has been read from the main pipe so far. */
  function Blob(p: P.State, sha256: Bytes -> string): L.Config {
    L.Config(p.upload.got, true, sha256)
  }

  predicate OfPipe(pl: P.Label) {
    pl.OfUpload? && (pl.ul.UploadTake? || pl.ul.UploadSeesEof? || pl.ul.CloseReaderEarly?)
  }

  /** Steps of the layer that touch its blob. */
  predicate OfBlob(ll: L.Label) {
    ll.CloseBlob? || (ll.OfCopy? && (ll.cl.ReadChunk? || ll.cl.ReadEnd?))
  }

  predicate Enabled(c: P.Config, sha256: Bytes -> string, s: State, l: Label) {
    match l
    case Stream(pl) =>
      && !OfPipe(pl)
      && (if pl == P.OfUpload(P.UploadOk) then s.p.upload.pc.Uploading? && s.l.eofUnforced else P.Enabled(c, s.p, pl))
    case ReadPipe(k) => P.Enabled(c, s.p, P.OfUpload(P.UploadTake(k))) && s.l.copy.Reading?
    case ReadPipeEof => P.Enabled(c, s.p, P.OfUpload(P.UploadSeesEof)) && s.l.copy.Reading?
    case CloseReader(who) => L.CloserPc(s.l, who).PipeClosed?
    case OfLayer(ll) => !OfBlob(ll) && L.Enabled(Blob(s.p, sha256), s.l, ll)
    case GiveUp =>
      s.p.upload.pc.Uploading?
      && (s.p.cancelled || (|s.l.closers| > 1 && !s.l.eofUnforced) || s.l.pipe.ClosedErr?)
  }

  /** What a step is to the pipeline alone. */
  function Projection(l: Label): P.Label {
    match l
    case Stream(pl) => pl
    case ReadPipe(k) => P.OfUpload(P.UploadTake(k))
    case ReadPipeEof => P.OfUpload(P.UploadSeesEof)
    case CloseReader(_) => P.OfUpload(P.CloseReaderEarly)
    case _ => P.OfUpload(P.UploadFail)
  }

  /** Whether it is anything to it. */
  predicate Projects(s: State, l: Label) {
    match l
    case OfLayer(_) => false
    case CloseReader(_) => !s.p.upload.closed
    case _ => true
  }

  function PipelineStep(c: P.Config, sha256: Bytes -> string, s: State, l: Label): P.State
    requires Enabled(c, sha256, s, l)
  {
    if !Projects(s, l) then s.p
    else if l == Stream(P.OfUpload(P.UploadOk)) then
      s.p.(upload := s.p.upload.(pc := P.UploadToSend, res := P.Ok))
    else P.Step(c, s.p, Projection(l))
  }

  function LayerStep(c: P.Config, sha256: Bytes -> string, s: State, l: Label): L.State
    requires Enabled(c, sha256, s, l)
  {
    match l
    case ReadPipe(k) =>
      var chunk := P.MainPending(s.p.copy.pc)[..k];
      s.l.(copy := L.Writing(chunk, chunk), read := s.l.read + k)
    case ReadPipeEof => s.l.(copy := L.Copied(true))
    case CloseReader(who) => L.SetCloser(s.l.(blobClosed := true), who, L.Waiting)
    case OfLayer(ll) => L.Step(Blob(s.p, sha256), s.l, ll)
    case Stream(pl) => if pl == P.OfUpload(P.CloseMainReader) then s.l.(blobClosed := true) else s.l
    case GiveUp => s.l
  }

  function Step(c: P.Config, sha256: Bytes -> string, s: State, l: Label): State
    requires Enabled(c, sha256, s, l)
  {
    State(PipelineStep(c, sha256, s, l), LayerStep(c, sha256, s, l))
  }

  function Init(c: P.Config): State {
    // A zero size is refused before there is a layer.
    State(P.Init(c), L.Init().(blobClosed := c.declared == 0))
  }

  predicate IsRun(c: P.Config, sha256: Bytes -> string, s: State, run: seq<Label>)
    decreases |run|
  {
    run == [] || (Enabled(c, sha256, s, run[0]) && IsRun(c, sha256, Step(c, sha256, s, run[0]), run[1..]))
  }

  function RunTo(c: P.Config, sha256: Bytes -> string, s: State, run: seq<Label>): State
    requires IsRun(c, sha256, s, run)
    decreases |run|
  {
    if run == [] then s else RunTo(c, sha256, Step(c, sha256, s, run[0]), run[1..])
  }

  // ---------------------------------------------------------------- how the two fit together

  /** The copy of the layer has failed. */
  predicate Unclean(l: L.State) {
    match l.copy
    case Copied(clean) => !clean
    case Signalled(clean) => !clean
    case Ended => L.CloserPc(l, L.OWN).Idle?
    case _ => false
  }

  predicate AboutToClose(l: L.State) {
    exists w: nat :: w < |l.closers| && l.closers[w].PipeClosed?
  }

  /** The layer and the reading end of the main pipe. */
  predicate FitsPipe(u: P.Upload, l: L.State) {
    && l.read == |u.got|
    && l.blobClosed == u.closed
    && (L.CopiedWell(l) <==> u.eof)
    && (u.res == P.Ok ==> l.eofUnforced)
  }

  /** The ends of the layer's own pipe. */
  predicate FitsClient(l: L.State) {
    && (l.eofUnforced ==> l.sawEof)
    && (l.sawEof && !l.eofUnforced ==> |l.closers| > 1)
    && (!l.pipe.Open? || Unclean(l) ==> l.blobClosed || AboutToClose(l))
    && (l.pipe.ClosedErr? ==> Unclean(l) && l.copy.Ended?)
    && (Unclean(l) && l.copy.Ended? ==> !l.pipe.Open?)
    && (l.pipe.ClosedEof? && Unclean(l) ==> |l.closers| > 1)
    && (!L.CloserPc(l, L.OWN).Idle? && !L.CloserPc(l, L.OWN).Started? ==> !l.pipe.Open?)
  }

  predicate Inv(c: P.Config, sha256: Bytes -> string, s: State) {
    && I.Inv(c, s.p)
    && (c.declared != 0 ==> L.Inv(Blob(s.p, sha256), s.l) && FitsPipe(s.p.upload, s.l) && FitsClient(s.l))
  }

  lemma InitInv(c: P.Config, sha256: Bytes -> string)
    ensures Inv(c, sha256, Init(c))
  {
    I.InitInv(c);
  }

  /** A client that saw the end unforced stands behind a layer that saw it. */
  lemma UnforcedMeansRead(c: P.Config, sha256: Bytes -> string, s: State)
    requires c.declared != 0 && Inv(c, sha256, s) && s.l.eofUnforced
    ensures s.p.upload.eof
  {
  }

  /** The pipeline's part of every step is a step of the pipeline, or none. */
  lemma StepProjects(c: P.Config, sha256: Bytes -> string, s: State, l: Label)
    requires Inv(c, sha256, s) && Enabled(c, sha256, s, l)
    ensures Projects(s, l) ==>
              P.Enabled(c, s.p, Projection(l)) && PipelineStep(c, sha256, s, l) == P.Step(c, s.p, Projection(l))
    ensures !Projects(s, l) ==> PipelineStep(c, sha256, s, l) == s.p
  {
    if l == Stream(P.OfUpload(P.UploadOk)) && c.declared != 0 {
      UnforcedMeansRead(c, sha256, s);
    }
  }

  // ---------------------------------------------------------------- what every step keeps

  /** What a step of the layer that leaves its blob alone does not change. */
  predicate SameBlob(l: L.State, l': L.State) {
    && l'.read == l.read && l'.blobClosed == l.blobClosed
    && (L.CopiedWell(l') <==> L.CopiedWell(l)) && (l.eofUnforced ==> l'.eofUnforced)
  }

  lemma CopyFits(c: L.Config, l: L.State, cl: L.CopyLabel)
    requires L.Inv(c, l) && FitsClient(l) && L.CopyEnabled(c, l, cl) && !cl.ReadChunk? && !cl.ReadEnd?
    ensures FitsClient(L.CopyStep(c, l, cl)) && SameBlob(l, L.CopyStep(c, l, cl))
  {
    var l' := L.CopyStep(c, l, cl);
    if cl.CallClose? {
      assert forall w :: 1 <= w < |l.closers| ==> l'.closers[w] == l.closers[w];
    }
  }

  lemma CloserFits(c: L.Config, l: L.State, ll: L.Label)
    requires L.Inv(c, l) && FitsClient(l) && L.Enabled(c, l, ll)
    requires ll.ClosePipe? || ll.Await? || ll.Finalize?
    ensures FitsClient(L.Step(c, l, ll)) && SameBlob(l, L.Step(c, l, ll))
  {
    L.CloserMoves(c, l, ll);
    var l' := L.Step(c, l, ll);
    if ll.ClosePipe? {
      assert l'.closers[ll.who].PipeClosed?;
    } else if AboutToClose(l) {
      var w: nat :| w < |l.closers| && l.closers[w].PipeClosed?;
      assert l'.closers[w] == l.closers[w];
    }
  }

  lemma ClientFits(c: L.Config, l: L.State, ll: L.Label)
    requires L.Inv(c, l) && FitsClient(l) && L.Enabled(c, l, ll)
    requires ll.ClientTake? || ll.ClientSeesEof? || ll.ClientCloses?
    ensures FitsClient(L.Step(c, l, ll)) && SameBlob(l, L.Step(c, l, ll))
  {
    var l' := L.Step(c, l, ll);
    if AboutToClose(l) {
      var w: nat :| w < |l.closers| && l.closers[w].PipeClosed?;
      assert l'.closers[w] == l.closers[w];
    }
  }

  lemma BlobCloseFits(c: L.Config, l: L.State, w: nat)
    requires L.Inv(c, l) && FitsClient(l) && L.CloserPc(l, w).PipeClosed?
    ensures var l' := L.SetCloser(l.(blobClosed := true), w, L.Waiting);
            && L.Inv(c, l') && FitsClient(l') && l'.blobClosed && l'.read == l.read
            && (L.CopiedWell(l') <==> L.CopiedWell(l)) && (l.eofUnforced ==> l'.eofUnforced)
  {
    L.StepKeepsInv(c, l, L.CloseBlob(w, true));
  }

  lemma PipeReadFits(sha256: Bytes -> string, l: L.State, got: Bytes, taken: Bytes)
    requires L.Inv(L.Config(got, true, sha256), l) && FitsClient(l) && l.copy.Reading? && l.read == |got|
    ensures var l' := l.(copy := L.Writing(taken, taken), read := l.read + |taken|);
            L.Inv(L.Config(got + taken, true, sha256), l') && FitsClient(l') && !L.CopiedWell(l')
  {
    assert l.hashed == got && l.delivered == got;
    assert (got + taken)[..|got|] == got && (got + taken)[|got|..|got| + |taken|] == taken;
  }

  lemma PipeEndFits(sha256: Bytes -> string, l: L.State, got: Bytes)
    requires L.Inv(L.Config(got, true, sha256), l) && FitsClient(l) && l.copy.Reading? && l.read == |got|
    ensures var l' := l.(copy := L.Copied(true));
            L.Inv(L.Config(got, true, sha256), l') && FitsClient(l') && L.CopiedWell(l')
  {
    assert l.hashed == got && l.delivered == got;
  }

  lemma BlobClosedFits(c: L.Config, l: L.State)
    requires L.Inv(c, l) && FitsClient(l)
    ensures var l' := l.(blobClosed := true);
            L.Inv(c, l') && FitsClient(l') && (L.CopiedWell(l') <==> L.CopiedWell(l))
  {
    var l' := l.(blobClosed := true);
    assert L.ContentInv(c, l');
    assert forall i :: 0 <= i < |l.closers| ==> L.CloserInv(l, l.closers[i]) ==> L.CloserInv(l', l.closers[i]);
  }

  lemma StreamLeavesPipe(c: P.Config, p: P.State, pl: P.Label)
    requires P.Enabled(c, p, pl) && !OfPipe(pl)
    ensures var u, u' := p.upload, P.Step(c, p, pl).upload;
            && u'.got == u.got && u'.eof == u.eof
            && u'.closed == (u.closed || pl == P.OfUpload(P.CloseMainReader))
            && (u'.res == P.Ok ==> u.res == P.Ok || pl == P.OfUpload(P.UploadOk))
  {
  }

  lemma LayerKeepsInv(c: P.Config, sha256: Bytes -> string, s: State, ll: L.Label)
    requires c.declared != 0 && Inv(c, sha256, s) && Enabled(c, sha256, s, OfLayer(ll))
    ensures Inv(c, sha256, Step(c, sha256, s, OfLayer(ll)))
  {
    var lc := Blob(s.p, sha256);
    L.StepKeepsInv(lc, s.l, ll);
    if ll.OfCopy? {
      CopyFits(lc, s.l, ll.cl);
    } else if ll.ClosePipe? || ll.Await? || ll.Finalize? {
      CloserFits(lc, s.l, ll);
    } else {
      ClientFits(lc, s.l, ll);
    }
  }

  lemma ReadKeepsInv(c: P.Config, sha256: Bytes -> string, s: State, k: nat)
    requires c.declared != 0 && Inv(c, sha256, s) && Enabled(c, sha256, s, ReadPipe(k))
    requires I.Inv(c, PipelineStep(c, sha256, s, ReadPipe(k)))
    ensures Inv(c, sha256, Step(c, sha256, s, ReadPipe(k)))
  {
    var taken := P.MainPending(s.p.copy.pc)[..k];
    PipeReadFits(sha256, s.l, s.p.upload.got, taken);
    assert Step(c, sha256, s, ReadPipe(k)).p.upload == s.p.upload.(got := s.p.upload.got + taken);
  }

  lemma EndKeepsInv(c: P.Config, sha256: Bytes -> string, s: State)
    requires c.declared != 0 && Inv(c, sha256, s) && Enabled(c, sha256, s, ReadPipeEof)
    requires I.Inv(c, PipelineStep(c, sha256, s, ReadPipeEof))
    ensures Inv(c, sha256, Step(c, sha256, s, ReadPipeEof))
  {
    PipeEndFits(sha256, s.l, s.p.upload.got);
    assert Step(c, sha256, s, ReadPipeEof).p.upload == s.p.upload.(eof := true);
  }

  lemma StreamKeepsInv(c: P.Config, sha256: Bytes -> string, s: State, l: Label)
    requires c.declared != 0 && Inv(c, sha256, s) && Enabled(c, sha256, s, l) && (l.Stream? || l.GiveUp?)
    requires I.Inv(c, PipelineStep(c, sha256, s, l))
    ensures Inv(c, sha256, Step(c, sha256, s, l))
  {
    StepProjects(c, sha256, s, l);
    StreamLeavesPipe(c, s.p, Projection(l));
    if l == Stream(P.OfUpload(P.CloseMainReader)) {
      BlobClosedFits(Blob(s.p, sha256), s.l);
    }
  }

  lemma StepKeepsInv(c: P.Config, sha256: Bytes -> string, s: State, l: Label)
    requires Inv(c, sha256, s) && Enabled(c, sha256, s, l)
    ensures Inv(c, sha256, Step(c, sha256, s, l))
  {
    StepProjects(c, sha256, s, l);
    if Projects(s, l) {
      I.StepKeepsInv(c, s.p, Projection(l));
    }
    if c.declared != 0 {
      if l.OfLayer? {
        LayerKeepsInv(c, sha256, s, l.ll);
      } else if l.CloseReader? {
        BlobCloseFits(Blob(s.p, sha256), s.l, l.who);
      } else if l.ReadPipe? {
        ReadKeepsInv(c, sha256, s, l.k);
      } else if l.ReadPipeEof? {
        EndKeepsInv(c, sha256, s);
      } else {
        StreamKeepsInv(c, sha256, s, l);
      }
    }
  }

  lemma {:induction false} RunKeepsInv(c: P.Config, sha256: Bytes -> string, s: State, run: seq<Label>)
    requires Inv(c, sha256, s) && IsRun(c, sha256, s, run)
    ensures Inv(c, sha256, RunTo(c, sha256, s, run))
    decreases |run|
  {
    if run != [] {
      StepKeepsInv(c, sha256, s, run[0]);
      RunKeepsInv(c, sha256, Step(c, sha256, s, run[0]), run[1..]);
    }
  }

  // ---------------------------------------------------------------- what reaches the client

  /**
    Success in any interleaving means that the client was handed the whole archive of a
    source that passed every check, and that any digest it then asks for is that of the
    archive, unless the source deceives.
  */
  lemma ClientGetsArchive(c: P.Config, sha256: Bytes -> string, run: seq<Label>)
    requires IsRun(c, sha256, Init(c), run) && !I.Deceiving(c)
    requires T.Succeeded(RunTo(c, sha256, Init(c), run).p)
    ensures var s := RunTo(c, sha256, Init(c), run);
            && T.GoodImport(c, s.p)
            && s.l.delivered == c.dirHeader + c.fileHeader + c.data + Zeros(1024)
            && (L.Digest(s.l.fields) == L.NotComputed || L.Digest(s.l.fields) == L.Value(sha256(s.l.delivered)))
  {
    InitInv(c, sha256);
    RunKeepsInv(c, sha256, Init(c), run);
    T.SuccessIsGood(c, RunTo(c, sha256, Init(c), run).p);
  }

  // ---------------------------------------------------------------- progress

  /** Steps the environment may take but need not. */
  predicate Spontaneous(l: Label) {
    match l
    case Stream(pl) => P.Spontaneous(pl)
    case OfLayer(ll) => ll.ClientCloses?
    case _ => false
  }

  /** While the layer has not seen the end of an open main pipe, it or its client can go on. */
  lemma LayerGoesOn(c: P.Config, sha256: Bytes -> string, s: State) returns (l: Label)
    requires c.declared != 0 && Inv(c, sha256, s)
    requires !s.p.upload.eof && !s.p.upload.closed && !s.l.copy.Reading?
    ensures Enabled(c, sha256, s, l) && !Spontaneous(l)
  {
    if s.l.copy.Writing? {
      var rest := s.l.copy.rest;
      l := OfLayer(if rest == [] then L.OfCopy(L.Written)
                   else if s.l.pipe.Open? then L.ClientTake(|rest|) else L.OfCopy(L.WriteClosed));
    } else if s.l.copy.Copied? {
      l := OfLayer(L.OfCopy(L.Signal));
    } else if s.l.copy.Signalled? {
      l := OfLayer(L.OfCopy(L.CloseWithError));
    } else {
      assert Unclean(s.l) && AboutToClose(s.l);
      var w: nat :| w < |s.l.closers| && s.l.closers[w].PipeClosed?;
      l := CloseReader(w);
    }
  }

  /** The step of the layer's own Close. */
  function OwnClose(pc: L.ClosePc): Label {
    match pc
    case Started => OfLayer(L.ClosePipe(L.OWN))
    case PipeClosed => CloseReader(L.OWN)
    case Waiting => OfLayer(L.Await(L.OWN))
    case Finalizing => OfLayer(L.Finalize(L.OWN))
    case _ => OfLayer(L.OfCopy(L.CloseReturned))
  }

  /** Once it has, the client can be brought to its end. */
  lemma ClientGoesOn(c: P.Config, sha256: Bytes -> string, s: State) returns (l: Label)
    requires c.declared != 0 && Inv(c, sha256, s) && s.p.upload.eof && s.p.upload.pc.Uploading?
    ensures Enabled(c, sha256, s, l) && !Spontaneous(l)
  {
    if s.l.copy.Copied? {
      l := OfLayer(L.OfCopy(L.Signal));
    } else if s.l.copy.Signalled? {
      l := OfLayer(L.OfCopy(L.CallClose));
    } else if s.l.copy.Ending? {
      l := OwnClose(s.l.closers[L.OWN]);
    } else if !s.l.sawEof {
      l := OfLayer(L.ClientSeesEof);
    } else if s.l.eofUnforced {
      l := Stream(P.OfUpload(P.UploadOk));
    } else {
      l := GiveUp;
    }
  }

  lemma SomeStep(c: P.Config, sha256: Bytes -> string, s: State) returns (l: Label)
    requires Inv(c, sha256, s) && !T.Final(s.p)
    ensures Enabled(c, sha256, s, l) && !Spontaneous(l)
  {
    var pl := T.Schedule(c, s.p);
    T.ScheduleRuns(c, s.p);
    if pl == P.OfUpload(P.UploadOk) {
      l := ClientGoesOn(c, sha256, s);
    } else if !OfPipe(pl) {
      l := Stream(pl);
    } else if !s.l.copy.Reading? {
      l := LayerGoesOn(c, sha256, s);
    } else if pl.ul.UploadTake? {
      l := ReadPipe(pl.ul.k);
    } else {
      l := ReadPipeEof;
    }
  }

  /** The layer brings no deadlock: a run that only the environment could continue is over. */
  lemma StuckOnlyWhenDone(c: P.Config, sha256: Bytes -> string, run: seq<Label>)
    requires IsRun(c, sha256, Init(c), run)
    requires forall l | Enabled(c, sha256, RunTo(c, sha256, Init(c), run), l) :: Spontaneous(l)
    ensures T.Final(RunTo(c, sha256, Init(c), run).p)
  {
    InitInv(c, sha256);
    RunKeepsInv(c, sha256, Init(c), run);
    var s := RunTo(c, sha256, Init(c), run);
    if !T.Final(s.p) {
      var l := SomeStep(c, sha256, s);
      assert false;
    }
  }

  // ---------------------------------------------------------------- the layer is transparent

  ghost predicate Reaches(c: P.Config, sha256: Bytes -> string, s: State, t: State) {
    exists run :: IsRun(c, sha256, s, run) && RunTo(c, sha256, s, run) == t
  }

  lemma Here(c: P.Config, sha256: Bytes -> string, s: State)
    ensures Reaches(c, sha256, s, s)
  {
    assert IsRun(c, sha256, s, []) && RunTo(c, sha256, s, []) == s;
  }

  lemma First(c: P.Config, sha256: Bytes -> string, s: State, l: Label, t: State)
    requires Enabled(c, sha256, s, l) && Reaches(c, sha256, Step(c, sha256, s, l), t)
    ensures Reaches(c, sha256, s, t)
  {
    var m := Step(c, sha256, s, l);
    var rest :| IsRun(c, sha256, m, rest) && RunTo(c, sha256, m, rest) == t;
    var run := [l] + rest;
    assert run[0] == l && run[1..] == rest;
    assert IsRun(c, sha256, s, run) && RunTo(c, sha256, s, run) == t;
  }

  lemma {:induction false} Onward(c: P.Config, sha256: Bytes -> string, s: State, run: seq<Label>, t: State)
    requires IsRun(c, sha256, s, run) && Reaches(c, sha256, RunTo(c, sha256, s, run), t)
    ensures Reaches(c, sha256, s, t)
    decreases |run|
  {
    if run != [] {
      Onward(c, sha256, Step(c, sha256, s, run[0]), run[1..], t);
      First(c, sha256, s, run[0], t);
    }
  }

  lemma Compose(c: P.Config, sha256: Bytes -> string, s: State, m: State, t: State)
    requires Reaches(c, sha256, s, m) && Reaches(c, sha256, m, t)
    ensures Reaches(c, sha256, s, t)
  {
    var run :| IsRun(c, sha256, s, run) && RunTo(c, sha256, s, run) == m;
    Onward(c, sha256, s, run, t);
  }

  /** The layer after everything so far has gone through. */
  function Calm(got: Bytes): L.State {
    L.Init().(read := |got|, hashed := got, delivered := got)
  }

  /** The layer after the client has seen the end, with its own Close still under way. */
  function AfterEnd(got: Bytes): L.State {
    Calm(got).(copy := L.Ending, pipe := L.ClosedEof, closers := [L.PipeClosed], sawEof := true, eofUnforced := true)
  }

  /** A layer that lets the pipeline go on as if it were not there. */
  predicate Follows(u: P.Upload, l: L.State) {
    if u.closed then l.blobClosed && (u.eof ==> l.eofUnforced)
    else l == if u.eof then AfterEnd(u.got) else Calm(u.got)
  }

  lemma TakeFollows(c: P.Config, sha256: Bytes -> string, p: P.State, k: nat)
    requires P.Enabled(c, p, P.OfUpload(P.UploadTake(k))) && !p.upload.eof
    ensures var p' := P.Step(c, p, P.OfUpload(P.UploadTake(k)));
            Reaches(c, sha256, State(p, Calm(p.upload.got)), State(p', Calm(p'.upload.got)))
  {
    var p' := P.Step(c, p, P.OfUpload(P.UploadTake(k)));
    var got, taken := p.upload.got, P.MainPending(p.copy.pc)[..k];
    assert p'.upload.got == got + taken && |taken| == k;
    var l1 := Calm(got).(copy := L.Writing(taken, taken), read := |got| + k);
    var l2 := Calm(got).(copy := L.Writing(taken, []), read := |got| + k, delivered := got + taken);
    var t := State(p', Calm(got + taken));
    assert taken[..k] == taken && taken[k..] == [];
    assert Step(c, sha256, State(p', l2), OfLayer(L.OfCopy(L.Written))) == t;
    Here(c, sha256, t);
    First(c, sha256, State(p', l2), OfLayer(L.OfCopy(L.Written)), t);
    assert Step(c, sha256, State(p', l1), OfLayer(L.ClientTake(k))) == State(p', l2);
    First(c, sha256, State(p', l1), OfLayer(L.ClientTake(k)), t);
    First(c, sha256, State(p, Calm(got)), ReadPipe(k), t);
  }

  /** The layer's own Close makes the end visible to the client. */
  lemma EndIsSeen(c: P.Config, sha256: Bytes -> string, p: P.State, t: State)
    requires t == State(p, AfterEnd(p.upload.got))
    ensures Reaches(c, sha256, State(p, Calm(p.upload.got).(copy := L.Signalled(true))), t)
  {
    var got := p.upload.got;
    var l2 := Calm(got).(copy := L.Signalled(true));
    var l3 := Calm(got).(copy := L.Ending, closers := [L.Started]);
    var l4 := Calm(got).(copy := L.Ending, closers := [L.PipeClosed], pipe := L.ClosedEof);
    Here(c, sha256, t);
    First(c, sha256, State(p, l4), OfLayer(L.ClientSeesEof), t);
    assert L.Step(Blob(p, sha256), l3, L.ClosePipe(L.OWN)) == l4;
    First(c, sha256, State(p, l3), OfLayer(L.ClosePipe(L.OWN)), t);
    assert L.Step(Blob(p, sha256), l2, L.OfCopy(L.CallClose)) == l3;
    First(c, sha256, State(p, l2), OfLayer(L.OfCopy(L.CallClose)), t);
  }

  lemma EndFollows(c: P.Config, sha256: Bytes -> string, p: P.State)
    requires P.Enabled(c, p, P.OfUpload(P.UploadSeesEof))
    ensures var p' := P.Step(c, p, P.OfUpload(P.UploadSeesEof));
            Reaches(c, sha256, State(p, Calm(p.upload.got)), State(p', AfterEnd(p'.upload.got)))
  {
    var p' := P.Step(c, p, P.OfUpload(P.UploadSeesEof));
    var t := State(p', AfterEnd(p'.upload.got));
    EndIsSeen(c, sha256, p', t);
    var l1 := Calm(p.upload.got).(copy := L.Copied(true));
    First(c, sha256, State(p', l1), OfLayer(L.OfCopy(L.Signal)), t);
    First(c, sha256, State(p, Calm(p.upload.got)), ReadPipeEof, t);
  }

  lemma CloseFollows(c: P.Config, sha256: Bytes -> string, p: P.State, l: L.State) returns (l': L.State)
    requires P.Enabled(c, p, P.OfUpload(P.CloseReaderEarly)) && Follows(p.upload, l)
    ensures var p' := P.Step(c, p, P.OfUpload(P.CloseReaderEarly));
            Reaches(c, sha256, State(p, l), State(p', l')) && Follows(p'.upload, l')
  {
    var p' := P.Step(c, p, P.OfUpload(P.CloseReaderEarly));
    if p.upload.eof {
      l' := L.SetCloser(l.(blobClosed := true), L.OWN, L.Waiting);
      Here(c, sha256, State(p', l'));
      First(c, sha256, State(p, l), CloseReader(L.OWN), State(p', l'));
    } else {
      var l1 := l.(closers := [L.Idle, L.Started]);
      var l2 := l.(closers := [L.Idle, L.PipeClosed], pipe := L.ClosedEof);
      l' := l2.(closers := [L.Idle, L.Waiting], blobClosed := true);
      var t := State(p', l');
      Here(c, sha256, t);
      assert Step(c, sha256, State(p, l2), CloseReader(1)) == t;
      First(c, sha256, State(p, l2), CloseReader(1), t);
      assert L.Step(Blob(p, sha256), l1, L.ClosePipe(1)) == l2;
      First(c, sha256, State(p, l1), OfLayer(L.ClosePipe(1)), t);
      assert L.Step(Blob(p, sha256), l, L.ClientCloses) == l1;
      First(c, sha256, State(p, l), OfLayer(L.ClientCloses), t);
    }
  }

  lemma OthersFollow(c: P.Config, sha256: Bytes -> string, p: P.State, l: L.State, pl: P.Label) returns (l': L.State)
    requires P.Enabled(c, p, pl) && Follows(p.upload, l) && !OfPipe(pl)
    ensures Reaches(c, sha256, State(p, l), State(P.Step(c, p, pl), l')) && Follows(P.Step(c, p, pl).upload, l')
  {
    StreamLeavesPipe(c, p, pl);
    var s := State(p, l);
    var t := Step(c, sha256, s, Stream(pl));
    l' := t.l;
    Here(c, sha256, t);
    First(c, sha256, s, Stream(pl), t);
  }

  lemma StepFollows(c: P.Config, sha256: Bytes -> string, p: P.State, l: L.State, pl: P.Label) returns (l': L.State)
    requires I.Inv(c, p) && P.Enabled(c, p, pl) && Follows(p.upload, l)
    ensures Reaches(c, sha256, State(p, l), State(P.Step(c, p, pl), l')) && Follows(P.Step(c, p, pl).upload, l')
  {
    if !OfPipe(pl) {
      l' := OthersFollow(c, sha256, p, l, pl);
    } else if pl.ul.CloseReaderEarly? {
      l' := CloseFollows(c, sha256, p, l);
    } else if pl.ul.UploadTake? {
      TakeFollows(c, sha256, p, pl.ul.k);
      l' := Calm(P.Step(c, p, pl).upload.got);
    } else {
      EndFollows(c, sha256, p);
      l' := AfterEnd(P.Step(c, p, pl).upload.got);
    }
  }

  lemma {:induction false} RunFollows(c: P.Config, sha256: Bytes -> string, p: P.State, l: L.State, run: seq<P.Label>)
    returns (l': L.State)
    requires I.Inv(c, p) && P.IsRun(c, p, run) && Follows(p.upload, l)
    ensures Reaches(c, sha256, State(p, l), State(P.RunTo(c, p, run), l'))
    decreases |run|
  {
    if run == [] {
      l' := l;
      Here(c, sha256, State(p, l));
    } else {
      var m := StepFollows(c, sha256, p, l, run[0]);
      I.StepKeepsInv(c, p, run[0]);
      var q := P.Step(c, p, run[0]);
      l' := RunFollows(c, sha256, q, m, run[1..]);
      Compose(c, sha256, State(p, l), State(q, m), State(P.RunTo(c, p, run), l'));
    }
  }

  lemma {:induction false} RunProjects(c: P.Config, sha256: Bytes -> string, s: State, run: seq<Label>)
    requires Inv(c, sha256, s) && IsRun(c, sha256, s, run)
    ensures R.Reaches(c, s.p, RunTo(c, sha256, s, run).p)
    decreases |run|
  {
    if run == [] {
      R.Here(c, s.p);
    } else {
      StepProjects(c, sha256, s, run[0]);
      StepKeepsInv(c, sha256, s, run[0]);
      RunProjects(c, sha256, Step(c, sha256, s, run[0]), run[1..]);
      if Projects(s, run[0]) {
        R.First(c, s.p, Projection(run[0]), RunTo(c, sha256, s, run).p);
      }
    }
  }

  /**
    The layer neither takes away nor adds an outcome: the pipeline reaches a state with it
    if and only if it reaches that state without it.
  */
  lemma LayerIsTransparent(c: P.Config, sha256: Bytes -> string, t: P.State)
    ensures (exists l :: Reaches(c, sha256, Init(c), State(t, l))) <==> R.Reaches(c, P.Init(c), t)
  {
    InitInv(c, sha256);
    if l :| Reaches(c, sha256, Init(c), State(t, l)) {
      var run :| IsRun(c, sha256, Init(c), run) && RunTo(c, sha256, Init(c), run) == State(t, l);
      RunProjects(c, sha256, Init(c), run);
    }
    if R.Reaches(c, P.Init(c), t) {
      var run :| P.IsRun(c, P.Init(c), run) && P.RunTo(c, P.Init(c), run) == t;
      I.InitInv(c);
      var l := RunFollows(c, sha256, P.Init(c), Init(c).l, run);
    }
  }

  /** So an import through the layer can succeed for exactly the same sources. */
  lemma CanSucceedExactlyWhen(c: P.Config, sha256: Bytes -> string)
    ensures (exists s :: Reaches(c, sha256, Init(c), s) && T.Succeeded(s.p)) <==> I.Deceiving(c) || T.Good(c)
  {
    T.CanSucceedExactlyWhen(c);
    if s :| Reaches(c, sha256, Init(c), s) && T.Succeeded(s.p) {
      assert s == State(s.p, s.l);
      LayerIsTransparent(c, sha256, s.p);
    }
    if t :| R.Reaches(c, P.Init(c), t) && T.Succeeded(t) {
      LayerIsTransparent(c, sha256, t);
      var l :| Reaches(c, sha256, Init(c), State(t, l));
      assert T.Succeeded(State(t, l).p);
    }
  }
}
