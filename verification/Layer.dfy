/**
  The single-pass layer that the registry client uploads. A copy goroutine moves the blob
  through a synchronous pipe to the client, then into the hash and the counter. The
  reader's closer can be called by the copy goroutine itself and, at any time and any
  number of times, by the client.
*/
module Layer {
  import opened Bytes
  import opened Wrappers

  /** The blob, whether it ends in EOF or in an error, and the digest of a byte string. */
  datatype Config = Config(blob: Bytes, endsWell: bool, sha256: Bytes -> string)

  datatype CopyPc =
    | Reading
    | Writing(chunk: Bytes, rest: Bytes)
    | Copied(clean: bool)       // io.Copy has returned
    | Signalled(clean: bool)    // doneDigesting is closed
    | Ending                    // inside its own call of Close
    | Ended

  /** Steps of one call of Close; `Waiting` is blocked on doneDigesting. */
  datatype ClosePc = Idle | Started | PipeClosed | Waiting | Finalizing | Returned(ok: bool)

  datatype PipeEnd = Open | ClosedEof | ClosedErr

  /** The fields the layer guards with its mutex. */
  datatype Fields = Fields(digest: Option<string>, size: nat, consumed: bool)

  /**
    `closers` holds every call of Close: the first one is that of the copy goroutine, the
    rest are the client's. `eofUnforced` says that the client reached the end of the stream
    without having called Close before.
  */
  datatype State = State(
    copy: CopyPc, read: nat, hashed: Bytes,
    pipe: PipeEnd, blobClosed: bool,
    closers: seq<ClosePc>,
    delivered: Bytes, sawEof: bool, eofUnforced: bool,
    fields: Fields)

  const OWN: nat := 0

  datatype CopyLabel =
    | ReadChunk(n: nat) | ReadEnd | ReadClosed
    | Written | WriteClosed
    | Signal | CloseWithError | CallClose | CloseReturned

  datatype Label =
    | OfCopy(cl: CopyLabel)
    | ClosePipe(who: nat) | CloseBlob(who: nat, ok: bool) | Await(who: nat) | Finalize(who: nat)
    | ClientTake(k: nat) | ClientSeesEof | ClientCloses

  // ---------------------------------------------------------------- queries

  datatype Answer<T> = NotComputed | Value(value: T)

  function Digest(f: Fields): Answer<string> {
    if f.digest.None? then NotComputed else Value(f.digest.value)
  }

  function DiffID(f: Fields): Answer<string> {
    Digest(f)
  }

  function Size(f: Fields): Answer<nat> {
    if f.size == 0 then NotComputed else Value(f.size)
  }

  predicate ReaderRefused(f: Fields) {
    f.consumed
  }

  // ---------------------------------------------------------------- steps

  function Init(): State {
    State(Reading, 0, [], Open, false, [Idle], [], false, false, Fields(None, 0, false))
  }

  /** doneDigesting is closed. */
  predicate Done(pc: CopyPc) {
    pc.Signalled? || pc.Ending? || pc.Ended?
  }

  predicate CopyEnabled(c: Config, s: State, l: CopyLabel) {
    match l
    case ReadChunk(n) => s.copy.Reading? && !s.blobClosed && 1 <= n && s.read + n <= |c.blob|
    case ReadEnd => s.copy.Reading? && !s.blobClosed && s.read == |c.blob|
    case ReadClosed => s.copy.Reading? && s.blobClosed
    case Written => s.copy.Writing? && s.copy.rest == []
    case WriteClosed => s.copy.Writing? && s.copy.rest != [] && !s.pipe.Open?
    case Signal => s.copy.Copied?
    case CloseWithError => s.copy.Signalled? && !s.copy.clean
    case CallClose => s.copy.Signalled? && s.copy.clean
    case CloseReturned => s.copy.Ending? && CloserPc(s, OWN).Returned?
  }

  function CopyStep(c: Config, s: State, l: CopyLabel): State
    requires CopyEnabled(c, s, l)
  {
    match l
    case ReadChunk(n) =>
      var chunk := c.blob[s.read..s.read + n];
      s.(copy := Writing(chunk, chunk), read := s.read + n)
    case ReadEnd => s.(copy := Copied(c.endsWell))
    case ReadClosed => s.(copy := Copied(false))
    // Hash and counter see a chunk only after the client has taken all of it.
    case Written => s.(copy := Reading, hashed := s.hashed + s.copy.chunk)
    case WriteClosed => s.(copy := Copied(false))
    case Signal => s.(copy := Signalled(s.copy.clean))
    case CloseWithError => s.(copy := Ended, pipe := if s.pipe.Open? then ClosedErr else s.pipe)
    case CallClose => SetCloser(s.(copy := Ending), OWN, Started)
    case CloseReturned => s.(copy := Ended)
  }

  function CloserPc(s: State, w: nat): ClosePc {
    if w < |s.closers| then s.closers[w] else Idle
  }

  function SetCloser(s: State, w: nat, pc: ClosePc): State {
    if w < |s.closers| then s.(closers := s.closers[w := pc]) else s
  }

  predicate Enabled(c: Config, s: State, l: Label) {
    match l
    case OfCopy(cl) => CopyEnabled(c, s, cl)
    case ClosePipe(w) => CloserPc(s, w).Started?
    case CloseBlob(w, _) => CloserPc(s, w).PipeClosed?
    case Await(w) => CloserPc(s, w).Waiting? && Done(s.copy)
    case Finalize(w) => CloserPc(s, w).Finalizing?
    case ClientTake(k) => s.copy.Writing? && s.pipe.Open? && 1 <= k <= |s.copy.rest|
    case ClientSeesEof => s.pipe.ClosedEof? && !s.sawEof
    case ClientCloses => true
  }

  function Step(c: Config, s: State, l: Label): State
    requires Enabled(c, s, l)
  {
    match l
    case OfCopy(cl) => CopyStep(c, s, cl)
    case ClosePipe(w) =>
      SetCloser(s.(pipe := if s.pipe.Open? then ClosedEof else s.pipe), w, PipeClosed)
    case CloseBlob(w, ok) =>
      if ok then SetCloser(s.(blobClosed := true), w, Waiting) else SetCloser(s, w, Returned(false))
    case Await(w) => SetCloser(s, w, Finalizing)
    case Finalize(w) =>
      SetCloser(s.(fields := Fields(Some(c.sha256(s.hashed)), |s.hashed|, true)), w, Returned(true))
    case ClientTake(k) =>
      s.(copy := Writing(s.copy.chunk, s.copy.rest[k..]), delivered := s.delivered + s.copy.rest[..k])
    case ClientSeesEof => s.(sawEof := true, eofUnforced := |s.closers| == 1)
    case ClientCloses => s.(closers := s.closers + [Started])
  }

  predicate IsRun(c: Config, s: State, run: seq<Label>)
    decreases |run|
  {
    run == [] || (Enabled(c, s, run[0]) && IsRun(c, Step(c, s, run[0]), run[1..]))
  }

  function RunTo(c: Config, s: State, run: seq<Label>): State
    requires IsRun(c, s, run)
    decreases |run|
  {
    if run == [] then s else RunTo(c, Step(c, s, run[0]), run[1..])
  }

  // ---------------------------------------------------------------- invariant

  predicate Prefix(a: Bytes, b: Bytes) {
    |a| <= |b| && a == b[..|a|]
  }

  /** How hashed, delivered and blob relate. */
  predicate ContentInv(c: Config, s: State) {
    && s.read <= |c.blob|
    && Prefix(s.delivered, c.blob)
    && |s.hashed| <= |s.delivered| && s.hashed == s.delivered[..|s.hashed|]
    && match s.copy
       case Reading => |s.hashed| == |s.delivered| == s.read
       case Writing(chunk, rest) =>
         && |rest| <= |chunk|
         && |s.hashed| + |chunk| == s.read && |s.delivered| + |rest| == s.read
         && chunk == c.blob[|s.hashed|..s.read] && rest == c.blob[|s.delivered|..s.read]
       case Copied(clean) => clean ==> Whole(c, s)
       case Signalled(clean) => clean ==> Whole(c, s)
       case Ending => Whole(c, s)
       case Ended => !CloserPc(s, OWN).Idle? ==> Whole(c, s)
  }

  predicate Whole(c: Config, s: State) {
    c.endsWell && s.hashed == c.blob && s.delivered == c.blob
  }

  /** What a closer at `pc` has already done. */
  predicate CloserInv(s: State, pc: ClosePc) {
    && (pc.PipeClosed? || pc.Waiting? ==> !s.pipe.Open?)
    && (pc.Waiting? ==> s.blobClosed)
    && (pc.Finalizing? || pc == Returned(true) ==> Done(s.copy))
    && (pc == Returned(true) ==> s.fields.consumed)
  }

  predicate ControlInv(s: State) {
    && |s.closers| > 0
    && (s.closers[OWN].Idle? ==> !s.copy.Ending?)
    && (!s.closers[OWN].Idle? ==> s.copy.Ending? || (s.copy.Ended? && s.closers[OWN].Returned?))
    && (s.pipe.ClosedEof? && |s.closers| == 1 ==> !s.closers[OWN].Idle?)
    && (s.eofUnforced ==> !s.closers[OWN].Idle?)
    && forall i :: 0 <= i < |s.closers| ==> CloserInv(s, s.closers[i])
  }

  predicate FieldsInv(c: Config, s: State) {
    if s.fields.consumed
    then Done(s.copy) && s.fields == Fields(Some(c.sha256(s.hashed)), |s.hashed|, true)
    else s.fields == Fields(None, 0, false)
  }

  predicate Inv(c: Config, s: State) {
    ContentInv(c, s) && ControlInv(s) && FieldsInv(c, s)
  }

  lemma CopyKeepsContent(c: Config, s: State, l: CopyLabel)
    requires Inv(c, s) && CopyEnabled(c, s, l)
    ensures ContentInv(c, CopyStep(c, s, l))
  {
    match l
    case Written => assert s.hashed + s.copy.chunk == c.blob[..s.read];
    case ReadEnd => assert c.blob[..|c.blob|] == c.blob;
    case _ =>
  }

  lemma CopyKeepsControl(c: Config, s: State, l: CopyLabel)
    requires Inv(c, s) && CopyEnabled(c, s, l)
    ensures ControlInv(CopyStep(c, s, l)) && FieldsInv(c, CopyStep(c, s, l))
  {
  }

  /** A closer that only moves on keeps the rest of the invariant. */
  lemma MovingOn(c: Config, s: State, w: nat, pc: ClosePc)
    requires Inv(c, s) && w < |s.closers| && CloserInv(s, pc)
    requires !pc.Idle? && !s.closers[w].Idle? && !s.closers[w].Returned?
    ensures Inv(c, SetCloser(s, w, pc))
  {
    var t := SetCloser(s, w, pc);
    assert forall i :: 0 <= i < |t.closers| && i != w ==> t.closers[i] == s.closers[i];
  }

  lemma ClosingKeepsInv(c: Config, s: State, l: Label)
    requires Inv(c, s) && Enabled(c, s, l) && (l.ClosePipe? || l.CloseBlob?)
    ensures Inv(c, Step(c, s, l))
  {
    if l.ClosePipe? {
      MovingOn(c, s.(pipe := if s.pipe.Open? then ClosedEof else s.pipe), l.who, PipeClosed);
    } else if l.ok {
      MovingOn(c, s.(blobClosed := true), l.who, Waiting);
    } else {
      MovingOn(c, s, l.who, Returned(false));
    }
  }

  lemma FinishingKeepsInv(c: Config, s: State, l: Label)
    requires Inv(c, s) && Enabled(c, s, l) && (l.Await? || l.Finalize?)
    ensures Inv(c, Step(c, s, l))
  {
    var t := Step(c, s, l);
    assert forall i :: 0 <= i < |t.closers| && i != l.who ==> t.closers[i] == s.closers[i];
  }

  lemma ClientKeepsInv(c: Config, s: State, l: Label)
    requires Inv(c, s) && Enabled(c, s, l)
    requires l.ClientTake? || l.ClientSeesEof? || l.ClientCloses?
    ensures Inv(c, Step(c, s, l))
  {
    if l.ClientTake? {
      assert s.delivered + s.copy.rest[..l.k] == c.blob[..|s.delivered| + l.k];
    }
  }

  lemma StepKeepsInv(c: Config, s: State, l: Label)
    requires Inv(c, s) && Enabled(c, s, l)
    ensures Inv(c, Step(c, s, l))
  {
    if l.OfCopy? {
      CopyKeepsContent(c, s, l.cl);
      CopyKeepsControl(c, s, l.cl);
    } else if l.ClientTake? || l.ClientSeesEof? || l.ClientCloses? {
      ClientKeepsInv(c, s, l);
    } else if l.ClosePipe? || l.CloseBlob? {
      ClosingKeepsInv(c, s, l);
    } else {
      FinishingKeepsInv(c, s, l);
    }
  }

  lemma {:induction false} RunKeepsInv(c: Config, s: State, run: seq<Label>)
    requires Inv(c, s) && IsRun(c, s, run)
    ensures Inv(c, RunTo(c, s, run))
    decreases |run|
  {
    if run != [] {
      StepKeepsInv(c, s, run[0]);
      RunKeepsInv(c, Step(c, s, run[0]), run[1..]);
    }
  }

  // ---------------------------------------------------------------- theorems

  ghost predicate Reachable(c: Config, s: State) {
    exists run :: IsRun(c, Init(), run) && RunTo(c, Init(), run) == s
  }

  lemma ReachableInv(c: Config, s: State)
    requires Reachable(c, s)
    ensures Inv(c, s)
  {
    var run :| IsRun(c, Init(), run) && RunTo(c, Init(), run) == s;
    RunKeepsInv(c, Init(), run);
  }

  /** Some call of Close has returned nil. */
  predicate ClosedWell(s: State) {
    exists i :: 0 <= i < |s.closers| && s.closers[i] == Returned(true)
  }

  /** The copy has ended cleanly. */
  predicate CopiedWell(s: State) {
    match s.copy
    case Copied(clean) => clean
    case Signalled(clean) => clean
    case Ending => true
    case Ended => !CloserPc(s, OWN).Idle?
    case _ => false
  }

  /**
    In any order of the closes the digested bytes are a prefix of the delivered ones, which
    are a prefix of the blob; they are all of it once the copy has ended cleanly.
  */
  lemma DigestedIsPrefixOfDelivered(c: Config, s: State)
    requires Reachable(c, s)
    ensures Prefix(s.hashed, s.delivered) && Prefix(s.delivered, c.blob)
    ensures CopiedWell(s) ==> s.hashed == s.delivered == c.blob
    ensures s.eofUnforced ==> s.hashed == s.delivered == c.blob && c.endsWell
  {
    ReachableInv(c, s);
  }

  lemma DoneFreezesCopy(c: Config, s: State, l: CopyLabel)
    requires Done(s.copy) && CopyEnabled(c, s, l)
    ensures var t := CopyStep(c, s, l);
            Done(t.copy) && t.hashed == s.hashed && t.delivered == s.delivered && t.fields == s.fields
  {
  }

  lemma DoneFreezesStep(c: Config, s: State, l: Label)
    requires FieldsInv(c, s) && Done(s.copy) && Enabled(c, s, l)
    ensures var t := Step(c, s, l);
            && Done(t.copy) && t.hashed == s.hashed && t.delivered == s.delivered
            && (s.fields.consumed ==> t.fields == s.fields)
  {
    if l.OfCopy? {
      DoneFreezesCopy(c, s, l.cl);
    }
  }

  /** Done is for ever, and nothing is hashed or delivered after it. */
  lemma {:induction false} DoneFreezes(c: Config, s: State, run: seq<Label>)
    requires Inv(c, s) && Done(s.copy) && IsRun(c, s, run)
    ensures var t := RunTo(c, s, run);
            && Done(t.copy) && t.hashed == s.hashed && t.delivered == s.delivered
            && (s.fields.consumed ==> t.fields == s.fields)
    decreases |run|
  {
    if run != [] {
      StepKeepsInv(c, s, run[0]);
      DoneFreezesStep(c, s, run[0]);
      DoneFreezes(c, Step(c, s, run[0]), run[1..]);
    }
  }

  /**
    Once a Close has returned nil, digest and size are those of the digested bytes, Digest
    and DiffID agree, new readers are refused, and no later step changes any of it.
  */
  lemma ClosedWellIsFinal(c: Config, s: State, run: seq<Label>)
    requires Reachable(c, s) && ClosedWell(s) && IsRun(c, s, run)
    ensures var t := RunTo(c, s, run);
            && t.hashed == s.hashed && t.delivered == s.delivered && t.fields == s.fields
            && Digest(t.fields) == DiffID(t.fields) == Value(c.sha256(s.hashed))
            && Size(t.fields) == (if s.hashed == [] then NotComputed else Value(|s.hashed|))
            && ReaderRefused(t.fields)
  {
    ReachableInv(c, s);
    DoneFreezes(c, s, run);
  }

  /** A client that reads to the end and then closes learns the digest of the whole blob. */
  lemma ReadToEndThenClose(c: Config, s: State)
    requires Reachable(c, s) && s.eofUnforced && ClosedWell(s)
    ensures s.delivered == c.blob && Digest(s.fields) == Value(c.sha256(c.blob))
  {
    DigestedIsPrefixOfDelivered(c, s);
    ClosedWellIsFinal(c, s, []);
  }

  /** What is recorded has been recorded by a Close that returned nil. */
  predicate Recorded(s: State) {
    s.fields.consumed ==> ClosedWell(s)
  }

  /** A Close that has returned stays returned. */
  lemma ReturnedStays(c: Config, s: State, l: Label, i: nat)
    requires Enabled(c, s, l) && i < |s.closers| && s.closers[i] == Returned(true)
    requires s.copy.Signalled? ==> s.closers[OWN].Idle?
    ensures i < |Step(c, s, l).closers| && Step(c, s, l).closers[i] == Returned(true)
  {
    if l.OfCopy? {
      CopyClosers(c, s, l.cl);
    } else if Quiet(l) {
      CloserMoves(c, s, l);
    }
  }

  lemma CopyClosers(c: Config, s: State, l: CopyLabel)
    requires CopyEnabled(c, s, l) && |s.closers| > 0
    ensures CopyStep(c, s, l).closers == if l.CallClose? then s.closers[OWN := Started] else s.closers
  {
  }

  lemma StepKeepsRecorded(c: Config, s: State, l: Label)
    requires Recorded(s) && Inv(c, s) && Enabled(c, s, l)
    ensures Recorded(Step(c, s, l))
  {
    var t := Step(c, s, l);
    if l.Finalize? {
      assert t.closers[l.who] == Returned(true);
    } else if t.fields.consumed {
      var i: nat :| i < |s.closers| && s.closers[i] == Returned(true);
      ReturnedStays(c, s, l, i);
      assert t.closers[i] == Returned(true);
    }
  }

  lemma {:induction false} RunKeepsRecorded(c: Config, s: State, run: seq<Label>)
    requires Recorded(s) && IsRun(c, s, run) && Inv(c, s)
    ensures Recorded(RunTo(c, s, run))
    decreases |run|
  {
    if run != [] {
      StepKeepsRecorded(c, s, run[0]);
      StepKeepsInv(c, s, run[0]);
      RunKeepsRecorded(c, Step(c, s, run[0]), run[1..]);
    }
  }

  /**
    What the layer answers, in any state: a reader is refused, and a digest known, exactly
    once a Close has returned nil; a size is known exactly if there is also something in it.
  */
  lemma AnswersExactlyWhen(c: Config, s: State)
    requires Reachable(c, s)
    ensures ReaderRefused(s.fields) <==> ClosedWell(s)
    ensures Digest(s.fields) == NotComputed <==> !ClosedWell(s)
    ensures DiffID(s.fields) == NotComputed <==> !ClosedWell(s)
    ensures Size(s.fields) == NotComputed <==> !ClosedWell(s) || s.hashed == []
  {
    ReachableInv(c, s);
    var run :| IsRun(c, Init(), run) && RunTo(c, Init(), run) == s;
    RunKeepsRecorded(c, Init(), run);
  }

  // ---------------------------------------------------------------- every close returns

  /** Steps that are not the client's. */
  predicate Quiet(l: Label) {
    !l.ClientTake? && !l.ClientSeesEof? && !l.ClientCloses?
  }

  predicate QuietRun(c: Config, s: State, run: seq<Label>) {
    IsRun(c, s, run) && forall i :: 0 <= i < |run| ==> Quiet(run[i])
  }

  /** While a Close is under way some step other than the client's is enabled. */
  lemma CloseGoesOn(c: Config, s: State, i: nat) returns (l: Label)
    requires Inv(c, s) && i < |s.closers| && !s.closers[i].Idle? && !s.closers[i].Returned?
    ensures Enabled(c, s, l) && Quiet(l)
  {
    match s.closers[i]
    case Started => l := ClosePipe(i);
    case PipeClosed => l := CloseBlob(i, true);
    case Finalizing => l := Finalize(i);
    case Waiting =>
      match s.copy
      case Reading => l := OfCopy(ReadClosed);
      case Writing(_, rest) => l := OfCopy(if rest == [] then Written else WriteClosed);
      case Copied(_) => l := OfCopy(Signal);
      case _ => l := Await(i);
  }

  function CopyRank(c: Config, s: State): int {
    match s.copy
    case Reading => 6 + 2 * (|c.blob| - s.read)
    case Writing(_, _) => 7 + 2 * (|c.blob| - s.read)
    case Copied(_) => 5
    case Signalled(_) => 4
    case Ending => 3
    case Ended => 2
  }

  function CloserRank(pc: ClosePc): nat {
    match pc
    case Idle => 5
    case Started => 5
    case PipeClosed => 4
    case Waiting => 3
    case Finalizing => 2
    case Returned(_) => 1
  }

  function ClosersRank(closers: seq<ClosePc>): nat {
    if closers == [] then 0 else CloserRank(closers[0]) + ClosersRank(closers[1..])
  }

  function Rank(c: Config, s: State): int {
    CopyRank(c, s) + ClosersRank(s.closers)
  }

  lemma {:induction false} ClosersRankAt(closers: seq<ClosePc>, w: nat, pc: ClosePc)
    requires w < |closers|
    ensures ClosersRank(closers[w := pc]) == ClosersRank(closers) - CloserRank(closers[w]) + CloserRank(pc)
  {
    if w == 0 {
      assert closers[w := pc][1..] == closers[1..];
    } else {
      ClosersRankAt(closers[1..], w - 1, pc);
      assert closers[w := pc][1..] == closers[1..][w - 1 := pc];
    }
  }

  lemma CopyLowersRank(c: Config, s: State, l: CopyLabel)
    requires CopyEnabled(c, s, l) && s.read <= |c.blob| && |s.closers| > 0
    requires l.CallClose? ==> s.closers[OWN].Idle?
    ensures 0 <= Rank(c, CopyStep(c, s, l)) < Rank(c, s)
  {
    if l.CallClose? {
      ClosersRankAt(s.closers, OWN, Started);
    }
  }

  function NextPc(l: Label): ClosePc {
    match l
    case ClosePipe(_) => PipeClosed
    case CloseBlob(_, ok) => if ok then Waiting else Returned(false)
    case Await(_) => Finalizing
    case _ => Returned(true)
  }

  lemma CloserMoves(c: Config, s: State, l: Label)
    requires Enabled(c, s, l) && Quiet(l) && !l.OfCopy?
    ensures l.who < |s.closers| && CloserRank(NextPc(l)) < CloserRank(s.closers[l.who])
    ensures var t := Step(c, s, l);
            t.copy == s.copy && t.read == s.read && t.closers == s.closers[l.who := NextPc(l)]
  {
  }

  lemma CloserLowersRank(c: Config, s: State, l: Label)
    requires Enabled(c, s, l) && Quiet(l) && !l.OfCopy? && s.read <= |c.blob|
    ensures 0 <= Rank(c, Step(c, s, l)) < Rank(c, s)
  {
    CloserMoves(c, s, l);
    ClosersRankAt(s.closers, l.who, NextPc(l));
  }

  lemma QuietLowersRank(c: Config, s: State, l: Label)
    requires Inv(c, s) && Enabled(c, s, l) && Quiet(l)
    ensures 0 <= Rank(c, Step(c, s, l)) < Rank(c, s)
  {
    if l.OfCopy? {
      CopyLowersRank(c, s, l.cl);
    } else {
      CloserLowersRank(c, s, l);
    }
  }

  /** A call of Close that has been made stays made. */
  lemma CallsStay(c: Config, s: State, l: Label, i: nat)
    requires Enabled(c, s, l) && i < |s.closers| && !s.closers[i].Idle?
    ensures i < |Step(c, s, l).closers| && !Step(c, s, l).closers[i].Idle?
  {
    if l.OfCopy? {
      CopyClosers(c, s, l.cl);
    } else if Quiet(l) {
      CloserMoves(c, s, l);
    }
  }

  /** However the steps are scheduled, only so many fit in while the client does nothing. */
  lemma {:induction false} QuietRunsAreBounded(c: Config, s: State, run: seq<Label>)
    requires Inv(c, s) && QuietRun(c, s, run)
    ensures |run| <= Rank(c, s)
    decreases |run|
  {
    if run != [] {
      QuietLowersRank(c, s, run[0]);
      StepKeepsInv(c, s, run[0]);
      QuietRunsAreBounded(c, Step(c, s, run[0]), run[1..]);
    } else if s.copy.Reading? || s.copy.Writing? {
      assert s.read <= |c.blob|;
    }
  }

  /**
    Every Close returns without the client reading on: in any schedule the others can take
    only so many steps, and once they can take no more every call of Close has returned.
  */
  lemma ClosesReturn(c: Config, s: State, run: seq<Label>)
    requires Reachable(c, s) && QuietRun(c, s, run)
    ensures |run| <= Rank(c, s)
    ensures (forall l | Enabled(c, RunTo(c, s, run), l) :: !Quiet(l)) ==>
              forall i :: 0 <= i < |RunTo(c, s, run).closers| ==>
                RunTo(c, s, run).closers[i].Idle? || RunTo(c, s, run).closers[i].Returned?
  {
    ReachableInv(c, s);
    QuietRunsAreBounded(c, s, run);
    RunKeepsInv(c, s, run);
    var t := RunTo(c, s, run);
    forall i | 0 <= i < |t.closers| && !t.closers[i].Idle? && !t.closers[i].Returned?
      ensures exists l :: Enabled(c, t, l) && Quiet(l)
    {
      var l := CloseGoesOn(c, t, i);
    }
  }

  ghost predicate ReturnsQuietly(c: Config, s: State, i: nat) {
    exists run :: QuietRun(c, s, run) && i < |RunTo(c, s, run).closers| && RunTo(c, s, run).closers[i].Returned?
  }

  lemma QuietFirst(c: Config, s: State, l: Label, i: nat)
    requires Enabled(c, s, l) && Quiet(l) && ReturnsQuietly(c, Step(c, s, l), i)
    ensures ReturnsQuietly(c, s, i)
  {
    var t := Step(c, s, l);
    var rest :| QuietRun(c, t, rest) && i < |RunTo(c, t, rest).closers| && RunTo(c, t, rest).closers[i].Returned?;
    var run := [l] + rest;
    assert run[0] == l && run[1..] == rest;
    assert QuietRun(c, s, run) && RunTo(c, s, run) == RunTo(c, t, rest);
  }

  lemma {:induction false} CloseReturns(c: Config, s: State, i: nat)
    requires Inv(c, s) && i < |s.closers| && !s.closers[i].Idle?
    ensures ReturnsQuietly(c, s, i)
    decreases Rank(c, s)
  {
    if s.closers[i].Returned? {
      assert QuietRun(c, s, []) && RunTo(c, s, []) == s;
    } else {
      var l := CloseGoesOn(c, s, i);
      QuietLowersRank(c, s, l);
      StepKeepsInv(c, s, l);
      CallsStay(c, s, l, i);
      CloseReturns(c, Step(c, s, l), i);
      QuietFirst(c, s, l, i);
    }
  }

  /** For every Close that has been called there is a run, without the client, in which it returns. */
  lemma CloseNeedsNoReader(c: Config, s: State, i: nat)
    requires Reachable(c, s) && i < |s.closers| && !s.closers[i].Idle?
    ensures ReturnsQuietly(c, s, i)
  {
    ReachableInv(c, s);
    CloseReturns(c, s, i);
  }

  // ---------------------------------------------------------------- what is not promised

  lemma {:induction false} Extend(c: Config, s: State, run: seq<Label>, l: Label)
    requires IsRun(c, s, run) && Enabled(c, RunTo(c, s, run), l)
    ensures IsRun(c, s, run + [l]) && RunTo(c, s, run + [l]) == Step(c, RunTo(c, s, run), l)
    decreases |run|
  {
    if run == [] {
      assert [l][1..] == [];
    } else {
      assert (run + [l])[1..] == run[1..] + [l];
      Extend(c, Step(c, s, run[0]), run[1..], l);
    }
  }

  lemma ReachStep(c: Config, s: State, l: Label)
    requires Reachable(c, s) && Enabled(c, s, l)
    ensures Reachable(c, Step(c, s, l))
  {
    var run :| IsRun(c, Init(), run) && RunTo(c, Init(), run) == s;
    Extend(c, Init(), run, l);
  }

  function AllRead(c: Config): State {
    Init().(read := |c.blob|, hashed := c.blob, delivered := c.blob)
  }

  lemma ReachAllRead(c: Config)
    ensures Reachable(c, AllRead(c))
  {
    assert IsRun(c, Init(), []) && RunTo(c, Init(), []) == Init();
    if c.blob != [] {
      var n := |c.blob|;
      assert c.blob[0..n] == c.blob && c.blob[..n] == c.blob && c.blob[n..] == [] && [] + c.blob == c.blob;
      var s1 := Init().(copy := Writing(c.blob, c.blob), read := n);
      var s2 := s1.(copy := Writing(c.blob, []), delivered := c.blob);
      assert Step(c, Init(), OfCopy(ReadChunk(n))) == s1;
      ReachStep(c, Init(), OfCopy(ReadChunk(n)));
      assert Step(c, s1, ClientTake(n)) == s2;
      ReachStep(c, s1, ClientTake(n));
      assert Step(c, s2, OfCopy(Written)) == AllRead(c);
      ReachStep(c, s2, OfCopy(Written));
    }
  }

  lemma EofBeforeDigestRun(c: Config)
    requires c.endsWell
    ensures exists s :: Reachable(c, s) && s.eofUnforced && Digest(s.fields) == NotComputed
  {
    ReachAllRead(c);
    var s0 := AllRead(c);
    ReachStep(c, s0, OfCopy(ReadEnd));
    var s1 := Step(c, s0, OfCopy(ReadEnd));
    ReachStep(c, s1, OfCopy(Signal));
    var s2 := Step(c, s1, OfCopy(Signal));
    ReachStep(c, s2, OfCopy(CallClose));
    var s3 := Step(c, s2, OfCopy(CallClose));
    ReachStep(c, s3, ClosePipe(OWN));
    var s4 := Step(c, s3, ClosePipe(OWN));
    ReachStep(c, s4, ClientSeesEof);
    assert Step(c, s4, ClientSeesEof).eofUnforced;
  }

  /**
    The end of the stream may be visible while the digest is not computed yet, for exactly
    the blobs whose end is visible at all.
  */
  lemma EofBeforeDigest(c: Config)
    ensures (exists s :: Reachable(c, s) && s.eofUnforced && Digest(s.fields) == NotComputed) <==> c.endsWell
  {
    if c.endsWell {
      EofBeforeDigestRun(c);
    } else {
      forall s | Reachable(c, s)
        ensures !s.eofUnforced
      {
        DigestedIsPrefixOfDelivered(c, s);
      }
    }
  }

  /** A Close that comes too early returns nil with the digest of nothing. */
  lemma EarlyClose(c: Config)
    ensures exists s :: Reachable(c, s) && ClosedWell(s) && s.hashed == [] && Digest(s.fields) == Value(c.sha256([]))
  {
    var s0 := Init();
    assert IsRun(c, s0, []) && RunTo(c, s0, []) == s0;
    ReachStep(c, s0, ClientCloses);
    var s1 := Step(c, s0, ClientCloses);
    ReachStep(c, s1, ClosePipe(1));
    var s2 := Step(c, s1, ClosePipe(1));
    ReachStep(c, s2, CloseBlob(1, true));
    var s3 := Step(c, s2, CloseBlob(1, true));
    ReachStep(c, s3, OfCopy(ReadClosed));
    var s4 := Step(c, s3, OfCopy(ReadClosed));
    ReachStep(c, s4, OfCopy(Signal));
    var s5 := Step(c, s4, OfCopy(Signal));
    ReachStep(c, s5, Await(1));
    var s6 := Step(c, s5, Await(1));
    ReachStep(c, s6, Finalize(1));
    var s7 := Step(c, s6, Finalize(1));
    assert s7.closers[1] == Returned(true);
  }

  /**
    A Close that returns nil promises the digest of the whole blob only for a blob that is
    empty; for any other one a client has to see the end before it closes.
  */
  lemma NilCloseDigestsAllExactlyWhen(c: Config)
    ensures (forall s | Reachable(c, s) && ClosedWell(s) :: s.hashed == c.blob) <==> c.blob == []
    ensures forall s | Reachable(c, s) && ClosedWell(s) && s.eofUnforced :: s.hashed == c.blob
  {
    forall s | Reachable(c, s)
      ensures Prefix(s.hashed, c.blob) && (s.eofUnforced ==> s.hashed == c.blob)
    {
      DigestedIsPrefixOfDelivered(c, s);
    }
    EarlyClose(c);
  }
}
