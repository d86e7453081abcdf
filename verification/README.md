# Verified model of the virtualization module's data path

This project models, in Dafny, the code that brings disk images into the cluster registry
(DVCR) and a few self-contained algorithms around it, and proves what they guarantee. The
centre is the import pipeline of the data processor: a source image is streamed, while it
is hashed, counted and inspected, through two synchronous pipes into a tar layer that a
registry client uploads at the same time.

`dafny verify dfyconfig.toml` checks everything.

## The modules

| file | what it models |
|---|---|
| `Pipeline.dfy` | `Process` as a step system: streaming, inspecting and uploading goroutines, two pipes, the error group, the cancellable context, the result channel, the informer. A label is one atomic step of one goroutine, so a sequence of labels is an interleaving. |
| `PipelineInvariant.dfy` | what every step keeps: where each byte is, what each goroutine has done, who is behind a closed pipe |
| `PipelineRuns.dfy` | runs that do exist, composed from steps |
| `PipelineTheorems.dfy` | safety, progress and termination over all runs |
| `Delivery.dfy` | the pipeline with the layer between the main pipe and the registry client |
| `Layer.dfy` | the single-pass layer, with any number of client calls of `Close` next to the copy goroutine's own |
| `Tar.dfy` | the end-of-archive marker and the records a reader of the layer finds |
| `TailBuffer.dfy`, `ImageInfo.dfy` | the ring buffer, the synthetic VMDK file, the size of a raw image |
| `Checksum.dfy` | parsing, printing and checking of expected sums |
| `RepoName.dfy` | repository names and the FNV-1a hash (defined over the integers modulo 2^64) |
| `Uploader.dfy` | the upload server as a step system over request handlers |
| `Websocket.dfy` | messages as a byte stream and back |
| `ClassConversion.dfy` | virtual machine classes between v1alpha2 and v1alpha3 |
| `Retry.dfy`, `Policy.dfy`, `Pool.dfy`, `Progress.dfy` | backoff, registry authorization, pool rules, progress metrics |
| `Bytes.dfy`, `Text.dfy`, `Wrappers.dfy` | byte strings, splitting text, optional values |

## What is assumed about the surroundings

- The registry client reports success only if it reached the end of the layer's stream
  before its first `Close`, and it returns once its context is cancelled, its stream breaks
  or it has closed early. `Delivery.dfy` derives from this what `Pipeline.dfy` uses: success
  only after the end of the main pipe.
- Progress relies on readers that read on: a client that has not returned takes what the
  layer offers, and an inspection that has not returned takes what the tee offers. Closing
  early, failing and cancelling are always possible and never relied on.
- Inspection returns nil only after it has read its pipe to the end, and it fails on an
  empty stream. It may fail at any other time, with any error.
- Reads of the source return, each with at least one byte, until the source ends; it ends
  in EOF or in an error that does or does not wrap a closed pipe.
- Writes to the tar writer reach the main pipe at once; the two headers are arbitrary bytes.
- The upload goroutine is not assumed to wait for the informer.
- Cryptographic hashes are arbitrary functions of the byte string. Random numbers, clocks
  and the outcomes of attempts are parameters. Durations and percentages are reals where
  the code uses floating point. Lower-casing is that of ASCII.

## Where the code does not keep a promise

Each of these is a lemma with the exact condition.

- A closed-pipe error from streaming is taken for the upload's doing. That is harmless for
  every source except one that itself ends in a closed-pipe error after at least one byte
  and at most the declared size: it can be imported truncated (`SafeExactlyWhen`).
- A checksum mismatch always fails the import, but the image may be in the registry by
  then, because the end of the failed stream looks like the end of a good one
  (`MismatchMayStillBePublished`). More generally, a failed import can leave a layer behind
  exactly when its size is not zero and its header is accepted
  (`FailurePublishesExactlyWhen`).
- A failed upload whose error is reported after `Run` has left its select blocks for ever
  with the mutex held, and the shutdown waits for it; this can happen exactly in servers
  without keepAlive (`ReportedExactlyWhenSelecting`, `CanHangExactlyWhen`).
- A long name and the name it is shortened to share a repository, and the second is a name
  a resource can have (`ShortenedNameIsTaken`). Two names share a repository exactly if they
  are equal, one spells the other's trimmed cut and hash, or both are too long and agree in
  hash and trimmed cut (`ShareExactlyWhen`); names of one length that differ within three
  adjacent bytes never do.
- A write to a websocket is acknowledged before its message has gone out, and the error of
  closing the message is dropped: an acknowledged chunk has gone out exactly if the frame
  that closes its message has (`AcknowledgedIsSentExactlyWhen`, `LostWrite`).
- The synthetic VMDK is longer than its source by the header, because the reader replays
  it (`ReplayingReader`).
- The end of the layer's stream can be seen before its digest is set (`EofBeforeDigest`). A
  `Close` that returns nil promises the digest of the whole stream only for an empty one;
  otherwise the client has to see the end first (`NilCloseDigestsAllExactlyWhen`). An empty
  stream never gets a size (`ClosedWellIsFinal`).
- The second zero record of the archive is there exactly when the image fills its last
  record (`MarkerRecords`).
- The three pool rules alone do not make references one to one; with the rules they are
  exactly for unique template names, which the list type of the field asks for
  (`OneToOneExactlyWhen`).
- A negative or too large core fraction in v1alpha2 converts to v1alpha3 and does not
  convert back (`BackAndThere`).

## Model

| member | source | states |
|---|---|---|
| `PipelineTheorems.SuccessOnlyIfGood` | images/dvcr-artifact/pkg/registry/registry.go:141-186 | in every interleaving a successful `Process` has copied exactly the declared size of a source that ended in EOF, matched every checksum, uploaded the headers, the data and the marker and nothing else, shown the inspector every byte and set the informer once, unless the source deceives |
| `PipelineTheorems.SafeExactlyWhen` | images/dvcr-artifact/pkg/registry/registry.go:148-151 | masking the closed pipe is safe over all runs if and only if the source is not one that itself ends in a closed pipe after some but not too many bytes |
| `PipelineTheorems.SuccessIsGood` | images/dvcr-artifact/pkg/registry/registry.go:178-186 | in any state of the invariant the joined errors and the informer together leave no masked failure behind a success |
| `PipelineTheorems.MaskedBeforeTheMarker` | images/dvcr-artifact/pkg/registry/registry.go:252-278 | a copy that ends in a closed pipe never got past the image data: a reader that turns away from the marker is reported |
| `PipelineTheorems.FailedStreamLeaves` | images/dvcr-artifact/pkg/registry/registry.go:252-278 | while the upload is there, a failed stream has left the headers and what the inspector took, if it broke off as a closed pipe, and otherwise the source up to the declared size; never a marker |
| `PipelineTheorems.HeaderFailureExactlyWhen` | images/dvcr-artifact/pkg/registry/registry.go:204-237 | a stream that ends in its headers ends in a closed pipe, which is masked, unless the second header is refused, which is reported |
| `PipelineTheorems.CancelledExactlyWhen` | images/dvcr-artifact/pkg/registry/registry.go:138-173 | without a cancellation from outside the context is cancelled if and only if the upload has failed or an unmasked failure of the stream was decided |
| `PipelineTheorems.InspectionEndsAsItMet` | images/dvcr-artifact/pkg/registry/registry.go:285-296 | an inspection has an outcome if and only if it met what gives it; an empty stream is no closed pipe |
| `PipelineTheorems.FirstErrorStays` | images/dvcr-artifact/pkg/registry/registry.go:248-298 | over any run the group keeps the first error it was given |
| `PipelineTheorems.PublishedLayerEnds` | images/dvcr-artifact/pkg/registry/registry.go:274-278 | the layer of a successful import has a zero record where a reader looks for the next entry |
| `PipelineTheorems.StuckOnlyWhenDone` | images/dvcr-artifact/pkg/registry/registry.go:134-176 | no deadlock: a reachable state in which only the environment could act has both results delivered, `Process` returned and every goroutine ended |
| `PipelineTheorems.ScheduleRuns` | images/dvcr-artifact/pkg/registry/registry.go:143-176 | in every other state the scheduled step is enabled and is no whim of the environment |
| `PipelineTheorems.StepLowersRank` | images/dvcr-artifact/pkg/registry/registry.go:250-298 | every step of every goroutine lowers a rank that never becomes negative |
| `PipelineTheorems.RunsAreBounded` | images/dvcr-artifact/pkg/registry/registry.go:250-298 | no run from a state of the invariant is longer than its rank |
| `PipelineTheorems.ImportTakesBoundedSteps` | images/dvcr-artifact/pkg/registry/registry.go:109-194 | every run ends within a bound linear in the data and the headers |
| `PipelineTheorems.CanSucceedExactlyWhen` | images/dvcr-artifact/pkg/registry/registry.go:109-194 | some run succeeds if and only if the source passes all checks and is not empty, or deceives |
| `PipelineTheorems.MismatchMayStillBePublished` | images/dvcr-artifact/pkg/registry/registry.go:252-272 | for every source of the declared size with a wrong checksum some run uploads it completely and reports failure |
| `PipelineTheorems.FailurePublishesExactlyWhen` | images/dvcr-artifact/pkg/registry/registry.go:141-180 | a run that uploads successfully and reports failure exists if and only if the size is not zero and the header is accepted |
| `Delivery.UnforcedMeansRead` | images/dvcr-artifact/pkg/registry/registry.go:324-334 | a client that saw the end of the layer's stream before closing stands behind a layer that saw the end of the main pipe |
| `Delivery.StepProjects` | images/dvcr-artifact/pkg/registry/registry.go:301-335 | with the layer in between, every step is a step of the pipeline or none |
| `Delivery.RunKeepsInv` | images/dvcr-artifact/pkg/registry/registry.go:324-334 | every interleaving of pipeline, layer and client keeps both invariants and the tie between them |
| `Delivery.ClientGetsArchive` | images/dvcr-artifact/pkg/registry/registry.go:324-334 | a successful import has handed the client the whole archive of a source that passed every check, and any digest is that of the archive |
| `Delivery.StuckOnlyWhenDone` | images/dvcr-artifact/pkg/registry/registry.go:161-180 | the layer brings no deadlock: a run that only the environment could continue has returned and ended |
| `Delivery.LayerIsTransparent` | images/dvcr-artifact/pkg/registry/registry.go:324-334 | the pipeline reaches a state with the layer in between if and only if it reaches it without |
| `Delivery.CanSucceedExactlyWhen` | images/dvcr-artifact/pkg/registry/registry.go:109-194 | an import through the layer can succeed for exactly the sources that pass the checks and are not empty, and the deceiving ones |
| `PipelineInvariant.CopyKeepsContent` | images/dvcr-artifact/pkg/registry/registry.go:252-278 | every step of the copy keeps the account of the bytes read, seen, hashed and uploaded |
| `PipelineInvariant.InspectKeepsContent` | images/dvcr-artifact/pkg/registry/registry.go:285-296 | so does every step of the inspection |
| `PipelineInvariant.UploadKeepsContent` | images/dvcr-artifact/pkg/registry/registry.go:161-173 | so does every step of the upload, however it cuts its reads |
| `PipelineInvariant.StepKeepsControl` | images/dvcr-artifact/pkg/registry/registry.go:141-186 | every step keeps the tie between results, closed pipes, the first error, cancellation and the verdict |
| `PipelineInvariant.CopyKeepsBlame` | images/dvcr-artifact/pkg/registry/registry.go:148-151 | a copy that ends in a closed pipe has an upload that turned away, an inspection that failed, or a source to blame |
| `PipelineInvariant.RunKeepsInv` | images/dvcr-artifact/pkg/registry/registry.go:109-298 | every run keeps the whole invariant |
| `PipelineRuns.GoodRunExists` | images/dvcr-artifact/pkg/registry/registry.go:109-298 | for every non-empty source that passes the checks there is a run to success with exactly the archive uploaded |
| `PipelineRuns.FailedCopyRun` | images/dvcr-artifact/pkg/registry/registry.go:259-272 | a copy that fails at the end of its source can leave inspection and upload successful |
| `Layer.RunKeepsInv` | images/dvcr-artifact/pkg/registry/uncompressed_layer.go:117-184 | every interleaving of the copy, the client's reads and any number of closes keeps the layer's invariant |
| `Layer.DigestedIsPrefixOfDelivered` | images/dvcr-artifact/pkg/registry/uncompressed_layer.go:137-184 | digested bytes are a prefix of the delivered ones, these of the blob, and all are equal from the end of a clean copy on and after an end of stream that no close forced |
| `Layer.DoneFreezes` | images/dvcr-artifact/pkg/registry/uncompressed_layer.go:148-181 | once digesting is done nothing is hashed or delivered, and recorded fields stay |
| `Layer.ClosedWellIsFinal` | images/dvcr-artifact/pkg/registry/uncompressed_layer.go:66-130 | once a `Close` has returned nil, digest and size are those of the digested bytes, `Digest` is `DiffID`, new readers are refused and nothing changes any more; the size of nothing is never computed |
| `Layer.AnswersExactlyWhen` | images/dvcr-artifact/pkg/registry/uncompressed_layer.go:66-113 | in every state a reader is refused, and digest and DiffID are known, if and only if a `Close` has returned nil; a size is known if and only if there is also something in it |
| `Layer.ReadToEndThenClose` | images/dvcr-artifact/pkg/registry/uncompressed_layer.go:150-181 | a client that reads to the end and then closes learns the digest of the whole blob |
| `Layer.ClosesReturn` | images/dvcr-artifact/pkg/registry/uncompressed_layer.go:152-181 | while the client does nothing every schedule is bounded, and where it can go no further every call of `Close` has returned |
| `Layer.CloseNeedsNoReader` | images/dvcr-artifact/pkg/registry/uncompressed_layer.go:152-164 | every `Close` that has been called has a run, without any step of the client, in which it returns |
| `Layer.EofBeforeDigest` | images/dvcr-artifact/pkg/registry/uncompressed_layer.go:152-164 | the end can be seen before the digest is computed for exactly the blobs that end well |
| `Layer.EarlyClose` | images/dvcr-artifact/pkg/registry/uncompressed_layer.go:152-171 | for every blob a close can return nil with nothing digested |
| `Layer.NilCloseDigestsAllExactlyWhen` | images/dvcr-artifact/pkg/registry/uncompressed_layer.go:117-181 | every nil close means that the whole blob was digested if and only if the blob is empty; for any blob it does once the client saw the end first |
| `Tar.WriteEOFMarker` | images/dvcr-artifact/pkg/registry/tar.go:33-44 | the marker succeeds if and only if the reader takes all 1024 zeros; otherwise the zeros taken so far are written and the pipe's error is not reported |
| `Tar.NextEntry` | images/dvcr-artifact/pkg/registry/tar.go:24-27 | the place of the next entry is the first record boundary after the data |
| `Tar.MarkerRecords` | images/dvcr-artifact/pkg/registry/registry.go:252-278 | after the data there is a zero record at the next entry, a second one if and only if 512 divides the length, and no other |
| `TailBuffer.LastOfLast` | images/dvcr-artifact/pkg/registry/tailbuffer.go:33-54 | keeping the tail as one goes is keeping the tail of the whole |
| `TailBuffer.RingRound` | images/dvcr-artifact/pkg/registry/tailbuffer.go:37-51 | one round of overwriting, wrapping or not, drops exactly the oldest bytes |
| `TailBuffer.TailBuffer.constructor` | images/dvcr-artifact/pkg/registry/tailbuffer.go:26-31 | a new buffer of any size holds nothing |
| `TailBuffer.TailBuffer.Round` | images/dvcr-artifact/pkg/registry/tailbuffer.go:37-51 | a round gets further if and only if the buffer has room at all, and leaves the last bytes of what was held and taken |
| `TailBuffer.TailBuffer.Write` | images/dvcr-artifact/pkg/registry/tailbuffer.go:33-54 | unless there are bytes and no room for any, a write takes everything and leaves the last `size` bytes of old contents and new bytes |
| `TailBuffer.TailBuffer.Bytes` | images/dvcr-artifact/pkg/registry/tailbuffer.go:56-65 | the contents are copied out oldest byte first |
| `TailBuffer.HeldIsTailOfStream` | images/dvcr-artifact/pkg/registry/tailbuffer.go:33-65 | however a stream is cut into writes, its last `size` bytes are held |
| `TailBuffer.WriteAll` | images/dvcr-artifact/pkg/registry/tailbuffer.go:26-65 | any writes into a new buffer read back as the last `size` bytes of their concatenation |
| `ImageInfo.ReadFull` | images/dvcr-artifact/pkg/registry/imageinfo.go:47-53 | the header is the first bytes of the source, as many as there are up to the limit, with the error the code tells apart |
| `ImageInfo.CopyToTail` | images/dvcr-artifact/pkg/registry/imageinfo.go:116-119 | whatever pieces the reader hands out, the buffer ends with the tail of everything and the count is the length |
| `ImageInfo.CreateSyntheticVMDK` | images/dvcr-artifact/pkg/registry/imageinfo.go:236-267 | for any claimed size the file is head, gap of zeros and tail, never overlapping |
| `ImageInfo.GapFits` | images/dvcr-artifact/pkg/registry/imageinfo.go:249-260 | with the true size the file has the length of the stream, its head and its tail in place, and zeros between |
| `ImageInfo.FillTail` | images/dvcr-artifact/pkg/registry/imageinfo.go:107-119 | the rest of the header and the stream go through a new buffer in order |
| `ImageInfo.StreamAndCreate` | images/dvcr-artifact/pkg/registry/imageinfo.go:107-127 | it fails exactly if the reader does, and otherwise the file stands for head and everything copied |
| `ImageInfo.SyntheticVMDK` | images/dvcr-artifact/pkg/registry/imageinfo.go:80-127 | the same for both ways to get the head; without a header an empty reader is refused |
| `ImageInfo.SyntheticIsUnique` | images/dvcr-artifact/pkg/registry/imageinfo.go:236-267 | length, both ends and the zeros between leave one file only |
| `ImageInfo.ContinuingReader` | images/dvcr-artifact/pkg/registry/imageinfo.go:86-124 | for a reader that continues, the file has the length and both ends of the source |
| `ImageInfo.ReplayingReader` | images/dvcr-artifact/pkg/registry/imageinfo.go:55-71 | for a reader that replays the header the file is longer by the header, and as long as the source only if there is none |
| `ImageInfo.ProbeAndPrepareVMDK` | images/dvcr-artifact/pkg/registry/imageinfo.go:46-72 | the real call is the replaying one: the file stands for the header followed by the whole source |
| `ImageInfo.RawVirtualSize` | images/dvcr-artifact/pkg/registry/imageinfo.go:150-233 | the size of a raw image counts every byte once although the header is read twice; the sample is the first 64 MiB; an empty or failing source is an error |
| `Checksum.ParseChecksums` | images/dvcr-artifact/pkg/registry/checksum.go:50-71 | parsing succeeds if and only if the value is empty or every part is a supported pair, later pairs win, and the first bad part decides the error |
| `Checksum.AcceptsChecksums` | images/dvcr-artifact/pkg/registry/registry.go:91-96 | a map is accepted if and only if all of its algorithms are supported |
| `Checksum.CutAfter` | images/dvcr-artifact/pkg/registry/checksum.go:58-58 | a colon-free name before a colon is cut off exactly, whatever follows |
| `Checksum.CutExactlyWhen` | images/dvcr-artifact/pkg/registry/checksum.go:58-59 | there is nothing to cut if and only if there is no colon |
| `Checksum.LowerByCodes` | images/dvcr-artifact/pkg/registry/checksum.go:67-67 | upper-case letters move by 32 in code, and nothing else changes |
| `Text.SplitJoin` | images/dvcr-artifact/pkg/registry/checksum.go:57-57 | parts without the separator survive joining and splitting |
| `Text.JoinSplit` | images/dvcr-artifact/pkg/registry/checksum.go:57-57 | splitting loses nothing |
| `Checksum.SplitPrinted` | images/dvcr-artifact/pkg/registry/checksum.go:57-57 | printed pairs split into exactly their parts |
| `Checksum.ParsePrinted` | images/dvcr-artifact/pkg/registry/checksum.go:48-71 | any printable map, printed in any order, spells itself in lower case |
| `Checksum.PrintThenParse` | images/dvcr-artifact/pkg/registry/checksum.go:48-71 | printing and parsing gives the lower-cased map back, for the empty map too |
| `Checksum.LessIsTotal` | images/dvcr-artifact/pkg/registry/checksum.go:105-115 | byte-wise order is total and strict |
| `Checksum.LessIsTransitive` | images/dvcr-artifact/pkg/registry/checksum.go:105-115 | and transitive |
| `Checksum.LessExactlyWhen` | images/dvcr-artifact/pkg/registry/checksum.go:105-115 | the order is decided at the first difference: the shorter name, or the smaller character, comes first |
| `Checksum.SortedAlgorithms` | images/dvcr-artifact/pkg/registry/checksum.go:107-115 | whatever order the map is walked in, the names are all of its keys, strictly sorted |
| `Checksum.RunChecks` | images/dvcr-artifact/pkg/registry/checksum.go:77-98 | all checks pass if and only if every hash of the data is the expected one; otherwise the smallest mismatching algorithm is named |
| `RepoName.XorBits` | api/dvcr/repo.go:87-89 | bit by bit, the exclusive or is set if and only if the operands differ |
| `RepoName.MixedBits` | api/dvcr/repo.go:87-89 | mixing in a byte leaves the upper 56 bits alone and flips the lower ones where the byte is set |
| `RepoName.FnvNext` | api/dvcr/repo.go:87-89 | bytes are mixed in from the left, each followed by the prime |
| `RepoName.FnvVectors` | api/dvcr/repo.go:87-89 | the published FNV-1a values of the empty string and of the letter a |
| `RepoName.HexDenotes` | api/dvcr/repo.go:89-89 | the text is digits and letters a to f that denote, by their codes, the lowest digits of the number |
| `RepoName.ShortenedParts` | api/dvcr/repo.go:82-97 | in numbers: a shortened name is the first 238 bytes less the prefix without trailing separators, a dash, and sixteen digits that denote the hash of the name, or those digits alone |
| `RepoName.KeptExactlyWhen` | api/dvcr/repo.go:56-76 | in numbers, for each kind of resource: which names are kept |
| `RepoName.TimesPrimeIsInjective` | api/dvcr/repo.go:87-89 | multiplying by the odd prime permutes the 64-bit states |
| `RepoName.SuffixKeepsApart` | api/dvcr/repo.go:87-89 | different states stay different over any common suffix |
| `RepoName.ThreeStepsDetermined` | api/dvcr/repo.go:87-89 | from one state, two triples of bytes lead to the same state if and only if they are equal |
| `RepoName.NearNamesHashApart` | api/dvcr/repo.go:87-89 | names of one length that differ at most within three adjacent bytes have the same hash if and only if they are equal |
| `RepoName.NearNamesStayApart` | api/dvcr/repo.go:78-97 | and the same repository name if and only if they are equal, for every prefix |
| `RepoName.PathFitsExactlyWhen` | api/dvcr/repo.go:82-97 | the path stays within 255 if and only if the name fits or the prefix leaves room for the hash |
| `RepoName.ShortenIsIdempotent` | api/dvcr/repo.go:78-97 | a name is kept if and only if it fits, and shortening twice is shortening once |
| `RepoName.LongNamesShareExactlyWhen` | api/dvcr/repo.go:87-96 | two names that do not fit share a repository if and only if their hashes and their trimmed cuts agree |
| `RepoName.MixedNamesShareExactlyWhen` | api/dvcr/repo.go:82-96 | a name that fits and one that does not share one if and only if the first is spelled like the trimmed cut and hash of the second |
| `RepoName.ShareExactlyWhen` | api/dvcr/repo.go:78-97 | the exact condition for any two names and any prefix |
| `RepoName.ShortenedSubdomainIsSubdomain` | api/dvcr/repo.go:82-97 | an RFC 1123 subdomain is shortened to one |
| `RepoName.ShortenedNameIsTaken` | api/dvcr/repo.go:78-97 | for every resource name that is shortened there is a shorter name, itself a subdomain, with the same repository |
| `RepoName.ShortenedSubdomainIsComponent` | api/dvcr/repo.go:82-97 | every RFC 1123 subdomain, shortened for any prefix, is a path component of the OCI Distribution Specification's name grammar |
| `RepoName.DefaultHostAlwaysFits` | api/dvcr/repo.go:56-76 | with the default host and a namespace label all three kinds of path fit for every name |
| `Uploader.RunKeepsInv` | images/dvcr-artifact/pkg/uploader/uploader.go:202-295 | every interleaving of requests and of `Run` keeps mutex, admission and stop channel consistent |
| `Uploader.OneUpload` | images/dvcr-artifact/pkg/uploader/uploader.go:202-286 | no two uploads run at once, and without keepConcurrent a second one never starts |
| `Uploader.AnswersExactlyWhen` | images/dvcr-artifact/pkg/uploader/uploader.go:202-226 | 200 to exactly the GETs, 404 to exactly the unsupported methods, and 503 only to an upload that found another one admitted while concurrent uploads are off |
| `Uploader.CheckAdmitsExactlyWhen` | images/dvcr-artifact/pkg/uploader/uploader.go:217-225 | a check admits if and only if concurrent uploads are on or none has been admitted |
| `Uploader.TwoStartExactlyWhen` | images/dvcr-artifact/pkg/uploader/uploader.go:214-255 | two uploads can start in the life of a server if and only if concurrent uploads are on |
| `Uploader.RunEndsAsItMet` | images/dvcr-artifact/pkg/uploader/uploader.go:164-174 | `Run` ends with an error, by the stop or by a signal if and only if that is what it took in its select |
| `Uploader.StopsOnVerdict` | images/dvcr-artifact/pkg/uploader/uploader.go:256-295 | the stop channel is closed at most once, and exactly when some upload ended in a verdict |
| `Uploader.CanFinishExactlyWhen` | images/dvcr-artifact/pkg/uploader/uploader.go:202-286 | a given handler can be brought to its end if and only if it never needs the mutex, `Run` is in its select, or nobody is stuck with a report |
| `Uploader.CanReturnExactlyWhen` | images/dvcr-artifact/pkg/uploader/uploader.go:164-184 | `Run` can return if and only if it is in its select or nobody is stuck with a report |
| `Uploader.ReportedExactlyWhenSelecting` | images/dvcr-artifact/pkg/uploader/uploader.go:276-278 | a failed upload can be reported if and only if `Run` is still in its select; otherwise `Run` never returns |
| `Uploader.CanHangExactlyWhen` | images/dvcr-artifact/pkg/uploader/uploader.go:164-184 | such a hang is reachable if and only if keepAlive is off |
| `Websocket.BinaryReader.Read` | api/client/kubeclient/websocket.go:91-137 | a read hands out the next bytes of the binary stream across empty and text messages, and reports an end only after the last byte and as EOF only for a normal close |
| `Websocket.CopyFrom` | api/client/kubeclient/websocket.go:62-64 | with buffers of any sizes, copying a connection gives all of its binary payload, and no error exactly for a normal close |
| `Websocket.Sender.WriteBody` | api/client/kubeclient/websocket.go:82-83 | writing a message succeeds if and only if every frame of a full buffer goes through, and what is held or has arrived is a prefix of it |
| `Websocket.Sender.Write` | api/client/kubeclient/websocket.go:74-84 | a write is acknowledged if and only if the connection was sound and the frames before the closing one went through; the message has gone out if and only if the closing one did too, and otherwise only a part of it can arrive |
| `Websocket.AcknowledgedIsSentExactlyWhen` | api/client/kubeclient/websocket.go:79-83 | over any run of writes, an acknowledged chunk has gone out if and only if the frame that closes its message has |
| `Websocket.LostWrite` | api/client/kubeclient/websocket.go:79-83 | any chunk that fits the buffer is acknowledged although its only frame breaks |
| `Websocket.WriteAll` | api/client/kubeclient/websocket.go:66-68 | what goes out is every chunk before the first frame that breaks, at most one more is acknowledged, and the copy succeeds if and only if all are acknowledged |
| `Websocket.PayloadOfBinary` | api/client/kubeclient/websocket.go:105-124 | messages that are not binary contribute nothing |
| `Websocket.StreamSurvives` | api/client/kubeclient/websocket.go:70-84 | what a sender got out carries the concatenation of its whole chunks and of the part that arrived |
| `Websocket.Receive` | api/client/kubeclient/websocket.go:86-137 | the other end reads exactly the binary payload, among any text messages and with any buffers |
| `Websocket.Transfer` | api/client/kubeclient/websocket.go:62-137 | from the writer to the copy at the other end: every chunk before the first broken frame, at most a part of the next one, and nothing else |
| `ClassConversion.SchemaIsWhatIsChecked` | api/core/v1alpha3/virtual_machine_class.go:141-151 | the pattern of the schema and that of the conversion describe one language |
| `ClassConversion.PrintsPercentExactlyWhen` | api/core/v1alpha3/virtual_machine_class_conversion.go:113-130 | a number prints into that language if and only if it is 1 to 100, and reads back as itself |
| `ClassConversion.DecimalOfAtoi` | api/core/v1alpha3/virtual_machine_class_conversion.go:120-128 | any numeral without leading zeros prints back as it was |
| `ClassConversion.PercentRoundTrip` | api/core/v1alpha3/virtual_machine_class_conversion.go:116-128 | every text of the language denotes 1 to 100 and prints back as it was |
| `ClassConversion.ParsePercentByCodes` | api/core/v1alpha3/virtual_machine_class_conversion.go:120-128 | what a percentage reads as, from the codes of its digits |
| `ClassConversion.PrintPercentByCodes` | api/core/v1alpha3/virtual_machine_class_conversion.go:213-218 | how a percentage is printed, as the codes of its digits |
| `ClassConversion.DecimalByCodes` | api/core/v1alpha3/virtual_machine_class_conversion.go:216-216 | any number prints as digits that denote it by their codes, without a leading zero |
| `ClassConversion.SameDenotes` | api/core/v1alpha3/virtual_machine_class_conversion.go:60-253 | versions that mean the same class have the same numbers, read by codes |
| `ClassConversion.PrintPercentIsInjective` | api/core/v1alpha3/virtual_machine_class_conversion.go:213-218 | different numbers, negative ones too, print differently |
| `ClassConversion.FractionsToV2` | api/core/v1alpha3/virtual_machine_class_conversion.go:113-130 | fractions are read up to the first that is no percentage |
| `ClassConversion.DefaultToV2` | api/core/v1alpha3/virtual_machine_class_conversion.go:132-151 | a default converts if and only if it is absent, Auto or a percentage, and means the same |
| `ClassConversion.DefaultToV3` | api/core/v1alpha3/virtual_machine_class_conversion.go:237-253 | the other way: absent, Auto or 1 to 100 |
| `ClassConversion.PolicyToV2` | api/core/v1alpha3/virtual_machine_class_conversion.go:82-154 | a policy converts if and only if its fractions do, to one that means the same, or names its first error |
| `ClassConversion.PolicyToV3` | api/core/v1alpha3/virtual_machine_class_conversion.go:182-229 | a policy converts if and only if its default does |
| `ClassConversion.ConvertSpecV3ToV2` | api/core/v1alpha3/virtual_machine_class_conversion.go:60-158 | conversion fails exactly if some fraction is outside the language, naming the first; otherwise both versions mean the same |
| `ClassConversion.ConvertSpecV2ToV3` | api/core/v1alpha3/virtual_machine_class_conversion.go:160-233 | conversion fails exactly on a default that is not allowed, naming the first; otherwise both versions mean the same |
| `ClassConversion.SameV3` | api/core/v1alpha3/virtual_machine_class_conversion.go:160-233 | a v1alpha2 policy means one v1alpha3 policy only, up to nil lists |
| `ClassConversion.SameV2` | api/core/v1alpha3/virtual_machine_class_conversion.go:60-158 | and the other way round |
| `ClassConversion.ThereAndBack` | api/core/v1alpha3/virtual_machine_class_conversion.go:60-253 | v1alpha3 to v1alpha2 and back never fails on a spec the schema admits and is the identity up to nil lists |
| `ClassConversion.BackAndThere` | api/core/v1alpha3/virtual_machine_class_conversion.go:60-253 | v1alpha2 to v1alpha3 and back succeeds if and only if defaults are allowed and fractions are 1 to 100, and is then the identity up to nil lists |
| `Retry.Backoff.Step` | images/dvcr-artifact/pkg/retry/backoff.go:82-110 | a step counts up to the limit and gives the wait of its number, then zero |
| `Retry.ExponentialBackoff` | images/dvcr-artifact/pkg/retry/backoff.go:123-172 | at most Steps+1 calls, none after a success or a recognised error, one wait per repetition, and a verdict that says how it ended |
| `Retry.WaitsGrow` | images/dvcr-artifact/pkg/retry/backoff.go:90-103 | with a factor of at least one the waits before jitter never get shorter |
| `Retry.FactorMultiplies` | images/dvcr-artifact/pkg/retry/backoff.go:90-98 | a whole factor multiplies the duration from each step to the next, starting with the duration itself |
| `Retry.CapLimits` | images/dvcr-artifact/pkg/retry/backoff.go:96-103 | the cap is the limit where there is one and changes nothing below it |
| `Retry.JitterAdds` | images/dvcr-artifact/pkg/retry/backoff.go:45-51 | jitter adds the random share of the factor, or of one, of the duration, to a whole number |
| `Retry.DefaultStep` | images/dvcr-artifact/pkg/retry/retry.go:43-49 | with the defaults the duration fits 64 bits before the cap at every step, and the waits are 1, 3, 9, 27 and then 60 seconds |
| `Retry.DefaultWaits` | images/dvcr-artifact/pkg/retry/backoff.go:45-51 | jitter adds the random share of a tenth, to a whole number, and takes nothing away |
| `Retry.TotalBetween` | images/dvcr-artifact/pkg/retry/retry.go:39-49 | so the total is between the plain waits and eleven tenths of them |
| `Retry.DefaultRun` | images/dvcr-artifact/pkg/retry/retry.go:39-49 | no default run waits 1100 seconds, and a full one waits at least 1000 |
| `Retry.RetryDefault` | images/dvcr-artifact/pkg/retry/retry.go:31-49 | the whole call: at most 21 attempts, exactly 21 when exhausted, and the same bounds on the total wait |
| `Policy.CleanIsIdempotent` | images/dvcr/dvcr-k8s-auth/policy.go:123-125 | cleaning twice is cleaning once, and no empty, dot or dot-dot segment is left |
| `Policy.CleanGoes` | images/dvcr/dvcr-k8s-auth/policy.go:123-125 | a plain segment goes one place down, an empty one and a dot stay, two dots go one place up and stop at the root |
| `Policy.CleanEqualExactlyWhen` | images/dvcr/dvcr-k8s-auth/policy.go:105-110 | clean names are equal if and only if the names reduce to the same segments |
| `Policy.GrantsCover` | images/dvcr/dvcr-k8s-auth/policy.go:105-121 | the search finds a grant if and only if one of the same type and place has the action or the wildcard |
| `Policy.AuthorizeOne` | images/dvcr/dvcr-k8s-auth/policy.go:88-103 | the decision by role is the declarative rule |
| `Policy.Authorize` | images/dvcr/dvcr-k8s-auth/policy.go:79-86 | a request is authorized if and only if every access is allowed |
| `Policy.MoreGrantsAllowMore` | images/dvcr/dvcr-k8s-auth/policy.go:105-121 | decisions are monotone in the set of grants, so order and repetition do not matter |
| `Policy.ScopedStaysInPlace` | images/dvcr/dvcr-k8s-auth/policy.go:105-125 | for any grants, cleaning all names does not change the decision, and an allowed access is at the place and of the type of some grant |
| `Pool.NamesCount` | api/core/v1alpha2/virtual_machine_pool.go:121-125 | pigeonhole: a list has as many names as entries if and only if they are distinct |
| `Pool.CountedAlike` | api/core/v1alpha2/virtual_machine_pool.go:76-77 | filtering by kind counts every reference to a disk |
| `Pool.RulesAreOneToOne` | api/core/v1alpha2/virtual_machine_pool.go:66-77 | with unique template names the three rules hold if and only if every template is referenced exactly once and nothing else is |
| `Pool.OneToOneExactlyWhen` | api/core/v1alpha2/virtual_machine_pool.go:66-77 | among the specs that pass the rules, references are one to one if and only if template names are unique |
| `Pool.RulesAloneAreNotEnough` | api/core/v1alpha2/virtual_machine_pool.go:121-125 | without unique names a spec passes the rules with one template referenced twice |
| `Progress.PercentIsBounded` | images/dvcr-artifact/pkg/monitoring/prometheus.go:80-84 | a percentage is 0 to 100, and 100 if and only if the reader is done or past the total |
| `Progress.ProgressReader.UpdateProgress` | images/dvcr-artifact/pkg/monitoring/prometheus.go:78-97 | an update raises the gauge to the percentage and never lowers it, and says whether to go on |
| `Progress.ReportProgress` | images/dvcr-artifact/pkg/monitoring/prometheus.go:64-97 | over any run the gauge is the greatest of its start value and the percentages, and 100 at the end |
| `Progress.ProgressMeter.UpdateSpeed` | images/dvcr-artifact/pkg/monitoring/progress.go:175-207 | the average times its time gives the bytes transmitted, and the current speed those since the last tick |
| `Progress.ReportSpeed` | images/dvcr-artifact/pkg/monitoring/progress.go:175-207 | over any orderly run no sample is negative and the samples add up to the bytes transmitted |

## Left out

- Kubernetes clients and controllers, command-line entry points, generated code, TLS, JWT verification and certificate loading: plumbing around foreign calls.
- `qemu-img` and `file`: foreign programs; the inspection's outcome is free within the assumptions above, and only what is read, counted and prepared for them is modelled.
- The registry client and the image it writes after the layer: success and failure are free within the assumptions above. Image labels are left out because nothing orders them after the informer.
- The informer as an object of its own: the pipeline counts the calls of `Set`, which would panic on the second one, and proves that there is at most one.
- Errors of the data source before streaming starts (file name, length, reader): `Process` returns them at once.
- Temporary files that cannot be created, written or closed: only the bytes of the synthetic file are modelled.
- Status conversions of virtual machine classes and NewAffinityFromVMAffinity: field by field, easy members only.
- Which errors count as permanent or recognised: attempts and uploads come with that outcome.
- Percentages in text that is not ASCII, and int32 overflow of fractions: numbers are unbounded, and every number that survives is 1 to 100.
- Formatting helpers, developer tools, kernel probes and rewriter rule tables: nothing to prove or nothing to see.
- TailBuffer.TailBuffer.Write: requires room or nothing to write, because otherwise the loop does not end: a round gets further exactly if the size is positive.
- Layer.DigestedIsPrefixOfDelivered: models one reader of the layer; two readers opened before the first is consumed would share the blob.
- Websocket.BinaryReader.Read: leaves out the branch for close messages, which the library never returns as a message.
- Websocket.Sender.Write: the library's message writer is modelled as a buffer that is sent as a frame when it is full and when the message is closed, with large writes of a server sent directly; deadlines, compression and control messages are left out.
- Progress.ReportSpeed: requires positive elapsed times, without which the average is not a number.
- Retry.RetryDefault: models a call with a function; a missing one is refused before the loop.
- Retry.Backoff.Step: powers are exact reals, not floating point.
