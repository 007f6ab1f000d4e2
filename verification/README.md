# Switchboard client: a verified model

This project models the client half of the switchboard message relay in Dafny and proves what
its state machines, parsers and bounded formats promise. The relay's hub appears only as an
honest history or journal in hypotheses. The parts modelled follow the code's branches, limits and
error cases; what is not modelled is listed under "Left out".

Strings are sequences of UTF-16 code units (`Strings.Str`), as in JavaScript; byte streams are
sequences of numbers below 256. UTF-8 lengths are computed unit by unit (`Utf8`), and JSON text is
written and read unit by unit (`JsonText`, `JsonStrings`, `Json`), after RFC 8259. Clocks,
answers of the network and results of callbacks are parameters of the steps.

Code that changes things step by step is modelled as it is written: the two stream parsers, the
discovery stage, the session projection and the label queue are classes over the same fields and
buffers; loops are methods with invariants. Each of these is proved equal to a function, and the
theorems are proved about that function, over every input, every chunking or every interleaving.

| part | modules |
|---|---|
| decimal order, shared texts | `Decimal`, `Strings`, `Whitespace`, `Utf8`, `Utf8Points`, `Sizes`, `JsonText`, `Bytes` |
| presence replica | `Fleet`, `Presence`, `PresenceOutcomes` |
| event stream, observation stream | `FieldLines`, `Sse`, `SseFrames`, `EventPages`, `EventOutcomes`, `Observation`, `ObservationFrames` |
| package archives | `Tar`, `TarArchives` |
| channel reads | `Channels`, `ChannelReads`, `ReadOutcomes`, `Fencing`, `GapFree`, `ReadProgress`, `ZeroBoundary`, `ChannelText`, `ChannelLines`, `ReadTexts` |
| background cache | `OperatorCache`, `CacheWindows` |
| mailbox | `Inbox`, `InboxOutcomes`, `InboxFrames`, `Batches`, `InboxRuns` |
| discovery traversals | `Discovery`, `DiscoveryPages` |
| prefixes, tell command, completion | `Prefixes`, `Tell`, `TellOutcomes`, `Completion`, `TargetTiers` |
| exact JSON, coordination notes, brief | `JsonStrings`, `Json`, `JsonReading`, `JsonLexis`, `JsonFields`, `WireJson`, `Notes`, `NotesRoundTrip`, `NotesCodec`, `VersionNumbers`, `NotesOutcomes`, `Claims`, `ClaimOutcomes`, `Brief`, `BriefOutcomes` |
| session pages | `SessionText`, `SessionContents`, `SessionPaging`, `SessionOutcomes`, `SessionRuns`, `SessionSize` |
| label queue | `LabelQueue`, `LabelRuns`, `LabelOutcomes` |

## Main results

1. **The replica is correct and moves on.** For any sequence of honest chunks, deltas, resets and
   garbage, dropped, repeated or reordered at will, the published agents are exactly the hub's
   roster at the published revision (`Presence.FreshReplicaCorrect`); the final step is a counting
   argument (`Fleet.CountedIsWhole`). An event is refused exactly when it is not admitted
   (`PresenceOutcomes.RefusedExactly`); an undisturbed capture is always published, from the start
   (`Presence.SnapshotCommits`) and after a reset (`PresenceOutcomes.ResetThenCapture`), and a
   fitting delta always applied (`Presence.DeltaTracks`).
2. **Incremental parsing is batch reading.** Both byte automata give, for every stream cut into
   any chunks, the calls and verdict of a reading that splits whole lines
   (`Sse.StreamIsBatch`, `Observation.StreamIsBatch`), early dispatch on a bare CR included; and
   what that reading makes of a frame is told from its lines as written
   (`SseFrames.WrittenFrame`, `ObservationFrames.WrittenFrame`).
3. **An accepted archive hides no byte.** The tar reader reports a list of members exactly when
   that list is allowed and the archive is its serialization (`Tar.ReaderInvertsWriter`), the
   allowed paths, limits and header bytes being spelled out (`TarArchives.ReadExactly`,
   `TarArchives.FileApproved`, `TarArchives.HeaderBytes`).
4. **Reads are gap-free, fenced and make progress.** From a committed nonzero boundary, the records
   returned by successive reads are exactly the journal of the boundary's epoch up to the current
   boundary (`GapFree.GapFreeReading`), whatever fails, is cancelled, is overtaken or is shown only
   in part; tickets are fenced over every interleaving (`Fencing.TicketsAreFenced`). A commit is
   accepted exactly when it should be (`ReadOutcomes.CommitsExactly`), every valid page that is not
   empty shows at least one record (`ChannelLines.ValidPageAdvances`), and repeated reads reach the
   journal's end (`ReadProgress.ReadsReachTheEnd`).
5. **The incremental cache is the batch cache** (`OperatorCache.IncrementalIsBatch`), and after any
   page a window is what its page and its earlier messages make of it (`CacheWindows.WindowHolds`).
6. **The mailbox conserves.** One invariant over every run carries numbering, conservation,
   spacing and the single delivery slot (`InboxRuns.EveryRunIsGood`); a control is handed out
   exactly when it may be (`InboxOutcomes.ControlHandedOut`), in a frame whose header reads back
   (`InboxFrames.HeaderReadsBack`).
7. **Fast forms equal their definitions**: the flat key scan and the JSON tree
   (`WireJson.FlatScanIsTree`), neighbour prefixes and the quadratic definition
   (`Prefixes.UniquePrefixes`), the two page traversals (`Discovery.TraversalsAgree`), which accept
   exactly the pages a hub writes (`DiscoveryPages.ReadBackExactly`).
8. **Round trips and exact readings**: notes (`NotesCodec.DecodeUndoesEncode`,
   `NotesOutcomes.DecodedExactly`), tell lines (`Tell.TellRoundTrip`), completion values
   (`Completion.CompletionRoundTrip`) and the tiers they resolve by (`TargetTiers.TargetMeans`),
   JSON trees (`JsonReading.ParseIsInverse`) over the words of RFC 8259 (`JsonLexis`).
9. **Paging loses nothing** (`SessionRuns.PagingIsLossless`), **briefs are bounded, conserve and
   prefer whole texts** (`Brief.BriefIsBounded`, `Brief.BriefConserves`,
   `BriefOutcomes.ConsideredExactly`), and **label results are fenced and do come**
   (`LabelRuns.EveryEventIsLegitimate`, `LabelOutcomes.AppliedExactly`, `LabelOutcomes.OfferIsApplied`).

## Where a promise holds only under a condition

- A read from boundary `0` asks for the recent tail, not for everything. Over every honest run after
  it is begun, whatever is posted, answered or dropped meanwhile, a new-mode read goes on from its
  boundary if and only if that boundary is nonzero; the one exception is a journal that holds a
  single message of the last 20-digit sequence, which nothing can follow
  (`ZeroBoundary.GoesOnIffNonzero`). From `0`, even a hub that always serves the newest 32 messages
  is overtaken by posts, and a message is passed over for good (`ZeroBoundary.ZeroBoundarySkips`).
  `GapFree.RestartsExactlyWhen` says what ends a series of reads: its checkpoint is gone (evicted,
  or dropped with its context), or a read of the channel that does not continue the stored boundary
  was accepted.
- A completion value resolves to its agent if and only if no other agent's identifier is the same
  when case is ignored, or the value is the whole identifier (`Completion.ResolvesIffDistinct`);
  `Completion.CaseTwinsFail` gives two agents for whom it fails.
- A session traversal makes progress from a page exactly when its first entry's record fits the
  page budget (`SessionRuns.StuckIffOversized`); identifiers of up to 64000 units always do, and
  `SessionRuns.LongIdStuck` gives an entry that does not.
- The cache's age limit filters what is already cached, not what arrives; the batch theorem asks
  only what is still cached at each step to be unexpired and within the journal's end.
- Two accepted copies of one message are two minutes apart because the caller's clock does not
  run back.
- `MAX_AGENTS` and the empty-last-page check of one traversal, the byte limit of the default
  cache and the byte limit of a notice batch are each proved never to decide anything
  (`Discovery.ExtraChecksAreIdle`, `OperatorCache.ByteLimitNeverBinds`,
  `Batches.BatchLimitNeverBinds`).

## Model

| member | source | states |
|---|---|---|
| Decimal.CompareIsNumeric | extension/channel-read-state.ts:15-22 | Length-then-string comparison of canonical decimals decides exactly the numeric order of the numbers they denote, equality included, and is the NaN case exactly when an operand is not canonical. |
| Decimal.RenderCanonical | extension/inbox.ts:82 | Every 64-bit receipt prints as a canonical decimal of at most 20 digits that denotes it. |
| Decimal.RenderInjective | extension/inbox.ts:82 | Distinct receipts print as distinct keys. |
| Whitespace.Trimmed | extension/protocol.ts:133 | Trimming a text with white space around a bare middle gives exactly that middle. |
| Whitespace.EveryTextHasBare | extension/protocol.ts:133 | Every text is white space, its trimmed middle, which neither begins nor ends with white space, and white space. |
| Utf8Points.SizeMeans | extension/protocol.ts:261-267 | A text's size is the number of UTF-8 bytes of its code points, which read back as those code points, its length in characters is their number, and it counts as Unicode exactly when they give its code units back. |
| Channels.MessagesOrdered | extension/channel-read-state.ts:24-29 | The neighbour scan over decimal strings accepts exactly the lists whose sequences are all canonical and pairwise numerically increasing. |
| Fleet.CountedIsWhole | extension/presence.ts:85-90 | A strictly ascending list of true records with as many entries as the hub's roster is the whole roster, so comparing a snapshot's length with its total suffices. |
| Fleet.SortMirrors | extension/presence.ts:120 | Publishing the sorted values of a keyed map publishes exactly the map. |
| Presence.ReducePresence | extension/presence.ts:59-127 | The reducer with its local map and set computes the specification `Reduce` for every event, size and clock reading, NaN and infinities included. |
| Presence.ReduceKeepsValid | extension/presence.ts:59-127 | Whatever arrives, honest or not: published agents stay strictly ascending and at most 5000, staging stays bounded and consistent, the epoch never changes once set and the revision never decreases. |
| Presence.RunMonotone | extension/presence.ts:59-127 | Over every run the epoch, once set, is fixed and the revision never decreases. |
| Presence.StagingIsInvisible | extension/presence.ts:72-94 | Agents or revision change only by a final chunk that completes the announced total, or by a delta from exactly the current revision; a partial snapshot is never visible. |
| Presence.SnapshotKeepsReplica | extension/presence.ts:72-94 | Any honest chunk, in or out of place, keeps published and staged records true of the hub's roster at the revisions they name. |
| Presence.DeltaKeepsReplica | extension/presence.ts:95-122 | Any honest delta leaves the published agents equal to the hub's roster at the published revision. |
| Presence.ReduceKeepsReplica | extension/presence.ts:59-127 | Every event of an honest hub keeps the replica equal to the roster at its revision. |
| Presence.ReplicaCorrect | extension/presence.ts:59-127 | Over every run of honest events, lost, repeated or reordered, the replica stays correct. |
| Presence.FreshReplicaCorrect | extension/presence.ts:48-127 | The same for a new connection: as soon as a revision is published, the agents are exactly the hub's roster at it. |
| Presence.SnapshotCommits | extension/presence.ts:72-94 | Every capture cut into chunks anywhere, delivered undisturbed within the byte limits and its lifetime, is published whole at its revision. |
| Presence.DistinctChangesApply | extension/presence.ts:104-118 | A delta's changes apply exactly when no identifier occurs twice among them. |
| Presence.DeltaTracks | extension/presence.ts:95-122 | A fitting honest delta over distinct agents is applied: the replica moves to the new revision, mirrors its roster and is current exactly when the delta says it is caught up. |
| PresenceOutcomes.RefusedExactly | extension/presence.ts:59-127 | An event is refused exactly when it is not admitted, told from the published and staged records, the limits and the clock; a refusal sets reconnect and stale, drops the staging and leaves everything published; a replica that asks for a reconnect takes nothing more. |
| PresenceOutcomes.ResetMeans | extension/presence.ts:66-71 | An admitted reset keeps agents and revision, drops the staging and awaits a snapshot from its start. |
| PresenceOutcomes.ChunkMeans | extension/presence.ts:72-94 | An admitted part is only staged, with its charge and the start of the capture, unless it is final; the final one publishes everything staged and itself. |
| PresenceOutcomes.DeltaMeans | extension/presence.ts:95-122 | An admitted delta publishes, in order, exactly the records it upserts and the earlier ones it does not touch, at its revision, current exactly when caught up. |
| PresenceOutcomes.AwaitingHolds | extension/presence.ts:72-122 | Over every run from a state that awaits a snapshot, nothing published changes until a final part. |
| PresenceOutcomes.ResetThenCapture | extension/presence.ts:66-94 | From every state that has not given up, a reset and then an undisturbed capture of its epoch at no earlier revision, cut anywhere, publish exactly that capture. |
| PresenceOutcomes.ChargedFrames | extension/presence.ts:63-64 | A capture is charged the length of each part as its canonical frame. |
| Sse.CompleteLine | extension/sse.ts:28-60 | A line adds at most its own length to the data buffer, ending a frame empties it, and the buffer is non-empty exactly when a data line was read. |
| Sse.Step | extension/sse.ts:75-92 | One byte keeps line and data bytes together within the raw bytes of the frame and those within 1 MiB, so no buffer index is out of range. |
| Sse.RunSplit | extension/sse.ts:72-94 | Feeding two chunks is feeding their concatenation. |
| Sse.ChunksAreTheirConcatenation | extension/sse.ts:72-94 | Any chunking leaves the parser in the state of the undivided stream. |
| Sse.MachineIsBatch | extension/sse.ts:61-102 | From every sound state without a held-back CR, feeding any input and finishing gives the verdict of the batch reading of what remains. |
| Sse.StreamIsBatch | extension/sse.ts:11-103 | For every stream and chunking, calls and final verdict equal the reading that splits at CRLF, CR or LF, strips one BOM, groups at blank lines and enforces the 1 MiB raw-frame limit. |
| Sse.FrameMeaning | extension/sse.ts:28-60 | A completed frame calls back with its last event name, `message` if none, and its data values joined by LF; a frame without data calls nothing and must have no event name. |
| Sse.DataBufferSuffices | extension/sse.ts:54-58 | Within the raw-frame limit the data buffer's own overflow check never fails a line. |
| FieldLines.ReadBack | extension/sse.ts:49-52 | A written field line gives back its name and value: after the colon and one space, after the colon alone, or none without a colon. |
| FieldLines.EveryLineIsWritten | extension/sse.ts:48-52 | Every nonempty line is a comment or a written field line. |
| SseFrames.LinesRead | extension/sse.ts:28-60 | Any written lines, whatever ends them, are read to the last event value, all data values and one activity call for each comment, and reading goes on behind them. |
| SseFrames.WrittenFrame | extension/sse.ts:28-60 | A written frame makes its activity calls and then exactly the call with its last event name, `message` if none, and its data values joined by LF, followed by activity; a frame that says nothing makes none, and every other is refused. |
| SseFrames.LineFailsExactly | extension/sse.ts:28-60 | A line is refused exactly when it is not UTF-8, overruns the data buffer, or is a comment whose activity call is refused. |
| SseFrames.BlankFailsExactly | extension/sse.ts:33-47 | A blank line is refused exactly for a name without data, an unknown event, a payload that is not its own, or a refused call, and the calls made stay made. |
| SseFrames.FirstLineOnly | extension/sse.ts:31 | A byte-order mark is dropped from the first line and from no other. |
| Sse.Parser.constructor | extension/sse.ts:11-18 | A new parser owns two fresh 1 MiB buffers and is at the start of a stream. |
| Sse.Parser.CompleteBufferedLine | extension/sse.ts:28-60 | Completing the buffered line has the effect of the line it holds, on the frame, the data buffer and the calls made, and empties the line buffer. |
| Sse.Parser.DispatchBuffered | extension/sse.ts:32-47 | A blank line dispatches the frame held in the data buffer, or fails with the calls made so far. |
| Sse.Parser.AppendData | extension/sse.ts:54-58 | A data value and its LF go after the bytes already buffered, or the parser stops because they do not fit. |
| Sse.Parser.ResolveCR | extension/sse.ts:61-66 | Resolving a held-back CR completes its line once at most and resets the raw count exactly when it ended a frame. |
| Sse.Parser.ConsumePlain | extension/sse.ts:84-91 | One byte with no CR held back moves the parser as specified, inside its buffers. |
| Sse.Parser.Consume | extension/sse.ts:75-92 | One byte moves the parser as specified, an LF after a CR being charged to the CR's frame. |
| Sse.Parser.Push | extension/sse.ts:72-94 | A chunk moves the parser as its bytes one by one, and is refused exactly when the parser has stopped. |
| Sse.Parser.End | extension/sse.ts:95-101 | Ending the stream gives the specified verdict and stops the parser for good. |
| Tar.NpmOctalExact | scripts/verify-npm-package.py:89-92 | A numeric field reads as a number exactly when it is that number's one spelling at that width. |
| Tar.ChecksumFits | scripts/verify-npm-package.py:113-116 | Six octal digits hold the checksum of every 512-byte header. |
| Tar.HeaderWritten | scripts/verify-npm-package.py:113-131 | The header written for an allowed kind, name and size passes every check and reads back as them. |
| Tar.HeaderRead | scripts/verify-npm-package.py:113-131 | A header that passes every check is, byte for byte, the one written for what it reads as. |
| Tar.TakenIsBlock | scripts/verify-npm-package.py:139-144 | A member is taken only from its own serialization: header, payload and zero fill. |
| Tar.BlockIsTaken | scripts/verify-npm-package.py:139-144 | A member's serialization at the front is taken as that member, is never mistaken for an end marker, and leaves exactly what follows. |
| Tar.ReadIsSerialization | scripts/verify-npm-package.py:102-153 | What the reader accepts from any offset is exactly the serialization of the members it reports and their end padding. |
| Tar.SerializationIsRead | tests/npm-package.test.py:45-66 | Every fitting list, serialized with any allowed padding, is read back as that list. |
| Tar.ReaderInvertsWriter | scripts/verify-npm-package.py:95-153 | The reader returns a list and padding if and only if they are within every limit and the archive is their serialization. |
| Tar.SerializeInjective | tests/npm-package.test.py:45-66 | Two allowed archives with the same bytes hold the same members and the same padding. |
| Tar.RelativeInjective | scripts/verify-npm-package.py:132-148 | Two approved files with the same path inside the package are the same archive name. |
| Tar.FilesExact | scripts/verify-npm-package.py:145-152 | The returned files hold every regular member's payload under its own path, none overwritten, and no other path. |
| Tar.ScanArchive | scripts/verify-npm-package.py:95-153 | The offset loop with its seen set and total returns the files of the specified reading, or refuses with it. |
| Tar.PhysicalFiles | scripts/verify-npm-package.py:95-153 | An archive is accepted if and only if it is the serialization of some allowed list, and then yields that list's files. |
| TarArchives.FileApproved | scripts/verify-npm-package.py:135-152 | A regular file is approved exactly when its name is the package and components, none empty, `.`, `..` or with a backslash, that make an inventory path. |
| TarArchives.DirectoryApproved | scripts/verify-npm-package.py:98-146 | A directory is approved exactly when it is empty and its name, less one final slash, is the package itself or a path above some inventory file. |
| TarArchives.NameTaken | scripts/verify-npm-package.py:133-134 | A directory name loses exactly one final slash and a file name is taken as it is. |
| TarArchives.HeaderBytes | scripts/verify-npm-package.py:114-132 | A header is, byte for byte, its name, the pinned mode, time, format and device texts, its octal size and checksum, its kind, and zeros. |
| TarArchives.BlockBytes | scripts/verify-npm-package.py:140-144 | A member is its header, its payload and fewer than 512 zeros, to whole blocks. |
| TarArchives.ReadExactly | scripts/verify-npm-package.py:95-153 | A list is reported exactly when it is within the spelled-out limits, approved and without repeated names, and the archive is its serialization. |
| ChannelReads.StoreCheckpoint | extension/channel-read-state.ts:132-142 | The loop moves the channel to the newest place and evicts oldest entries down to 128. |
| ChannelReads.StoredLookup | extension/channel-read-state.ts:132-142 | Storing sets this channel's checkpoint and at worst evicts another's; it never alters one. |
| ChannelReads.BeginMeaning | extension/channel-read-state.ts:72-82 | A begun read gets a ticket that was not live before and is now, with checkpoints untouched. |
| ChannelReads.StaleTicketIsInert | extension/channel-read-state.ts:84-130 | A ticket that is not live changes nothing by noting, releasing or committing, and no page is delivered to it. |
| ChannelReads.CommitSpends | extension/channel-read-state.ts:152-170 | After a commit, accepted or refused, the ticket is no longer live. |
| ChannelReads.CommitBoundary | extension/channel-read-state.ts:152-170 | An accepted boundary is a canonical nonzero sequence of the noted page in the noted epoch, or none for an empty page; a refused commit stores nothing. |
| ChannelReads.CommitNeverBack | extension/channel-read-state.ts:163-169 | No accepted `new` commit moves a checkpoint numerically back within its epoch. |
| ChannelReads.CommitOnlyRemoves | extension/channel-read-state.ts:152-170 | A commit leaves context and request counter alone and changes no other channel's read. |
| ChannelReads.CommitKeepsWellFormed | extension/channel-read-state.ts:152-170 | A commit keeps the state well formed and at worst evicts another channel's checkpoint. |
| ReadOutcomes.BeginsExactly | extension/channel-read-state.ts:72-82 | A read begins exactly when its channel has none busy, fewer than 128 are and request numbers last; its ticket is new and nothing else changes. |
| ReadOutcomes.ReleasesExactly | extension/channel-read-state.ts:84-90 | Releasing a live ticket ends its read and no other. |
| ReadOutcomes.NotesExactly | extension/channel-read-state.ts:124-130 | Noting a page records its epoch and sequences under its live ticket and changes nothing else. |
| ReadOutcomes.AssessesExactly | extension/channel-read-state.ts:108-122 | A first page fails exactly for a dead ticket or disorder, is fetched again exactly by a new read that goes on from a nonzero boundary of another epoch, and is a reset exactly when of another epoch. |
| ReadOutcomes.CommitsExactly | extension/channel-read-state.ts:152-170 | A commit is accepted exactly when its ticket is live, its epoch noted, and it is an empty page, or a canonical nonzero sequence of the page that, for a new read, is not before the boundary of the same epoch. |
| ReadOutcomes.CommitReleases | extension/channel-read-state.ts:152-170 | Accepted or not, a live ticket's commit ends its read and no other, and a dead ticket's changes nothing. |
| ReadOutcomes.EvictsOldest | extension/channel-read-state.ts:132-142 | No checkpoint is lost while there is room, and a new channel beyond the 128th costs exactly the oldest. |
| ReadOutcomes.StoresNewest | extension/channel-read-state.ts:132-142 | A stored checkpoint is the newest and the others keep their order. |
| Fencing.RunFenced | extension/runtime.ts:697-709 | Every interleaving of begin, note, commit, release, invalidation and run replacement keeps the fencing invariant. |
| Fencing.TicketsAreFenced | extension/channel-read-state.ts:72-170 | From a fresh runtime, over every interleaving: one live ticket per channel, each ticket accepted at most once and dead afterwards, every accepted boundary from the page last noted under its ticket. |
| GapFree.StartSound | extension/runtime.ts:115-119 | A fresh runtime over any journals satisfies the reading invariant. |
| GapFree.StepSound | extension/runtime.ts:710-767 | Every step of an honest run keeps the reading invariant: a post, a begun read, its answer, the separate answer to a tail request after an epoch change, a shown prefix, a cancelled read or a dropped context. |
| GapFree.RunSound | extension/runtime.ts:710-767 | So does every honest run. |
| GapFree.DeltaExtends | extension/channel-read-state.ts:152-170 | Appending a shown prefix of the forward delta extends the covered journal slice exactly to the committed boundary. |
| GapFree.RestartsExactlyWhen | extension/channel-read-state.ts:92-170 | A series of reads ends if and only if the checkpoint is lost, or an accepted read of the channel was recent, reset, or asked from no boundary. |
| GapFree.SeriesExtends | extension/channel-read-state.ts:108-170 | Every honest step that does not end the series keeps its epoch and start, never moves the boundary back, and returns exactly the journal between the old boundary and the new one. |
| GapFree.GapFreeReading | extension/tools.ts:167-190 | From a nonzero committed boundary, over every honest run that does not end the series, the epoch stays the same and the records returned are exactly its journal between that boundary and the current one, none skipped and none repeated. |
| ReadProgress.ShowAdvances | extension/tools.ts:167-190 | A live read that goes on from its boundary may show any nonempty prefix: the commit is accepted and the boundary becomes the last record shown. |
| ReadProgress.ReadAdvances | extension/runtime.ts:710-767 | A whole read answered with something is honest, returns what it shows, moves the boundary to the last record shown and leaves no read busy. |
| ReadProgress.ReadsReachTheEnd | extension/runtime.ts:710-767 | Repeated whole reads return all the rest of the journal and leave the boundary at its end. |
| ZeroBoundary.GoesOnIffNonzero | extension/channel-read-state.ts:92-114 | Over every honest run after it is begun, interleaved with anything, a new-mode read is given what follows its stored boundary if and only if the boundary is nonzero, save for a journal of one message that no further sequence can follow. |
| ZeroBoundary.ZeroBoundarySkips | extension/channel-read-state.ts:92-170 | From boundary 0, for every journal with room for more than 32 messages, an honest run with posts during the read answers it with exactly the newest 32, all shown and committed, and the boundary passes a message no read returned. |
| ChannelText.FormatChannelRead | extension/channels.ts:108-151 | The selection loop writes the preamble, the fitting record prefix and the ending of the specified format and reports the last record shown as its boundary. |
| ChannelText.EndingFits | extension/channels.ts:124-133 | The reserve covers footer, summary and continuation for every possible selection and canonical boundary. |
| ChannelText.FormattedFits | extension/channels.ts:108-151 | For every page of at most 32 well-formed records the text is at most 48 KiB in UTF-8. |
| ChannelText.FittingIsLongest | extension/channels.ts:136-145 | The prefix is the longest: one more record would overrun the room beside the reserve. |
| ChannelText.FirstIsShown | extension/channels.ts:136-145 | A first record of at most 45000 bytes is always shown, so a nonempty page advances its boundary. |
| ReadTexts.FormatMeans | extension/channels.ts:108-151 | The text is, a line each, the warnings, the header, the records shown and the closing; the boundary is the last record shown, and there is more exactly when some are left out or the server had more. |
| ReadTexts.ShownExactly | extension/channels.ts:136-145 | As many records are shown, in order, as leave the text and the reserve within 48 KiB. |
| ReadTexts.ReserveMeans | extension/channels.ts:131-133 | The reserve is the longest count line and summary there can be and the last line, each with its line feed. |
| ReadTexts.SummaryIsJson | extension/channels.ts:125-129 | The summary is the JSON of the boundary, the count, and the three marks. |
| ReadTexts.LineFields | extension/channels.ts:137-142 | A record line is the JSON of its sequence, kind, sender, reference and body, with the operator's name and the claim where there is one. |
| ChannelLines.ClaimShortens | extension/channels.ts:137-141 | The body shown for a decoded claim is no longer than the text it was decoded from, however that text spells it. |
| ChannelLines.LineFits | extension/channels.ts:137-142 | Every message of a valid page, decoded or raw, with its reference, display name and claim, has a well-formed line of at most 45000 bytes. |
| ChannelLines.ValidPageAdvances | extension/channels.ts:108-151 | For every valid page the text is at most 48 KiB, and unless the page is empty its first message is shown and the boundary is the last one shown. |
| OperatorCache.PruneMessages | extension/channel-read-state.ts:209-232 | The filter, sort, de-duplication and oldest-first trimming compute the specified window. |
| OperatorCache.DropOldest | extension/channel-read-state.ts:224-230 | Trimming with a running byte count leaves the longest suffix within both limits, even when that is empty. |
| OperatorCache.PruneBounded | extension/channel-read-state.ts:209-232 | Whatever was cached, an ordered page leaves a strictly ordered window within both limits. |
| OperatorCache.LongestIsLongest | extension/channel-read-state.ts:224-230 | No longer suffix fits both limits. |
| OperatorCache.LongestAbsorbs | extension/channel-read-state.ts:224-230 | Trimming early loses nothing that trimming late would keep. |
| OperatorCache.PruneIsBatch | extension/channel-read-state.ts:209-232 | Pruning the cached suffix with the next journal slice gives the suffix of everything applied above the new retention floor; only what is still cached need be fresh, and a page without a floor leaves the last one. |
| OperatorCache.ApplyOperatorCache | extension/channel-read-state.ts:252-282 | Updating the copied records in place gives the specified cache, or refuses an unordered or foreign page. |
| OperatorCache.ApplyBounded | extension/channel-read-state.ts:252-282 | Every cached window stays ordered and within both limits; other channels keep their window and cursor within an epoch and lose both when it changes. |
| OperatorCache.IncrementalIsBatch | extension/channel-read-state.ts:252-282 | Any number of consecutive journal slices, over any span of time, leaves exactly the longest suffix, within the limits, of everything applied above the last retention floor, as long as nothing still cached is expired when a slice arrives. |
| OperatorCache.ByteLimitNeverBinds | extension/channel-read-state.ts:6-8 | With bodies of at most 4096 bytes the default 32 MiB limit never drops a message that the 24-message limit keeps. |
| CacheWindows.WindowHolds | extension/channel-read-state.ts:209-232 | After any page the window is the newest, as many as both limits allow, of the page's messages and the earlier ones that are not sent again, in the retained range and younger than a day, in order. |
| CacheWindows.StoredFields | extension/channel-read-state.ts:234-250 | The stored first and last numbers, the marks for earlier and later messages and the cursors follow from the stored messages and the retained range. |
| CacheWindows.StoredCoverage | extension/channel-read-state.ts:260-275 | A window has a gap exactly when its page says so, or it goes on from one with a gap or with nothing left although the journal holds something; otherwise it is empty exactly without messages. |
| CacheWindows.StoredAfter | extension/channel-read-state.ts:276-281 | The next page is asked for after the last message kept; an empty journal forgets where and a window without messages leaves it. |
| CacheWindows.RefusedExactly | extension/channel-read-state.ts:253-254 | A page is refused exactly when it is out of order or of another channel. |
| Discovery.Stage.constructor | hub/priv/dashboard/protocol.js:76-78 | A new stage has seen no page. |
| Discovery.Stage.Add | hub/priv/dashboard/protocol.js:80-97 | A page is accepted exactly when every check passes; a refused page leaves the stage as it was. |
| Discovery.ListAgents | extension/client.ts:248-280 | The page loop, deadlines aside, returns what the specified walk over the hub's answers returns. |
| Discovery.ExtraChecksAreIdle | extension/client.ts:264-271 | The agent limit, the empty last page and the repeated cursor never decide: the other checks already exclude them. |
| Discovery.AdmitTogether | extension/client.ts:257-273 | At every point of a traversal stage and loop admit exactly the same pages and reach the same state. |
| Discovery.TraversalsAgree | extension/client.ts:248-280 | On every sequence of answers the two traversals accept or refuse together with the same list, strictly ascending. |
| Discovery.CompleteIsAccepted | hub/priv/dashboard/protocol.js:76-100 | Every complete pagination of an ascending list within the byte limits is accepted whole. |
| Discovery.AcceptedIsComplete | hub/priv/dashboard/protocol.js:76-100 | What is accepted is a complete pagination: consecutive pages of one snapshot, ascending throughout, exactly the announced total. |
| Discovery.TraversalIsPagination | extension/client.ts:248-280 | The loop returns a list if and only if the answers begin with a complete pagination of it. |
| Discovery.TraversalEnds | extension/client.ts:248-280 | After as many pages as there may be agents no further page is ever asked for. |
| DiscoveryPages.ReadBackExactly | extension/client.ts:248-280 | Both traversals return a list exactly when it may be listed and the answers begin with its pages as the hub writes them, cut anywhere: consecutive numbers, one capture, every page but the last naming the next. |
| Inbox.OverheadFits | extension/inbox.ts:50-59 | For mail the transport admits, a frame's header and footer take at most 2048 bytes of UTF-8. |
| Inbox.FirstSettled | extension/inbox.ts:76-80 | Eviction picks the oldest record that no longer waits for delivery, or none. |
| Inbox.ReceiveMail | extension/inbox.ts:62-103 | Receiving, with its loop over remembered messages and splice of the history, is the specified transition, warnings and control included. |
| Inbox.LiveEntries | extension/inbox.ts:63-64 | The loop keeps exactly the remembered messages that have not expired. |
| Inbox.TakeNoticeBatch | extension/inbox.ts:113-139 | The loop with its two byte counts takes the specified records, marks exactly those and joins their frames in order. |
| InboxOutcomes.AdmittedMail | extension/inbox.ts:81-94 | Admitted mail becomes the last record with the next receipt, unread; a notice waits, control mail is discarded exactly when control is off or the slot is held and injected otherwise. |
| InboxOutcomes.HistoryAfter | extension/inbox.ts:74-80 | The history loses a record only when it holds 32: the oldest that no longer waits. |
| InboxOutcomes.ControlHandedOut | extension/inbox.ts:95-103 | A control is handed out exactly for admitted control mail with control on and the slot free; it carries the mail's kind and the new record's key and frame, and holds the slot. |
| InboxOutcomes.RefusedMail | extension/inbox.ts:62-80 | Mail that is not admitted changes nothing but what is remembered. |
| InboxOutcomes.RememberedAfter | extension/inbox.ts:63-72 | What still was is remembered, and this mail for two minutes unless it was already or 4096 are. |
| InboxOutcomes.WarningsGiven | extension/inbox.ts:66-96 | The warnings name the first reason for refusing mail that is no repeat, or the unread record lost and why a control was discarded. |
| InboxFrames.FrameText | extension/inbox.ts:50-60 | A record is shown as the words `Agent bus`, the JSON object of its provenance, the notice, and its body as sent. |
| InboxFrames.HeaderReadsBack | extension/inbox.ts:50-60 | Whatever the body, the header parses back to the key, kind, sender, message, host and label. |
| Batches.SelectIsPrefix | extension/inbox.ts:119-130 | A batch is always a prefix of the pending records. |
| Batches.TakeSplitsPending | extension/inbox.ts:113-139 | Taking a batch removes exactly it from the front of the pending records. |
| Batches.BatchLimitNeverBinds | extension/inbox.ts:122-124 | In every reachable mailbox neither the overhead limit nor the 81920-byte limit stops a batch: the bodies alone decide. |
| Batches.BatchProgress | extension/inbox.ts:113-139 | A batch is empty exactly when nothing is pending. |
| Batches.BatchesDrain | extension/inbox.ts:113-139 | Repeated batches deliver every pending record once, in order, in at most as many batches as records. |
| Batches.ContentSize | extension/inbox.ts:55-59 | A frame's UTF-8 length is its body's plus its overhead, so the two counts add up across surrogates. |
| Batches.BatchFits | extension/inbox.ts:113-139 | The joined text of every batch is at most 81920 bytes. |
| InboxOutcomes.BatchIsLongest | extension/inbox.ts:113-129 | A batch is the longest front part of the waiting records whose bodies take 16384 bytes together. |
| InboxOutcomes.BatchMarked | extension/inbox.ts:130-138 | Taking a batch marks its records attempted and changes nothing else. |
| InboxOutcomes.ClaimedDelivery | extension/inbox.ts:105-111 | A delivery is claimed exactly when the slot is free and something waits; it holds the slot with the batch's text and first key. |
| InboxOutcomes.MarkedRead | extension/inbox.ts:141-145 | Marking reads exactly the records of one key and changes nothing else. |
| InboxOutcomes.EchoedText | extension/inbox.ts:151-154 | Only the held text frees the slot, and nothing else changes. |
| InboxRuns.ArrivePreserves | extension/inbox.ts:62-103 | An arrival at a clock that does not run back keeps the whole mailbox invariant. |
| InboxRuns.TakePreserves | extension/inbox.ts:113-139 | So does taking a batch. |
| InboxRuns.ClaimPreserves | extension/inbox.ts:105-111 | So does claiming a delivery, which emits only into a free slot. |
| InboxRuns.ReadPreserves | extension/inbox.ts:141-145 | So does marking a record read. |
| InboxRuns.EchoPreserves | extension/inbox.ts:151-154 | So does an echoed user message. |
| InboxRuns.EveryRunIsGood | extension/inbox.ts:62-154 | Over every run: receipts are 1, 2, 3, … and stop instead of wrapping; delivered then pending keys are exactly the accepted notices in arrival order; copies of one message are 120 s apart; emissions and exact-text releases alternate and the slot holds the emission not yet released; every emission names its own receipt, never emitted before. |
| InboxRuns.TextNamesKey | extension/inbox.ts:50-59 | Two controls with the same text carry the same receipt, whatever the peers wrote. |
| InboxRuns.EmittedTextsDiffer | extension/inbox.ts:97-110 | All emitted texts of a run differ. |
| InboxRuns.OnlyLatestEchoReleases | extension/inbox.ts:151-154 | An echo of an emitted text frees the slot exactly when it is the latest emission and the slot is still held. |
| InboxRuns.RunsDrain | extension/inbox.ts:113-139 | After any run, draining the mailbox completes delivery of exactly the accepted notices in order. |
| Prefixes.SearchIsLeast | extension/protocol.ts:188-194 | The search stops at the least length no other identifier shares. |
| Prefixes.ShortestUnique | extension/protocol.ts:183-195 | The quadratic loop returns the specified shortest unique prefix. |
| Prefixes.Lcp | extension/commands.ts:11-15 | The loop counts exactly the common leading units. |
| Prefixes.NeighbourLengths | extension/commands.ts:16 | Every distinct identifier's length is one more than it shares with a sorted neighbour, at least eight. |
| Prefixes.NeighboursShareMost | extension/commands.ts:7-16 | No identifier of the sorted list shares more than a neighbour does. |
| Prefixes.SharedIsNeighbourly | extension/commands.ts:7-16 | Some other identifier starts with a prefix exactly when the prefix is shorter than the neighbour length. |
| Prefixes.NeighbourLengthIsShortest | extension/commands.ts:8-21 | Cutting an identifier at its neighbour length gives its shortest unique prefix, whatever else the population holds. |
| Prefixes.UniquePrefixes | extension/commands.ts:8-21 | For any population, every agent gets exactly the prefix the quadratic definition gives it. |
| Tell.ParseTell | extension/protocol.ts:197-237 | The flag loop, quoting and size checks compute the specified meaning of a command line, each error included. |
| Tell.TellRoundTrip | extension/protocol.ts:197-237 | A kind, quoted target and body, written as a line, are read back as exactly those. |
| Tell.AcceptedIffSendable | extension/protocol.ts:212-236 | Some line means a given kind, target and body if and only if the target is nonempty without quotes and the body is nonblank, untrimmed at its start and within 16 KiB. |
| TellOutcomes.FlagMeans | extension/protocol.ts:202-211 | A leading word of two dashes ends the flags, `--prompt` and `--steer` give the kind once, every other flag is refused, and anything else is no flag. |
| TellOutcomes.QuotedMeans | extension/protocol.ts:213-220 | A quoted target is what stands between two quotes before white space or the end; an open quote or anything else after it is refused. |
| TellOutcomes.WordMeans | extension/protocol.ts:221-225 | An unquoted target is a word without quotes. |
| TellOutcomes.BodyMeans | extension/protocol.ts:226-237 | The body is the rest without the white space before it; a missing target, an empty body and one over 16384 bytes are refused, in this order. |
| TellOutcomes.CommandMeans | extension/protocol.ts:197-237 | A whole command, with or without a flag and whatever white space, means its kind, target and body. |
| Completion.CompletionItems | extension/commands.ts:38-62 | The items are exactly the matching agents but oneself, in the order of the population and once each, with their shortest unique prefixes. |
| Completion.ValueIsUnique | extension/commands.ts:57-59 | A completion value is a prefix of eight to 36 units that no other agent's identifier starts with, ignoring case. |
| Completion.UniquePrefixResolves | extension/protocol.ts:128-181 | A unique prefix of at least eight units resolves to its agent, past the exact-id tier and before host and label. |
| Completion.ResolvesIffDistinct | extension/protocol.ts:144-162 | For identifiers that are only distinct as written, a completion value resolves to its agent if and only if no other identifier equals it ignoring case, or the value is the whole identifier. |
| Completion.CaseTwinsFail | extension/protocol.ts:152-162 | Two agents whose identifiers differ only in case are offered eight units each, and neither resolves to its agent. |
| Completion.CompletionRoundTrip | extension/protocol.ts:128-237 | A completion value typed before any sendable body under any flag is parsed as the target and resolves to exactly that non-self agent. |
| TargetTiers.TargetMeans | extension/protocol.ts:128-181 | Nothing typed and one's own identifier mean nobody; otherwise the first tier any other agent meets decides, identifier, prefix of eight units, host, label: its only agent is meant, and several are all named in their order. |
| TargetTiers.IncludesExactly | extension/protocol.ts:173 | A label holds a text exactly when it is some text, that text and some text. |
| TargetTiers.OfferedMeans | extension/commands.ts:43-56 | Completion offers exactly the other agents whose identifier or host begins with what was typed or whose label holds it, ignoring case, in order. |
| JsonStrings.ClosingFinds | extension/protocol.ts:293 | The scanner's pattern closes every well-formed literal exactly at its closing quote. |
| JsonStrings.DecodeEscape | extension/coordination-notes.ts:74-76 | Every string, lone surrogates included, is spelled by its escaped form. |
| JsonReading.ReadsBack | extension/protocol.ts:291 | A written tree is read back as itself before any delimiter. |
| JsonReading.Written | extension/protocol.ts:291 | What is read is a grammatical tree that writes exactly the text consumed. |
| JsonReading.ParseIsInverse | extension/protocol.ts:291 | A text is read as a tree if and only if that tree is grammatical and writes it. |
| JsonLexis.NumberExactly | extension/protocol.ts:291 | What reads as a number is exactly a sign or none, a whole part without a leading zero, and perhaps a fraction and an exponent (RFC 8259, section 6). |
| JsonLexis.LiteralNames | extension/protocol.ts:291 | The scalars that are no numbers are exactly `true`, `false` and `null`. |
| JsonLexis.Punctuation | extension/protocol.ts:291 | White space and punctuation are the units of RFC 8259, section 2. |
| JsonLexis.BodyExactly | extension/protocol.ts:291 | A body between quotes spells a string exactly when it is cut into plain units, the eight two-unit escapes and four-digit escapes that stand for its units. |
| JsonLexis.UnitWritten | extension/coordination-notes.ts:74-76 | Each unit is written in the short escape it has, in lower-case hexadecimal for other controls and lone surrogates, or as it is. |
| JsonFields.FieldsBack | extension/coordination-notes.ts:74-76 | The fields of a written object read back with their names, in order. |
| WireJson.CheckTokens | extension/protocol.ts:292-308 | The token loop with its stack of key sets computes the specified verdict on any text. |
| WireJson.DecodeWireJson | extension/protocol.ts:289-310 | Parsing then scanning accepts what the specification accepts, with the parsed tree. |
| WireJson.ScanValue | hub/priv/dashboard/protocol.js:42-65 | Scanning a written value passes exactly when no object in it repeats a key and no string in it is ill-formed, and leaves the stack as it was. |
| WireJson.FlatScanIsTree | extension/protocol.ts:289-310 | A text is accepted with a tree if and only if the tree writes it, no object at any depth repeats a decoded key and every key and string is well-formed Unicode. |
| NotesRoundTrip.ReplaceWrite | extension/coordination-notes.ts:74-76 | Replacing the two separators in the text is replacing them inside its literals: the grammar is untouched. |
| NotesRoundTrip.DecodeReplaced | extension/coordination-notes.ts:74-76 | A literal escaped and re-escaped still spells its string. |
| NotesCodec.NoteBack | extension/coordination-notes.ts:110-138 | Every checked note, of each kind, is read back from its written form. |
| NotesCodec.EnvelopeBack | extension/coordination-notes.ts:144-167 | The written envelope passes the exact-key, version and Unicode checks and gives back note and body. |
| NotesCodec.WholeVersion | extension/coordination-notes.ts:162 | A version written with digits alone is accepted if and only if it is the text `1`; other spellings are accepted when the nearest double is 1. |
| VersionNumbers.VersionMeans | extension/coordination-notes.ts:162 | A version written as any JSON number is accepted exactly when it is not negative and what it denotes is at least 1 - 1/2^54 and at most 1 + 1/2^53: when the double nearest to it is 1. |
| NotesCodec.DecodeUndoesEncode | extension/coordination-notes.ts:144-167 | For every body and note the encoder accepts, decoding its text returns exactly them. |
| NotesOutcomes.NoteExactly | extension/coordination-notes.ts:82-138 | A note is one exactly when its owner, reference, texts and evidence follow the rules, spelled out: white space alone and lone surrogates are refused, texts take 512 bytes, evidence has one to four. |
| NotesOutcomes.EncodedExactly | extension/coordination-notes.ts:144-151 | A note is written exactly when its body says something, its fields follow the rules and the envelope takes at most 4096 bytes, and then as the mark, a line feed and the escaped JSON. |
| NotesOutcomes.WrittenFields | extension/coordination-notes.ts:144-151 | The written envelope and note have the named fields, in their order. |
| NotesOutcomes.SeparatorsEscaped | extension/coordination-notes.ts:74-76 | No line separator is left in what is written, and nothing else is changed. |
| NotesOutcomes.NoteRead | extension/coordination-notes.ts:102-138 | A JSON value reads as a note exactly when it is an object of just the fields its kind calls for, within the rules. |
| NotesOutcomes.DecodedExactly | extension/coordination-notes.ts:153-167 | A text reads as a note and a body exactly when it is well-formed, begins with the mark, takes at most 4096 bytes and goes on with the JSON of their envelope, without repeated keys or lone surrogates. |
| Claims.SortMessages | extension/coordination-notes.ts:368-389 | The single pass with its table of groups yields the specified groups, decisions and free text, together as many claims as messages. |
| Claims.AtIsExact | extension/coordination-notes.ts:378-389 | The positions at a place are exactly the messages placed there, ascending. |
| Claims.SortingIsExact | extension/coordination-notes.ts:378-389 | Groups, decisions and free text hold exactly the messages placed there in window order, one group to a target. |
| Claims.EveryMessageOnce | extension/coordination-notes.ts:378-389 | Every message is placed once: the places together hold as many claims as there are messages. |
| ClaimOutcomes.SortedMeans | extension/coordination-notes.ts:378-389 | Free text is what has no note or reference, decisions stand by themselves, and every group holds exactly the requests that are its target and the replies and completions that name it. |
| ClaimOutcomes.GroupsInOrder | extension/coordination-notes.ts:368-389 | Groups stand in the order of the first message that mentions their target. |
| Brief.FormatBrief | extension/coordination-notes.ts:358-434 | The loops compute the specified brief, its three shorter fallbacks included. |
| Brief.BriefIsBounded | extension/coordination-notes.ts:354-434 | For every page and every budget the text is at most the budget in bytes. |
| Brief.BriefConserves | extension/coordination-notes.ts:406-433 | In every category selected plus omitted equals the total, no count is negative, and lines follow the items in order without repeats. |
| Brief.SelectionFits | extension/coordination-notes.ts:409-432 | The assembled text stays within the cap after every item considered. |
| Brief.OmittedOnlyWithoutRoom | extension/coordination-notes.ts:420-432 | An item is left out only when none of its three forms fitted after the items chosen before it. |
| Brief.RankedPermutes | extension/coordination-notes.ts:392-396 | Ranking only reorders the groups. |
| Brief.SelectionRenders | extension/coordination-notes.ts:420-432 | Every line of a selection is its chosen item written in the form that fitted. |
| Brief.GroupItemIsWhole | extension/coordination-notes.ts:397-402 | A group's item holds exactly the requests for its target in the window and the responses to it, in order. |
| Brief.GroupLineIsWhole | extension/coordination-notes.ts:269-278 | The line of a group in a brief lists, in window order, the text of every request for its target and then of every response to it, all in the line's form. |
| Brief.ItemsCoverEverything | extension/coordination-notes.ts:391-404 | There is one item for every group, decision and free text. |
| Brief.TakePrefix | extension/coordination-notes.ts:178-193 | An excerpt of well-formed text is its longest prefix of whole code points within the limit. |
| BriefOutcomes.RankedOrder | extension/coordination-notes.ts:392-396 | The ranked groups are all the groups, each once: both sides first, then requests only, then the rest, each in the order made. |
| BriefOutcomes.CategoryMeans | extension/coordination-notes.ts:306-311 | A group is complete with both sides, without response with requests only, and otherwise counted by whether a message of the window is its target. |
| BriefOutcomes.ItemsMean | extension/coordination-notes.ts:391-404 | The items are the ranked groups with their categories, then the decisions, then the free texts, in order. |
| BriefOutcomes.ConsideredExactly | extension/coordination-notes.ts:420-432 | Each item in turn gets the first of its whole form, 256 bytes and 64 bytes that leaves the text within the limit, with one omission fewer and an excerpt counted only when it differs; otherwise it stays omitted. |
| BriefOutcomes.BriefMeans | extension/coordination-notes.ts:409-433 | When nothing chosen fits the brief is the selection; otherwise the first that fits of preface with coverage and footer, preface, coverage, or nothing. |
| BriefOutcomes.CapMeans | extension/coordination-notes.ts:359-360 | The limit is the budget when it is a safe whole number and otherwise 49152 bytes. |
| BriefOutcomes.GroupText | extension/coordination-notes.ts:269-278 | A group line is its head, its requests and its responses beside its first request. |
| SessionText.PreviewLoop | extension/operator-session-projection.ts:9-19 | The loop over code points shows the specified prefix and says whether anything was cut. |
| SessionText.PrefixBounded | extension/operator-session-projection.ts:9-19 | A preview is within its byte limit, no longer than its source and free of lone surrogates. |
| SessionText.PrefixIsLongest | extension/operator-session-projection.ts:9-19 | Well-formed text is shown unaltered, whole if it fits, and otherwise cut only where the next code point has no room. |
| SessionText.JoinBlocks | extension/operator-session-projection.ts:20-30 | The loop over at most 128 blocks shows the specified text and flags whatever was left out. |
| SessionText.ContentBounded | extension/operator-session-projection.ts:20-30 | However many blocks there are, a content shows at most 16384 bytes. |
| SessionText.RecordBounded | extension/operator-session-projection.ts:33-49 | Every record's text is at most 16384 bytes. |
| SessionContents.PreviewMeans | extension/operator-session-projection.ts:9-19 | A preview is the text with lone surrogates replaced, whole if it fits and otherwise cut where the next code point has no room, and is marked truncated exactly when cut. |
| SessionContents.BlocksMean | extension/operator-session-projection.ts:20-30 | Content in blocks shows, in order, what fits of each of its first 128, and is truncated exactly when there are more, one is not text, or a text is cut. |
| SessionContents.ContentMeans | extension/operator-session-projection.ts:20-30 | Plain content shows in 16384 bytes and unreadable content shows nothing and is truncated. |
| SessionContents.EntryMeans | extension/operator-session-projection.ts:33-49 | Spoken content becomes a record of its role exactly when it shows something; a tool result becomes a summary that names the tool and whether it failed; other messages become none and mark the page truncated, other entries become none. |
| SessionPaging.WalkLoop | extension/operator-session-projection.ts:66-84 | The loop over the ancestry, its seen set and byte count compute the specified walk, expiry and invalid ancestry included. |
| SessionPaging.SessionProjection.constructor | extension/operator-session-projection.ts:52-53 | A new projection has issued no handle. |
| SessionPaging.SessionProjection.Clear | extension/operator-session-projection.ts:54 | Clearing forgets every handle. |
| SessionPaging.SessionProjection.Read | extension/operator-session-projection.ts:55-94 | A read answers and updates the handles as specified, refusals included; a page too large is refused after its handle was stored. |
| SessionRuns.WalkSplits | extension/operator-session-projection.ts:66-84 | A page takes a front part of the ancestry: its records, omissions and continuation are exactly those of the part, under every limit. |
| SessionRuns.ChainNeverRepeats | extension/operator-session-projection.ts:68-83 | An ancestry that ends never visits an identifier twice. |
| SessionRuns.NeverInvalid | extension/operator-session-projection.ts:69-71 | So an ancestry that ends is never reported as invalid. |
| SessionRuns.StuckIffOversized | extension/operator-session-projection.ts:76-80 | A served page fails to advance if and only if it starts at a record larger than the page budget. |
| SessionRuns.LongIdStuck | extension/operator-session-projection.ts:76-80 | An entry whose identifier is as long as the page budget is served as an empty page that goes on where it started, under every limit. |
| SessionRuns.ShortIdsFit | extension/operator-session-projection.ts:76-80 | No entry whose identifier has at most 64000 units is that large, whatever it holds. |
| SessionRuns.TraversalIsAncestry | extension/operator-session-projection.ts:55-94 | From any live handle, the pages in chronological order are exactly the records of the ancestry it points at, with the same omitted total. |
| SessionRuns.PagingIsLossless | extension/operator-session-projection.ts:55-94 | From the leaf, for every choice of page limits, the pages together are the unlimited walk of the ancestry, with the same omitted total. |
| SessionRuns.TraversalEnds | extension/operator-session-projection.ts:55-94 | A traversal without oversized records has no more pages than the ancestry has entries. |
| SessionSize.PageAlwaysFits | extension/operator-session-projection.ts:79-92 | With session identifiers and handles of at most 400 units a page as sent is at most 524288 bytes: the 8192 reserved bytes cover everything beside the records. |
| SessionSize.ReadNeverTooLarge | extension/operator-session-projection.ts:92 | So no read with such identifiers is ever refused for the size of its page. |
| SessionOutcomes.StepMeans | extension/operator-session-projection.ts:68-84 | A walk stops at its end, after 2048 entries or with enough records; otherwise the clock and a repeated entry fail it, an absent entry or a compaction ends it as one more omission, a record past 516096 bytes stops it before its entry, and every other entry is passed and charged. |
| SessionOutcomes.ReadRefused | extension/operator-session-projection.ts:62-63 | A read with a handle that is unknown, expired or of another session or generation is refused, and only forgets what has expired. |
| SessionOutcomes.ReadNothing | extension/operator-session-projection.ts:59-66 | A session without a leaf gives an empty page. |
| SessionOutcomes.ReadMeans | extension/operator-session-projection.ts:55-94 | Any other read fails as its walk does, or for want of room for its handle, or gives the records oldest first with a handle to where the walk stopped, valid as long as the traversal; only a page past 524288 bytes is refused after that. |
| SessionOutcomes.ChargeMeans | extension/operator-session-projection.ts:78-80 | A record is charged the size of its JSON, an object of its entry, role and text, and one byte. |
| SessionOutcomes.PageMeans | extension/operator-session-projection.ts:92 | A page is measured as its JSON: an object of its fields in order, the records a list of objects. |
| LabelQueue.Queue.constructor | extension/labelling.ts:57-68 | A new queue has nothing armed and no aim. |
| LabelQueue.Queue.Cancel | extension/labelling.ts:69-75 | Cancelling moves to a new revision, disarms both timers and aborts the active call. |
| LabelQueue.Queue.Offer | extension/labelling.ts:77-101 | An offer with a new aim cancels what went before and arms one debounce; any other offer changes nothing. |
| LabelQueue.Queue.Fire | extension/labelling.ts:85-92 | A due debounce starts one call under one deadline only if its revision still stands; a due deadline aborts its own call. |
| LabelQueue.Queue.Settle | extension/labelling.ts:93-95 | A result is applied only if its call was not aborted, the queue not stopped and the revision unchanged. |
| LabelQueue.Queue.Finish | extension/labelling.ts:95-99 | Clean-up disarms the deadline of its own revision and touches nothing of a newer one. |
| LabelQueue.Queue.Reset | extension/labelling.ts:102 | A reset cancels and forgets the aim. |
| LabelQueue.Queue.Stop | extension/labelling.ts:103 | A stop cancels and is final. |
| LabelRuns.RunPreserves | extension/labelling.ts:57-105 | Every interleaving of offers, timers, call turns, results, clean-ups, resets and stops keeps the queue's invariant. |
| LabelRuns.EveryEventIsLegitimate | extension/labelling.ts:57-105 | Whenever an offer was accepted, a call started or a result applied, it was allowed: a new aim, the offer in force, not started or applied before, not stopped. |
| LabelRuns.AtMostOneTimer | extension/labelling.ts:69-101 | At most one timer is armed at any time, and none after a stop. |
| LabelRuns.AppliedOnce | extension/labelling.ts:93-95 | An accepted offer leads to at most one call and at most one applied result, and nothing is accepted, started or applied after a stop. |
| LabelRuns.AppliedIsLatest | extension/labelling.ts:93-95 | An applied result belongs to the latest accepted offer, with no reset, stop or passed deadline since. |
| LabelRuns.NeverRetried | extension/labelling.ts:79-82 | Two successive accepted offers without a reset between have different aims. |
| LabelOutcomes.RunKeeps | extension/labelling.ts:57-105 | Over every interleaving the offer in force is the queue's own revision with its calls not aborted, and only the active call runs on. |
| LabelOutcomes.OfferTakenExactly | extension/labelling.ts:77-85 | After any run an offer is taken exactly when nothing was stopped, the session is current and the latest accepted aim since the last reset is another; it alone is armed. |
| LabelOutcomes.DueTimer | extension/labelling.ts:85-92 | A due debounce starts its call exactly when current and arms that call's deadline alone; a due deadline aborts its call. |
| LabelOutcomes.AppliedExactly | extension/labelling.ts:93-95 | A result is applied exactly when there is one, the session is current and its offer is still in force. |
| LabelOutcomes.EverythingCancelled | extension/labelling.ts:69-103 | A new offer, a reset and a stop disarm what was armed and abort every call still running. |
| LabelOutcomes.FinishedCall | extension/labelling.ts:95-99 | The clean-up of the newest call disarms its deadline and leaves none active; of an older one it changes neither. |
| LabelOutcomes.OfferIsApplied | extension/labelling.ts:77-95 | After any run a taken offer and then its debounce, its call's turn and a result, each while current, is applied with that request. |
| EventPages.DecodeEventPage | hub/priv/dashboard/operator-events.js:96-119 | The loop with its seen set accepts exactly the pages that start where the requested cursor says, whose header is consistent and whose events are valid, of one epoch, numbered consecutively and pairwise distinct. |
| EventPages.ContinuousEvents | hub/priv/dashboard/operator-events.js:96-119 | Pages that each start where the last ended carry events of one epoch numbered without gap or repeat. |
| EventPages.RequestedContinues | hub/priv/dashboard/operator-events.js:104-111 | A page accepted for another page's next cursor continues it in the same epoch. |
| EventOutcomes.AcceptedExactly | hub/priv/dashboard/operator-events.js:96-119 | A page is accepted exactly when it is what would be written for some place of some journal: consecutive valid events, canonical bounds, coverage that says what is missing, and the cursor it was asked with. |
| Observation.Step | hub/priv/dashboard/operator-stream.js:42-52 | One byte keeps the frame within its 512 KiB buffer, and a held-back CR is the last byte of the frame begun. |
| Observation.RunSplit | hub/priv/dashboard/operator-stream.js:54 | Feeding two chunks is feeding their concatenation. |
| Observation.ChunksAreTheirConcatenation | hub/priv/dashboard/operator-stream.js:54 | Any chunking leaves the parser in the state of the undivided stream. |
| Observation.MachineIsBatch | hub/priv/dashboard/operator-stream.js:42-56 | From every sound state without a held-back CR, feeding any input and ending gives the verdict of the batch reading of what remains. |
| Observation.StreamIsBatch | hub/priv/dashboard/operator-stream.js:6-57 | For every stream and chunking, everything shown and the way the parser fails are those of the batch reading, the uncoded error for a frame that is not UTF-8 included. |
| Observation.FramesEndAtBlankLines | hub/priv/dashboard/operator-stream.js:42-52 | The cut found byte by byte is the one found line by line: the first empty line, under CRLF, CR or LF. |
| Observation.ShownEventsAreConsecutive | hub/priv/dashboard/operator-stream.js:38-40 | All events one parser exposes, over any stream and chunking, share one epoch and have consecutive sequence numbers. |
| ObservationFrames.FieldsRead | hub/priv/dashboard/operator-stream.js:11-25 | Reading a frame's lines fails exactly on a foreign field or a second event name, and otherwise gives the last name, all data values and whether there was a comment. |
| ObservationFrames.WrittenFrame | hub/priv/dashboard/operator-stream.js:11-41 | A written frame is cut off whole and causes what its lines mean: activity, an update, a page that continues the last one, or the failure its event, payload or page calls for. |
| ObservationFrames.LongFrame | hub/priv/dashboard/operator-stream.js:10 | A frame of more than 524288 bytes fails on its size. |
| Observation.Parser.constructor | hub/priv/dashboard/operator-stream.js:6-8 | A new parser owns a fresh 512 KiB buffer and has begun nothing. |
| Observation.Parser.Keep | hub/priv/dashboard/operator-stream.js:10 | A byte goes to the end of the frame, or the parser fails with the limit code. |
| Observation.Parser.DispatchFrame | hub/priv/dashboard/operator-stream.js:11-41 | The buffered frame is dispatched as specified and the counters start over, or the parser fails with its code, or without one when the frame is not UTF-8. |
| Observation.Parser.Consume | hub/priv/dashboard/operator-stream.js:42-52 | One byte moves the parser as specified, inside its buffer. |
| Observation.Parser.Push | hub/priv/dashboard/operator-stream.js:54 | A chunk moves the parser as its bytes one by one and reports whether it failed. |
| Observation.Parser.End | hub/priv/dashboard/operator-stream.js:55 | Ending dispatches a frame a held-back CR completed, refuses an unfinished one and gives the specified verdict. |

## Left out

- Network requests, fetch plumbing, timers as real time, abort signals, the host SDK, the dashboard's rendering and the command bindings: transport and user interface around the modelled loops.
- The hub's own code: it appears as an honest history of rosters, a journal or a list of answers.
- UTF-8 decoding: whether bytes are valid UTF-8 is a predicate of the stream parsers' host; lengths in UTF-8 are computed exactly.
- Field-by-field schemas of agents, work snapshots, server messages and operator events: predicates or abstract fields; the checks on lists, sizes, order and revisions around them are modelled.
- Callback answers of the event stream are a function of the calls made so far; callbacks of the observation stream are taken to return.
- `toLowerCase` is a function parameter. The prefix theorem needs only that it never shortens an identifier; the completion theorem that it is the usual mapping on ASCII.
- Cursors, wire keys and reference keys (base64url and JSON of a tuple) are the tuples themselves or an injective function.
- Discovery.ListAgents: the responses are given as a sequence and the deadline checks between them are not part of the model.
- Discovery: the error codes of a refused page are not told apart.
- ChannelText.FormatChannelRead: the lines of the records and the metadata are given as text; `ChannelLines` models the lines, and the metadata only needs to be well-formed.
- ChannelText: the returned `serverCaughtUp` flag is the page's own and is not repeated in the result.
- Brief.FormatBrief: coverage line, footer, the head of a group and the text of a single claim, decision or free text are functions of the host; their wording is not modelled, only how they are listed, chosen, counted and assembled.
- Native sorts are modelled as the stable insertion sort, least-first selection or partition that has the same result.
- OperatorCache: the expiry of records applies to cached ones only, as in the code.
- GapFree: the journal of an epoch only grows; retention loss is outside the theorem. Accepted `recent` reads start new series, whose first page is not counted among the records returned. A tail may be any window of the journal, which is less than the hub promises.
- SessionPaging.SessionProjection.Read: clock readings inside a walk are a function of the entries scanned.
- SessionRuns.TraversalIsAncestry: speaks of traversals whose reads were all served with the same entries; expired handles and the 32-handle capacity are refusals in `SessionPaging` and end a traversal.
- LabelQueue: label heuristics, the model call and its instructions; the microtask turns of a call are steps of `LabelRuns`. Applying a result is the last act of its turn, so what the apply callback calls on the queue are the steps right after; a `current` callback that calls back is not part of the model.
- Observation: a parser that has failed is not fed again, as its one caller does.
- EventPages.DecodeEventPage: takes the decoded page; its byte limit is above the parser's frame limit; the search page decoder beside it repeats the same loop with weaker order.
- The human channel page, the scope found in a session branch and the pruning of the cache to selected names: single filters and loops without an interplay.
- Archives: gzip framing and CRC, the package report and the extraction to disk.
- operator-bridge.ts, operator-announcer.ts and operator-work.js: smaller repeats of the fencing and paging proved here; check-package-references.py: single-branch rejections.
