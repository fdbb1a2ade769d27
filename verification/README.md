# Lait: the protocols a restart must not break

A Lait daemon runs one identity's Spaces on a device. What makes it hard to get right is
not any one function but what happens between them: a process stops between two writes, a
connection ends between a request and its answer, two launchers look at one home at the
same time. This project models the parts of the repository whose promise is about every
run of that kind, and proves the promise, or the exact condition under which the code
keeps it.

`dafny verify dfyconfig.toml` checks everything.

| module | what it models |
|---|---|
| `ConsoleLedger` | the durable ledger of an agent's Console and its transitions |
| `ConsoleProtocol` | the supervisor as a step system in which a crash may fall between any two durable steps |
| `ConsoleNode` | the supervisor's loops themselves, each durable effect one step of `ConsoleProtocol` |
| `ReplyRendering` | the bounded, UTF-8-safe reply text |
| `ExecutionGate` | the two-level admission gate on executions |
| `Wire` | the framing of the control channel, in both directions |
| `Resend` | the two re-send layers of the control client |
| `IdlePool` | the pool of parked control connections |
| `Upload` | a declared-length upload: sender, pump, channel and blocking reader |
| `IdentityProfile` | boot: a home reads, founds, migrates or refuses its profile |
| `RacingBoots` | boots of one home that overlap, one step per read, save and removal |
| `DaemonLifecycle` | launchers and daemons racing for one home |
| `BuildOrder` | which build displaces which |
| `CivilDate` | the build stamp's date, against the Gregorian calendar |
| `OrbitRegistry` | the list of local Orbits |
| `Entropy` | the simulation's seeded entropy |
| `AgentTokens` | the credentials agents present |

## How it is built

Code that updates state in place is a class whose methods are proved against functions or
predicates on the old state (`Node`, `Gate`, `Pool`, `Transfer`, `ContentUpload`, `Home`,
`Registry`, `Source`, `Directory`). A protocol that several threads or processes take part
in is a step system: a state, the steps, and theorems about every finite run. Where both
exist they are tied together: every method of `ConsoleNode.Node` and
`IdentityProfile.Home` keeps a history, and proves that the history is a run; and boots that
do not overlap in `RacingBoots` are shown to be runs of `IdentityProfile`.

What lies outside the model answers arbitrarily (a nondeterministic choice); where a class
has a flag that says storage and services work (`calm`, `working`, `storage`), its methods
also promise to succeed when they should. The outside keeps to these facts:

- A ledger closure runs under the ledger's file lock and is written by replacing the file,
  so a crash sees the ledger before it or after it.
- Runtime keeps a receipt durably with its Start, and shows a Run only for a committed
  Start. That Runtime also refuses a second Start under a used request id is not assumed:
  the supervisor is shown to prevent it alone.
- One supervisor thread drives one node.
- JSON is a codec: newline-free texts, decoding inverts encoding, and no proper prefix of
  an encoded object decodes.
- A process's file lock goes with the process; an exclusive lock excludes all others and a
  shared one excludes an exclusive one; the control endpoint is up exactly while a daemon
  serves it.
- Signatures, hashes and semantic versions are functions with the laws that are used. No
  law asks a hash to be collision-free on all inputs: the token theorems ask it only of
  the seeds a home has held.
- On a control connection, a client that waits for an answer has not closed it, and a daemon
  answers only what it has run or refused. What it runs or refuses follows from the bytes.
- Random seeds are drawn once.
- Time is a number the caller passes.

## Where the code and its description part

Each of these is a lemma, with the exact condition under which the description holds.

- `Wire.ExactBoundLosesStep`: a header of exactly the line bound is read without its
  newline, which is then taken for the first byte of the payload; the call answers Ok and
  the parked connection is out of step (`Resend.ExactBoundRunsEarly` is the same on the
  daemon's side). `FrameReadsBack` shows that it is the only length
  with this effect.
- `Resend.CutRequestRuns`, `Resend.FailedWriteRanIff`: a failed write is reported as never
  delivered. The daemon runs it nevertheless when all bytes arrived, or all but the newline
  of a request without payload. The comment at src/control.rs:4195-4196 says that only a
  failed connect is reported this way; src/control.rs:4531-4540 does so for writes and
  flushes.
- `Resend.SilentDeathRepeats`: a daemon that runs a request and dies before its first byte
  makes the client send it again (src/control.rs:4560-4562 takes this not to happen).
  `ExchangeRepeatsIff` and `RequestRepeatsIff` give the exact condition for a second run.
- `Resend.LongRequestIsRefused`: a request longer than a line is answered, and not run.
- `ConsoleProtocol.TwoSupervisorsActTwice`: a claim, on a dispatch as on a reply, answers Ok
  when somebody else has already made it, so two supervisors on one ledger can start one
  command, or send one reply, twice. `OnceIffListingsCurrent` gives the exact condition;
  `DaemonLifecycle.OneDaemon` is what keeps a second supervisor away.
- `ConsoleNode.Node.Tick`: src/daemon/agent_console.rs:612-614 says new work must not keep
  dispatched work from being observed. A waiting record accepted under a binding that has
  changed since stops every tick before reconciliation.
- The header of crates/agent/src/console.rs says that dispatched work becomes
  outcome-unknown at a restart. The supervisor does not do that: it asks Runtime for the
  receipt first, and resubmits when there is none. The model follows the supervisor.
- `RacingBoots.CrossingMovesProfile`, `RacingBoots.FirstBootsLeaveUnbootable`: the profile is
  founded before the daemon lock is taken (src/daemon/host.rs:2199-2204, then 2150), from
  three separate reads. Two boots that overlap can move a profile that both seeds on disk
  had determined, and two first boots can leave the seed of one beside the store of the
  other, a home that refuses every later boot. `TwoBootsDisagreeIff` and `TwoBootsCrossIff`
  are the exact conditions, `AloneBootsAgree` the rule that avoids both.
- `IdentityProfile.MigrationLocksOutRetired`: a migrating home whose earlier log does not
  name this device saves a store that the next boot refuses.
- `DaemonLifecycle.RefusedByAProbe`: the lock probe described as pure can make a starting
  daemon report that another one is running when none is. `SpuriousRefusalIff` says when.
- `BuildOrder.EnsureEvictsOwnIff`: evictions go on for as long as the file on disk is behind
  the caller.
- `OrbitRegistry.OverlappingUpsertsKeepIff`: two upserts that overlap lose the earlier row.
- `Upload.RetryShiftsBody`: a push that fails part-way leaves bytes on the wire that `sent`
  does not count, so a caller that pushes again can finish another body. `StoppingIsSafe`
  is the rule that avoids it.
- `Entropy.LoudResetRepeatsIff`: reseeding while a call is under way uses a hash key twice.
  `Entropy.DrawsCountBytesIff`: the draw counter counts blocks, not the bytes its comment
  names.
- `AgentTokens.TornRotationFallsIff`, `AgentTokens.TornRotationRevives`: the epoch file is
  truncated and rewritten in place, so a rotation cut off by a crash lowers the epoch and
  brings a withdrawn token back. At the last epoch a rotation changes nothing
  (`AgentTokens.IssuedTokenLivesIff`).

## Model

| member | source | states |
|---|---|---|
| `ConsoleLedger.TransitionKeepsValid` | crates/agent/src/console.rs:782-841 | a transition of a valid ledger is valid, and never fails the re-validation that precedes the write |
| `ConsoleLedger.AcceptKeepsValid` | crates/agent/src/console.rs:280-330 | acceptance keeps ids, coordinates and tombstones unique and bounded, and never fails re-validation |
| `ConsoleLedger.CompactKeepsValid` | crates/agent/src/console.rs:761-780 | compaction keeps the ledger valid |
| `ConsoleLedger.RetainedSpec` | crates/agent/src/console.rs:761-780 | compaction drops exactly the records completed, failed or unknown whose reply is sent or unknown |
| `ConsoleLedger.RecoverKeepsValid` | crates/agent/src/console.rs:744-759 | recovering claimed sends keeps the ledger valid |
| `ConsoleLedger.RecoverySettlesUnknown` | crates/agent/src/console.rs:744-759 | recovery turns a claimed send into an unknown outcome and changes nothing else; nothing comes to be recorded as sent |
| `ConsoleLedger.RecordLaws` | crates/agent/src/console.rs:334-717 | work is claimed once; a bound Attempt stays the one and alone settles its work; cursors never go back; what is settled stays; a reply exists only for settled work and is claimed only when prepared |
| `ConsoleLedger.RepeatIsHarmless` | crates/agent/src/console.rs:334-717 | any command repeated is accepted and changes nothing |
| `ConsoleLedger.TransitionOutcome` | crates/agent/src/console.rs:782-813 | a transition writes one record at its place, or answers the record's own refusal |
| `ConsoleLedger.AcceptsIff` | crates/agent/src/console.rs:280-330 | a record and its tombstone are added exactly for a signed owner's message to the agent, whole, in bounds, under an unused id and coordinate |
| `ConsoleLedger.RedeliveryIff` | crates/agent/src/console.rs:280-330 | a message delivered again is accepted unchanged exactly while its very record is held; otherwise its id is refused |
| `ConsoleLedger.ApplyLowersRank` | crates/agent/src/console.rs:334-717 | every transition that changes a record lowers its rank, standing first, then reply |
| `ConsoleLedger.TransitionRaisesProgress` | crates/agent/src/console.rs:782-813 | a transition that changes the ledger raises its progress |
| `ConsoleLedger.AcceptRaisesProgress` | crates/agent/src/console.rs:280-330 | so does an acceptance |
| `ConsoleLedger.CompactRaisesProgress` | crates/agent/src/console.rs:761-780 | so does a compaction |
| `ConsoleLedger.RecoverRaisesProgress` | crates/agent/src/console.rs:744-759 | so does a recovery |
| `ConsoleProtocol.StepKeepsInv` | src/daemon/agent_console.rs:611-983 | every durable step, and a crash, keeps the invariant tying ledger, Starts and sends |
| `ConsoleProtocol.RunInvariant` | src/daemon/agent_console.rs:611-983 | the invariant holds at every point of every run with crashes anywhere |
| `ConsoleProtocol.FormKeepsInv` | src/daemon/agent_console.rs:582-587 | after recovery no reply is still claimed |
| `ConsoleProtocol.AtMostOnce` | src/daemon/agent_console.rs:611-983 | over every run each operation has at most one committed Start and at most one send of its reply |
| `ConsoleProtocol.EffectsFollowClaims` | src/daemon/agent_console.rs:714-773 | a Start is committed, and a reply sent, only when the claim on it was already durable, and what is sent is the body that was claimed |
| `ConsoleProtocol.SentOnlyBySeal` | src/daemon/agent_console.rs:962-982 | over every run a reply comes to be recorded as sent only by sealing a call that was made |
| `ConsoleProtocol.LeavesOnlyDone` | crates/agent/src/console.rs:761-780 | over every run a record leaves the ledger only with outcome and reply both settled |
| `ConsoleProtocol.StandingAgreesWithStarts` | src/daemon/agent_console.rs:775-886 | waiting work was never started; settled work, and work replied to, was started exactly once |
| `ConsoleProtocol.NeverReadmitted` | src/daemon/agent_console.rs:644-712 | what was admitted stays consumed for ever, and what was compacted is never admitted again |
| `ConsoleProtocol.CompactedIsFinished` | src/daemon/agent_console.rs:644-712 | after compaction an operation is never started or replied to again |
| `ConsoleProtocol.ProgressNeverFalls` | crates/agent/src/console.rs:815-872 | no step of any run lowers the ledger's progress |
| `ConsoleProtocol.LedgerNeverRevisited` | crates/agent/src/console.rs:815-872 | no run returns to a ledger it has left |
| `ConsoleProtocol.OnceIffListingsCurrent` | crates/agent/src/console.rs:334-459 | however many supervisors share a ledger, a command is started, and a reply sent, at most once exactly when every one worked from a listing as new as the claim |
| `ConsoleProtocol.FreshListingsActOnce` | src/daemon/agent_console.rs:714-983 | supervisors that list right before they act never start or send twice |
| `ConsoleProtocol.TwoSupervisorsActTwice` | crates/agent/src/console.rs:334-459 | runs in which two supervisors list, both act, and a command is started, or a reply sent, twice |
| `ConsoleNode.Node.Crash` | src/daemon/agent_console.rs:620-623 | a stop loses only where the supervisor was |
| `ConsoleNode.Node.Form` | src/daemon/agent_console.rs:506-599 | recovery leaves every record as it was but for claimed sends, which become unknown outcomes; it starts and sends nothing |
| `ConsoleNode.Node.AcceptMessages` | src/daemon/agent_console.rs:644-712 | compacts, then adds only records of the owner's own, agreed, non-empty messages within the bound, field for field; Ok only when every such message is consumed or the ledger is full, and always unless the ledger has another reason to refuse one |
| `ConsoleNode.Node.AdmitUnknown` | src/daemon/agent_console.rs:649-711 | the admission loop: every record it adds is one of the owner's messages, and it stops at a ledger bound |
| `ConsoleNode.Node.AcceptOne` | src/daemon/agent_console.rs:663-709 | one acceptance appends exactly that record; each bound error means that bound is reached |
| `ConsoleNode.Node.Submit` | src/daemon/agent_console.rs:754-773 | at most one Start, Ok only when it was committed, and Ok when Runtime answers |
| `ConsoleNode.Node.DispatchAccepted` | src/daemon/agent_console.rs:714-752 | when Ok, exactly the waiting records were claimed and started, once each, in ledger order; when not, there is one record before which that is so, behind which nothing was touched, and which itself was started at most once and only if claimed |
| `ConsoleNode.Node.DispatchOne` | src/daemon/agent_console.rs:714-752 | claims the record before it starts it, and refuses a changed binding |
| `ConsoleNode.Node.DeliverReply` | src/daemon/agent_console.rs:938-983 | changes only one record's reply, sends at most once, and what is sent is the prepared body or the sentence for an unknown outcome; when Ok nothing is undelivered |
| `ConsoleNode.Node.SendPrepared` | src/daemon/agent_console.rs:962-982 | claim, then call, then seal; recorded as sent, under the deposit the service gave, exactly when Ok |
| `ConsoleNode.Node.Seal` | src/daemon/agent_console.rs:966-982 | a made call is settled, or left claimed for recovery |
| `ConsoleNode.Node.ReconcileOne` | src/daemon/agent_console.rs:775-886 | a record ends, and its owner is told, as what Runtime answered says; no other record moves; with everything answering, it goes through exactly when the answer is one the ledger can follow |
| `ConsoleNode.Node.ResubmitIfAbsent` | src/daemon/agent_console.rs:791-816 | a claimed command is started only if it never was |
| `ConsoleNode.Node.ReconcileAttempt` | src/daemon/agent_console.rs:817-886 | binds the Attempt first, then follows it to its end |
| `ConsoleNode.Node.SettleAttempt` | src/daemon/agent_console.rs:830-886 | returned, failed, lost transcript or still running: each leaves its own standing and its own reply |
| `ConsoleNode.Node.SettleReturned` | src/daemon/agent_console.rs:840-865 | the reply sent is the transcript's text, or the sentence for none, under "completed" exactly when it succeeded with no exit code or zero |
| `ConsoleNode.Node.SettleFailed` | src/daemon/agent_console.rs:866-882 | the reply sent names the class of the failure under "failed" |
| `ConsoleNode.Node.SettleAndDeliver` | src/daemon/agent_console.rs:840-886 | terminal standing and reply in one write, then delivery |
| `ConsoleNode.Node.Reconcile` | src/daemon/agent_console.rs:775-886 | when Ok, no terminal record's reply is unprepared or merely prepared; with everything answering, Ok exactly when Runtime's answers are ones the ledger can follow |
| `ConsoleNode.Node.Tick` | src/daemon/agent_console.rs:611-642 | when dispatch, performance and reconciliation go through, nothing is left waiting or undelivered, whatever admission answered, and with everything answering they do go through; a waiting record whose binding changed makes this tick, and every later one under that binding, fail without a reply sent |
| `ConsoleNode.Node.StuckStays` | src/daemon/agent_console.rs:644-752 | neither compaction nor admission removes such a record |
| `ConsoleNode.RenderFor` | src/daemon/agent_console.rs:998-1047 | a rendered reply is well formed and always acceptable to the ledger |
| `ConsoleNode.ReturnText` | src/daemon/agent_console.rs:998-1027 | output is passed through; empty output becomes the sentence for its outcome and exit status |
| `ConsoleNode.CoordinateLeads` | src/daemon/agent_console.rs:1030 | the coordinate a reply carries is the first four of the id's sixteen octets |
| `ConsoleNode.MarkerSays` | src/daemon/agent_console.rs:1034 | the marker is the text the source appends |
| `ReplyRendering.SplitAtBoundary` | src/daemon/agent_console.rs:1036-1039 | cutting well-formed text where no continuation octet starts leaves two well-formed texts |
| `ReplyRendering.BoundaryIsNear` | src/daemon/agent_console.rs:1036-1039 | any four neighbouring cut points of well-formed text include a boundary |
| `ReplyRendering.CutPoint` | src/daemon/agent_console.rs:1035-1039 | the scan stops at the last boundary at or before the allowed cut |
| `ReplyRendering.RenderReply` | src/daemon/agent_console.rs:1029-1047 | within the bound whenever the header is, well formed, whole text or cut at the last boundary, marked whenever the marker fits |
| `ReplyRendering.RenderedIsDetermined` | src/daemon/agent_console.rs:1029-1047 | that description admits one reply only |
| `ReplyRendering.CutLosesAtMostThree` | src/daemon/agent_console.rs:1034-1039 | the cut is within three octets of the allowed one |
| `ReplyRendering.HeaderIsValid` | src/daemon/agent_console.rs:1030-1031 | the header is well formed |
| `ReplyRendering.RecognisedIsEncoded` | src/daemon/agent_console.rs:1033 | the octets taken for a code point are the encoding of one, surrogates excluded |
| `ReplyRendering.EncodedIsRecognised` | src/daemon/agent_console.rs:1033 | every code point's encoding is taken, whatever follows |
| `ReplyRendering.HexAt` | src/daemon/agent_console.rs:1030 | each octet of the coordinate is its two hexadecimal digits, high half first |
| `ExecutionGate.Gate.TryAcquire` | src/daemon/agent_console.rs:326-342 | refused exactly when a limit is reached; total, per-agent counts and live permits stay equal, no stored count is zero |
| `ExecutionGate.Gate.Drop` | src/daemon/agent_console.rs:349-365 | gives back exactly one permit, and the saturating subtraction never saturates |
| `ExecutionGate.SumWithout` | src/daemon/agent_console.rs:301-304 | the sum of the per-agent counts does not depend on the order they are taken in |
| `Wire.ReplyReadsBack` | src/control.rs:2041-2065 | a World's reply, success or failure, is read by the client as it was framed by the daemon, with nothing behind it touched |
| `Wire.FrameReadsBack` | src/control.rs:4692-4714 | a frame is read back whole, with nothing behind it touched, if and only if it fits |
| `Wire.ExactBoundLosesStep` | src/control.rs:4693-4710 | a header of exactly the bound is answered Ok with its bytes shifted by one |
| `Wire.LongHeaderFails` | src/control.rs:4693-4704 | a longer header is never an answer |
| `Wire.StreamReadsBack` | src/control.rs:4692-4714 | frames written back to back are read back as the same frames |
| `Wire.RoundTripKeepsStep` | src/control.rs:4523-4548 | after an Ok, the whole answer was taken and nothing more, or the connection is at its end, wherever the daemon stopped; a whole answer that fits is always Ok |
| `Wire.ParkedInStep` | src/control.rs:4580-4642 | over every run of round trips, a connection that is parked is at a frame boundary or at its end |
| `Wire.WholeAnswersPark` | src/control.rs:4541-4548 | answers that fit and arrive whole are all answered, and the connection is left at exactly what follows |
| `Resend.CutRequestRuns` | src/daemon/host.rs:440-545 | what a daemon does with any prefix of a request that fits: exactly when it runs it, refuses it, waits for more or closes |
| `Resend.LongRequestIsRefused` | src/daemon/host.rs:460-488 | a request whose header is longer than a line may be is answered and not run |
| `Resend.ExactBoundRunsEarly` | src/daemon/host.rs:460-545 | a request whose header is exactly a line long is dispatched as soon as all but its last byte arrived |
| `Resend.OversizedIsRefused` | src/daemon/host.rs:531-537 | a header declaring more than may be carried is answered and nothing is run |
| `Resend.AnswerMeansRun` | src/control.rs:4541-4548 | any byte of answer to a fitting request whose write succeeded means that every byte arrived and it ran |
| `Resend.FailedWriteRanIff` | src/control.rs:4535-4540 | a request whose write failed ran exactly when the daemon acted and all its bytes, or all but the newline of a bare line, had arrived |
| `Resend.ExchangeCount` | src/control.rs:4580-4614 | how often an exchange ran its request, and when it is Ok or reported unsent, from what each attempt met |
| `Resend.ExchangeRepeatsIff` | src/control.rs:4580-4614 | with no premise at all, an exchange runs its request twice exactly when the guard of the re-send holds after a run and the re-send runs too; never on a connection opened for it |
| `Resend.RequestRepeatsIff` | src/host_client.rs:519-537 | the same exact condition through both layers, and two situations a caller can check in which nothing repeats |
| `Resend.RequestResultIff` | src/host_client.rs:519-537 | the caller is told Ok exactly when the first exchange was answered, or ended unsent, a daemon was stood up and the second was answered; unsent exactly when the first ended unsent and none could be |
| `Resend.ExchangeRuns` | src/control.rs:4580-4614 | if a silent connection carried no run and no failed write all but completed, one exchange runs its request at most once, exactly once if Ok, never if reported unsent |
| `Resend.RequestRunsAtMostOnce` | src/host_client.rs:519-537 | under the same premises both layers together run it at most once in at most four transmissions, exactly once if Ok, never if reported unsent |
| `Resend.SilentDeathRepeats` | src/control.rs:4560-4569 | every fitting request can be made to run twice by a daemon that runs it and dies silently |
| `IdlePool.Pool.TakeIdle` | src/control.rs:4472-4483 | hands out the newest connection if it is fresh; None exactly when none is, leaving the list empty |
| `IdlePool.Pool.Checkin` | src/control.rs:4487-4496 | parks at the end of the list unless four are parked; ages stay ordered |
| `Upload.Transfer.PumpStep` | src/control.rs:5099-5117 | a whole piece, the error for a short connection, or the end; every byte taken is in the channel, in hand or returned, in order, and a pump that ends complete took exactly the declared bytes |
| `Upload.Transfer.Cancel` | src/control.rs:5026-5031 | a pump may vanish at any point before the end |
| `Upload.Transfer.Receive` | src/control.rs:5056-5072 | waits for a piece; none is left once the pump is gone |
| `Upload.Transfer.Fill` | src/control.rs:5052-5073 | a byte in hand, the exact end, or an error that stays an error |
| `Upload.Transfer.Read` | src/control.rs:5050-5080 | reads continue the body; an empty read means all declared bytes were returned; an error means the body is short or abandoned, now and ever after |
| `Upload.Transfer.ReadToEnd` | src/control.rs:5032-5080 | the declared bytes exactly or an error, and without cancellation success exactly when the connection carried them all |
| `Upload.Transfer.BodyIsPrefix` | src/control.rs:5032-5080 | at every moment what was returned is a prefix of the body |
| `Upload.WireIsBodyIff` | src/control.rs:4922-4936 | after any run of pushes the bytes sent are the caller's body if and only if no failed push had sent any of its piece |
| `Upload.StoppingIsSafe` | src/control.rs:4922-4950 | a caller that makes no push after a failed one never finishes a body it did not send |
| `Upload.RetryShiftsBody` | src/control.rs:4922-4950 | one that pushes again can finish Ok with another body on the wire |
| `Upload.ContentUpload.Push` | src/control.rs:4922-4936 | never sends past the declaration; a failed push is not counted though part of it may have left |
| `Upload.ContentUpload.Finish` | src/control.rs:4939-4950 | Ok exactly when the declared number of bytes was pushed; then the wire carries the body, provided no push followed a failed one |
| `IdentityProfile.FoundingRetiresCosigner` | crates/correspondence/src/plane.rs:224-286 | a founding keeps every other entry of the registry; its own profile resolves to the devices it had less the cosigner, or to this device alone |
| `IdentityProfile.FoundHereIff` | crates/correspondence/src/plane.rs:224-286 | exactly when a founding goes through, and how it fails otherwise |
| `IdentityProfile.ProfileNeverMoves` | src/config.rs:1255-1322 | over every run of boots that follow one another, with a crash anywhere, a determined profile stays the profile |
| `IdentityProfile.CosignerLeavesLast` | src/config.rs:1337-1343 | kinship.key is removed only when the store already carries the genesis it signed |
| `IdentityProfile.IdentityNeverMoves` | src/config.rs:1362-1372 | over every run of boots that follow one another, with crashes and store edits anywhere, a seed file is never rewritten and a carried genesis never replaced |
| `IdentityProfile.CrashWindowRecovers` | src/config.rs:1303-1322 | a boot of any home stopped between saving its store and removing its key keeps the profile, and the home boots again exactly when the log it extended, if any, already named this device |
| `IdentityProfile.MigrationLocksOutRetired` | crates/correspondence/src/plane.rs:245-269 | a legacy home whose log has retired this device migrates into a home that no longer boots |
| `RacingBoots.RunInvariant` | src/config.rs:1255-1322 | in every interleaving of any number of boots, what each read and what is on disk is the home's own or comes from a boot that wrote it |
| `RacingBoots.TwoBootsDisagreeIff` | src/config.rs:1255-1322 | over every interleaving on any home without a genesis, two boots that answer disagree exactly when both read a store without one and there was no key to share, or one came too late for it, or each minted a secret |
| `RacingBoots.TwoBootsCrossIff` | src/config.rs:1259-1322 | on a home with both seeds they disagree exactly when one loads the store before the other saves it and looks for the key after the other removed it |
| `RacingBoots.UncrossedKeepsProfile` | src/config.rs:1255-1322 | for any number of boots on such a home, while none founds after missing the key, every answer and the home's profile are what the two seeds say |
| `RacingBoots.CrossingMovesProfile` | src/daemon/host.rs:2192-2205 | a run in which both seeds are on disk, both boots answer, and the home's profile has moved |
| `RacingBoots.AloneBootsAgree` | src/config.rs:1255-1322 | boots of which none starts while another is under way are runs of the sequential model, and all answer the home's one profile |
| `RacingBoots.LeftBootableIff` | src/config.rs:1362-1372 | after any interleaving in which somebody saved on a home without a store, it boots again exactly when the secret that survived is of the device that founded |
| `RacingBoots.FirstBootsLeaveUnbootable` | src/config.rs:1362-1372 | a run of two first boots that both answer and leave a home that boots no more |
| `RacingBoots.SoloBoot` | src/config.rs:1255-1322 | left to itself, a boot of the interleaved system ends as the sequential boot does on every home, refusals included |
| `IdentityProfile.Home.LoadOrCreateIdentity` | src/config.rs:1362-1388 | an existing seed is returned untouched, a torn one refused, a missing one minted, written and returned |
| `IdentityProfile.Home.IdentityProfile` | src/config.rs:1255-1322 | with working storage a boot succeeds on exactly the homes it should, a fresh one among them, and is refused on the others for their own reason; an Ok is the determined profile and leaves the seed, the store and no spent key |
| `IdentityProfile.Home.ReadCarried` | src/config.rs:1266-1301 | a carried genesis must verify and resolve to this device, each with its own refusal; a key is removed exactly when it signed it; the store is not written |
| `IdentityProfile.Home.FoundAndCarry` | src/config.rs:1303-1322 | founds or migrates, saving before removing |
| `DaemonLifecycle.RunInvariant` | src/config.rs:643-708 | lock, endpoint and phases agree in every interleaving |
| `DaemonLifecycle.OneDaemon` | src/config.rs:643-656 | at most one daemon is past the lock, and only it can answer |
| `DaemonLifecycle.PidNamesHolder` | src/config.rs:657-675 | the pid file only ever comes to name the process holding the lock |
| `DaemonLifecycle.SpawnFollowsAbsence` | src/host_client.rs:286-334 | a launcher that evicted nobody spawns on the look that found the endpoint down, and does nothing in between |
| `DaemonLifecycle.TakeoverFollowsRelease` | src/host_client.rs:462-500 | one that evicted spawns on a look that found the endpoint down followed by one that found the lock free, and does nothing else in between |
| `DaemonLifecycle.OkFollowsAnswer` | src/host_client.rs:334-381 | ensure becomes Ok at a step in which a serving daemon answers, whoever started it and whoever was evicted before |
| `DaemonLifecycle.FailureFollowsWait` | src/host_client.rs:312-381 | ensure fails only on a daemon it must not touch or when one of its waits has run out, never because its child died |
| `DaemonLifecycle.LoserAnswersOk` | src/host_client.rs:346-372 | a run in which a launcher's child loses the race and ensure is Ok |
| `DaemonLifecycle.WaitsAreBounded` | src/host_client.rs:334-500 | the waits last a hundred, a hundred and twelve looks |
| `DaemonLifecycle.LauncherStepsDescend` | src/host_client.rs:334-500 | every step of a launcher lowers its rank and moves no other launcher, so it always ends |
| `DaemonLifecycle.LauncherGoesOn` | src/host_client.rs:286-500 | in every reachable state a launcher has a step of its own, and it does what it saw says: an answer ends the wait in Ok, a wait that ran out in failure, anything else costs one look |
| `DaemonLifecycle.DaemonGoesOn` | src/config.rs:643-675 | a daemon past the lock may name itself, serve, drain and go, whatever launchers do |
| `DaemonLifecycle.SpuriousRefusalIff` | src/config.rs:643-708 | over every run, a daemon can be refused on a home nobody holds exactly while a launcher that evicted holds its probe; with no eviction a refusal always means another daemon |
| `DaemonLifecycle.RefusedByAProbe` | src/config.rs:677-708 | a run in which a daemon is refused though no daemon holds the home |
| `BuildOrder.DisplacementsAreStrictOrders` | src/control.rs:235-252 | both displacement relations are irreflexive and transitive |
| `BuildOrder.SidecarEvictsIff` | src/host_client.rs:444-460 | the pair rule evicts exactly a daemon of the managed file built before it, or released before the caller |
| `BuildOrder.SidecarSettlesIff` | src/host_client.rs:444-460 | the daemon spawned after an eviction is evicted again exactly when the caller's version is above the file's |
| `BuildOrder.EvictionRaisesStampIff` | src/control.rs:4296-4317 | an evicting caller is content with what its file spawns exactly when the file is not older than itself, and then the stamp rises |
| `BuildOrder.EvictionsAscend` | src/control.rs:4296-4317 | along every history of such evictions the served stamp rises at each one |
| `BuildOrder.EnsureEvictsOwnIff` | src/host_client.rs:286-312 | the whole decision evicts the daemon the caller's own file spawned exactly when the caller is ahead of that file |
| `BuildOrder.OneEvictionSettles` | src/host_client.rs:286-312 | over histories mixing both rules on one unchanged file, after an eviction every later caller evicts exactly when it is ahead of the file |
| `CivilDate.DayByDay` | build.rs:113-124 | every day count gives a calendar date, and the next count the next day |
| `CivilDate.EpochIsDayZero` | build.rs:113-124 | day zero is 1970-01-01 |
| `CivilDate.YearSpec` | build.rs:116-118 | the year-of-era division picks the year the day lies in, and the subtraction for the day of year cannot underflow |
| `CivilDate.CountOfDate` | build.rs:113-124 | counting off the calendar to the computed date gives the day count back |
| `CivilDate.DateOfCount` | build.rs:113-124 | every date from 1970 on is the date computed from its count |
| `CivilDate.Ascending` | build.rs:113-124 | later counts give later dates |
| `CivilDate.StampOfSeconds` | build.rs:107-130 | the stamp determines the instant to the minute |
| `OrbitRegistry.NewestFirstSpec` | src/orbits.rs:171-181 | listing permutes the rows into descending time |
| `OrbitRegistry.NewestFirstIsStable` | src/orbits.rs:171-181 | rows of equal time keep the file's order |
| `OrbitRegistry.Merge` | src/orbits.rs:204-219 | a refresh of the same Space keeps what was left blank and never unfounds; another Space replaces the row |
| `OrbitRegistry.RunKeepsUnique` | src/orbits.rs:171-285 | every run of edits keeps one row per store path |
| `OrbitRegistry.RunKeepsFounded` | src/orbits.rs:171-285 | through every run of edits that spares its row, a founded Orbit stays founded, named or not |
| `OrbitRegistry.RunKeepsNamed` | src/orbits.rs:171-285 | and a named one stays named, founded or joined |
| `OrbitRegistry.UpsertLeavesOthers` | src/orbits.rs:202-223 | rows at other paths are unchanged as a multiset |
| `OrbitRegistry.UpsertPutsOneRow` | src/orbits.rs:202-223 | the upserted path has one row, the entry merged with the row it replaces |
| `OrbitRegistry.OverlappingUpsertsKeepIff` | src/orbits.rs:183-223 | overlapping upserts keep the earlier row exactly when the file already held it |
| `OrbitRegistry.TouchStampsNewest` | src/orbits.rs:230-238 | a touch changes the time of the newest row of its Space and nothing else |
| `OrbitRegistry.TouchLeavesOthers` | src/orbits.rs:230-238 | rows of other Spaces are unchanged |
| `OrbitRegistry.ForgetRemovesExactly` | src/orbits.rs:244-272 | exactly the selected rows go |
| `OrbitRegistry.ForgottenIff` | src/orbits.rs:244-272 | a row is forgotten exactly when its path or Space is the selector, its path resolves to the same, or no row is so named and it is the only one whose Space has the selector, itself beginning "ws_", as a prefix |
| `OrbitRegistry.PrefixForgetsAtMostOne` | src/orbits.rs:260-267 | a selector naming no row outright removes the one row its prefix singles out, or none |
| `OrbitRegistry.PruneRemovesExactly` | src/orbits.rs:276-285 | exactly the rows without a store go |
| `OrbitRegistry.Registry.UpsertEntry` | src/orbits.rs:202-223 | the file becomes the upserted list, or is untouched when the save fails |
| `OrbitRegistry.Registry.TouchSpace` | src/orbits.rs:230-238 | false exactly when no row has that Space, and then the file is untouched |
| `OrbitRegistry.Registry.ForgetSelected` | src/orbits.rs:244-272 | answers exactly those rows and leaves exactly the others; a failed save removes nothing |
| `OrbitRegistry.Registry.PruneMissing` | src/orbits.rs:276-285 | answers exactly the rows without a store and leaves exactly the others; a failed save removes nothing |
| `OrbitRegistry.Registry.Partition` | src/orbits.rs:265-267 | both halves of the partition, in order |
| `Entropy.Source.Fill` | sim/src/lib.rs:67-93 | every byte is written, from consecutive blocks; the counter moves by the number of blocks, wrapping at its width |
| `Entropy.Source.Seed` | sim/src/lib.rs:99-102 | both seed and counter are reset |
| `Entropy.Source.Serve` | sim/src/lib.rs:67-93 | request k of a sequential run reads the stream at the blocks consumed before it |
| `Entropy.Replay` | sim/src/lib.rs:95-102 | after seeding, the same requests give the same bytes whatever ran before |
| `Entropy.DrawsCountBytesIff` | sim/src/lib.rs:104-111 | the counter equals the bytes asked for exactly when no request exceeds one byte |
| `Entropy.RunInvariant` | sim/src/lib.rs:67-102 | in every interleaving of calls and of the two stores of every reseed, the counter runs from zero since the last reset, and each call's bytes are its own blocks in order |
| `Entropy.SeedsInForce` | sim/src/lib.rs:71-102 | a call draws to its end with the seed installed last before it entered |
| `Entropy.QuietRunRepeatsIff` | sim/src/lib.rs:40-56 | when each reseed finds no call under way, no key is used twice if and only if no seeding outruns the counter and no two that drew share a seed |
| `Entropy.InterleavedCallsNeverShare` | sim/src/lib.rs:71-77 | any two draws since one reset, by one call or two, got different counter values while the counter has not wrapped, whatever seeds were used before |
| `Entropy.LoudResetRepeatsIff` | sim/src/lib.rs:99-102 | a reset under a running call makes its next key a repeat exactly when its seed had drawn at zero before |
| `AgentTokens.ConstantTimeEq` | src/agent_token.rs:280-288 | the fold is exactly byte equality |
| `AgentTokens.HexReadsBack` | src/agent_token.rs:100-107 | hex decodes to the bytes it encodes |
| `AgentTokens.TrimStrips` | src/agent_token.rs:119-177 | white space around a text goes, and nothing else does |
| `AgentTokens.FilesRead` | src/agent_token.rs:114-168 | a padded seed or epoch file reads as what it holds; a missing, unreadable or too large epoch reads as zero |
| `AgentTokens.OnlyPlainNames` | src/agent_token.rs:145-160 | a name that is not plain has no seed, no epoch and no token |
| `AgentTokens.ShowPrefix` | src/agent_token.rs:114-122 | the first digits of a decimal text are the number without its last ones |
| `AgentTokens.DeriveInjective` | src/agent_token.rs:96-108 | equal tokens mean equal seed and epoch |
| `AgentTokens.Directory.Identify` | src/agent_token.rs:176-189 | the first agent whose current token was shown, None exactly when there is none; with distinct seeds, an agent is named exactly when its current token is shown |
| `AgentTokens.Directory.Rotate` | src/agent_token.rs:128-143 | the recorded epoch is the next one, reads back, and a failure may leave any prefix of its text |
| `AgentTokens.RunInvariant` | src/agent_token.rs:96-206 | over every run of provision, rotate, torn rotate and remove, seeds stay distinct |
| `AgentTokens.TokensAreApart` | src/agent_token.rs:158-189 | in every reachable state no two agents have the same token |
| `AgentTokens.EpochCountsRotations` | src/agent_token.rs:128-143 | while its file is intact, an agent's epoch counts its rotations up to the last epoch |
| `AgentTokens.IssuedTokenLivesIff` | src/agent_token.rs:84-143 | a token issued earlier names somebody exactly when its agent was not removed and was not rotated, or stood at the last epoch |
| `AgentTokens.TornRotationFallsIff` | src/agent_token.rs:128-143 | a rotation cut off in its write lowers the epoch exactly when it was above zero |
| `AgentTokens.TornRotationRevives` | crates/mechanics/src/secretfs.rs:173-185 | issue, rotate, torn rotate: the first token is good again |

## Left out

- Console: invalid UTF-8 in a transcript is replaced before rendering; the model starts from text that is already well formed.
- Console: how a transcript is read, the container backend and its enforcement, the World descriptor and Spec are configuration and plumbing.
- Console: messages are sorted by deposit id before admission; the model admits them in any order.
- Console: the ledger transitions the supervisor never calls (advance_cursor, complete, fail, recover_unreconciled) and the ledger's file encoding and migration.
- Control channel: JSON text itself, timeouts as real time, the content and subscription requests, and the retry of a probe.
- Resend.RequestRunsAtMostOnce: holds under the source's own premise on silent connections and for writes that fell short; RequestRepeatsIff says what remains without either.
- Upload: a reader dropped before the end, after which the pump stops at its next send and nobody reads.
- Identity: the contents of correspondence state other than the genesis and the authored logs; its epoch, which can make the later of two saves fail, is covered by saves that may fail.
- Identity: a file caught half written by another boot; the boot that reads it fails, which any boot may do at any step.
- Daemon lifecycle: the restart request, which is an eviction followed by the ensure path; a missing lock file, which the probe reports as free; signals and process reaping.
- Orbit registry: the JSON file, and lookup by selector in commands other than forget.
- Entropy: block hashing is opaque, so the theorems are about hash keys; distinct keys giving distinct blocks is the hash's property.
- Agent tokens: the rules for plain names and the HTTP headers a token arrives in; the sorting of names before identification, since the result is proved for every order.
- Cryptography, operating-system calls, the viewer, mobile and command-line layers.
