/**
 The durable ledger of an agent's Console: one record per accepted command, a
 tombstone for every command ever accepted, and the transitions a record may make.
 The transitions are the closures the ledger runs under its file lock, so each is one
 durable step: a crash sees the ledger before it or after it.
 */
module ConsoleLedger {
  import opened Common

  type OperationId = nat
  type ProfileId = nat
  type AttemptId = nat
  type Body = seq<Byte>

  const MAX_CONSOLE_OPERATIONS := 4096
  const MAX_CONSUMED_CONSOLE_OPERATIONS := 8192
  const MAX_CONSOLE_INPUT_BYTES := 64 * 1024
  const MAX_CONSOLE_REPLY_BYTES := 4 * 1024 * 1024
  const MAX_CONSOLE_COORDINATE_BYTES := 512

  datatype Error =
    | Unauthorized
    | BoundOperations
    | BoundConsumed
    | Bound
    | Invalid
    | Corrupt
    | Storage

  /** The exact execution coordinates accepted with a message. */
  datatype ExecutionBinding = ExecutionBinding(
    space: string, world: string, implementation: nat, spec: string, specVersion: nat,
    build: nat, image: string, enforcement: nat, run: nat)

  datatype OperationInput = OperationInput(
    id: OperationId, sender: ProfileId, agent: ProfileId, generation: nat, sequence: nat,
    payload: seq<Byte>, acceptedAt: nat, execution: ExecutionBinding)

  datatype Completion = Completion(attempt: AttemptId, cursor: nat, exitCode: Option<int>, completedAt: nat)

  datatype Standing =
    | Accepted
    | Dispatched(dispatchedAt: nat, attempt: Option<AttemptId>, cursor: nat)
    | Completed(completion: Completion)
    | Failed(failedAttempt: AttemptId, kind: string, failedAt: nat)
    | OutcomeUnknown(unknownCursor: nat, unknownAt: nat)
  {
    predicate Terminal() {
      Completed? || Failed? || OutcomeUnknown?
    }
  }

  datatype Reply =
    | NoReply
    | Prepared(body: Body, preparedAt: nat)
    | Sending(claimedBody: Body, claimedPreparedAt: nat, claimedAt: nat)
    | Sent(deposit: string, sentAt: nat)
    | ReplyUnknown(observedAt: nat)
  {
    predicate Settled() {
      Sent? || ReplyUnknown?
    }
  }

  datatype Operation = Operation(input: OperationInput, standing: Standing, reply: Reply)
  {
    /** Settled in both halves: compaction drops exactly these. */
    predicate Final() {
      standing.Terminal() && reply.Settled()
    }
  }

  datatype Ledger = Ledger(consumed: map<OperationId, (nat, nat)>, operations: seq<Operation>)

  const EMPTY_LEDGER := Ledger(map[], [])

  /** The two signed halves that bind an owner to an agent. */
  datatype Bond = Bond(owner: ProfileId, agent: ProfileId, signaturesVerify: bool)

  // ---- validation -------------------------------------------------------------------

  predicate CoordinateOk(text: string) {
    0 < |text| <= MAX_CONSOLE_COORDINATE_BYTES
  }

  predicate BodyOk(body: Body) {
    0 < |body| <= MAX_CONSOLE_REPLY_BYTES
  }

  function CheckInput(input: OperationInput): (r: Option<Error>)
    ensures r.None? ==> 0 < |input.payload| <= MAX_CONSOLE_INPUT_BYTES && input.sender != input.agent
  {
    var e := input.execution;
    if input.sender == input.agent then Some(Invalid)
    else if |input.payload| == 0 then Some(Invalid)
    else if |input.payload| > MAX_CONSOLE_INPUT_BYTES then Some(Bound)
    else if !(CoordinateOk(e.space) && CoordinateOk(e.world) && CoordinateOk(e.spec) && CoordinateOk(e.image)) then Some(Bound)
    else if e.specVersion == 0 then Some(Invalid)
    else None
  }

  predicate OperationOk(op: Operation) {
    && CheckInput(op.input).None?
    && (op.standing.Failed? ==> CoordinateOk(op.standing.kind))
    && (op.reply.Prepared? ==> BodyOk(op.reply.body))
    && (op.reply.Sending? ==> BodyOk(op.reply.claimedBody))
    && (op.reply.Sent? ==> CoordinateOk(op.reply.deposit))
  }

  function Coordinates(op: Operation): (nat, nat) {
    (op.input.generation, op.input.sequence)
  }

  /** What every write of the ledger re-checks before it replaces the file. */
  predicate Validate(l: Ledger) {
    && |l.operations| <= MAX_CONSOLE_OPERATIONS
    && |l.consumed| <= MAX_CONSUMED_CONSOLE_OPERATIONS
    && (forall i :: 0 <= i < |l.operations| ==> OperationOk(l.operations[i]))
    && (forall i :: 0 <= i < |l.operations| ==>
          l.operations[i].input.id in l.consumed
          && l.consumed[l.operations[i].input.id] == Coordinates(l.operations[i]))
    && (forall i, j :: 0 <= i < j < |l.operations| ==>
          l.operations[i].input.id != l.operations[j].input.id
          && Coordinates(l.operations[i]) != Coordinates(l.operations[j]))
  }

  // ---- lookup -----------------------------------------------------------------------

  function Find(ops: seq<Operation>, id: OperationId): (r: Option<nat>)
    ensures r.Some? ==> r.value < |ops| && ops[r.value].input.id == id
    ensures r.None? ==> forall i :: 0 <= i < |ops| ==> ops[i].input.id != id
  {
    if ops == [] then None
    else if ops[0].input.id == id then Some(0)
    else match Find(ops[1..], id)
         case None =>
           assert forall i :: 0 < i < |ops| ==> ops[i] == ops[1..][i - 1];
           None
         case Some(k) => Some(k + 1)
  }

  predicate Holds(l: Ledger, id: OperationId) {
    Find(l.operations, id).Some?
  }

  function Held(l: Ledger, id: OperationId): (op: Operation)
    requires Holds(l, id)
    ensures op in l.operations && op.input.id == id
  {
    l.operations[Find(l.operations, id).value]
  }

  lemma FindIsUnique(l: Ledger, i: nat)
    requires Validate(l) && i < |l.operations|
    ensures Find(l.operations, l.operations[i].input.id) == Some(i)
  {
    var f := Find(l.operations, l.operations[i].input.id);
    assert f.Some?;
  }

  // ---- transitions of one record ----------------------------------------------------

  datatype Command =
    | ClaimDispatch(at: nat)
    | BindAttempt(attempt: AttemptId)
    | CompleteWithReply(completion: Completion, body: Body, at: nat)
    | FailWithReply(failed: AttemptId, kind: string, observedAt: nat, body: Body, at: nat)
    | MarkOutcomeUnknown(cursor: nat, at: nat)
    | PrepareReply(body: Body, at: nat)
    | ClaimReplySend(at: nat)
    | MarkReplySent(deposit: string, at: nat)
    | MarkReplyUnknown(at: nat)

  /** The reply half of the two combined transitions. */
  function WithReply(op: Operation, body: Body, at: nat): (r: Result<Operation, Error>) {
    if op.reply.NoReply? then Ok(op.(reply := Prepared(body, at)))
    else if op.reply == Prepared(body, at) then Ok(op)
    else Err(Invalid)
  }

  function Apply(op: Operation, c: Command): (r: Result<Operation, Error>)
  {
    match c
    case ClaimDispatch(at) =>
      // A duplicate claim observes the standing already recorded and still answers Ok.
      Ok(if op.standing.Accepted? then op.(standing := Dispatched(at, None, 0)) else op)
    case BindAttempt(a) =>
      if !op.standing.Dispatched? then Err(Invalid)
      else if op.standing.attempt.None? then Ok(op.(standing := op.standing.(attempt := Some(a))))
      else if op.standing.attempt.value == a then Ok(op)
      else Err(Invalid)
    case CompleteWithReply(completion, body, at) =>
      if !BodyOk(body) then Err(Bound)
      else if op.standing.Dispatched? then
        if op.standing.attempt != Some(completion.attempt) || completion.cursor < op.standing.cursor then Err(Invalid)
        else WithReply(op.(standing := Completed(completion)), body, at)
      else if op.standing == Completed(completion) then WithReply(op, body, at)
      else Err(Invalid)
    case FailWithReply(attempt, kind, observedAt, body, at) =>
      if !CoordinateOk(kind) || !BodyOk(body) then Err(Bound)
      else if op.standing.Dispatched? then
        if op.standing.attempt != Some(attempt) then Err(Invalid)
        else WithReply(op.(standing := Failed(attempt, kind, observedAt)), body, at)
      else if op.standing == Failed(attempt, kind, observedAt) then WithReply(op, body, at)
      else Err(Invalid)
    case MarkOutcomeUnknown(cursor, at) =>
      if op.standing.Dispatched? then
        if cursor < op.standing.cursor then Err(Invalid)
        else Ok(op.(standing := OutcomeUnknown(cursor, at)))
      else if op.standing == OutcomeUnknown(cursor, at) then Ok(op)
      else Err(Invalid)
    case PrepareReply(body, at) =>
      if !BodyOk(body) then Err(Bound)
      else if !op.standing.Terminal() then Err(Invalid)
      else WithReply(op, body, at)
    case ClaimReplySend(at) =>
      // Already claimed, sent or unknown: nothing changes and the answer is still Ok.
      if op.reply.NoReply? then Err(Invalid)
      else if op.reply.Prepared? then Ok(op.(reply := Sending(op.reply.body, op.reply.preparedAt, at)))
      else Ok(op)
    case MarkReplySent(deposit, at) =>
      if !CoordinateOk(deposit) then Err(Bound)
      else if op.reply.Sending? then Ok(op.(reply := Sent(deposit, at)))
      else if op.reply == Sent(deposit, at) then Ok(op)
      else Err(Invalid)
    case MarkReplyUnknown(at) =>
      if op.reply.Sending? then Ok(op.(reply := ReplyUnknown(at)))
      else if op.reply == ReplyUnknown(at) then Ok(op)
      else Err(Invalid)
  }

  // ---- transitions of the ledger ----------------------------------------------------

  /** Run one record transition, re-validate, and write. */
  function Transition(l: Ledger, id: OperationId, c: Command): (r: Result<Ledger, Error>) {
    match Find(l.operations, id)
    case None => Err(Invalid)
    case Some(i) =>
      match Apply(l.operations[i], c)
      case Err(e) => Err(e)
      case Ok(op) =>
        var next := l.(operations := l.operations[i := op]);
        if Validate(next) then Ok(next) else Err(Corrupt)
  }

  function Accept(l: Ledger, bond: Bond, input: OperationInput): (r: Result<Ledger, Error>) {
    if !bond.signaturesVerify then Err(Unauthorized)
    else if CheckInput(input).Some? then Err(CheckInput(input).value)
    else if input.sender != bond.owner || input.agent != bond.agent then Err(Unauthorized)
    else if Holds(l, input.id) then
      if Held(l, input.id).input == input then Ok(l) else Err(Invalid)
    else if input.id in l.consumed then Err(Invalid)
    else if (input.generation, input.sequence) in l.consumed.Values then Err(Invalid)
    else if |l.operations| == MAX_CONSOLE_OPERATIONS then Err(BoundOperations)
    else if |l.consumed| == MAX_CONSUMED_CONSOLE_OPERATIONS then Err(BoundConsumed)
    else
      var next := Ledger(
        l.consumed[input.id := (input.generation, input.sequence)],
        l.operations + [Operation(input, Accepted, NoReply)]);
      if Validate(next) then Ok(next) else Err(Corrupt)
  }

  /** Records that are not final, in order. */
  function Retained(ops: seq<Operation>): (r: seq<Operation>) {
    if ops == [] then []
    else (if ops[0].Final() then [] else [ops[0]]) + Retained(ops[1..])
  }

  function CompactFinalized(l: Ledger): (r: Ledger) {
    l.(operations := Retained(l.operations))
  }

  function RecoverReply(op: Operation, at: nat): (r: Operation)
    ensures r.input == op.input && r.standing == op.standing
  {
    if op.reply.Sending? then op.(reply := ReplyUnknown(at)) else op
  }

  /** Every send left claimed by the previous process becomes an unknown outcome. */
  function RecoverReplySends(l: Ledger, at: nat): (r: Ledger) {
    l.(operations := seq(|l.operations|, i requires 0 <= i < |l.operations| => RecoverReply(l.operations[i], at)))
  }

  // ---- what the transitions keep ----------------------------------------------------

  lemma ApplyKeepsRecord(op: Operation, c: Command)
    requires OperationOk(op) && Apply(op, c).Ok?
    ensures OperationOk(Apply(op, c).value) && Apply(op, c).value.input == op.input
  {
  }

  lemma ApplyIsNotCorrupt(l: Ledger, id: OperationId, c: Command)
    ensures Holds(l, id) ==> Apply(Held(l, id), c) != Err(Corrupt)
  {
  }

  /** A transition of a valid ledger never fails the re-validation before the write. */
  lemma TransitionKeepsValid(l: Ledger, id: OperationId, c: Command)
    requires Validate(l)
    ensures Transition(l, id, c).Ok? ==> Validate(Transition(l, id, c).value)
    ensures Transition(l, id, c) != Err(Corrupt)
  {
    ApplyIsNotCorrupt(l, id, c);
    hide Apply, OperationOk;
    var f := Find(l.operations, id);
    if f.Some? && Apply(l.operations[f.value], c).Ok? {
      var i := f.value;
      ApplyKeepsRecord(l.operations[i], c);
      var next := l.(operations := l.operations[i := Apply(l.operations[i], c).value]);
      assert forall k :: 0 <= k < |next.operations| ==> next.operations[k].input == l.operations[k].input;
      assert Validate(next);
    }
  }

  lemma InputIsNotCorrupt(input: OperationInput)
    ensures CheckInput(input) != Some(Corrupt)
  {
  }

  lemma AcceptKeepsValid(l: Ledger, bond: Bond, input: OperationInput)
    requires Validate(l)
    ensures Accept(l, bond, input).Ok? ==> Validate(Accept(l, bond, input).value)
    ensures Accept(l, bond, input) != Err(Corrupt)
  {
    InputIsNotCorrupt(input);
    hide CheckInput;
    if && CheckInput(input).None? && !Holds(l, input.id) && input.id !in l.consumed
       && (input.generation, input.sequence) !in l.consumed.Values
       && |l.operations| < MAX_CONSOLE_OPERATIONS && |l.consumed| < MAX_CONSUMED_CONSOLE_OPERATIONS
    {
      var op := Operation(input, Accepted, NoReply);
      var next := Ledger(l.consumed[input.id := (input.generation, input.sequence)], l.operations + [op]);
      assert next.consumed.Keys == l.consumed.Keys + {input.id};
      forall i | 0 <= i < |l.operations|
        ensures Coordinates(l.operations[i]) != Coordinates(op) && l.operations[i].input.id != input.id
      {
        assert l.consumed[l.operations[i].input.id] in l.consumed.Values;
      }
      assert Validate(next);
    }
  }

  /** Nothing more can happen to the record: its outcome is known or given up, and so is its reply. */
  ghost predicate Done(op: Operation) {
    (op.standing.Completed? || op.standing.Failed? || op.standing.OutcomeUnknown?)
    && (op.reply.Sent? || op.reply.ReplyUnknown?)
  }

  lemma {:induction false} RetainedSpec(ops: seq<Operation>)
    ensures forall op :: op in Retained(ops) <==> op in ops && !Done(op)
    ensures |Retained(ops)| <= |ops|
  {
    if ops != [] {
      RetainedSpec(ops[1..]);
      assert ops == [ops[0]] + ops[1..];
    }
  }

  ghost predicate Distinct(ops: seq<Operation>) {
    forall i, j :: 0 <= i < j < |ops| ==>
      ops[i].input.id != ops[j].input.id && Coordinates(ops[i]) != Coordinates(ops[j])
  }

  lemma {:induction false} RetainedKeepsDistinct(ops: seq<Operation>)
    requires Distinct(ops)
    ensures Distinct(Retained(ops))
  {
    if ops != [] {
      var rest := Retained(ops[1..]);
      RetainedKeepsDistinct(ops[1..]);
      RetainedSpec(ops[1..]);
      forall j | 0 <= j < |rest|
        ensures rest[j].input.id != ops[0].input.id && Coordinates(rest[j]) != Coordinates(ops[0])
      {
        assert rest[j] in ops[1..];
      }
    }
  }

  lemma CompactKeepsValid(l: Ledger)
    requires Validate(l)
    ensures Validate(CompactFinalized(l))
  {
    RetainedSpec(l.operations);
    RetainedKeepsDistinct(l.operations);
    var ops := Retained(l.operations);
    forall i | 0 <= i < |ops|
      ensures OperationOk(ops[i]) && ops[i].input.id in l.consumed
              && l.consumed[ops[i].input.id] == Coordinates(ops[i])
    {
      assert ops[i] in l.operations;
    }
    assert Distinct(ops);
  }

  lemma RecoverKeepsValid(l: Ledger, at: nat)
    requires Validate(l)
    ensures Validate(RecoverReplySends(l, at))
  {
    var r := RecoverReplySends(l, at);
    assert forall i :: 0 <= i < |l.operations| ==> r.operations[i] == RecoverReply(l.operations[i], at);
  }

  /**
   What recovery does to a record. A claimed send becomes an unknown outcome and nothing else
   changes; in particular nothing comes to be recorded as sent.
   */
  lemma RecoverySettlesUnknown(l: Ledger, at: nat, i: nat)
    requires i < |l.operations|
    ensures |RecoverReplySends(l, at).operations| == |l.operations|
    ensures var before, after := l.operations[i], RecoverReplySends(l, at).operations[i];
            && after.input == before.input && after.standing == before.standing
            && (before.reply.Sending? ==> after.reply == ReplyUnknown(at))
            && (!before.reply.Sending? ==> after == before)
    ensures RecoverReplySends(l, at).consumed == l.consumed
  {
  }

  // ---- what a record may do ---------------------------------------------------------

  /** Any command may be repeated: a second time it is accepted and changes nothing. */
  lemma RepeatIsHarmless(op: Operation, c: Command)
    requires Apply(op, c).Ok?
    ensures Apply(Apply(op, c).value, c) == Apply(op, c)
  {
  }

  /**
   The laws of a record. Work is claimed once, as first dispatch; an Attempt once bound stays
   the one, and alone can complete or fail it; transcripts are never read backwards; what is
   settled stays settled; and a reply exists only for settled work, is claimed only when
   prepared, and is prepared once.
   */
  lemma RecordLaws(op: Operation, c: Command)
    requires Apply(op, c).Ok?
    ensures var after := Apply(op, c).value;
            && after.input == op.input
            && (op.standing.Accepted? && !after.standing.Accepted? ==> c.ClaimDispatch? && after.standing == Dispatched(c.at, None, 0))
            && (op.standing.Completed? || op.standing.Failed? || op.standing.OutcomeUnknown? ==> after.standing == op.standing)
            && (c.BindAttempt? ==> after.standing.Dispatched? && after.standing.attempt == Some(c.attempt))
    ensures var after := Apply(op, c).value;
            op.standing.Dispatched? ==>
              match after.standing
              case Accepted => false
              case Dispatched(at, attempt, cursor) =>
                at == op.standing.dispatchedAt && cursor == op.standing.cursor && (op.standing.attempt.Some? ==> attempt == op.standing.attempt)
              case Completed(x) => op.standing.attempt == Some(x.attempt) && op.standing.cursor <= x.cursor
              case Failed(a, _, _) => op.standing.attempt == Some(a)
              case OutcomeUnknown(cursor, _) => op.standing.cursor <= cursor
    ensures var after := Apply(op, c).value;
            && (op.reply.NoReply? && !after.reply.NoReply? ==> after.reply.Prepared? && !after.standing.Accepted? && !after.standing.Dispatched?)
            && (op.reply.NoReply? && !after.reply.NoReply? ==> 1 <= |after.reply.body| <= 4_194_304)
            && (c.FailWithReply? ==> 1 <= |c.kind| <= 512) && (c.MarkReplySent? ==> 1 <= |c.deposit| <= 512)
            && (op.reply.Prepared? && after.reply != op.reply ==>
                  c.ClaimReplySend? && after.reply == Sending(op.reply.body, op.reply.preparedAt, c.at))
            && (op.reply.Sending? && after.reply != op.reply ==>
                  || (c.MarkReplySent? && after.reply == Sent(c.deposit, c.at))
                  || (c.MarkReplyUnknown? && after.reply == ReplyUnknown(c.at)))
            && (op.reply.Sent? || op.reply.ReplyUnknown? ==> after.reply == op.reply)
            && (c.ClaimReplySend? ==> !after.reply.NoReply? && !after.reply.Prepared?)
  {
  }

  /** What a transition answers and writes: one record, at its place, or the record's own refusal. */
  lemma TransitionOutcome(l: Ledger, id: OperationId, c: Command)
    requires Validate(l)
    ensures (forall i :: 0 <= i < |l.operations| ==> l.operations[i].input.id != id) ==> Transition(l, id, c) == Err(Invalid)
    ensures forall i :: 0 <= i < |l.operations| && l.operations[i].input.id == id ==>
              match Apply(l.operations[i], c)
              case Err(e) => Transition(l, id, c) == Err(e)
              case Ok(op) => Transition(l, id, c) == Ok(l.(operations := l.operations[i := op]))
  {
    TransitionKeepsValid(l, id, c);
    forall i | 0 <= i < |l.operations| && l.operations[i].input.id == id
      ensures Find(l.operations, id) == Some(i)
    {
      FindIsUnique(l, i);
    }
  }

  // ---- what is admitted -------------------------------------------------------------

  /** A new message the ledger takes: the owner's, to the agent, whole, in bounds, and never seen. */
  ghost predicate MayAdmit(l: Ledger, bond: Bond, input: OperationInput) {
    && bond.signaturesVerify && input.sender == bond.owner && input.agent == bond.agent && input.sender != input.agent
    && 1 <= |input.payload| <= 65_536
    && 1 <= |input.execution.space| <= 512 && 1 <= |input.execution.world| <= 512
    && 1 <= |input.execution.spec| <= 512 && 1 <= |input.execution.image| <= 512
    && input.execution.specVersion >= 1
    && input.id !in l.consumed
    && (forall id :: id in l.consumed ==> l.consumed[id] != (input.generation, input.sequence))
    && |l.operations| < 4_096 && |l.consumed| < 8_192
  }

  /** Exactly such a message adds a record, and with it a tombstone. */
  lemma AcceptsIff(l: Ledger, bond: Bond, input: OperationInput)
    requires Validate(l)
    ensures MayAdmit(l, bond, input) ==>
              Accept(l, bond, input) == Ok(Ledger(l.consumed[input.id := (input.generation, input.sequence)],
                                                  l.operations + [Operation(input, Accepted, NoReply)]))
    ensures !MayAdmit(l, bond, input) ==> Accept(l, bond, input).Err? || Accept(l, bond, input) == Ok(l)
  {
    AcceptKeepsValid(l, bond, input);
    if !MayAdmit(l, bond, input) && input.id !in l.consumed {
      forall i | 0 <= i < |l.operations|
        ensures l.operations[i].input.id != input.id
      {
      }
      if id :| id in l.consumed && l.consumed[id] == (input.generation, input.sequence) {
        assert l.consumed[id] in l.consumed.Values;
      }
    }
  }

  /** A message delivered again is accepted unchanged; another under its id, or after it is gone, is refused. */
  lemma RedeliveryIff(l: Ledger, bond: Bond, input: OperationInput)
    requires Validate(l) && input.id in l.consumed
    ensures Accept(l, bond, input) == Ok(l) <==>
              && bond.signaturesVerify && input.sender == bond.owner && input.agent == bond.agent
              && exists i :: 0 <= i < |l.operations| && l.operations[i].input == input
    ensures Accept(l, bond, input) == Ok(l) || Accept(l, bond, input).Err?
  {
    if i :| 0 <= i < |l.operations| && l.operations[i].input == input {
      FindIsUnique(l, i);
    }
  }

  // ---- rank -------------------------------------------------------------------------

  function StandingRank(s: Standing): (r: nat) {
    match s
    case Accepted => 3
    case Dispatched(_, a, _) => if a.None? then 2 else 1
    case _ => 0
  }

  function ReplyRank(reply: Reply): (r: nat) {
    match reply
    case NoReply => 4
    case Prepared(_, _) => 3
    case Sending(_, _, _) => 2
    case _ => 1
  }

  /** Standing first, then the reply. */
  function Rank(op: Operation): (r: nat)
    ensures 1 <= r <= 19
  {
    5 * StandingRank(op.standing) + ReplyRank(op.reply)
  }

  function TotalRank(ops: seq<Operation>): (r: nat) {
    if ops == [] then 0 else Rank(ops[0]) + TotalRank(ops[1..])
  }

  /** Rises with every write of the ledger, whatever the write was. */
  function Progress(l: Ledger): (r: int) {
    20 * |l.consumed| - TotalRank(l.operations)
  }

  /** A record that changes at all has moved strictly down its rank. */
  lemma ApplyLowersRank(op: Operation, c: Command)
    requires Apply(op, c).Ok? && Apply(op, c).value != op
    ensures Rank(Apply(op, c).value) < Rank(op)
  {
  }

  lemma {:induction false} TotalRankUpdate(ops: seq<Operation>, i: nat, op: Operation)
    requires i < |ops|
    ensures TotalRank(ops[i := op]) == TotalRank(ops) - Rank(ops[i]) + Rank(op)
  {
    if i == 0 {
      assert ops[0 := op][1..] == ops[1..];
    } else {
      assert ops[i := op][1..] == ops[1..][i - 1 := op];
      TotalRankUpdate(ops[1..], i - 1, op);
    }
  }

  lemma {:induction false} TotalRankAppend(ops: seq<Operation>, op: Operation)
    ensures TotalRank(ops + [op]) == TotalRank(ops) + Rank(op)
  {
    if ops != [] {
      assert (ops + [op])[1..] == ops[1..] + [op];
      TotalRankAppend(ops[1..], op);
    } else {
      assert [op][1..] == [];
    }
  }

  lemma {:induction false} TotalRankRetained(ops: seq<Operation>)
    ensures TotalRank(Retained(ops)) <= TotalRank(ops)
    ensures Retained(ops) != ops ==> TotalRank(Retained(ops)) < TotalRank(ops)
  {
    if ops != [] {
      TotalRankRetained(ops[1..]);
      var rest := Retained(ops[1..]);
      if !ops[0].Final() {
        assert ([ops[0]] + rest)[1..] == rest;
        assert ops == [ops[0]] + ops[1..];
      } else {
        assert Retained(ops) == rest;
      }
    }
  }

  lemma {:induction false} TotalRankPointwise(a: seq<Operation>, b: seq<Operation>)
    requires |a| == |b|
    requires forall i :: 0 <= i < |a| ==> b[i] == a[i] || Rank(b[i]) < Rank(a[i])
    ensures TotalRank(b) <= TotalRank(a)
    ensures a != b ==> TotalRank(b) < TotalRank(a)
  {
    if a != [] {
      TotalRankPointwise(a[1..], b[1..]);
      if a[0] == b[0] && a[1..] == b[1..] {
        assert a == [a[0]] + a[1..] && b == [b[0]] + b[1..];
      }
    }
  }

  lemma TransitionRaisesProgress(l: Ledger, id: OperationId, c: Command)
    requires Transition(l, id, c).Ok? && Transition(l, id, c).value != l
    ensures Progress(l) < Progress(Transition(l, id, c).value)
  {
    var i := Find(l.operations, id).value;
    var op := Apply(l.operations[i], c).value;
    if op != l.operations[i] {
      ApplyLowersRank(l.operations[i], c);
      TotalRankUpdate(l.operations, i, op);
    }
  }

  lemma AcceptRaisesProgress(l: Ledger, bond: Bond, input: OperationInput)
    requires Accept(l, bond, input).Ok? && Accept(l, bond, input).value != l
    ensures Progress(l) < Progress(Accept(l, bond, input).value)
  {
    var op := Operation(input, Accepted, NoReply);
    TotalRankAppend(l.operations, op);
    assert l.consumed[input.id := Coordinates(op)].Keys == l.consumed.Keys + {input.id};
  }

  lemma CompactRaisesProgress(l: Ledger)
    requires CompactFinalized(l) != l
    ensures Progress(l) < Progress(CompactFinalized(l))
  {
    TotalRankRetained(l.operations);
  }

  lemma RecoverRaisesProgress(l: Ledger, at: nat)
    requires RecoverReplySends(l, at) != l
    ensures Progress(l) < Progress(RecoverReplySends(l, at))
  {
    TotalRankPointwise(l.operations, RecoverReplySends(l, at).operations);
  }
}
