/**
 The supervisor's own code over the ledger: inbox admission, dispatch, reconciliation and
 reply delivery, loop by loop. Every durable effect of a method is one step of
 ConsoleProtocol, appended to `run`; so whatever ConsoleProtocol proves of every run holds
 of this code at every point where the process may stop. Storage, Runtime and the mail
 service answer arbitrarily, within the facts ConsoleProtocol states.
 */
module ConsoleNode {
  import opened Common
  import opened ConsoleLedger
  import opened ConsoleProtocol
  import opened ReplyRendering

  /** An opened correspondence item. */
  datatype Message = Message(
    provenanceAgrees: bool, sender: Option<ProfileId>, deposit: string, body: seq<Byte>, sentAt: nat)

  datatype Transcript = Unreadable | Readable(text: seq<Byte>, cursor: nat, exitCode: Option<int>)

  datatype Returned = Returned(succeeded: bool, transcript: Option<Transcript>)

  datatype AttemptView = AttemptView(id: AttemptId, returned: Option<Returned>, failed: Option<string>)

  /** What inspecting a Run may answer. */
  datatype RunView =
    | OtherReply
    | Refused
    | NotFound
    | Shown(coordinatesAgree: bool, attempt: Option<AttemptView>)

  /** The octets of a fixed ASCII text. */
  function Ascii7(s: string): (b: seq<Byte>)
    ensures |b| == |s| && Ascii(b)
    ensures forall i :: 0 <= i < |s| && s[i] as int < 0x80 ==> b[i] == s[i] as int
  {
    seq(|s|, i requires 0 <= i < |s| => if s[i] as int < 0x80 then s[i] as int else 0x3F)
  }

  function ReturnStatus(succeeded: bool, exitCode: Option<int>): (status: string)
    ensures |status| <= 9
  {
    if succeeded && (exitCode.None? || exitCode.value == 0) then "completed" else "failed"
  }

  function Decimal(n: nat): (s: string) {
    (if n < 10 then "" else Decimal(n / 10)) + [('0' as int + n % 10) as char]
  }

  function FromDecimal(s: string): (n: int) {
    if s == "" then 0 else 10 * FromDecimal(s[..|s| - 1]) + (s[|s| - 1] as int - '0' as int)
  }

  lemma {:induction false} DecimalReadsBack(n: nat)
    ensures FromDecimal(Decimal(n)) == n
  {
    var s := Decimal(n);
    var front := if n < 10 then "" else Decimal(n / 10);
    assert s[..|s| - 1] == front && s[|s| - 1] as int == '0' as int + n % 10;
    if n >= 10 {
      DecimalReadsBack(n / 10);
    }
  }

  /** The text of a returned command: its output, or a sentence when there was none. */
  function ReturnText(succeeded: bool, exitCode: Option<int>, output: seq<Byte>): (text: seq<Byte>)
    ensures output != [] ==> text == output
    ensures output == [] ==> Ascii(text) && text != []
    ensures output == [] && succeeded && exitCode in {None, Some(0)} ==> text == Ascii7("Command completed with no output.")
    ensures output == [] && !(succeeded && exitCode in {None, Some(0)}) && exitCode.Some? && exitCode.value >= 0 ==>
              text == Ascii7("Command exited with status " + Decimal(exitCode.value) + " and no output.")
    ensures output == [] && exitCode.Some? && exitCode.value < 0 ==>
              text == Ascii7("Command exited with status -" + Decimal(-exitCode.value) + " and no output.")
    ensures output == [] && !succeeded && exitCode.None? ==>
              text == Ascii7("Command completed without output and without an exit status.")
  {
    if output != [] then output
    else if succeeded && (exitCode.None? || exitCode.value == 0) then Ascii7("Command completed with no output.")
    else if exitCode.Some? then
      Ascii7((if exitCode.value < 0 then "Command exited with status -" + Decimal(-exitCode.value)
              else "Command exited with status " + Decimal(exitCode.value)) + " and no output.")
    else Ascii7("Command completed without output and without an exit status.")
  }

  /** A number as `k` octets, the most significant first. */
  function Octets(n: nat, k: nat): (r: seq<Byte>)
    ensures |r| == k
  {
    if k == 0 then [] else Octets(n / 256, k - 1) + [n % 256]
  }

  function FromOctets(r: seq<Byte>): (n: nat) {
    if r == [] then 0 else 256 * FromOctets(r[..|r| - 1]) + r[|r| - 1]
  }

  function Power256(k: nat): (p: nat) {
    if k == 0 then 1 else 256 * Power256(k - 1)
  }

  lemma {:induction false} OctetsReadBack(n: nat, k: nat)
    requires n < Power256(k)
    ensures FromOctets(Octets(n, k)) == n
  {
    if k > 0 {
      OctetsReadBack(n / 256, k - 1);
      assert Octets(n, k)[..k - 1] == Octets(n / 256, k - 1);
    }
  }

  /** A number without its last `m` octets. */
  function WithoutLast(n: nat, m: nat): (r: nat) {
    if m == 0 then n else WithoutLast(n / 256, m - 1)
  }

  lemma {:induction false} LeadingOctets(n: nat, k: nat, j: nat)
    requires j <= k && n < Power256(k)
    ensures FromOctets(Octets(n, k)[..j]) == WithoutLast(n, k - j)
  {
    if j == k {
      OctetsReadBack(n, k);
      assert Octets(n, k)[..k] == Octets(n, k);
    } else {
      LeadingOctets(n / 256, k - 1, j);
      assert Octets(n, k)[..j] == Octets(n / 256, k - 1)[..j];
    }
  }

  /** The coordinate a reply carries is the id without its last twelve octets. */
  lemma CoordinateLeads(id: OperationId)
    requires id < Power256(16)
    ensures FromOctets(IdCoordinate(id)) == WithoutLast(id, 12)
  {
    LeadingOctets(id, 16, 4);
  }

  /** The first four octets of a sixteen-octet operation id. */
  function IdCoordinate(id: OperationId): (c: seq<Byte>)
    ensures |c| == 4
  {
    Octets(id, 16)[..4]
  }

  /** A reply the ledger will take: never empty, never past its bound. */
  method RenderFor(id: OperationId, status: string, text: seq<Byte>) returns (body: Body)
    requires |status| <= 100
    requires ValidUtf8(text)
    ensures BodyOk(body) && ValidUtf8(body)
    ensures Says(id, status, text, body)
  {
    var header := Header(IdCoordinate(id), Ascii7(status));
    HeaderIsValid(IdCoordinate(id), Ascii7(status));
    body := RenderReply(header, text, MAX_CONSOLE_REPLY_BYTES);
  }

  /** What stands at the end of a reply that was cut. */
  lemma MarkerSays()
    ensures MARKER == Ascii7("\n[reply truncated]")
  {
    var t := "\n[reply truncated]";
    assert |MARKER| == |t|;
    assert forall i :: 0 <= i < |t| ==> MARKER[i] == t[i] as int;
  }

  /** The reply a command's owner is sent: this text, under this status, within the bound. */
  ghost predicate Says(id: OperationId, status: string, text: seq<Byte>, body: Body) {
    Rendered(Header(IdCoordinate(id), Ascii7(status)), text, 4_194_304, body)
  }

  const UNKNOWN_TEXT := "The command outcome is unknown after recovery; it was not run again."

  // ---- what the loops are specified by ----------------------------------------------

  /** A terminal record whose reply is on its way or settled; anything not terminal. */
  predicate Delivered(op: Operation) {
    op.standing.Terminal() ==> !op.reply.NoReply? && !op.reply.Prepared?
  }

  predicate NoneWaiting(ops: seq<Operation>) {
    forall i :: 0 <= i < |ops| ==> !ops[i].standing.Accepted?
  }

  predicate AllDelivered(ops: seq<Operation>) {
    forall i :: 0 <= i < |ops| ==> Delivered(ops[i])
  }

  /** `after` is `before` with only newly admitted records added. */
  ghost predicate OnlyAdmits(before: Ledger, after: Ledger) {
    && before.operations <= after.operations
    && (forall id :: id in before.consumed ==> id in after.consumed)
    && (forall i :: |before.operations| <= i < |after.operations| ==>
          && after.operations[i].standing.Accepted? && after.operations[i].reply.NoReply?
          && after.operations[i].input.id !in before.consumed
          && after.operations[i].input.id in after.consumed)
  }

  /** What the service was given for an operation, if it was called. */
  function LetterOf(letters: map<OperationId, Body>, id: OperationId): (b: Option<Body>) {
    if id in letters then Some(letters[id]) else None
  }

  /** Where an Attempt that Runtime shows must leave the record of its command, and what its owner is told. */
  ghost predicate FollowsAttempt(before: Operation, a: AttemptView, now: nat, after: Operation, letter: Option<Body>)
    requires before.standing.Dispatched?
  {
    match a.returned
    case Some(Returned(_, None)) =>
      after.standing == OutcomeUnknown(0, now)
    case Some(Returned(_, Some(Unreadable))) =>
      false
    case Some(Returned(succeeded, Some(Readable(text, cursor, exitCode)))) =>
      var fine := succeeded && (exitCode == None || exitCode == Some(0));
      && after.standing == Completed(Completion(a.id, cursor, exitCode, now)) && Delivered(after)
      && letter.Some?
      && (text != [] ==> Says(before.input.id, if fine then "completed" else "failed", text, letter.value))
      && (text == [] ==> Says(before.input.id, if fine then "completed" else "failed",
                              ReturnText(succeeded, exitCode, text), letter.value))
    case None =>
      match a.failed
      case Some(kind) =>
        && after.standing == Failed(a.id, kind, now) && Delivered(after)
        && letter.Some?
        && Says(before.input.id, "failed", Ascii7("Command failed before returning output (" + kind + ")."), letter.value)
      case None =>
        after == if before.standing.attempt.Some? then before
                 else before.(standing := before.standing.(attempt := Some(a.id)))
  }

  /** Where reconciling a record against what Runtime showed must leave it. */
  ghost predicate Follows(before: Operation, seen: RunView, now: nat, after: Operation, starts: seq<OperationId>, letter: Option<Body>) {
    if !before.standing.Dispatched? then Delivered(after)
    else
      match seen
      case OtherReply => after == before
      case Refused => false
      case NotFound =>
        if before.standing.attempt.None? then after == before && before.input.id in starts
        else after.standing == OutcomeUnknown(0, now)
      case Shown(agree, attempt) =>
        agree && if attempt.None? then after == before else FollowsAttempt(before, attempt.value, now, after, letter)
  }

  /**
   What Runtime answers about a Run. It shows one only for a committed Start, and the text of
   a transcript is text it decoded.
   */
  function View(runtime: OperationId -> RunView, starts: seq<OperationId>, id: OperationId): (v: RunView)
    ensures v.Shown? ==> id in starts
  {
    var v := runtime(id);
    if !v.Shown? then v
    else if id !in starts then NotFound
    else if v.attempt.Some? && v.attempt.value.returned.Some? && v.attempt.value.returned.value.transcript.Some?
            && v.attempt.value.returned.value.transcript.value.Readable?
            && !ValidUtf8(v.attempt.value.returned.value.transcript.value.text) then OtherReply
    else v
  }

  /** An Attempt the ledger can follow: readable, of the attempt already bound, with a class it can hold. */
  predicate CleanAttempt(bound: Option<AttemptId>, a: AttemptView) {
    match a.returned
    case Some(Returned(_, Some(Unreadable))) => false
    case Some(Returned(_, Some(Readable(_, _, _)))) => bound.None? || bound == Some(a.id)
    case Some(_) => true
    case None => a.failed.Some? ==> CoordinateOk(a.failed.value) && (bound.None? || bound == Some(a.id))
  }

  /** An answer of Runtime that reconciliation gets through. */
  predicate Clean(op: Operation, view: RunView) {
    op.standing.Dispatched? ==>
      match view
      case Refused => false
      case Shown(agree, attempt) => agree && (attempt.Some? ==> CleanAttempt(op.standing.attempt, attempt.value))
      case _ => true
  }

  predicate AllClean(ops: seq<Operation>, runtime: OperationId -> RunView, starts: seq<OperationId>) {
    forall i :: 0 <= i < |ops| ==> Clean(ops[i], View(runtime, starts, ops[i].input.id))
  }

  /** Runtime never gets in the way, whatever it is asked about. */
  ghost predicate Smooth(runtime: OperationId -> RunView) {
    forall op: Operation, starts: seq<OperationId> :: Clean(op, View(runtime, starts, op.input.id))
  }

  lemma OnlyAdmitsReflexive(a: Ledger)
    ensures OnlyAdmits(a, a)
  {
  }

  lemma OnlyAdmitsTransitive(a: Ledger, b: Ledger, c: Ledger)
    requires OnlyAdmits(a, b) && OnlyAdmits(b, c)
    ensures OnlyAdmits(a, c)
  {
    forall i | |a.operations| <= i < |c.operations|
      ensures && c.operations[i].standing.Accepted? && c.operations[i].reply.NoReply?
              && c.operations[i].input.id !in a.consumed && c.operations[i].input.id in c.consumed
    {
      if i < |b.operations| {
        assert c.operations[i] == b.operations[i];
      }
    }
  }

  /** What the ledger answers to a message it does not know. */
  lemma AcceptOutcome(l: Ledger, bond: Bond, input: OperationInput)
    requires Validate(l) && input.id !in l.consumed
    ensures var r := Accept(l, bond, input);
            && (r == Err(BoundOperations) ==> |l.operations| == MAX_CONSOLE_OPERATIONS)
            && (r == Err(BoundConsumed) ==> |l.consumed| == MAX_CONSUMED_CONSOLE_OPERATIONS)
            && (r.Ok? ==>
                  && OnlyAdmits(l, r.value)
                  && r.value.consumed.Keys == l.consumed.Keys + {input.id}
                  && r.value.operations == l.operations + [Operation(input, Accepted, NoReply)])
  {
  }

  function Claimed(op: Operation, at: nat): (r: Operation) {
    if op.standing.Accepted? then op.(standing := Dispatched(at, None, 0)) else op
  }

  function ClaimedAll(ops: seq<Operation>, at: nat): (r: seq<Operation>)
    ensures |r| == |ops| && forall i :: 0 <= i < |ops| ==> r[i] == Claimed(ops[i], at)
  {
    seq(|ops|, i requires 0 <= i < |ops| => Claimed(ops[i], at))
  }

  /** A dispatch that failed at record `k`: not claimed and not started, or claimed and started at most once. */
  ghost predicate StoppedIn(before: System, k: nat, now: nat, after: System) {
    && k < |before.ledger.operations|
    && var op := before.ledger.operations[k];
       || (after.ledger == before.ledger && after.starts == before.starts)
       || (after.ledger == before.ledger.(operations := before.ledger.operations[k := Claimed(op, now)])
           && (after.starts == before.starts || after.starts == before.starts + [op.input.id]))
  }

  /** The records before `k` were claimed and started, those behind it were not touched. */
  ghost predicate StoppedAt(before: System, k: nat, now: nat, after: System) {
    && k < |before.ledger.operations| == |after.ledger.operations|
    && after.ledger.consumed == before.ledger.consumed
    && (forall i :: 0 <= i < k ==> after.ledger.operations[i] == Claimed(before.ledger.operations[i], now))
    && (forall i :: k < i < |before.ledger.operations| ==> after.ledger.operations[i] == before.ledger.operations[i])
    && var op, started := before.ledger.operations[k], before.starts + WaitingIds(before.ledger.operations[..k]);
       || (after.ledger.operations[k] == op && after.starts == started)
       || (after.ledger.operations[k] == Claimed(op, now) && (after.starts == started || after.starts == started + [op.input.id]))
  }

  lemma StopConsumes(before: System, k: nat, now: nat, after: System)
    requires StoppedIn(before, k, now, after)
    ensures after.ledger.consumed == before.ledger.consumed
  {
  }

  lemma StopIsAt(before: System, mid: System, k: nat, now: nat, after: System)
    requires StoppedIn(mid, k, now, after) && |mid.ledger.operations| == |before.ledger.operations|
    requires mid.ledger.consumed == before.ledger.consumed
    requires forall i :: 0 <= i < k ==> mid.ledger.operations[i] == Claimed(before.ledger.operations[i], now)
    requires forall i :: k <= i < |before.ledger.operations| ==> mid.ledger.operations[i] == before.ledger.operations[i]
    requires mid.starts == before.starts + WaitingIds(before.ledger.operations[..k])
    ensures StoppedAt(before, k, now, after)
  {
  }

  /** The ids waiting for a first dispatch, in ledger order. */
  function WaitingIds(ops: seq<Operation>): (ids: seq<OperationId>) {
    if ops == [] then []
    else
      var last := ops[|ops| - 1];
      WaitingIds(ops[..|ops| - 1]) + (if last.standing.Accepted? then [last.input.id] else [])
  }

  lemma WaitingIdsStep(ops: seq<Operation>, i: nat)
    requires i < |ops|
    ensures WaitingIds(ops[..i + 1])
            == WaitingIds(ops[..i]) + (if ops[i].standing.Accepted? then [ops[i].input.id] else [])
  {
    assert ops[..i + 1][..i] == ops[..i];
  }

  /** In a reachable state a record is found at its own place and its transition is written. */
  lemma TransitionAt(s: System, i: nat, c: Command)
    requires Inv(s) && i < |s.ledger.operations|
    ensures Find(s.ledger.operations, s.ledger.operations[i].input.id) == Some(i)
    ensures Held(s.ledger, s.ledger.operations[i].input.id) == s.ledger.operations[i]
    ensures Apply(s.ledger.operations[i], c).Ok? ==>
              Transition(s.ledger, s.ledger.operations[i].input.id, c)
              == Ok(s.ledger.(operations := s.ledger.operations[i := Apply(s.ledger.operations[i], c).value]))
    ensures RecordInv(s, s.ledger.operations[i]) && OperationOk(s.ledger.operations[i])
  {
    FindIsUnique(s.ledger, i);
    TransitionKeepsValid(s.ledger, s.ledger.operations[i].input.id, c);
  }

  lemma SettledStanding(op: Operation, c: Command)
    requires op.standing.Dispatched?
    ensures Apply(op, c).Ok? && c.CompleteWithReply? ==> Apply(op, c).value.standing == Completed(c.completion)
    ensures Apply(op, c).Ok? && c.FailWithReply? ==> Apply(op, c).value.standing == Failed(c.failed, c.kind, c.observedAt)
  {
  }

  lemma DistinctIds(s: System)
    requires Inv(s)
    ensures forall i, j :: 0 <= i < j < |s.ledger.operations| ==> s.ledger.operations[i].input.id != s.ledger.operations[j].input.id
  {
  }

  lemma SameView(runtime: OperationId -> RunView, a: seq<OperationId>, b: seq<OperationId>, id: OperationId)
    requires id in a <==> id in b
    ensures View(runtime, a, id) == View(runtime, b, id)
  {
  }

  /** A terminal transition of a running command prepares the very reply it was given. */
  lemma SettledReply(s: System, i: nat, c: Command)
    requires Inv(s) && i < |s.ledger.operations| && s.ledger.operations[i].standing.Dispatched?
    requires c.CompleteWithReply? || c.FailWithReply?
    ensures Apply(s.ledger.operations[i], c).Ok? ==>
              && Apply(s.ledger.operations[i], c).value.reply.Prepared?
              && Apply(s.ledger.operations[i], c).value.reply.body == c.body
              && Apply(s.ledger.operations[i], c).value.input == s.ledger.operations[i].input
    ensures BodyOk(c.body) && c.CompleteWithReply? ==>
              (Apply(s.ledger.operations[i], c).Ok? <==> s.ledger.operations[i].standing.attempt == Some(c.completion.attempt))
    ensures BodyOk(c.body) && c.FailWithReply? ==>
              (Apply(s.ledger.operations[i], c).Ok? <==>
                 CoordinateOk(c.kind) && s.ledger.operations[i].standing.attempt == Some(c.failed))
  {
    assert RecordInv(s, s.ledger.operations[i]);
  }

  lemma RunExtends(run: seq<System>, e: Event, t: System)
    requires IsRun(run) && Step(run[|run| - 1], e, t)
    ensures IsRun(run + [t])
  {
    var longer := run + [t];
    forall i | 0 <= i < |longer| - 1
      ensures Next(longer[i], longer[i + 1])
    {
      if i < |run| - 1 {
        assert Next(run[i], run[i + 1]);
      }
    }
  }

  class Node {
    var sys: System
    ghost var run: seq<System>
    const calm: bool      // whether storage, Runtime and the mail service always answer
    const bond: Bond
    const operationId: (string, seq<Byte>) -> OperationId
    const binding: OperationId -> ExecutionBinding
    const sequence: string -> nat

    ghost predicate Valid()
      reads this
    {
      IsRun(run) && run[|run| - 1] == sys
    }

    ghost predicate Ready()
      reads this
    {
      Valid() && sys.control.Idle?
    }

    constructor (calm: bool, bond: Bond, operationId: (string, seq<Byte>) -> OperationId,
                 binding: OperationId -> ExecutionBinding, sequence: string -> nat)
      ensures Valid() && Initial(sys)
      ensures this.calm == calm && this.bond == bond && this.operationId == operationId
      ensures this.binding == binding && this.sequence == sequence
    {
      this.calm := calm;
      this.bond, this.operationId, this.binding, this.sequence := bond, operationId, binding, sequence;
      sys := System(EMPTY_LEDGER, [], [], map[], Down);
      run := [System(EMPTY_LEDGER, [], [], map[], Down)];
    }

    /** A call to what is outside: it may fail, unless all is calm. */
    method Answers() returns (ok: bool)
      ensures calm ==> ok
    {
      ok := *;
      ok := ok || calm;
    }

    /** One durable step. */
    method Advance(ghost e: Event, next: System)
      requires Valid() && Step(sys, e, next)
      modifies this
      ensures Valid() && sys == next && run == old(run) + [next]
    {
      RunExtends(run, e, next);
      sys := next;
      run := run + [next];
    }

    lemma Holding()
      requires Valid()
      ensures Inv(sys) && Validate(sys.ledger)
    {
      RunInvariant(run, |run| - 1);
    }

    /** The process stops here, wherever it was. */
    method Crash()
      requires Valid()
      modifies this
      ensures Valid() && old(run) <= run
      ensures sys == old(sys).(control := Down)
    {
      Advance(Crashed, sys.(control := Down));
    }

    /** Recovery: no claimed send survives as one that may still be made. */
    method Form(now: nat) returns (ok: bool)
      requires Valid() && sys.control.Down?
      modifies this
      ensures Valid() && old(run) <= run
      ensures ok ==> sys.control.Idle? && sys.ledger == RecoverReplySends(old(sys.ledger), now)
      ensures ok ==> |sys.ledger.operations| == |old(sys.ledger.operations)| && sys.ledger.consumed == old(sys.ledger.consumed)
      ensures ok ==> forall i :: 0 <= i < |sys.ledger.operations| ==>
                sys.ledger.operations[i] == if old(sys.ledger.operations)[i].reply.Sending?
                                            then old(sys.ledger.operations)[i].(reply := ReplyUnknown(now))
                                            else old(sys.ledger.operations)[i]
      ensures calm ==> ok
      ensures !ok ==> sys == old(sys)
      ensures sys.starts == old(sys.starts) && sys.sends == old(sys.sends)
    {
      ok := Answers();
      if ok {
        Advance(Formed(now), sys.(ledger := RecoverReplySends(sys.ledger, now), control := Idle));
      }
    }

    // ---- admission ------------------------------------------------------------------

    predicate Eligible(m: Message)
    {
      m.provenanceAgrees && m.sender == Some(bond.owner) && 0 < |m.body| <= MAX_CONSOLE_INPUT_BYTES
    }

    function InputOf(m: Message): (input: OperationInput) {
      var id := operationId(m.deposit, m.body);
      OperationInput(id, bond.owner, bond.agent, 1, sequence(m.deposit), m.body, m.sentAt, binding(id))
    }

    /** What the inbox must be to be obeyed, said apart from the test that filters it. */
    ghost predicate FromOwner(m: Message)
    {
      m.provenanceAgrees && m.sender == Some(bond.owner) && m.body != [] && |m.body| <= 65_536
    }

    /** A record is the owner's own message: who sent it, what it says, and under what it will run. */
    ghost predicate OwnersMessage(m: Message, op: Operation)
    {
      && FromOwner(m)
      && op.standing.Accepted? && op.reply.NoReply?
      && op.input.id == operationId(m.deposit, m.body) && op.input.payload == m.body
      && op.input.sender == bond.owner && op.input.agent == bond.agent
      && op.input.generation == 1 && op.input.sequence == sequence(m.deposit) && op.input.acceptedAt == m.sentAt
      && op.input.execution == binding(op.input.id)
    }

    /** Every record from `n` on is one of the messages. */
    ghost predicate AllFromOwner(messages: seq<Message>, ops: seq<Operation>, n: nat)
    {
      forall i :: n <= i < |ops| ==> exists k :: 0 <= k < |messages| && OwnersMessage(messages[k], ops[i])
    }

    /** Every eligible message among the first `n` has been admitted, now or before. */
    ghost predicate Covered(messages: seq<Message>, n: nat, l: Ledger)
    {
      forall k :: 0 <= k < n && k < |messages| && FromOwner(messages[k]) ==>
        operationId(messages[k].deposit, messages[k].body) in l.consumed
    }

    /** The ledger has a reason, other than being full, to refuse one of the owner's messages. */
    ghost predicate Refuses(messages: seq<Message>, l: Ledger)
    {
      exists k :: 0 <= k < |messages| && FromOwner(messages[k]) && InputOf(messages[k]).id !in l.consumed
        && Accept(l, bond, InputOf(messages[k])).Err?
        && Accept(l, bond, InputOf(messages[k])) != Err(BoundOperations)
        && Accept(l, bond, InputOf(messages[k])) != Err(BoundConsumed)
    }

    predicate AtCapacity(l: Ledger)
    {
      |l.operations| == MAX_CONSOLE_OPERATIONS || |l.consumed| == MAX_CONSUMED_CONSOLE_OPERATIONS
    }

    method AcceptMessages(messages: seq<Message>) returns (ok: bool)
      requires Ready()
      modifies this
      ensures Ready() && old(run) <= run
      ensures sys.starts == old(sys.starts) && sys.sends == old(sys.sends)
      ensures OnlyAdmits(CompactFinalized(old(sys.ledger)), sys.ledger) || (!ok && sys.ledger == old(sys.ledger))
      ensures ok ==> AtCapacity(sys.ledger) || Covered(messages, |messages|, sys.ledger)
      ensures sys.ledger != old(sys.ledger) ==>
                AllFromOwner(messages, sys.ledger.operations, |CompactFinalized(old(sys.ledger)).operations|)
      ensures calm && !ok ==> Refuses(messages, sys.ledger)
    {
      var stored := Answers();
      if !stored {
        return false;
      }
      Advance(Compacted, sys.(ledger := CompactFinalized(sys.ledger)));
      ok := AdmitUnknown(messages);
    }

    method AdmitUnknown(messages: seq<Message>) returns (ok: bool)
      requires Ready()
      modifies this
      ensures Ready() && old(run) <= run
      ensures sys.starts == old(sys.starts) && sys.sends == old(sys.sends)
      ensures OnlyAdmits(old(sys.ledger), sys.ledger)
      ensures ok ==> AtCapacity(sys.ledger) || Covered(messages, |messages|, sys.ledger)
      ensures AllFromOwner(messages, sys.ledger.operations, |old(sys.ledger.operations)|)
      ensures calm && !ok ==> Refuses(messages, sys.ledger)
    {
      hide IsRun, OnlyAdmits, Accept, Inv, Validate;
      var known := sys.ledger.consumed.Keys;
      OnlyAdmitsReflexive(sys.ledger);
      var i := 0;
      while i < |messages|
        invariant 0 <= i <= |messages|
        invariant Ready() && old(run) <= run
        invariant sys.starts == old(sys.starts) && sys.sends == old(sys.sends)
        invariant OnlyAdmits(old(sys.ledger), sys.ledger)
        invariant known == sys.ledger.consumed.Keys
        invariant Covered(messages, i, sys.ledger)
        invariant AllFromOwner(messages, sys.ledger.operations, |old(sys.ledger.operations)|)
      {
        var m := messages[i];
        if Eligible(m) && InputOf(m).id !in known {
          ghost var before := sys.ledger;
          var status := AcceptOne(m);
          if status.Err? {
            return status.error == BoundOperations || status.error == BoundConsumed;
          }
          OnlyAdmitsTransitive(old(sys.ledger), before, sys.ledger);
          assert OwnersMessage(messages[i], Operation(InputOf(m), Accepted, NoReply));
          known := known + {InputOf(m).id};
        }
        i := i + 1;
      }
      return true;
    }

    /** One call of the ledger's `accept` for a message it does not know. */
    method AcceptOne(m: Message) returns (status: Result<(), Error>)
      requires Ready() && InputOf(m).id !in sys.ledger.consumed
      modifies this
      ensures Ready() && old(run) <= run
      ensures sys.starts == old(sys.starts) && sys.sends == old(sys.sends)
      ensures status.Ok? ==> OnlyAdmits(old(sys.ledger), sys.ledger)
      ensures status.Ok? ==> sys.ledger.consumed.Keys == old(sys.ledger.consumed.Keys) + {InputOf(m).id}
      ensures status.Ok? ==> sys.ledger.operations == old(sys.ledger.operations) + [Operation(InputOf(m), Accepted, NoReply)]
      ensures status.Err? ==> sys == old(sys)
      ensures status == Err(BoundOperations) ==> |sys.ledger.operations| == MAX_CONSOLE_OPERATIONS
      ensures status == Err(BoundConsumed) ==> |sys.ledger.consumed| == MAX_CONSUMED_CONSOLE_OPERATIONS
      ensures calm ==> (status.Ok? <==> Accept(old(sys.ledger), bond, InputOf(m)).Ok?)
      ensures calm && status.Err? ==> Accept(old(sys.ledger), bond, InputOf(m)) == Err(status.error)
    {
      hide IsRun, Inv, Accept, OnlyAdmits, Validate;
      Holding();
      var input := InputOf(m);
      AcceptOutcome(sys.ledger, bond, input);
      match Accept(sys.ledger, bond, input) {
        case Err(e) =>
          status := Err(e);
        case Ok(ledger) =>
          var stored := Answers();
          if !stored {
            return Err(Storage);
          }
          Advance(Admitted(bond, input), sys.(ledger := ledger));
          status := Ok(());
      }
    }

    // ---- dispatch -------------------------------------------------------------------

    /** Runtime commits the Start or not; an answer of Ok is evidence that it did. */
    method Submit(id: OperationId) returns (ok: bool)
      requires Valid() && sys.control == Submitting(id)
      modifies this
      ensures Ready() && old(run) <= run
      ensures sys.ledger == old(sys.ledger) && sys.sends == old(sys.sends)
      ensures sys.starts == old(sys.starts) || sys.starts == old(sys.starts) + [id]
      ensures ok ==> sys.starts == old(sys.starts) + [id]
      ensures calm ==> ok
      ensures sys.letters == old(sys.letters)
    {
      var committed := Answers();
      var answered := Answers();
      Advance(Submitted(id, committed),
              sys.(starts := if committed then sys.starts + [id] else sys.starts, control := Idle));
      ok := committed && answered;
    }

    /** The record at `i` waits for a dispatch under a binding this node no longer has. */
    ghost predicate StuckAt(l: Ledger, i: nat)
    {
      i < |l.operations| && l.operations[i].standing.Accepted?
      && l.operations[i].input.execution != binding(l.operations[i].input.id)
    }

    ghost predicate Stuck(l: Ledger)
    {
      exists i: nat :: StuckAt(l, i)
    }

    /** Neither compaction nor admission moves a waiting record out of the way. */
    lemma StuckStays(l: Ledger, m: Ledger)
      requires Stuck(l) && OnlyAdmits(CompactFinalized(l), m)
      ensures Stuck(m)
    {
      var i: nat :| StuckAt(l, i);
      RetainedSpec(l.operations);
      var kept := CompactFinalized(l).operations;
      assert l.operations[i] in kept;
      var j :| 0 <= j < |kept| && kept[j] == l.operations[i];
      assert m.operations[j] == kept[j];
      assert StuckAt(m, j);
    }

    /** What admission adds is bound as the node is. */
    lemma NoneStuck(l: Ledger, m: Ledger, messages: seq<Message>)
      requires !Stuck(l) && OnlyAdmits(CompactFinalized(l), m)
      requires AllFromOwner(messages, m.operations, |CompactFinalized(l).operations|)
      ensures !Stuck(m)
    {
      var kept := CompactFinalized(l).operations;
      RetainedSpec(l.operations);
      forall i: nat | i < |m.operations|
        ensures !StuckAt(m, i)
      {
        if i < |kept| {
          assert m.operations[i] == kept[i] && kept[i] in l.operations;
          var j :| 0 <= j < |l.operations| && l.operations[j] == kept[i];
          assert !StuckAt(l, j);
        }
      }
    }

    lemma StuckAfterStop(before: System, k: nat, now: nat, after: System)
      requires StoppedAt(before, k, now, after) && Stuck(before.ledger)
      requires forall g: nat :: g < k ==> !StuckAt(before.ledger, g)
      requires StuckAt(before.ledger, k) ==> after.ledger.operations[k] == before.ledger.operations[k]
      ensures Stuck(after.ledger)
    {
      var g: nat :| StuckAt(before.ledger, g);
      assert StuckAt(after.ledger, g);
    }

    method DispatchAccepted(now: nat) returns (ok: bool)
      requires Ready()
      modifies this
      ensures Ready() && old(run) <= run
      ensures sys.sends == old(sys.sends)
      ensures ok ==> sys.ledger == old(sys.ledger).(operations := ClaimedAll(old(sys.ledger.operations), now))
      ensures ok ==> sys.starts == old(sys.starts) + WaitingIds(old(sys.ledger.operations))
      ensures ok ==> NoneWaiting(sys.ledger.operations)
      ensures !ok ==> exists k :: StoppedAt(old(sys), k, now, sys)
      ensures old(Stuck(sys.ledger)) ==> !ok && Stuck(sys.ledger)
      ensures calm ==> (ok <==> !old(Stuck(sys.ledger)))
      ensures sys.ledger.consumed == old(sys.ledger.consumed)
      ensures sys.letters == old(sys.letters)
    {
      hide IsRun, StoppedIn, StoppedAt, Inv, Validate;
      var listed := sys.ledger.operations;
      var i := 0;
      while i < |listed|
        invariant 0 <= i <= |listed|
        invariant Ready() && old(run) <= run
        invariant sys.sends == old(sys.sends)
        invariant sys.ledger.consumed == old(sys.ledger.consumed) && |sys.ledger.operations| == |listed|
        invariant forall k :: 0 <= k < i ==> sys.ledger.operations[k] == Claimed(listed[k], now)
        invariant forall k :: i <= k < |listed| ==> sys.ledger.operations[k] == listed[k]
        invariant sys.starts == old(sys.starts) + WaitingIds(listed[..i])
        invariant forall g: nat :: g < i ==> !StuckAt(old(sys.ledger), g)
        invariant sys.letters == old(sys.letters)
      {
        WaitingIdsStep(listed, i);
        if listed[i].standing.Accepted? {
          ghost var before := sys;
          var driven := DispatchOne(i, now);
          if !driven {
            assert calm ==> StuckAt(before.ledger, i) && StuckAt(old(sys.ledger), i);
            StopIsAt(old(sys), before, i, now, sys);
            StopConsumes(before, i, now, sys);
            if old(Stuck(sys.ledger)) {
              StuckAfterStop(old(sys), i, now, sys);
            }
            return false;
          }
        }
        i := i + 1;
      }
      assert listed[..i] == listed;
      assert sys.ledger.operations == ClaimedAll(listed, now);
      return true;
    }

    method DispatchOne(i: nat, now: nat) returns (ok: bool)
      requires Ready() && i < |sys.ledger.operations| && sys.ledger.operations[i].standing.Accepted?
      modifies this
      ensures Ready() && old(run) <= run
      ensures sys.sends == old(sys.sends)
      ensures ok ==> sys.ledger == old(sys.ledger).(operations :=
                       old(sys.ledger.operations)[i := Claimed(old(sys.ledger.operations)[i], now)])
      ensures ok ==> sys.starts == old(sys.starts) + [old(sys.ledger.operations)[i].input.id]
      ensures !ok ==> StoppedIn(old(sys), i, now, sys)
      ensures old(StuckAt(sys.ledger, i)) ==> !ok && sys == old(sys)
      ensures calm && !old(StuckAt(sys.ledger, i)) ==> ok
      ensures sys.letters == old(sys.letters)
    {
      var op := sys.ledger.operations[i];
      if op.input.execution != binding(op.input.id) {
        return false;
      }
      Holding();
      TransitionAt(sys, i, ClaimDispatch(now));
      var stored := Answers();
      if !stored {
        return false;
      }
      Advance(DispatchClaimed(op.input.id, now),
              sys.(ledger := Transition(sys.ledger, op.input.id, ClaimDispatch(now)).value,
                   control := Submitting(op.input.id)));
      ok := Submit(op.input.id);
    }

    // ---- replies --------------------------------------------------------------------

    /** Record one transition of the record at `i`, if the ledger allows it and the write succeeds. */
    method Record(i: nat, c: Command) returns (ok: bool)
      requires Ready() && i < |sys.ledger.operations|
      requires Recordable(sys, sys.ledger.operations[i].input.id, c)
      modifies this
      ensures Ready() && old(run) <= run
      ensures sys.starts == old(sys.starts) && sys.sends == old(sys.sends)
      ensures !ok ==> sys == old(sys)
      ensures ok ==> Apply(old(sys.ledger.operations)[i], c).Ok?
      ensures ok ==> sys.ledger == old(sys.ledger).(operations :=
                       old(sys.ledger.operations)[i := Apply(old(sys.ledger.operations)[i], c).value])
      ensures calm && Apply(old(sys.ledger.operations)[i], c).Ok? ==> ok
      ensures sys.letters == old(sys.letters)
    {
      Holding();
      TransitionAt(sys, i, c);
      var op := sys.ledger.operations[i];
      var stored := Answers();
      if Apply(op, c).Err? || !stored {
        return false;
      }
      Advance(Recorded(op.input.id, c), sys.(ledger := Transition(sys.ledger, op.input.id, c).value));
      return true;
    }

    /** What a delivery may tell the owner of a record: what was prepared, or that the outcome is unknown. */
    ghost predicate Told(op: Operation, ok: bool, before: map<OperationId, Body>, after: map<OperationId, Body>)
    {
      var id := op.input.id;
      && (forall x :: x != id ==> LetterOf(after, x) == LetterOf(before, x))
      && (op.reply.Prepared? ==> LetterOf(after, id) == LetterOf(before, id) || LetterOf(after, id) == Some(op.reply.body))
      && (ok && op.reply.Prepared? ==> LetterOf(after, id) == Some(op.reply.body))
      && (ok && op.reply.NoReply? && op.standing.OutcomeUnknown? ==>
            LetterOf(after, id).Some? && Says(id, "outcome unknown", Ascii7(UNKNOWN_TEXT), LetterOf(after, id).value))
    }

    /**
     Deliver the reply of the record at `i`, which is the record as now listed. Only that
     record changes, and only its reply; the service is called at most once.
     */
    method DeliverReply(i: nat, now: nat) returns (ok: bool)
      requires Ready() && i < |sys.ledger.operations|
      modifies this
      ensures Ready() && old(run) <= run
      ensures sys.starts == old(sys.starts)
      ensures sys.ledger.consumed == old(sys.ledger.consumed)
      ensures |sys.ledger.operations| == |old(sys.ledger.operations)|
      ensures forall k :: 0 <= k < |sys.ledger.operations| && k != i ==>
                sys.ledger.operations[k] == old(sys.ledger.operations)[k]
      ensures sys.ledger.operations[i].standing == old(sys.ledger.operations)[i].standing
      ensures sys.ledger.operations[i].input == old(sys.ledger.operations)[i].input
      ensures ok ==> Delivered(sys.ledger.operations[i])
      ensures ok && old(!Delivered(sys.ledger.operations[i])) ==>
                sys.sends == old(sys.sends) + [old(sys.ledger.operations)[i].input.id]
      ensures sys.sends == old(sys.sends) || sys.sends == old(sys.sends) + [old(sys.ledger.operations)[i].input.id]
      ensures calm ==> ok
      ensures Told(old(sys.ledger.operations)[i], ok, old(sys.letters), sys.letters)
    {
      var op := sys.ledger.operations[i];
      Holding();
      assert RecordInv(sys, op);
      if op.reply.NoReply? && op.standing.OutcomeUnknown? {
        var text := Ascii7(UNKNOWN_TEXT);
        AsciiIsValid(text);
        var body := RenderFor(op.input.id, "outcome unknown", text);
        TransitionAt(sys, i, PrepareReply(body, now));
        var prepared := Record(i, PrepareReply(body, now));
        if !prepared {
          return false;
        }
      } else if !op.reply.Prepared? {
        return true;
      }
      ghost var deposit: string;
      ok, deposit := SendPrepared(i, now);
    }

    /** The mail service: a deposit id, or an error after which nobody knows. */
    method SendMessage(body: Body) returns (answered: Option<string>)
      ensures calm ==> answered.Some? && CoordinateOk(answered.value)
    {
      answered := *;
      var fine := answered.Some? && CoordinateOk(answered.value);
      if calm && !fine {
        answered := Some("deposit");
      }
    }

    /** Claim, call, seal: recorded as sent exactly when the service took it and the seal was written. */
    method SendPrepared(i: nat, now: nat) returns (ok: bool, ghost deposit: string)
      requires Ready() && i < |sys.ledger.operations| && sys.ledger.operations[i].reply.Prepared?
      modifies this
      ensures Ready() && old(run) <= run
      ensures sys.starts == old(sys.starts)
      ensures sys.ledger.consumed == old(sys.ledger.consumed)
      ensures |sys.ledger.operations| == |old(sys.ledger.operations)|
      ensures forall k :: 0 <= k < |sys.ledger.operations| && k != i ==>
                sys.ledger.operations[k] == old(sys.ledger.operations)[k]
      ensures sys.ledger.operations[i].standing == old(sys.ledger.operations)[i].standing
      ensures sys.ledger.operations[i].input == old(sys.ledger.operations)[i].input
      ensures ok <==> sys.ledger.operations[i].reply.Sent?
      ensures ok ==> sys.ledger.operations[i].reply == Sent(deposit, now)
      ensures !ok ==> sys.ledger.operations[i].reply.Sending? || sys.ledger.operations[i].reply == ReplyUnknown(now)
                      || sys.ledger.operations[i] == old(sys.ledger.operations)[i]
      ensures calm ==> ok
      ensures ok ==> sys.sends == old(sys.sends) + [old(sys.ledger.operations)[i].input.id]
      ensures sys.letters == if sys.sends == old(sys.sends) then old(sys.letters)
                             else old(sys.letters)[old(sys.ledger.operations)[i].input.id := old(sys.ledger.operations)[i].reply.body]
      ensures sys.sends == old(sys.sends) || sys.sends == old(sys.sends) + [old(sys.ledger.operations)[i].input.id]
    {
      hide IsRun, Inv, OperationOk;
      deposit := "";
      var op := sys.ledger.operations[i];
      var called := ClaimAndCall(i, now);
      if !called {
        return false, deposit;
      }
      var answered := SendMessage(op.reply.body);
      var seal := if answered.Some? then MarkReplySent(answered.value, now) else MarkReplyUnknown(now);
      var sealed := Seal(i, seal);
      ok := sealed && answered.Some?;
      deposit := if answered.Some? then answered.value else "";
    }

    /** The claim is durable, and then the call is made. */
    method ClaimAndCall(i: nat, now: nat) returns (called: bool)
      requires Ready() && i < |sys.ledger.operations| && sys.ledger.operations[i].reply.Prepared?
      modifies this
      ensures Valid() && old(run) <= run && sys.starts == old(sys.starts)
      ensures calm ==> called
      ensures !called ==> sys == old(sys)
      ensures var op := old(sys.ledger.operations)[i];
              called ==>
                && sys.control == Sealing(op.input.id)
                && sys.ledger == old(sys.ledger).(operations := old(sys.ledger.operations)[i :=
                                   op.(reply := Sending(op.reply.body, op.reply.preparedAt, now))])
                && sys.sends == old(sys.sends) + [op.input.id]
                && sys.letters == old(sys.letters)[op.input.id := op.reply.body]
    {
      hide IsRun, Inv, OperationOk;
      var op := sys.ledger.operations[i];
      var id := op.input.id;
      Holding();
      TransitionAt(sys, i, ClaimReplySend(now));
      var stored := Answers();
      if !stored {
        return false;
      }
      Advance(ReplyClaimed(id, now),
              sys.(ledger := Transition(sys.ledger, id, ClaimReplySend(now)).value,
                   control := Calling(id, op.reply.body)));
      Advance(ReplyCalled(id),
              sys.(sends := sys.sends + [id], letters := sys.letters[id := op.reply.body], control := Sealing(id)));
      return true;
    }

    /** Settle a made call in the ledger; a seal that cannot be written leaves it claimed. */
    method Seal(i: nat, c: Command) returns (ok: bool)
      requires Valid() && i < |sys.ledger.operations| && sys.ledger.operations[i].reply.Sending?
      requires sys.control == Sealing(sys.ledger.operations[i].input.id)
      requires c.MarkReplySent? || c.MarkReplyUnknown?
      modifies this
      ensures Ready() && old(run) <= run
      ensures sys.starts == old(sys.starts) && sys.sends == old(sys.sends)
      ensures !ok ==> sys.ledger == old(sys.ledger)
      ensures calm && Apply(old(sys.ledger.operations)[i], c).Ok? ==> ok
      ensures sys.letters == old(sys.letters)
      ensures ok ==> Apply(old(sys.ledger.operations)[i], c).Ok?
      ensures ok ==> sys.ledger == old(sys.ledger).(operations :=
                       old(sys.ledger.operations)[i := Apply(old(sys.ledger.operations)[i], c).value])
    {
      Holding();
      TransitionAt(sys, i, c);
      var op := sys.ledger.operations[i];
      var stored := Answers();
      if Apply(op, c).Ok? && stored {
        Advance(ReplySealed(op.input.id, c),
                sys.(ledger := Transition(sys.ledger, op.input.id, c).value, control := Idle));
        return true;
      }
      Advance(SealLost(op.input.id), sys.(control := Idle));
      return false;
    }

    // ---- reconciliation -------------------------------------------------------------

    /** What reconciling one record may leave of it. */
    ghost predicate Reconciled(before: Operation, after: Operation) {
      && after.input == before.input
      && (!before.standing.Accepted? ==> !after.standing.Accepted?)
      && (before.standing.Terminal() ==> after.standing == before.standing)
    }

    /** Nothing was started but, at most, this operation. */
    ghost predicate OnlyStarts(before: seq<OperationId>, after: seq<OperationId>, id: OperationId) {
      after == before || after == before + [id]
    }

    /** All records but the one at `i` are as they were. */
    twostate predicate OthersKept(i: nat)
      reads this
    {
      && sys.ledger.consumed == old(sys.ledger.consumed)
      && |sys.ledger.operations| == |old(sys.ledger.operations)|
      && (forall k :: 0 <= k < |sys.ledger.operations| && k != i ==>
            sys.ledger.operations[k] == old(sys.ledger.operations)[k])
      && (i < |sys.ledger.operations| ==>
            Reconciled(old(sys.ledger.operations)[i], sys.ledger.operations[i]))
    }

    /** One record against what Runtime answers about its Run. */
    method ReconcileOne(i: nat, now: nat, runtime: OperationId -> RunView) returns (ok: bool)
      requires Ready() && i < |sys.ledger.operations|
      modifies this
      ensures Ready() && old(run) <= run
      ensures OthersKept(i)
      ensures OnlyStarts(old(sys.starts), sys.starts, old(sys.ledger.operations)[i].input.id)
      ensures var op := old(sys.ledger.operations)[i];
              ok ==> Follows(op, View(runtime, old(sys.starts), op.input.id), now, sys.ledger.operations[i], sys.starts,
                             LetterOf(sys.letters, op.input.id))
      ensures var op := old(sys.ledger.operations)[i];
              calm ==> (ok <==> Clean(op, View(runtime, old(sys.starts), op.input.id)))
    {
      var op := sys.ledger.operations[i];
      if !op.standing.Dispatched? {
        ok := DeliverReply(i, now);
        return;
      }
      var view := View(runtime, sys.starts, op.input.id);
      match view {
        case OtherReply =>
          ok := true;
        case Refused =>
          ok := false;
        case NotFound =>
          if op.standing.attempt.None? {
            ok := ResubmitIfAbsent(i);
          } else {
            ok := MarkUnknown(i, now);
          }
        case Shown(agree, attempt) =>
          if !agree {
            ok := false;
          } else if attempt.None? {
            ok := true;
          } else {
            ok := ReconcileAttempt(i, attempt.value, now);
          }
      }
    }

    /** A claimed command whose Start left no receipt was never started: start it now. */
    method ResubmitIfAbsent(i: nat) returns (ok: bool)
      requires Ready() && i < |sys.ledger.operations|
      requires sys.ledger.operations[i].standing.Dispatched? && sys.ledger.operations[i].standing.attempt.None?
      modifies this
      ensures Ready() && old(run) <= run
      ensures sys.ledger == old(sys.ledger) && sys.sends == old(sys.sends)
      ensures old(sys.ledger.operations)[i].input.id in old(sys.starts) ==> sys.starts == old(sys.starts)
      ensures ok ==> old(sys.ledger.operations)[i].input.id in sys.starts
      ensures calm ==> ok
      ensures OnlyStarts(old(sys.starts), sys.starts, old(sys.ledger.operations)[i].input.id)
    {
      var answered := Answers();
      if !answered {
        return false;
      }
      var id := sys.ledger.operations[i].input.id;
      if id in sys.starts {
        return true;
      }
      Holding();
      TransitionAt(sys, i, ClaimDispatch(0));
      Advance(ReceiptAbsent(id), sys.(control := Submitting(id)));
      ok := Submit(id);
    }

    method ReconcileAttempt(i: nat, attempt: AttemptView, now: nat) returns (ok: bool)
      requires Ready() && i < |sys.ledger.operations|
      requires sys.ledger.operations[i].standing.Dispatched? && sys.ledger.operations[i].input.id in sys.starts
      requires attempt.returned.Some? && attempt.returned.value.transcript.Some?
               && attempt.returned.value.transcript.value.Readable? ==>
                 ValidUtf8(attempt.returned.value.transcript.value.text)
      modifies this
      ensures Ready() && old(run) <= run
      ensures OthersKept(i)
      ensures sys.starts == old(sys.starts)
      ensures ok ==> FollowsAttempt(old(sys.ledger.operations)[i], attempt, now, sys.ledger.operations[i],
                                    LetterOf(sys.letters, old(sys.ledger.operations)[i].input.id))
      ensures calm ==> (ok <==> CleanAttempt(old(sys.ledger.operations)[i].standing.attempt, attempt))
    {
      if sys.ledger.operations[i].standing.attempt.None? {
        var bound := Record(i, BindAttempt(attempt.id));
        if !bound {
          return false;
        }
      }
      ok := SettleAttempt(i, attempt, now);
    }

    /** Follow an Attempt already bound to its record to whatever end it came to. */
    method SettleAttempt(i: nat, attempt: AttemptView, now: nat) returns (ok: bool)
      requires Ready() && i < |sys.ledger.operations|
      requires sys.ledger.operations[i].standing.Dispatched? && sys.ledger.operations[i].standing.attempt.Some?
      requires attempt.returned.Some? && attempt.returned.value.transcript.Some?
               && attempt.returned.value.transcript.value.Readable? ==>
                 ValidUtf8(attempt.returned.value.transcript.value.text)
      modifies this
      ensures Ready() && old(run) <= run
      ensures OthersKept(i)
      ensures sys.starts == old(sys.starts)
      ensures ok ==> FollowsAttempt(old(sys.ledger.operations)[i], attempt, now, sys.ledger.operations[i],
                                    LetterOf(sys.letters, old(sys.ledger.operations)[i].input.id))
      ensures calm ==> (ok <==> CleanAttempt(old(sys.ledger.operations)[i].standing.attempt, attempt))
    {
      hide ValidUtf8, IsRun;
      if attempt.returned.Some? {
        var returned := attempt.returned.value;
        if returned.transcript.None? {
          ok := MarkUnknown(i, now);
          return;
        }
        if returned.transcript.value.Unreadable? {
          return false;
        }
        ok := SettleReturned(i, attempt.id, returned.succeeded, returned.transcript.value, now);
      } else if attempt.failed.Some? {
        ok := SettleFailed(i, attempt.id, attempt.failed.value, now);
      } else {
        return true;
      }
    }

    method SettleReturned(i: nat, attempt: AttemptId, succeeded: bool, t: Transcript, now: nat) returns (ok: bool)
      requires Ready() && i < |sys.ledger.operations| && sys.ledger.operations[i].standing.Dispatched?
      requires t.Readable? && ValidUtf8(t.text)
      modifies this
      ensures Ready() && old(run) <= run
      ensures OthersKept(i)
      ensures sys.starts == old(sys.starts)
      ensures ok ==> sys.ledger.operations[i].standing == Completed(Completion(attempt, t.cursor, t.exitCode, now))
      ensures ok ==> Delivered(sys.ledger.operations[i])
      ensures var letter := LetterOf(sys.letters, old(sys.ledger.operations)[i].input.id);
              ok ==> letter.Some? && Says(old(sys.ledger.operations)[i].input.id, ReturnStatus(succeeded, t.exitCode),
                                          ReturnText(succeeded, t.exitCode, t.text), letter.value)
      ensures calm ==> (ok <==> old(sys.ledger.operations)[i].standing.attempt == Some(attempt))
    {
      hide ValidUtf8, Says, IsRun, Apply, OperationOk;
      var text := ReturnText(succeeded, t.exitCode, t.text);
      if t.text == [] {
        AsciiIsValid(text);
      }
      var body := RenderFor(sys.ledger.operations[i].input.id, ReturnStatus(succeeded, t.exitCode), text);
      var c := CompleteWithReply(Completion(attempt, t.cursor, t.exitCode, now), body, now);
      SettledStanding(sys.ledger.operations[i], c);
      Holding();
      SettledReply(sys, i, c);
      ok := SettleAndDeliver(i, c, now);
    }

    method SettleFailed(i: nat, attempt: AttemptId, kind: string, now: nat) returns (ok: bool)
      requires Ready() && i < |sys.ledger.operations| && sys.ledger.operations[i].standing.Dispatched?
      modifies this
      ensures Ready() && old(run) <= run
      ensures OthersKept(i)
      ensures sys.starts == old(sys.starts)
      ensures ok ==> sys.ledger.operations[i].standing == Failed(attempt, kind, now)
      ensures ok ==> Delivered(sys.ledger.operations[i])
      ensures var letter := LetterOf(sys.letters, old(sys.ledger.operations)[i].input.id);
              ok ==> letter.Some? && Says(old(sys.ledger.operations)[i].input.id, "failed",
                                          Ascii7("Command failed before returning output (" + kind + ")."), letter.value)
      ensures calm ==> (ok <==> CoordinateOk(kind) && old(sys.ledger.operations)[i].standing.attempt == Some(attempt))
    {
      hide ValidUtf8, Says, IsRun, Apply, OperationOk;
      var text := Ascii7("Command failed before returning output (" + kind + ").");
      AsciiIsValid(text);
      var body := RenderFor(sys.ledger.operations[i].input.id, "failed", text);
      var c := FailWithReply(attempt, kind, now, body, now);
      SettledStanding(sys.ledger.operations[i], c);
      Holding();
      SettledReply(sys, i, c);
      ok := SettleAndDeliver(i, c, now);
    }

    method MarkUnknown(i: nat, now: nat) returns (ok: bool)
      requires Ready() && i < |sys.ledger.operations|
      requires sys.ledger.operations[i].standing.Dispatched? && sys.ledger.operations[i].standing.attempt.Some?
      modifies this
      ensures Ready() && old(run) <= run
      ensures OthersKept(i)
      ensures sys.starts == old(sys.starts)
      ensures ok ==> sys.ledger.operations[i].standing == OutcomeUnknown(0, now)
      ensures calm ==> ok
    {
      Holding();
      TransitionAt(sys, i, MarkOutcomeUnknown(0, now));
      ok := Record(i, MarkOutcomeUnknown(0, now));
    }

    /** The terminal standing and its reply in one write, then the delivery of that reply. */
    method SettleAndDeliver(i: nat, c: Command, now: nat) returns (ok: bool)
      requires Ready() && i < |sys.ledger.operations| && sys.ledger.operations[i].standing.Dispatched?
      requires c.CompleteWithReply? || c.FailWithReply?
      modifies this
      ensures Ready() && old(run) <= run
      ensures OthersKept(i)
      ensures ok ==> Apply(old(sys.ledger.operations)[i], c).Ok?
      ensures ok ==> sys.ledger.operations[i].standing == Apply(old(sys.ledger.operations)[i], c).value.standing
      ensures ok ==> Delivered(sys.ledger.operations[i])
      ensures sys.starts == old(sys.starts)
      ensures ok ==> LetterOf(sys.letters, old(sys.ledger.operations)[i].input.id) == Some(c.body)
      ensures calm ==> (ok <==> Apply(old(sys.ledger.operations)[i], c).Ok?)
    {
      Holding();
      SettledReply(sys, i, c);
      var recorded := Record(i, c);
      if !recorded {
        return false;
      }
      ok := DeliverReply(i, now);
    }

    method Reconcile(now: nat, runtime: OperationId -> RunView) returns (ok: bool)
      requires Ready()
      modifies this
      ensures Ready() && old(run) <= run
      ensures old(NoneWaiting(sys.ledger.operations)) ==> NoneWaiting(sys.ledger.operations)
      ensures ok ==> AllDelivered(sys.ledger.operations)
      ensures calm ==> (ok <==> AllClean(old(sys.ledger.operations), runtime, old(sys.starts)))
      ensures sys.ledger.consumed == old(sys.ledger.consumed)
    {
      hide IsRun, View, Clean;
      var listed := sys.ledger.operations;
      var count := |listed|;
      Holding();
      DistinctIds(sys);
      var i := 0;
      while i < count
        invariant 0 <= i <= count == |sys.ledger.operations|
        invariant Ready() && old(run) <= run
        invariant sys.ledger.consumed == old(sys.ledger.consumed)
        // The listing never goes stale: only the record in hand moves.
        invariant forall k :: i <= k < count ==> sys.ledger.operations[k] == listed[k]
        invariant old(NoneWaiting(sys.ledger.operations)) ==> NoneWaiting(sys.ledger.operations)
        invariant forall k :: i <= k < count ==> (listed[k].input.id in sys.starts <==> listed[k].input.id in old(sys.starts))
        invariant calm ==> forall k :: 0 <= k < i ==> Clean(listed[k], View(runtime, old(sys.starts), listed[k].input.id))
      {
        SameView(runtime, old(sys.starts), sys.starts, listed[i].input.id);
        ok := ReconcileOne(i, now, runtime);
        if !ok {
          return;
        }
        i := i + 1;
      }
      i := 0;
      listed := sys.ledger.operations;
      while i < count
        invariant 0 <= i <= count == |sys.ledger.operations|
        invariant Ready() && old(run) <= run
        invariant sys.ledger.consumed == old(sys.ledger.consumed)
        invariant forall k :: i <= k < count ==> sys.ledger.operations[k] == listed[k]
        invariant old(NoneWaiting(sys.ledger.operations)) ==> NoneWaiting(sys.ledger.operations)
        invariant forall k :: 0 <= k < i ==> Delivered(sys.ledger.operations[k])
      {
        ok := DeliverReply(i, now);
        if !ok {
          return;
        }
        i := i + 1;
      }
      return true;
    }

    // ---- tick -----------------------------------------------------------------------

    /**
     One pass. `admission` is what the inbox answered and `driven` whether dispatch,
     performance and reconciliation all went through; a failed admission stops neither.
     */
    method Tick(messages: seq<Message>, now: nat, runtime: OperationId -> RunView) returns (admission: bool, driven: bool, ghost filed: Ledger)
      requires Ready()
      modifies this
      ensures Ready() && old(run) <= run
      ensures OnlyAdmits(CompactFinalized(old(sys.ledger)), filed) || (!admission && filed == old(sys.ledger))
      ensures admission ==> AtCapacity(filed) || Covered(messages, |messages|, filed)
      ensures calm && !admission ==> Refuses(messages, filed)
      ensures forall id :: id in filed.consumed ==> id in sys.ledger.consumed
      ensures driven ==> NoneWaiting(sys.ledger.operations) && AllDelivered(sys.ledger.operations)
      ensures old(Stuck(sys.ledger)) ==> !driven && sys.sends == old(sys.sends) && Stuck(sys.ledger)
      ensures calm && !old(Stuck(sys.ledger)) && Smooth(runtime) ==> driven
    {
      admission := AcceptMessages(messages);
      filed := sys.ledger;
      if old(Stuck(sys.ledger)) && sys.ledger != old(sys.ledger) {
        StuckStays(old(sys.ledger), sys.ledger);
      }
      if !old(Stuck(sys.ledger)) && sys.ledger != old(sys.ledger) {
        NoneStuck(old(sys.ledger), sys.ledger, messages);
      }
      var docked := Answers();
      if !docked {
        return admission, false, filed;
      }
      driven := DispatchAccepted(now);
      if !driven {
        return;
      }
      var performed := Answers();
      if !performed {
        return admission, false, filed;
      }
      driven := Reconcile(now, runtime);
    }
  }
}
