/**
 The Console supervisor as a step system. A state holds what survives a crash (the
 ledger, the Starts committed to the private Space, the calls made to the mail service)
 and what does not (where the supervisor was between two durable steps). A crash may
 fall between any two steps.
 */
module ConsoleProtocol {
  import opened Common
  import opened ConsoleLedger

  /** Where the one supervisor thread of a node is. Lost in a crash. */
  datatype Control =
    | Down
    | Idle
    | Submitting(id: OperationId)
    | Calling(id: OperationId, body: Body)
    | Sealing(id: OperationId)

  datatype System = System(
    ledger: Ledger,
    starts: seq<OperationId>,   // Starts committed by Runtime, in order
    sends: seq<OperationId>,    // calls of send_message, by the operation replied to
    letters: map<OperationId, Body>,   // what those calls were given
    control: Control)

  datatype Event =
    | Crashed
    | Formed(at: nat)
    | Compacted
    | Admitted(bond: Bond, input: OperationInput)
    | DispatchClaimed(id: OperationId, at: nat)
    | ReceiptAbsent(id: OperationId)
    | Submitted(id: OperationId, committed: bool)
    | Recorded(id: OperationId, command: Command)
    | ReplyClaimed(id: OperationId, at: nat)
    | ReplyCalled(id: OperationId)
    | ReplySealed(id: OperationId, command: Command)
    | SealLost(id: OperationId)

  /**
   Runtime is not modelled; two facts about it are. A receipt is durable with its Start,
   so `Absent` means the Start was not committed; and a Run (hence an Attempt) exists only
   for a committed Start. Runtime would also refuse a second Start under a used request
   id; that is left out, so the supervisor has to prevent it alone.
   */
  ghost predicate Step(s: System, e: Event, t: System) {
    match e
    case Crashed =>
      t == s.(control := Down)
    case Formed(at) =>
      s.control.Down? && t == s.(ledger := RecoverReplySends(s.ledger, at), control := Idle)
    case Compacted =>
      s.control.Idle? && t == s.(ledger := CompactFinalized(s.ledger))
    case Admitted(bond, input) =>
      s.control.Idle? && Accept(s.ledger, bond, input).Ok?
      && t == s.(ledger := Accept(s.ledger, bond, input).value)
    case DispatchClaimed(id, at) =>
      s.control.Idle? && Holds(s.ledger, id) && Held(s.ledger, id).standing.Accepted?
      && Transition(s.ledger, id, ClaimDispatch(at)).Ok?
      && t == s.(ledger := Transition(s.ledger, id, ClaimDispatch(at)).value, control := Submitting(id))
    case ReceiptAbsent(id) =>
      s.control.Idle? && Holds(s.ledger, id)
      && Held(s.ledger, id).standing.Dispatched? && Held(s.ledger, id).standing.attempt.None?
      && id !in s.starts
      && t == s.(control := Submitting(id))
    case Submitted(id, committed) =>
      s.control == Submitting(id)
      && t == s.(starts := if committed then s.starts + [id] else s.starts, control := Idle)
    case Recorded(id, c) =>
      s.control.Idle? && Recordable(s, id, c) && Transition(s.ledger, id, c).Ok?
      && t == s.(ledger := Transition(s.ledger, id, c).value)
    case ReplyClaimed(id, at) =>
      s.control.Idle? && Holds(s.ledger, id) && Held(s.ledger, id).reply.Prepared?
      && Transition(s.ledger, id, ClaimReplySend(at)).Ok?
      && t == s.(ledger := Transition(s.ledger, id, ClaimReplySend(at)).value,
                 control := Calling(id, Held(s.ledger, id).reply.body))
    case ReplyCalled(id) =>
      s.control.Calling? && s.control.id == id
      && t == s.(sends := s.sends + [id], letters := s.letters[id := s.control.body], control := Sealing(id))
    case ReplySealed(id, c) =>
      s.control == Sealing(id) && (c.MarkReplySent? || c.MarkReplyUnknown?)
      && Transition(s.ledger, id, c).Ok?
      && t == s.(ledger := Transition(s.ledger, id, c).value, control := Idle)
    case SealLost(id) =>
      s.control == Sealing(id) && t == s.(control := Idle)
  }

  /** The plain ledger writes of reconciliation, and what Runtime had shown before each. */
  ghost predicate Recordable(s: System, id: OperationId, c: Command) {
    match c
    case BindAttempt(_) => id in s.starts
    case CompleteWithReply(_, _, _) => true
    case FailWithReply(_, _, _, _, _) => true
    case MarkOutcomeUnknown(_, _) =>
      Holds(s.ledger, id) && Held(s.ledger, id).standing.Dispatched? && Held(s.ledger, id).standing.attempt.Some?
    case PrepareReply(_, _) =>
      Holds(s.ledger, id) && Held(s.ledger, id).standing.OutcomeUnknown? && Held(s.ledger, id).reply.NoReply?
    case _ => false
  }

  ghost predicate Next(s: System, t: System) {
    exists e :: Step(s, e, t)
  }

  ghost predicate Initial(s: System) {
    s == System(EMPTY_LEDGER, [], [], map[], Down)
  }

  ghost predicate IsRun(run: seq<System>) {
    && |run| > 0
    && Initial(run[0])
    && forall i :: 0 <= i < |run| - 1 ==> Next(run[i], run[i + 1])
  }

  // ---- the invariant ----------------------------------------------------------------

  ghost predicate RecordInv(s: System, op: Operation) {
    var id := op.input.id;
    && (op.standing.Accepted? ==> id !in s.starts && op.reply.NoReply?)
    && (op.standing.Dispatched? ==>
          op.reply.NoReply? && op.standing.cursor == 0 && (op.standing.attempt.Some? ==> id in s.starts))
    && (op.standing.Terminal() ==> id in s.starts)
    && (op.standing.Completed? || op.standing.Failed? ==> !op.reply.NoReply?)
    && (id in s.sends ==> op.reply.Sending? || op.reply.Settled())
  }

  ghost predicate RecordsInv(s: System) {
    forall i :: 0 <= i < |s.ledger.operations| ==> RecordInv(s, s.ledger.operations[i])
  }

  ghost predicate HistoryInv(s: System) {
    && (forall id :: id in s.starts ==> id in s.ledger.consumed)
    && (forall id :: id in s.sends ==> id in s.ledger.consumed)
    && (forall id :: multiset(s.starts)[id] <= 1)
    && (forall id :: multiset(s.sends)[id] <= 1)
  }

  ghost predicate ControlInv(s: System) {
    match s.control
    case Submitting(id) =>
      id !in s.starts && Holds(s.ledger, id)
      && Held(s.ledger, id).standing.Dispatched? && Held(s.ledger, id).standing.attempt.None?
    case Calling(id, body) =>
      id !in s.sends && Holds(s.ledger, id)
      && Held(s.ledger, id).reply.Sending? && Held(s.ledger, id).reply.claimedBody == body
    case Sealing(id) =>
      Holds(s.ledger, id) && Held(s.ledger, id).reply.Sending?
    case _ => true
  }

  ghost predicate Inv(s: System) {
    Validate(s.ledger) && RecordsInv(s) && HistoryInv(s) && ControlInv(s)
  }

  // ---- every step keeps it ----------------------------------------------------------

  lemma CrashKeepsInv(s: System, t: System)
    requires Inv(s) && Step(s, Crashed, t)
    ensures Inv(t)
  {
    assert forall i :: 0 <= i < |t.ledger.operations| ==> RecordInv(s, t.ledger.operations[i]);
  }

  lemma FormKeepsInv(s: System, at: nat, t: System)
    requires Inv(s) && Step(s, Formed(at), t)
    ensures Inv(t)
    ensures forall i :: 0 <= i < |t.ledger.operations| ==> !t.ledger.operations[i].reply.Sending?
  {
    RecoverKeepsValid(s.ledger, at);
    forall i | 0 <= i < |t.ledger.operations|
      ensures RecordInv(t, t.ledger.operations[i])
    {
      assert RecordInv(s, s.ledger.operations[i]);
    }
  }

  lemma CompactKeepsInv(s: System, t: System)
    requires Inv(s) && Step(s, Compacted, t)
    ensures Inv(t)
  {
    CompactKeepsValid(s.ledger);
    RetainedSpec(s.ledger.operations);
    forall i | 0 <= i < |t.ledger.operations|
      ensures RecordInv(t, t.ledger.operations[i])
    {
      assert t.ledger.operations[i] in s.ledger.operations;
    }
  }

  lemma AdmitKeepsInv(s: System, bond: Bond, input: OperationInput, t: System)
    requires Inv(s) && Step(s, Admitted(bond, input), t)
    ensures Inv(t)
  {
    AcceptKeepsValid(s.ledger, bond, input);
    forall i | 0 <= i < |t.ledger.operations|
      ensures RecordInv(t, t.ledger.operations[i])
    {
      if i < |s.ledger.operations| {
        assert RecordInv(s, s.ledger.operations[i]);
      }
    }
  }

  /** What one record transition does to the invariant, whichever step performs it. */
  lemma TransitionFrame(s: System, id: OperationId, c: Command, t: System)
    requires Inv(s) && Transition(s.ledger, id, c).Ok?
    requires t.ledger == Transition(s.ledger, id, c).value && t.starts == s.starts && t.sends == s.sends
    ensures Validate(t.ledger) && HistoryInv(t)
    ensures Holds(s.ledger, id) && Holds(t.ledger, id)
    ensures Apply(Held(s.ledger, id), c) == Ok(Held(t.ledger, id))
    ensures RecordInv(s, Held(s.ledger, id))
    ensures RecordInv(t, Held(t.ledger, id)) ==> RecordsInv(t)
  {
    TransitionKeepsValid(s.ledger, id, c);
    var i := Find(s.ledger.operations, id).value;
    var op := Apply(s.ledger.operations[i], c).value;
    ApplyKeepsRecord(s.ledger.operations[i], c);
    FindIsUnique(t.ledger, i);
    forall k | 0 <= k < |t.ledger.operations| && k != i
      ensures RecordInv(t, t.ledger.operations[k])
    {
      assert RecordInv(s, s.ledger.operations[k]);
    }
  }

  lemma ClaimKeepsInv(s: System, id: OperationId, at: nat, t: System)
    requires Inv(s) && Step(s, DispatchClaimed(id, at), t)
    ensures Inv(t)
  {
    TransitionFrame(s, id, ClaimDispatch(at), t);
  }

  lemma SubmitKeepsInv(s: System, id: OperationId, committed: bool, t: System)
    requires Inv(s) && Step(s, Submitted(id, committed), t)
    ensures Inv(t)
  {
    var k := Find(s.ledger.operations, id).value;
    forall i | 0 <= i < |t.ledger.operations|
      ensures RecordInv(t, t.ledger.operations[i])
    {
      assert RecordInv(s, s.ledger.operations[i]);
      if i != k {
        FindIsUnique(s.ledger, i);
      }
    }
    assert id in s.ledger.consumed;
  }

  lemma RecordKeepsInv(s: System, id: OperationId, c: Command, t: System)
    requires Inv(s) && Step(s, Recorded(id, c), t)
    ensures Inv(t)
  {
    TransitionFrame(s, id, c, t);
  }

  lemma ReplyClaimKeepsInv(s: System, id: OperationId, at: nat, t: System)
    requires Inv(s) && Step(s, ReplyClaimed(id, at), t)
    ensures Inv(t)
  {
    TransitionFrame(s, id, ClaimReplySend(at), t);
  }

  lemma ReplyCallKeepsInv(s: System, id: OperationId, t: System)
    requires Inv(s) && Step(s, ReplyCalled(id), t)
    ensures Inv(t)
  {
    var k := Find(s.ledger.operations, id).value;
    forall i | 0 <= i < |t.ledger.operations|
      ensures RecordInv(t, t.ledger.operations[i])
    {
      assert RecordInv(s, s.ledger.operations[i]);
      if i != k {
        FindIsUnique(s.ledger, i);
      }
    }
    assert id in s.ledger.consumed;
  }

  lemma SealKeepsInv(s: System, id: OperationId, c: Command, t: System)
    requires Inv(s) && Step(s, ReplySealed(id, c), t)
    ensures Inv(t)
  {
    TransitionFrame(s, id, c, t);
  }

  lemma StepKeepsInv(s: System, e: Event, t: System)
    requires Inv(s) && Step(s, e, t)
    ensures Inv(t)
  {
    match e
    case Crashed => CrashKeepsInv(s, t);
    case Formed(at) => FormKeepsInv(s, at, t);
    case Compacted => CompactKeepsInv(s, t);
    case Admitted(bond, input) => AdmitKeepsInv(s, bond, input, t);
    case DispatchClaimed(id, at) => ClaimKeepsInv(s, id, at, t);
    case ReceiptAbsent(id) =>
      assert forall i :: 0 <= i < |t.ledger.operations| ==> RecordInv(s, t.ledger.operations[i]);
    case Submitted(id, committed) => SubmitKeepsInv(s, id, committed, t);
    case Recorded(id, c) => RecordKeepsInv(s, id, c, t);
    case ReplyClaimed(id, at) => ReplyClaimKeepsInv(s, id, at, t);
    case ReplyCalled(id) => ReplyCallKeepsInv(s, id, t);
    case ReplySealed(id, c) => SealKeepsInv(s, id, c, t);
    case SealLost(id) =>
      assert forall i :: 0 <= i < |t.ledger.operations| ==> RecordInv(s, t.ledger.operations[i]);
  }

  lemma {:induction false} RunInvariant(run: seq<System>, i: nat)
    requires IsRun(run) && i < |run|
    ensures Inv(run[i])
  {
    if i > 0 {
      RunInvariant(run, i - 1);
      assert Next(run[i - 1], run[i - 1 + 1]);
      var e :| Step(run[i - 1], e, run[i]);
      StepKeepsInv(run[i - 1], e, run[i]);
    }
  }

  // ---- what holds over whole runs ---------------------------------------------------

  /** However often the node crashed, no command was started twice and no reply sent twice. */
  lemma AtMostOnce(run: seq<System>, i: nat, id: OperationId)
    requires IsRun(run) && i < |run|
    ensures multiset(run[i].starts)[id] <= 1
    ensures multiset(run[i].sends)[id] <= 1
  {
    RunInvariant(run, i);
  }

  /** The ledger never says a command ran when it was not started, or is waiting when it was. */
  lemma StandingAgreesWithStarts(run: seq<System>, i: nat, id: OperationId)
    requires IsRun(run) && i < |run| && Holds(run[i].ledger, id)
    ensures Held(run[i].ledger, id).standing.Accepted? ==> multiset(run[i].starts)[id] == 0
    ensures Held(run[i].ledger, id).standing.Terminal() ==> multiset(run[i].starts)[id] == 1
    ensures id in run[i].sends ==>
              Held(run[i].ledger, id).standing.Terminal() && multiset(run[i].starts)[id] == 1
  {
    RunInvariant(run, i);
    var op := Held(run[i].ledger, id);
    assert RecordInv(run[i], op);
  }

  /** A Start is committed, and a reply sent, only after the claim on it was durable. */
  lemma EffectsFollowClaims(run: seq<System>, i: nat, id: OperationId)
    requires IsRun(run) && i + 1 < |run|
    ensures id in run[i + 1].starts && id !in run[i].starts ==>
              Holds(run[i].ledger, id) && Held(run[i].ledger, id).standing.Dispatched?
              && run[i + 1].ledger == run[i].ledger
    ensures id in run[i + 1].sends && id !in run[i].sends ==>
              Holds(run[i].ledger, id) && Held(run[i].ledger, id).reply.Sending?
              && run[i + 1].ledger == run[i].ledger
              && run[i + 1].letters == run[i].letters[id := Held(run[i].ledger, id).reply.claimedBody]
  {
    RunInvariant(run, i);
    assert Next(run[i], run[i + 1]);
  }

  /** A reply comes to be recorded as sent only by sealing a call that was made, and nothing else lies about it. */
  lemma SentOnlyBySeal(run: seq<System>, i: nat, id: OperationId)
    requires IsRun(run) && i + 1 < |run| && Holds(run[i + 1].ledger, id) && Held(run[i + 1].ledger, id).reply.Sent?
    ensures run[i].control == Sealing(id)
            || (Holds(run[i].ledger, id) && Held(run[i].ledger, id).reply == Held(run[i + 1].ledger, id).reply)
  {
    hide Step, Inv;
    RunInvariant(run, i);
    assert Next(run[i], run[i + 1]);
    var e :| Step(run[i], e, run[i + 1]);
    StepSends(run[i], e, run[i + 1], Find(run[i + 1].ledger.operations, id).value);
  }

  lemma ApplySends(op: Operation, c: Command)
    requires Apply(op, c).Ok? && Apply(op, c).value.reply.Sent?
    ensures Apply(op, c).value.reply == op.reply || c.MarkReplySent?
    ensures c.MarkReplySent? ==> Apply(op, c).value.reply == Sent(c.deposit, c.at)
  {
  }

  lemma TransitionSends(l: Ledger, id: OperationId, c: Command, k: nat)
    requires Validate(l) && Transition(l, id, c).Ok? && k < |l.operations|
    requires Transition(l, id, c).value.operations[k].reply.Sent?
    ensures Transition(l, id, c).value.operations[k].input == l.operations[k].input
    ensures Transition(l, id, c).value.operations[k].reply == l.operations[k].reply
            || (c.MarkReplySent? && l.operations[k].input.id == id)
  {
    var i := Find(l.operations, id).value;
    ApplyKeepsRecord(l.operations[i], c);
    hide Apply, Validate;
    if k == i {
      ApplySends(l.operations[i], c);
    }
  }

  lemma StepSends(s: System, e: Event, t: System, k: nat)
    requires Inv(s) && Step(s, e, t) && k < |t.ledger.operations| && t.ledger.operations[k].reply.Sent?
    ensures var op := t.ledger.operations[k];
            s.control == Sealing(op.input.id) || (Holds(s.ledger, op.input.id) && Held(s.ledger, op.input.id).reply == op.reply)
  {
    hide Transition, Apply, Accept;
    var op := t.ledger.operations[k];
    if e.Compacted? {
      RetainedSpec(s.ledger.operations);
      assert op in s.ledger.operations;
      var j :| 0 <= j < |s.ledger.operations| && s.ledger.operations[j] == op;
      FindIsUnique(s.ledger, j);
    } else if e.Formed? {
      RecoverySettlesUnknown(s.ledger, e.at, k);
      FindIsUnique(s.ledger, k);
    } else if e.Admitted? {
      AcceptAppends(s.ledger, e.bond, e.input);
      if k < |s.ledger.operations| {
        FindIsUnique(s.ledger, k);
      }
    } else {
      LedgerOfStep(s, e, t, k);
      FindIsUnique(s.ledger, k);
    }
  }

  lemma AcceptAppends(l: Ledger, bond: Bond, input: OperationInput)
    requires Accept(l, bond, input).Ok?
    ensures Accept(l, bond, input).value == l
            || Accept(l, bond, input).value.operations == l.operations + [Operation(input, Accepted, NoReply)]
  {
  }

  /** The steps that write at most one record, at its own place. */
  lemma LedgerOfStep(s: System, e: Event, t: System, k: nat)
    requires Inv(s) && Step(s, e, t) && !e.Compacted? && !e.Formed? && !e.Admitted?
    requires k < |t.ledger.operations| && t.ledger.operations[k].reply.Sent?
    ensures k < |s.ledger.operations| && t.ledger.operations[k].input == s.ledger.operations[k].input
    ensures t.ledger.operations[k].reply == s.ledger.operations[k].reply || s.control == Sealing(s.ledger.operations[k].input.id)
  {
    hide Apply, Accept;
    match e
    case DispatchClaimed(id, at) => TransitionSends(s.ledger, id, ClaimDispatch(at), k);
    case Recorded(id, c) => TransitionSends(s.ledger, id, c, k);
    case ReplyClaimed(id, at) => TransitionSends(s.ledger, id, ClaimReplySend(at), k);
    case ReplySealed(id, c) => TransitionSends(s.ledger, id, c, k);
    case _ =>
  }

  /** Every record after a step, the admitted one aside, was a record before it. */
  lemma RecordsComeFromRecords(s: System, e: Event, t: System, k: nat)
    requires Step(s, e, t) && k < |t.ledger.operations|
    ensures Holds(s.ledger, t.ledger.operations[k].input.id)
            || t.ledger.operations[k].input.id !in s.ledger.consumed
  {
    var op := t.ledger.operations[k];
    if e.Compacted? {
      RetainedSpec(s.ledger.operations);
      assert op in s.ledger.operations;
    } else if k < |s.ledger.operations| {
      assert op.input == s.ledger.operations[k].input;
    }
  }

  lemma StepKeepsTombstones(s: System, e: Event, t: System, id: OperationId)
    requires Inv(s) && Step(s, e, t) && id in s.ledger.consumed
    ensures id in t.ledger.consumed
    ensures !Holds(s.ledger, id) ==> !Holds(t.ledger, id)
  {
    if Holds(t.ledger, id) {
      RecordsComeFromRecords(s, e, t, Find(t.ledger.operations, id).value);
    }
  }

  /** What was once admitted stays consumed; what was compacted is never admitted again. */
  lemma {:induction false} NeverReadmitted(run: seq<System>, i: nat, j: nat, id: OperationId)
    requires IsRun(run) && i <= j < |run| && id in run[i].ledger.consumed
    ensures id in run[j].ledger.consumed
    ensures !Holds(run[i].ledger, id) ==> !Holds(run[j].ledger, id)
  {
    hide Step, Inv, Holds;
    if i < j {
      NeverReadmitted(run, i, j - 1, id);
      RunInvariant(run, j - 1);
      assert Next(run[j - 1], run[j - 1 + 1]);
      var e :| Step(run[j - 1], e, run[j]);
      StepKeepsTombstones(run[j - 1], e, run[j], id);
    }
  }

  lemma KeptUnlessDone(s: System, e: Event, t: System, k: nat)
    requires Inv(s) && Step(s, e, t) && k < |s.ledger.operations|
    ensures Done(s.ledger.operations[k]) || Holds(t.ledger, s.ledger.operations[k].input.id)
  {
    var op := s.ledger.operations[k];
    if e.Compacted? {
      RetainedSpec(s.ledger.operations);
      assert !Done(op) ==> op in t.ledger.operations;
    } else {
      RecordsStay(s, e, t, k);
    }
  }

  /** A record leaves the ledger only with its outcome and its reply both settled. */
  lemma LeavesOnlyDone(run: seq<System>, i: nat, k: nat)
    requires IsRun(run) && i + 1 < |run| && k < |run[i].ledger.operations|
    ensures Done(run[i].ledger.operations[k]) || Holds(run[i + 1].ledger, run[i].ledger.operations[k].input.id)
  {
    hide Step, Inv, Holds;
    RunInvariant(run, i);
    assert Next(run[i], run[i + 1]);
    var e :| Step(run[i], e, run[i + 1]);
    KeptUnlessDone(run[i], e, run[i + 1], k);
  }

  lemma RecordsStay(s: System, e: Event, t: System, k: nat)
    requires Inv(s) && Step(s, e, t) && !e.Compacted? && k < |s.ledger.operations|
    ensures k < |t.ledger.operations| && t.ledger.operations[k].input == s.ledger.operations[k].input
  {
    hide Accept;
    if e.Admitted? {
      AcceptAppends(s.ledger, e.bond, e.input);
    }
  }

  lemma StepActsOnRecords(s: System, e: Event, t: System, id: OperationId)
    requires Inv(s) && Step(s, e, t) && !Holds(s.ledger, id)
    ensures multiset(t.starts)[id] == multiset(s.starts)[id]
    ensures multiset(t.sends)[id] == multiset(s.sends)[id]
  {
  }

  lemma RunActsOnRecords(run: seq<System>, i: nat, id: OperationId)
    requires IsRun(run) && i + 1 < |run| && !Holds(run[i].ledger, id)
    ensures multiset(run[i + 1].starts)[id] == multiset(run[i].starts)[id]
    ensures multiset(run[i + 1].sends)[id] == multiset(run[i].sends)[id]
  {
    RunInvariant(run, i);
    assert Next(run[i], run[i + 1]);
    var e :| Step(run[i], e, run[i + 1]);
    StepActsOnRecords(run[i], e, run[i + 1], id);
  }

  /** The command of a compacted operation is never started, or its reply sent, afterwards. */
  lemma {:induction false} CompactedIsFinished(run: seq<System>, i: nat, j: nat, id: OperationId)
    requires IsRun(run) && i <= j < |run|
    requires id in run[i].ledger.consumed && !Holds(run[i].ledger, id)
    ensures multiset(run[j].starts)[id] == multiset(run[i].starts)[id]
    ensures multiset(run[j].sends)[id] == multiset(run[i].sends)[id]
  {
    hide IsRun, Holds;
    if i < j {
      CompactedIsFinished(run, i, j - 1, id);
      NeverReadmitted(run, i, j - 1, id);
      RunActsOnRecords(run, j - 1, id);
    }
  }

  lemma StepRaisesProgress(s: System, e: Event, t: System)
    requires Inv(s) && Step(s, e, t) && t.ledger != s.ledger
    ensures Progress(s.ledger) < Progress(t.ledger)
  {
    match e
    case Formed(at) => RecoverRaisesProgress(s.ledger, at);
    case Compacted => CompactRaisesProgress(s.ledger);
    case Admitted(bond, input) => AcceptRaisesProgress(s.ledger, bond, input);
    case DispatchClaimed(id, at) => TransitionRaisesProgress(s.ledger, id, ClaimDispatch(at));
    case Recorded(id, c) => TransitionRaisesProgress(s.ledger, id, c);
    case ReplyClaimed(id, at) => TransitionRaisesProgress(s.ledger, id, ClaimReplySend(at));
    case ReplySealed(id, c) => TransitionRaisesProgress(s.ledger, id, c);
    case _ =>
  }

  lemma {:induction false} ProgressNeverFalls(run: seq<System>, i: nat, j: nat)
    requires IsRun(run) && i <= j < |run|
    ensures Progress(run[i].ledger) <= Progress(run[j].ledger)
  {
    hide Step, Inv, Progress;
    if i < j {
      ProgressNeverFalls(run, i, j - 1);
      RunInvariant(run, j - 1);
      assert Next(run[j - 1], run[j - 1 + 1]);
      var e :| Step(run[j - 1], e, run[j]);
      if run[j].ledger != run[j - 1].ledger {
        StepRaisesProgress(run[j - 1], e, run[j]);
      }
    }
  }

  /** No run, with any crashes in it, ever returns to a ledger it has left. */
  lemma LedgerNeverRevisited(run: seq<System>, i: nat, j: nat)
    requires IsRun(run) && i + 1 <= j < |run|
    requires run[i + 1].ledger != run[i].ledger
    ensures run[j].ledger != run[i].ledger
  {
    hide Step, Inv, Progress;
    RunInvariant(run, i);
    assert Next(run[i], run[i + 1]);
    var e :| Step(run[i], e, run[i + 1]);
    StepRaisesProgress(run[i], e, run[i + 1]);
    ProgressNeverFalls(run, i + 1, j);
  }

  // ---- why a snapshot must be current -----------------------------------------------

  /** The two effects a supervisor claims first: starting a command, and sending its reply. */
  datatype Effect = StartCommand | SendReply

  /** What a listed record must look like for a supervisor to go ahead. */
  predicate Ready(effect: Effect, op: Operation) {
    match effect
    case StartCommand => op.standing.Accepted?
    case SendReply => op.reply.Prepared?
  }

  function Claim(effect: Effect, at: nat): (c: Command) {
    match effect
    case StartCommand => ClaimDispatch(at)
    case SendReply => ClaimReplySend(at)
  }

  /** Whether a supervisor goes ahead: its listing says so, and the claim on the record now answers Ok. */
  predicate GoesAhead(effect: Effect, listed: Operation, now: Operation, at: nat) {
    Ready(effect, listed) && Apply(now, Claim(effect, at)).Ok?
  }

  /** One record on a ledger that several supervisors list and act from; `count` is how often they did. */
  datatype Shared = Shared(now: Operation, listed: map<nat, Operation>, count: nat)

  datatype Move =
    | Lists(supervisor: nat)
    | Acts(supervisor: nat, at: nat)
    | Records(command: Command)

  ghost predicate Moves(effect: Effect, s: Shared, m: Move, t: Shared) {
    match m
    case Lists(n) => t == s.(listed := s.listed[n := s.now])
    case Acts(n, at) =>
      && n in s.listed && GoesAhead(effect, s.listed[n], s.now, at)
      && t == s.(now := Apply(s.now, Claim(effect, at)).value, count := s.count + 1)
    case Records(c) =>
      && !c.ClaimDispatch? && !c.ClaimReplySend? && Apply(s.now, c).Ok?
      && t == s.(now := Apply(s.now, c).value)
  }

  ghost predicate IsSharedRun(effect: Effect, run: seq<Shared>, moves: seq<Move>) {
    && |run| == |moves| + 1
    && Ready(effect, run[0].now) && run[0].listed == map[] && run[0].count == 0
    && forall i :: 0 <= i < |moves| ==> Moves(effect, run[i], moves[i], run[i + 1])
  }

  /** The supervisor works from a listing as new as the claim on the record. */
  ghost predicate CurrentAt(effect: Effect, s: Shared, m: Move) {
    m.Acts? && m.supervisor in s.listed && Ready(effect, s.listed[m.supervisor]) ==> Ready(effect, s.now)
  }

  ghost predicate SharedInv(effect: Effect, s: Shared) {
    if s.count == 0 then Ready(effect, s.now)
    else
      match effect
      case StartCommand => !s.now.standing.Accepted?
      case SendReply => s.now.reply.Sending? || s.now.reply.Settled()
  }

  lemma {:induction false} SharedRunInv(effect: Effect, run: seq<Shared>, moves: seq<Move>, i: nat)
    requires IsSharedRun(effect, run, moves) && i < |run|
    ensures SharedInv(effect, run[i])
  {
    if i > 0 {
      SharedRunInv(effect, run, moves, i - 1);
      assert Moves(effect, run[i - 1], moves[i - 1], run[i - 1 + 1]);
    }
  }

  /**
   A claim alone licenses nothing: it also answers Ok to somebody who comes second. However
   many supervisors share the ledger, a command is started, or a reply sent, at most once
   exactly when every one of them worked from a current listing.
   */
  lemma {:induction false} OnceIffListingsCurrent(effect: Effect, run: seq<Shared>, moves: seq<Move>, n: nat)
    requires IsSharedRun(effect, run, moves) && n < |run|
    ensures run[n].count <= 1 <==> forall i :: 0 <= i < n ==> CurrentAt(effect, run[i], moves[i])
  {
    if n > 0 {
      OnceIffListingsCurrent(effect, run, moves, n - 1);
      SharedRunInv(effect, run, moves, n - 1);
      assert Moves(effect, run[n - 1], moves[n - 1], run[n - 1 + 1]);
    }
  }

  /** A supervisor that lists right before it acts is current, so it is enough that all do. */
  lemma FreshListingsActOnce(effect: Effect, run: seq<Shared>, moves: seq<Move>, n: nat)
    requires IsSharedRun(effect, run, moves) && n < |run|
    requires forall i :: 0 <= i < |moves| && moves[i].Acts? ==> i > 0 && moves[i - 1] == Lists(moves[i].supervisor)
    ensures run[n].count <= 1
  {
    forall i | 0 <= i < n
      ensures CurrentAt(effect, run[i], moves[i])
    {
      if moves[i].Acts? {
        assert Moves(effect, run[i - 1], moves[i - 1], run[i - 1 + 1]);
      }
    }
    OnceIffListingsCurrent(effect, run, moves, n);
  }

  /** Two supervisors on one ledger: both list, both act, and the command runs, or the reply goes out, twice. */
  lemma TwoSupervisorsActTwice(effect: Effect, op: Operation, at: nat) returns (run: seq<Shared>, moves: seq<Move>)
    requires Ready(effect, op)
    ensures IsSharedRun(effect, run, moves) && run[0].now == op && run[|run| - 1].count == 2
  {
    var claimed := Apply(op, Claim(effect, at)).value;
    var listed := map[0 := op, 1 := op];
    moves := [Lists(0), Lists(1), Acts(0, at), Acts(1, at)];
    run := [Shared(op, map[], 0), Shared(op, map[0 := op], 0), Shared(op, listed, 0),
            Shared(claimed, listed, 1), Shared(claimed, listed, 2)];
    assert map[0 := op][1 := op] == listed;
    assert Moves(effect, run[0], moves[0], run[1]) && Moves(effect, run[1], moves[1], run[2]);
    assert Moves(effect, run[2], moves[2], run[3]) && Moves(effect, run[3], moves[3], run[4]);
  }
}
