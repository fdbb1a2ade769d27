/**
 The two re-send layers of the control client, and how often a request can run because of
 them. A transmission is one attempt to put a request on a connection and read its answer.
 What the daemon does is a function of the bytes that reached it; the client sees only
 whether its write succeeded and what came back.
 */
module Resend {
  import opened Common
  import opened Wire

  // ---- what the daemon makes of the bytes that arrive ---------------------------------

  /** Still reading, gone without a word, answered a refusal, or ran the request. */
  datatype Deed = Waits | Closes | Refuses | Dispatches

  /** `ended` is whether the daemon sees the end of the connection behind what arrived. */
  function Serve(c: Codec, arrived: seq<Byte>, ended: bool): (d: Deed) {
    var n := LineLength(arrived, MAX_CONTROL_LINE_BYTES);
    if !ended && n < MAX_CONTROL_LINE_BYTES && (n == 0 || arrived[n - 1] != NEWLINE) then Waits
    else if n == 0 then Closes
    else
      match c.decode(Chomp(arrived[..n]))
      case None => Refuses
      case Some(header) =>
        match header.len
        case None => Dispatches
        case Some(len) =>
          if RefuseOversized(len).None? then Refuses
          else if |arrived[n..]| >= len then Dispatches
          else if ended then Closes else Waits
  }

  lemma NoNewlineIn(c: Codec, header: Header, n: nat)
    requires c.Lawful() && n <= |c.encode(header)|
    ensures NewlineAt(c.encode(header)[..n]) == n
  {
    NoNewline(c.encode(header));
    PrefixNewline(c.encode(header), n);
  }

  /** One request, as the client encodes it. */
  datatype Call = Call(codec: Codec, header: Header, payload: seq<Byte>)
  {
    ghost predicate Valid() {
      codec.Lawful() && Declares(header, payload)
    }

    function Bytes(): (s: seq<Byte>) {
      Frame(codec, header, payload)
    }
  }

  /**
   What a daemon does with the first `n` bytes of a request that fits. It runs it exactly when
   every byte arrived, or, at the end of the stream, every byte but the newline of a request
   without payload: a line that ends with the stream is still a line. It refuses only a header
   that the end of the stream cut short.
   */
  lemma CutRequestRuns(call: Call, n: nat, ended: bool)
    requires call.Valid() && Fits(call.codec, call.header) && n <= |call.Bytes()|
    ensures Serve(call.codec, call.Bytes()[..n], ended).Dispatches? <==>
              n == |call.Bytes()| || (ended && call.payload == [] && n + 1 == |call.Bytes()|)
    ensures Serve(call.codec, call.Bytes()[..n], ended).Refuses? <==> ended && 0 < n < |call.codec.encode(call.header)|
    ensures Serve(call.codec, call.Bytes()[..n], ended).Waits? <==> !ended && n < |call.Bytes()|
    ensures Serve(call.codec, call.Bytes()[..n], ended).Closes? <==>
              ended && (n == 0 || (call.payload != [] && |call.codec.encode(call.header)| <= n < |call.Bytes()|))
  {
    hide Serve, Codec.Lawful;
    var size := |call.codec.encode(call.header)|;
    if n <= size {
      HeaderPartServed(call, n, ended);
    } else {
      WholeHeaderServed(call, n - size - 1, ended);
      assert call.Bytes()[..n] == call.codec.encode(call.header) + [NEWLINE] + call.payload[..n - size - 1];
    }
  }

  lemma HeaderPartServed(call: Call, n: nat, ended: bool)
    requires call.Valid() && Fits(call.codec, call.header) && n <= |call.codec.encode(call.header)|
    ensures var deed := Serve(call.codec, call.Bytes()[..n], ended);
            && (deed.Dispatches? <==> ended && call.payload == [] && n == |call.codec.encode(call.header)|)
            && (deed.Refuses? <==> ended && 0 < n < |call.codec.encode(call.header)|)
            && (deed.Waits? <==> !ended)
            && (deed.Closes? <==> ended && (n == 0 || (call.payload != [] && n == |call.codec.encode(call.header)|)))
  {
    var text := call.codec.encode(call.header);
    var s := call.Bytes()[..n];
    assert s == text[..n];
    NoNewlineIn(call.codec, call.header, n);
    assert LineLength(s, MAX_CONTROL_LINE_BYTES) == n;
    assert s[..n] == s && s[n..] == [];
    if n > 0 {
      assert s[n - 1] == text[n - 1];
      CutTextFails(call.codec, call.header, n);
      if n == |text| {
        assert text[..n] == text;
      }
    }
  }

  lemma WholeHeaderServed(call: Call, k: nat, ended: bool)
    requires call.Valid() && Fits(call.codec, call.header) && k <= |call.payload|
    ensures var deed := Serve(call.codec, call.codec.encode(call.header) + [NEWLINE] + call.payload[..k], ended);
            (deed.Dispatches? <==> k == |call.payload|) && !deed.Refuses? && (k < |call.payload| ==> (deed.Waits? <==> !ended))
  {
    LineOfText(call.codec.encode(call.header), call.payload[..k], MAX_CONTROL_LINE_BYTES);
  }

  /** A request whose header is longer than a line may be is answered, and not run. */
  lemma LongRequestIsRefused(call: Call)
    requires call.Valid() && |call.codec.encode(call.header)| > MAX_CONTROL_LINE_BYTES
    ensures Serve(call.codec, call.Bytes(), false).Refuses?
  {
    var c, text := call.codec, call.codec.encode(call.header);
    var s, n := call.Bytes(), MAX_CONTROL_LINE_BYTES;
    assert s == text + [NEWLINE] + call.payload;
    NewlineAfter(text, call.payload);
    assert s[..n] == text[..n];
    CutTextFails(c, call.header, n);
  }

  /** A header that declares more than may be carried is answered at once, and nothing is read or run. */
  lemma OversizedIsRefused(call: Call, k: nat, ended: bool)
    requires call.Valid() && |call.codec.encode(call.header)| < MAX_CONTROL_LINE_BYTES
    requires call.header.len.Some? && call.header.len.value > MAX_WORLD_REPLY_PAYLOAD && k <= |call.payload|
    ensures Serve(call.codec, call.codec.encode(call.header) + [NEWLINE] + call.payload[..k], ended).Refuses?
  {
    LineOfText(call.codec.encode(call.header), call.payload[..k], MAX_CONTROL_LINE_BYTES);
  }

  /**
   At exactly the bound the line is taken without its newline, which is then read as the first
   byte of the payload: the daemon dispatches one byte early, on a payload shifted by one.
   */
  lemma ExactBoundRunsEarly(call: Call, n: nat)
    requires call.Valid() && |call.codec.encode(call.header)| == MAX_CONTROL_LINE_BYTES
    requires call.header.len.Some? ==> call.header.len.value <= MAX_WORLD_REPLY_PAYLOAD
    requires n <= |call.Bytes()|
    ensures Serve(call.codec, call.Bytes()[..n], false).Dispatches? <==> n + 1 >= |call.Bytes()|
  {
    var c, text := call.codec, call.codec.encode(call.header);
    var s := call.Bytes()[..n];
    if n < |text| {
      assert s == text[..n];
      NoNewlineIn(c, call.header, n);
      assert n > 0 ==> s[n - 1] == text[n - 1];
    } else {
      assert call.Bytes() == text + [NEWLINE] + call.payload;
      NewlineAfter(text, call.payload);
      PrefixNewline(call.Bytes(), n);
      assert s[..|text|] == text && text[..|text|] == text;
      CutTextFails(c, call.header, |text|);
    }
  }

  // ---- one transmission -----------------------------------------------------------------

  /**
   `sent`: the write and the flush reported success. `arrived`: how much of the request the
   daemon was handed, and `ended` whether the end of the connection followed. `acted`: the
   daemon lived to act on it. `answer`: the bytes that came back, `intact` if they are a
   whole answer that decodes.
   */
  datatype Transmission = Transmission(
    sent: bool, arrived: nat, ended: bool, acted: bool, answer: seq<Byte>, intact: bool)

  predicate Ran(call: Call, t: Transmission) {
    t.acted && t.arrived <= |call.Bytes()| && Serve(call.codec, call.Bytes()[..t.arrived], t.ended).Dispatches?
  }

  /**
   What can happen on a connection. A client that waits for an answer has not closed; a whole
   answer has at least a byte; and a daemon answers only what it has run or refused.
   */
  predicate Possible(call: Call, t: Transmission) {
    && t.arrived <= |call.Bytes()|
    && (t.sent ==> !t.ended)
    && (t.intact ==> t.answer != [])
    && (t.answer != [] ==>
          t.acted && var deed := Serve(call.codec, call.Bytes()[..t.arrived], t.ended); deed.Dispatches? || deed.Refuses?)
  }

  /** The classification of a round trip that did not answer. */
  datatype Interrupted = Undelivered | Closed | Failed

  /** A failed read is classified by whether any of the answer had arrived. */
  function Unanswered(received: seq<Byte>): (i: Interrupted) {
    if received == [] then Closed else Failed
  }

  function Classify(t: Transmission): (r: Result<(), Interrupted>) {
    if !t.sent then Err(Undelivered)
    else if t.intact then Ok(())
    else Err(Unanswered(t.answer))
  }

  predicate MayResend(reused: bool, i: Interrupted) {
    reused && (i == Undelivered || i == Closed)
  }

  /** What an answer is evidence of: the request fitted, every byte arrived, and it ran. */
  lemma AnswerMeansRun(call: Call, t: Transmission)
    requires call.Valid() && Fits(call.codec, call.header) && Possible(call, t) && t.sent && t.answer != []
    ensures t.arrived == |call.Bytes()| && Ran(call, t)
  {
    CutRequestRuns(call, t.arrived, t.ended);
  }

  /** What a failed write is evidence of: the request ran exactly when its bytes all but arrived. */
  lemma FailedWriteRanIff(call: Call, t: Transmission)
    requires call.Valid() && Fits(call.codec, call.header) && Possible(call, t) && !t.sent
    ensures Ran(call, t) <==>
              t.acted && (t.arrived == |call.Bytes()|
                          || (t.ended && call.payload == [] && t.arrived + 1 == |call.Bytes()|))
  {
    CutRequestRuns(call, t.arrived, t.ended);
  }

  // ---- the pooled exchange ----------------------------------------------------------------

  datatype Attempt = NoConnection | Sent(transmission: Transmission)

  /** What an exchange will meet: a parked connection or not, and each attempt's fate. */
  datatype Weather = Weather(reused: bool, first: Attempt, second: Attempt)

  /** The error a caller sees; only NotSent is a licence to send again. */
  datatype Fault = NotSent | Unknown

  function IntoError(i: Interrupted): (f: Fault) {
    if i == Undelivered then NotSent else Unknown
  }

  datatype Trace = Trace(result: Result<(), Fault>, sent: seq<Transmission>)

  /** A second attempt, on a connection this call opened: its failure is reported, never re-sent. */
  function Fresh(a: Attempt): (t: Trace) {
    match a
    case NoConnection => Trace(Err(NotSent), [])
    case Sent(x) =>
      match Classify(x)
      case Ok(_) => Trace(Ok(()), [x])
      case Err(i) => Trace(Err(IntoError(i)), [x])
  }

  function Exchange(w: Weather): (t: Trace) {
    match w.first
    case NoConnection => Trace(Err(NotSent), [])
    case Sent(x) =>
      match Classify(x)
      case Ok(_) => Trace(Ok(()), [x])
      case Err(i) =>
        if !MayResend(w.reused, i) then Trace(Err(IntoError(i)), [x])
        else
          var again := Fresh(w.second);
          Trace(again.result, [x] + again.sent)
  }

  /** The caller's layer: stand a daemon up and send once more, if nothing was sent. */
  function Request(one: Weather, ensured: bool, two: Weather): (t: Trace) {
    var first := Exchange(one);
    match first.result
    case Ok(_) => first
    case Err(Unknown) => first
    case Err(NotSent) =>
      if !ensured then first
      else
        var second := Exchange(two);
        Trace(if second.result.Ok? then Ok(()) else Err(Unknown), first.sent + second.sent)
  }

  // ---- how often it ran ---------------------------------------------------------------------

  function Runs(call: Call, sent: seq<Transmission>): (n: nat) {
    if sent == [] then 0 else (if Ran(call, sent[0]) then 1 else 0) + Runs(call, sent[1..])
  }

  lemma {:induction false} RunsConcat(call: Call, a: seq<Transmission>, b: seq<Transmission>)
    ensures Runs(call, a + b) == Runs(call, a) + Runs(call, b)
  {
    if a == [] {
      assert a + b == b;
    } else {
      assert (a + b)[1..] == a[1..] + b;
      RunsConcat(call, a[1..], b);
    }
  }

  lemma RunsOfOne(call: Call, t: Transmission)
    ensures Runs(call, [t]) == if Ran(call, t) then 1 else 0
  {
    assert [t][1..] == [];
  }

  /** An attempt that went out and ran. */
  predicate AttemptRan(call: Call, a: Attempt) {
    a.Sent? && Ran(call, a.transmission)
  }

  /** The guard of the re-send: a reused connection, and a failed write or not one byte back. */
  predicate Retries(w: Weather) {
    w.reused && w.first.Sent?
    && (!w.first.transmission.sent || (!w.first.transmission.intact && w.first.transmission.answer == []))
  }

  /** The attempt whose outcome an exchange reports. */
  function LastAttempt(w: Weather): (a: Attempt) {
    if Retries(w) then w.second else w.first
  }

  /** The attempt never got a connection, or its write failed. */
  predicate Unsent(a: Attempt) {
    a.NoConnection? || !a.transmission.sent
  }

  lemma ExchangeCount(call: Call, w: Weather)
    ensures |Exchange(w).sent| <= 2
    ensures Runs(call, Exchange(w).sent)
            == (if AttemptRan(call, w.first) then 1 else 0) + (if Retries(w) && AttemptRan(call, w.second) then 1 else 0)
    ensures Exchange(w).result == Err(NotSent) <==> Unsent(LastAttempt(w))
    ensures Exchange(w).result.Ok? <==>
              LastAttempt(w).Sent? && LastAttempt(w).transmission.sent && LastAttempt(w).transmission.intact
  {
    if w.first.Sent? {
      var x := w.first.transmission;
      RunsOfOne(call, x);
      if Retries(w) {
        RunsConcat(call, [x], Fresh(w.second).sent);
        if w.second.Sent? {
          RunsOfOne(call, w.second.transmission);
        }
      }
    }
  }

  /** An exchange runs its request twice exactly when the re-send follows a run nobody heard of. */
  lemma ExchangeRepeatsIff(call: Call, w: Weather)
    ensures Runs(call, Exchange(w).sent) > 1 <==>
              Retries(w) && AttemptRan(call, w.first) && AttemptRan(call, w.second)
    ensures !w.reused ==> Runs(call, Exchange(w).sent) <= 1
  {
    ExchangeCount(call, w);
  }

  predicate AnyRan(call: Call, w: Weather) {
    AttemptRan(call, w.first) || (Retries(w) && AttemptRan(call, w.second))
  }

  predicate Repeats(call: Call, w: Weather) {
    Retries(w) && AttemptRan(call, w.first) && AttemptRan(call, w.second)
  }

  /**
   Through both layers, on any weather. A request runs more than once exactly when one
   exchange repeats it, or the first ends unsent although it ran and the second runs it
   again. So a caller on connections of its own, whose first attempt found nobody, or who
   does not stand a daemon up, never repeats anything.
   */
  lemma RequestRepeatsIff(call: Call, one: Weather, ensured: bool, two: Weather)
    ensures Runs(call, Request(one, ensured, two).sent) > 1 <==>
              || Repeats(call, one)
              || (Unsent(LastAttempt(one)) && ensured
                  && (Repeats(call, two) || (AnyRan(call, one) && AnyRan(call, two))))
    ensures !one.reused && !two.reused && (one.first.NoConnection? || !ensured) ==>
              Runs(call, Request(one, ensured, two).sent) <= 1
  {
    ExchangeCount(call, one);
    ExchangeCount(call, two);
    RunsConcat(call, Exchange(one).sent, Exchange(two).sent);
  }

  predicate Answered(a: Attempt) {
    a.Sent? && a.transmission.sent && a.transmission.intact
  }

  /**
   What the caller is told. Ok exactly when the first exchange's last attempt was answered, or
   ended unsent, a daemon was stood up and the second exchange's was; a licence to send again
   exactly when the first ended unsent and no daemon could be stood up.
   */
  lemma RequestResultIff(call: Call, one: Weather, ensured: bool, two: Weather)
    ensures Request(one, ensured, two).result.Ok? <==>
              Answered(LastAttempt(one)) || (Unsent(LastAttempt(one)) && ensured && Answered(LastAttempt(two)))
    ensures Request(one, ensured, two).result == Err(NotSent) <==> Unsent(LastAttempt(one)) && !ensured
    ensures Runs(call, Request(one, ensured, two).sent)
            == Runs(call, Exchange(one).sent)
               + (if Unsent(LastAttempt(one)) && ensured then Runs(call, Exchange(two).sent) else 0)
  {
    ExchangeCount(call, one);
    ExchangeCount(call, two);
    RunsConcat(call, Exchange(one).sent, Exchange(two).sent);
  }

  // ---- what the premise buys ------------------------------------------------------------------

  /** The premise of the rule: a connection that ended without one byte of answer carried no run. */
  predicate SilenceIsIdle(call: Call, a: Attempt) {
    a.Sent? && a.transmission.sent && a.transmission.answer == [] ==> !Ran(call, a.transmission)
  }

  /** A failed write fell short of the request by more than the newline of a bare line. */
  predicate WriteFellShort(call: Call, a: Attempt) {
    a.Sent? && !a.transmission.sent ==>
      a.transmission.arrived + (if call.payload == [] then 1 else 0) < |call.Bytes()|
  }

  predicate AttemptSound(call: Call, a: Attempt) {
    (a.Sent? ==> Possible(call, a.transmission)) && SilenceIsIdle(call, a) && WriteFellShort(call, a)
  }

  predicate Sound(call: Call, w: Weather) {
    AttemptSound(call, w.first) && AttemptSound(call, w.second)
  }

  lemma SoundAttempt(call: Call, a: Attempt)
    requires call.Valid() && Fits(call.codec, call.header) && AttemptSound(call, a)
    ensures Unsent(a) ==> !AttemptRan(call, a)
    ensures a.Sent? && a.transmission.sent && a.transmission.answer == [] ==> !AttemptRan(call, a)
    ensures a.Sent? && a.transmission.sent && a.transmission.intact ==> AttemptRan(call, a)
  {
    if a.Sent? {
      var t := a.transmission;
      if !t.sent {
        FailedWriteRanIff(call, t);
      } else if t.answer != [] {
        AnswerMeansRun(call, t);
      }
    }
  }

  /** Under the premise one exchange runs its request at most once; Ok means it ran, unsent that it did not. */
  lemma ExchangeRuns(call: Call, w: Weather)
    requires call.Valid() && Fits(call.codec, call.header) && Sound(call, w)
    ensures Runs(call, Exchange(w).sent) <= 1
    ensures Exchange(w).result.Ok? ==> Runs(call, Exchange(w).sent) == 1
    ensures Exchange(w).result == Err(NotSent) ==> Runs(call, Exchange(w).sent) == 0
  {
    ExchangeCount(call, w);
    SoundAttempt(call, w.first);
    SoundAttempt(call, w.second);
  }

  /** Under the premise a request runs at most once, in at most four transmissions. */
  lemma RequestRunsAtMostOnce(call: Call, one: Weather, ensured: bool, two: Weather)
    requires call.Valid() && Fits(call.codec, call.header) && Sound(call, one) && Sound(call, two)
    ensures |Request(one, ensured, two).sent| <= 4
    ensures Runs(call, Request(one, ensured, two).sent) <= 1
    ensures Request(one, ensured, two).result.Ok? ==> Runs(call, Request(one, ensured, two).sent) == 1
    ensures Request(one, ensured, two).result == Err(NotSent) ==> Runs(call, Request(one, ensured, two).sent) == 0
  {
    ExchangeCount(call, one);
    ExchangeCount(call, two);
    ExchangeRuns(call, one);
    ExchangeRuns(call, two);
    RunsConcat(call, Exchange(one).sent, Exchange(two).sent);
  }

  /** A reused connection whose daemon ran the request and died before answering repeats it. */
  lemma SilentDeathRepeats(call: Call)
    requires call.Valid() && Fits(call.codec, call.header)
    ensures var n := |call.Bytes()|;
            var silent := Transmission(true, n, false, true, [], false);
            var answered := Transmission(true, n, false, true, [NEWLINE], true);
            var t := Exchange(Weather(true, Sent(silent), Sent(answered)));
            Possible(call, silent) && Possible(call, answered) && t.result.Ok? && Runs(call, t.sent) == 2
  {
    var n := |call.Bytes()|;
    CutRequestRuns(call, n, false);
    ExchangeCount(call, Weather(true, Sent(Transmission(true, n, false, true, [], false)),
                                Sent(Transmission(true, n, false, true, [NEWLINE], true))));
  }
}
