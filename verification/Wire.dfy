/**
 The framing of the control channel, both directions: one header line, then exactly the
 bytes the header declares. JSON is abstract here; a lawful codec is one whose texts hold
 no newline (section 7 of RFC 8259 escapes them), decode to what was encoded, and have no
 proper prefix that decodes, as no proper prefix of a JSON object is JSON.
 */
module Wire {
  import opened Common

  const NEWLINE: Byte := 0x0A
  const MAX_CONTROL_LINE_BYTES: nat := 4 * 1024 * 1024
  const MAX_WORLD_REPLY_PAYLOAD: nat := 64 * 1024 * 1024

  /** A header: what it is about, the length it declares, and the failure it reports instead. */
  datatype Header = Header(meta: nat, len: Option<nat>, fault: Option<nat>)

  datatype Codec = Codec(encode: Header -> seq<Byte>, decode: seq<Byte> -> Option<Header>)
  {
    ghost predicate Lawful() {
      forall h: Header ::
        && encode(h) != []
        && NEWLINE !in encode(h)
        && decode(encode(h)) == Some(h)
        && forall n :: 0 <= n < |encode(h)| ==> decode(encode(h)[..n]).None?
    }
  }

  // ---- lines --------------------------------------------------------------------------

  /** Where the first newline is, or the length when there is none. */
  function NewlineAt(s: seq<Byte>): (i: nat)
    ensures i <= |s|
    ensures NEWLINE !in s[..i]
    ensures i < |s| ==> s[i] == NEWLINE
  {
    if s == [] then 0
    else if s[0] == NEWLINE then 0
    else
      var i := NewlineAt(s[1..]);
      assert s[..i + 1] == [s[0]] + s[1..][..i];
      i + 1
  }

  /** A line read of at most `bound` bytes: through the newline, or to the bound or the end. */
  function LineLength(s: seq<Byte>, bound: nat): (n: nat)
    ensures n <= |s| && n <= bound
  {
    var i := NewlineAt(s);
    if i < |s| && i + 1 <= bound then i + 1
    else if |s| <= bound then |s| else bound
  }

  function Chomp(line: seq<Byte>): (text: seq<Byte>) {
    if line != [] && line[|line| - 1] == NEWLINE then line[..|line| - 1] else line
  }

  lemma {:induction false} NewlineAfter(text: seq<Byte>, rest: seq<Byte>)
    requires NEWLINE !in text
    ensures NewlineAt(text + [NEWLINE] + rest) == |text|
  {
    var s := text + [NEWLINE] + rest;
    if text != [] {
      assert s[0] == text[0] && s[1..] == text[1..] + [NEWLINE] + rest;
      NewlineAfter(text[1..], rest);
    }
  }

  lemma {:induction false} NoNewline(s: seq<Byte>)
    requires NEWLINE !in s
    ensures NewlineAt(s) == |s|
  {
    if s != [] {
      NoNewline(s[1..]);
    }
  }

  lemma LineOfText(text: seq<Byte>, rest: seq<Byte>, bound: nat)
    requires NEWLINE !in text && |text| < bound
    ensures LineLength(text + [NEWLINE] + rest, bound) == |text| + 1
    ensures Chomp((text + [NEWLINE] + rest)[..|text| + 1]) == text
  {
    NewlineAfter(text, rest);
    assert (text + [NEWLINE] + rest)[..|text| + 1] == text + [NEWLINE];
  }

  // ---- replies: what the client reads -------------------------------------------------

  /** A World reply: bytes, or a failure that carries none. */
  datatype Reply = Reply(meta: nat, outcome: Result<seq<Byte>, nat>)

  function FrameReply(reply: Reply): (framed: (Header, seq<Byte>))
    ensures Declares(framed.0, framed.1)
  {
    match reply.outcome
    case Ok(payload) => (Header(reply.meta, Some(|payload|), None), payload)
    case Err(e) => (Header(reply.meta, None, Some(e)), [])
  }

  /** The reply a framed answer stands for; None when the header is neither. */
  function ReplyOf(header: Header, payload: seq<Byte>): (r: Option<Reply>) {
    if header.len.Some? then Some(Reply(header.meta, Ok(payload)))
    else if header.fault.Some? then Some(Reply(header.meta, Err(header.fault.value)))
    else None
  }

  /** A World's reply, success or failure, comes out of the client as it went into the daemon. */
  lemma ReplyReadsBack(c: Codec, reply: Reply, after: seq<Byte>)
    requires c.Lawful() && Fits(c, FrameReply(reply).0)
    ensures var (header, payload) := FrameReply(reply);
            var r := ReadFrame(c, Frame(c, header, payload) + after);
            r.ReadOk? && ReplyOf(r.header, r.payload) == Some(reply) && r.rest == after
  {
    FrameReadsBack(c, FrameReply(reply).0, FrameReply(reply).1, after);
  }

  /** What travels for one header and its bytes, in either direction. */
  function Frame(c: Codec, header: Header, payload: seq<Byte>): (s: seq<Byte>)
    ensures |s| == |c.encode(header)| + 1 + |payload|
  {
    c.encode(header) + [NEWLINE] + payload
  }

  predicate Declares(header: Header, payload: seq<Byte>) {
    match header.len
    case None => payload == []
    case Some(n) => n == |payload|
  }

  datatype ReadResult =
    | ReadOk(header: Header, payload: seq<Byte>, rest: seq<Byte>)
    | ReadClosed
    | ReadFailed

  function RefuseOversized(len: nat): (r: Option<nat>)
    ensures r.Some? <==> len <= MAX_WORLD_REPLY_PAYLOAD
    ensures r.Some? ==> r.value == len
  {
    if len > MAX_WORLD_REPLY_PAYLOAD then None else Some(len)
  }

  /** One framed answer read from `s`, all the daemon will send before it closes. */
  function ReadFrame(c: Codec, s: seq<Byte>): (r: ReadResult) {
    var n := LineLength(s, MAX_CONTROL_LINE_BYTES);
    if n == 0 then ReadClosed
    else
      var rest := s[n..];
      match c.decode(Chomp(s[..n]))
      case None => ReadFailed
      case Some(header) =>
        match header.len
        case None => ReadOk(header, [], rest)
        case Some(len) =>
          match RefuseOversized(len)
          case None => ReadFailed
          case Some(want) =>
            if |rest| < want then ReadFailed else ReadOk(header, rest[..want], rest[want..])
  }

  predicate Fits(c: Codec, header: Header) {
    |c.encode(header)| < MAX_CONTROL_LINE_BYTES
    && (header.len.Some? ==> header.len.value <= MAX_WORLD_REPLY_PAYLOAD)
  }

  lemma FitsInNumbers(c: Codec, header: Header)
    ensures Fits(c, header) <==>
              |c.encode(header)| < 4_194_304 && (header.len.Some? ==> header.len.value <= 67_108_864)
  {
  }

  /** A frame is read back whole, and nothing behind it is touched, exactly when it fits. */
  lemma FrameReadsBack(c: Codec, header: Header, payload: seq<Byte>, after: seq<Byte>)
    requires c.Lawful() && Declares(header, payload)
    ensures ReadFrame(c, Frame(c, header, payload) + after) == ReadOk(header, payload, after)
            <==> Fits(c, header)
    ensures !Fits(c, header) && |c.encode(header)| != MAX_CONTROL_LINE_BYTES ==>
              ReadFrame(c, Frame(c, header, payload) + after) == ReadFailed
  {
    var text := c.encode(header);
    var s := Frame(c, header, payload) + after;
    assert s == text + [NEWLINE] + (payload + after);
    if |text| < MAX_CONTROL_LINE_BYTES {
      LineOfText(text, payload + after, MAX_CONTROL_LINE_BYTES);
      assert s[|text| + 1..] == payload + after;
      assert (payload + after)[..|payload|] == payload && (payload + after)[|payload|..] == after;
    } else if |text| == MAX_CONTROL_LINE_BYTES {
      ExactBoundLosesStep(c, header, payload, after);
    } else {
      LongHeaderFails(c, header, payload + after);
    }
  }

  lemma LongHeaderFails(c: Codec, header: Header, rest: seq<Byte>)
    requires c.Lawful() && |c.encode(header)| > MAX_CONTROL_LINE_BYTES
    ensures ReadFrame(c, c.encode(header) + [NEWLINE] + rest) == ReadFailed
  {
    var text := c.encode(header);
    NewlineAfter(text, rest);
    var s := text + [NEWLINE] + rest;
    var n := MAX_CONTROL_LINE_BYTES;
    assert s[..n] == text[..n];
    CutTextFails(c, header, n);
  }

  /**
   A header of exactly the line bound is taken without its newline, and still decodes. The
   newline is then read as the first byte of the payload: the answer is Ok, its bytes are
   wrong, and the connection is left one byte short of the next frame.
   */
  lemma ExactBoundLosesStep(c: Codec, header: Header, payload: seq<Byte>, after: seq<Byte>)
    requires c.Lawful() && Declares(header, payload) && |c.encode(header)| == MAX_CONTROL_LINE_BYTES
    ensures header.len.None? || header.len.value <= MAX_WORLD_REPLY_PAYLOAD ==>
              var shifted := [NEWLINE] + payload + after;
              ReadFrame(c, Frame(c, header, payload) + after)
              == ReadOk(header, shifted[..|payload|], shifted[|payload|..])
  {
    var text := c.encode(header);
    var s := Frame(c, header, payload) + after;
    var shifted := [NEWLINE] + payload + after;
    assert s == text + [NEWLINE] + (payload + after);
    NewlineAfter(text, payload + after);
    assert s[..|text|] == text && s[|text|..] == shifted;
    CutTextFails(c, header, |text|);
    assert text[..|text|] == text;
  }

  lemma CutTextFails(c: Codec, header: Header, n: nat)
    requires c.Lawful() && 0 < n <= |c.encode(header)|
    ensures Chomp(c.encode(header)[..n]) == c.encode(header)[..n]
    ensures n < |c.encode(header)| ==> c.decode(Chomp(c.encode(header)[..n])).None?
  {
    assert c.encode(header)[..n][n - 1] == c.encode(header)[n - 1];
  }

  type Framed = (Header, seq<Byte>)

  function FrameAll(c: Codec, frames: seq<Framed>): (s: seq<Byte>) {
    if frames == [] then [] else Frame(c, frames[0].0, frames[0].1) + FrameAll(c, frames[1..])
  }

  /** Read frames one after another until the stream is exhausted or one fails. */
  function ReadAll(c: Codec, s: seq<Byte>): (frames: seq<Framed>)
    decreases |s|
  {
    match ReadFrame(c, s)
    case ReadOk(h, p, rest) => [(h, p)] + (if |rest| < |s| then ReadAll(c, rest) else [])
    case _ => []
  }

  lemma NothingToRead(c: Codec)
    ensures ReadFrame(c, []) == ReadClosed
  {
  }

  /** Answers written back to back are read back as the same answers. */
  lemma {:induction false} StreamReadsBack(c: Codec, frames: seq<Framed>)
    requires c.Lawful()
    requires forall i :: 0 <= i < |frames| ==> Declares(frames[i].0, frames[i].1) && Fits(c, frames[i].0)
    ensures ReadAll(c, FrameAll(c, frames)) == frames
  {
    hide ReadFrame, Frame, Fits, Declares, Codec.Lawful;
    if frames == [] {
      NothingToRead(c);
    } else {
      StreamReadsBack(c, frames[1..]);
      FrameReadsBack(c, frames[0].0, frames[0].1, FrameAll(c, frames[1..]));
      assert frames == [frames[0]] + frames[1..];
    }
  }

  // ---- a reused connection stays in step ----------------------------------------------

  /** What a daemon writes for one request: a response line, or a framed reply. */
  datatype Answer = LineAnswer(text: seq<Byte>) | FrameAnswer(header: Header, payload: seq<Byte>)

  ghost predicate Conforming(c: Codec, a: Answer) {
    match a
    case LineAnswer(text) => NEWLINE !in text
    case FrameAnswer(header, payload) =>
      Declares(header, payload) && |c.encode(header)| != MAX_CONTROL_LINE_BYTES
  }

  function Written(c: Codec, a: Answer): (s: seq<Byte>) {
    match a
    case LineAnswer(text) => text + [NEWLINE]
    case FrameAnswer(header, payload) => Frame(c, header, payload)
  }

  function WrittenAll(c: Codec, answers: seq<Answer>): (s: seq<Byte>) {
    if answers == [] then [] else Written(c, answers[0]) + WrittenAll(c, answers[1..])
  }

  /** The bytes left after a round trip that answered Ok, or None when it did not. */
  function RoundTrip(c: Codec, framed: bool, s: seq<Byte>): (rest: Option<seq<Byte>>) {
    if framed then
      match ReadFrame(c, s)
      case ReadOk(_, _, rest) => Some(rest)
      case _ => None
    else
      var n := LineLength(s, |s|);
      if n == 0 then None else Some(s[n..])
  }

  lemma PrefixNewline(s: seq<Byte>, n: nat)
    requires n <= |s|
    ensures NewlineAt(s[..n]) == if NewlineAt(s) < n then NewlineAt(s) else n
  {
    hide NewlineAt;
    var i, j := NewlineAt(s), NewlineAt(s[..n]);
  }

  /**
   One round trip. `s` is what the connection will still carry: the answer and what
   follows it, cut at `n` where the daemon stops. If the round trip answers Ok, either the
   whole answer was taken and nothing behind it, or the connection is at its end.
   */
  lemma RoundTripKeepsStep(c: Codec, a: Answer, more: seq<Byte>, n: nat)
    requires c.Lawful() && Conforming(c, a) && n <= |Written(c, a) + more|
    ensures var s := (Written(c, a) + more)[..n];
            var r := RoundTrip(c, a.FrameAnswer?, s);
            r.Some? ==>
              || r.value == []
              || (|Written(c, a)| <= n && r.value == more[..n - |Written(c, a)|])
    ensures |Written(c, a)| <= n && (a.FrameAnswer? ==> Fits(c, a.header)) ==>
              RoundTrip(c, a.FrameAnswer?, (Written(c, a) + more)[..n]) == Some(more[..n - |Written(c, a)|])
  {
    match a
    case LineAnswer(text) => LineKeepsStep(c, text, more, n);
    case FrameAnswer(header, payload) => FrameKeepsStep(c, header, payload, more, n);
  }

  lemma LineKeepsStep(c: Codec, text: seq<Byte>, more: seq<Byte>, n: nat)
    requires NEWLINE !in text && n <= |text + [NEWLINE] + more|
    ensures var s := (text + [NEWLINE] + more)[..n];
            var r := RoundTrip(c, false, s);
            r.Some? ==> r.value == [] || (|text| + 1 <= n && r.value == more[..n - |text| - 1])
    ensures |text| + 1 <= n ==>
              RoundTrip(c, false, (text + [NEWLINE] + more)[..n]) == Some(more[..n - |text| - 1])
  {
    var whole := text + [NEWLINE] + more;
    NewlineAfter(text, more);
    PrefixNewline(whole, n);
    if |text| < n {
      assert whole[..n][|text| + 1..] == more[..n - |text| - 1];
    }
  }

  lemma FrameKeepsStep(c: Codec, header: Header, payload: seq<Byte>, more: seq<Byte>, n: nat)
    requires c.Lawful() && Declares(header, payload) && |c.encode(header)| != MAX_CONTROL_LINE_BYTES
    requires n <= |Frame(c, header, payload) + more|
    ensures var s := (Frame(c, header, payload) + more)[..n];
            var r := RoundTrip(c, true, s);
            r.Some? ==> r.value == [] || (|Frame(c, header, payload)| <= n && r.value == more[..n - |Frame(c, header, payload)|])
    ensures |Frame(c, header, payload)| <= n && Fits(c, header) ==>
              RoundTrip(c, true, (Frame(c, header, payload) + more)[..n]) == Some(more[..n - |Frame(c, header, payload)|])
  {
    hide ReadFrame, Codec.Lawful, Chomp, NewlineAt, LineLength;
    var text := c.encode(header);
    var whole := Frame(c, header, payload) + more;
    var s := whole[..n];
    assert whole == text + [NEWLINE] + (payload + more);
    var size := |text| + 1 + |payload|;
    if n >= size {
      assert s == Frame(c, header, payload) + more[..n - size];
      FrameReadsBack(c, header, payload, more[..n - size]);
    } else if |text| < n {
      CutPayload(c, header, payload, n - |text| - 1);
      assert s == text + [NEWLINE] + payload[..n - |text| - 1];
    } else {
      assert s == text[..n];
      CutHeader(c, header, n);
    }
  }

  /** A header that arrives whole with too few bytes behind it is never an answer. */
  lemma CutPayload(c: Codec, header: Header, payload: seq<Byte>, k: nat)
    requires c.Lawful() && Declares(header, payload) && k < |payload|
    requires |c.encode(header)| != MAX_CONTROL_LINE_BYTES
    ensures RoundTrip(c, true, c.encode(header) + [NEWLINE] + payload[..k]).None?
  {
    var text := c.encode(header);
    if |text| < MAX_CONTROL_LINE_BYTES {
      var s := text + [NEWLINE] + payload[..k];
      LineOfText(text, payload[..k], MAX_CONTROL_LINE_BYTES);
      assert s[|text| + 1..] == payload[..k];
    } else {
      LongHeaderFails(c, header, payload[..k]);
    }
  }

  /** A header cut short by the close leaves nothing behind it. */
  lemma CutHeader(c: Codec, header: Header, n: nat)
    requires c.Lawful() && n <= |c.encode(header)|
    ensures var r := RoundTrip(c, true, c.encode(header)[..n]); r.Some? ==> r.value == []
  {
    var s := c.encode(header)[..n];
    if n > 0 {
      forall k | 0 <= k < n ensures s[k] != NEWLINE {
        assert s[k] == c.encode(header)[k];
      }
      NoNewline(s);
      if n > MAX_CONTROL_LINE_BYTES {
        assert s[..MAX_CONTROL_LINE_BYTES] == c.encode(header)[..MAX_CONTROL_LINE_BYTES];
        CutTextFails(c, header, MAX_CONTROL_LINE_BYTES);
      }
    }
  }

  // ---- a run of round trips -------------------------------------------------------------

  /**
   What a connection still carries after the round trips of these answers all answered Ok,
   each having asked for the kind of answer it got; None when one did not, and the
   connection was dropped instead of parked.
   */
  function AfterTrips(c: Codec, answers: seq<Answer>, s: seq<Byte>): (rest: Option<seq<Byte>>) {
    if answers == [] then Some(s)
    else
      match RoundTrip(c, answers[0].FrameAnswer?, s)
      case None => None
      case Some(rest) => AfterTrips(c, answers[1..], rest)
  }

  /** `rest` is what follows `written` in the first `n` bytes, or the connection is at its end. */
  ghost predicate InStep(rest: seq<Byte>, written: seq<Byte>, more: seq<Byte>, n: nat)
    requires n <= |written| + |more|
  {
    rest == [] || (|written| <= n && rest == more[..n - |written|])
  }

  ghost predicate AllFit(c: Codec, answers: seq<Answer>) {
    forall i :: 0 <= i < |answers| && answers[i].FrameAnswer? ==> Fits(c, answers[i].header)
  }

  ghost predicate AllConforming(c: Codec, answers: seq<Answer>) {
    forall i :: 0 <= i < |answers| ==> Conforming(c, answers[i])
  }

  /**
   A connection that can be parked is at the start of the next answer or at its end, never
   inside one, wherever the daemon stopped.
   */
  lemma {:induction false} ParkedInStep(c: Codec, answers: seq<Answer>, more: seq<Byte>, n: nat)
    requires c.Lawful() && AllConforming(c, answers)
    requires n <= |WrittenAll(c, answers)| + |more|
    ensures var r := AfterTrips(c, answers, (WrittenAll(c, answers) + more)[..n]);
            r.Some? ==> InStep(r.value, WrittenAll(c, answers), more, n)
  {
    if answers == [] {
      assert WrittenAll(c, answers) + more == more;
    } else {
      hide RoundTrip, Written, WrittenAll, AllConforming, Conforming, Codec.Lawful;
      var first := Written(c, answers[0]);
      FirstTrip(c, answers, more, n);
      var s := (WrittenAll(c, answers) + more)[..n];
      var r := RoundTrip(c, answers[0].FrameAnswer?, s);
      assert AfterTrips(c, answers, s) == if r.None? then None else AfterTrips(c, answers[1..], r.value);
      hide AfterTrips, InStep;
      if r.Some? && r.value != [] {
        ParkedInStep(c, answers[1..], more, n - |first|);
        var end := AfterTrips(c, answers, s);
        if end.Some? {
          StepShifts(end.value, first, WrittenAll(c, answers[1..]), WrittenAll(c, answers), more, n);
        }
      } else if r.Some? {
        EndStaysEnd(c, answers[1..]);
        AtEnd(WrittenAll(c, answers), more, n);
      }
    }
  }

  lemma StepShifts(rest: seq<Byte>, first: seq<Byte>, others: seq<Byte>, written: seq<Byte>, more: seq<Byte>, n: nat)
    requires |written| == |first| + |others| && |first| <= n <= |written| + |more|
    requires InStep(rest, others, more, n - |first|)
    ensures InStep(rest, written, more, n)
  {
  }

  lemma AtEnd(written: seq<Byte>, more: seq<Byte>, n: nat)
    requires n <= |written| + |more|
    ensures InStep([], written, more, n)
  {
  }

  /** Answers that fit and arrived whole are all answers, and leave the connection at what follows. */
  lemma {:induction false} WholeAnswersPark(c: Codec, answers: seq<Answer>, more: seq<Byte>)
    requires c.Lawful() && AllConforming(c, answers) && AllFit(c, answers)
    ensures AfterTrips(c, answers, WrittenAll(c, answers) + more) == Some(more)
  {
    if answers == [] {
      assert WrittenAll(c, answers) + more == more;
    } else {
      hide RoundTrip, Written, WrittenAll, AllConforming, Conforming, AllFit, Codec.Lawful;
      FirstAnswer(c, answers, more);
      WholeAnswersPark(c, answers[1..], more);
    }
  }

  /** A whole answer is taken whole. */
  lemma AnswerTaken(c: Codec, a: Answer, rest: seq<Byte>)
    requires c.Lawful() && Conforming(c, a) && (a.FrameAnswer? ==> Fits(c, a.header))
    ensures RoundTrip(c, a.FrameAnswer?, Written(c, a) + rest) == Some(rest)
  {
    hide RoundTrip, Written, Conforming, Fits, Codec.Lawful;
    var s := Written(c, a) + rest;
    RoundTripKeepsStep(c, a, rest, |s|);
    assert s[..|s|] == s && rest[..|rest|] == rest;
  }

  lemma FirstAnswer(c: Codec, answers: seq<Answer>, more: seq<Byte>)
    requires c.Lawful() && AllConforming(c, answers) && AllFit(c, answers) && answers != []
    ensures AllConforming(c, answers[1..]) && AllFit(c, answers[1..])
    ensures RoundTrip(c, answers[0].FrameAnswer?, WrittenAll(c, answers) + more) == Some(WrittenAll(c, answers[1..]) + more)
  {
    hide RoundTrip, Written, Conforming, Fits, Codec.Lawful;
    assert Conforming(c, answers[0]);
    AnswerTaken(c, answers[0], WrittenAll(c, answers[1..]) + more);
    Associates(Written(c, answers[0]), WrittenAll(c, answers[1..]), more);
  }

  lemma Associates(a: seq<Byte>, b: seq<Byte>, c: seq<Byte>)
    ensures (a + b) + c == a + (b + c)
  {
  }

  lemma FirstTrip(c: Codec, answers: seq<Answer>, more: seq<Byte>, n: nat)
    requires c.Lawful() && AllConforming(c, answers) && answers != []
    requires n <= |WrittenAll(c, answers)| + |more|
    ensures AllConforming(c, answers[1..])
    ensures |WrittenAll(c, answers)| == |Written(c, answers[0])| + |WrittenAll(c, answers[1..])|
    ensures var first := Written(c, answers[0]);
            var r := RoundTrip(c, answers[0].FrameAnswer?, (WrittenAll(c, answers) + more)[..n]);
            r.Some? ==>
              || r.value == []
              || (|first| <= n && r.value == (WrittenAll(c, answers[1..]) + more)[..n - |first|])
  {
    hide RoundTrip, Written, Conforming, Codec.Lawful;
    var first, others := Written(c, answers[0]), WrittenAll(c, answers[1..]);
    assert WrittenAll(c, answers) + more == first + (others + more);
    assert Conforming(c, answers[0]);
    RoundTripKeepsStep(c, answers[0], others + more, n);
  }

  lemma EndStaysEnd(c: Codec, answers: seq<Answer>)
    ensures AfterTrips(c, answers, []) == if answers == [] then Some([]) else None
  {
    if answers != [] {
      assert LineLength([], MAX_CONTROL_LINE_BYTES) == 0;
    }
  }
}
