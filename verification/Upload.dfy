/**
 A declared-length upload crossing from the connection to the sealer: a pump that reads
 whole pieces, a channel of two pieces, and a blocking reader. The two ends are separate
 tasks; any interleaving of them is a sequence of `PumpStep`, `Cancel` and `Read` calls,
 and a blocked reader is one that waits while the pump takes its steps.
 */
module Upload {
  import opened Common

  const UPLOAD_PIECE_BYTES: nat := 256 * 1024
  const UPLOAD_PIECES_IN_FLIGHT: nat := 2

  datatype UploadError = ConnectionEnded | UnexpectedEof

  datatype Filled = Ready | Complete | Broken(error: UploadError)

  type Piece = Result<seq<Byte>, UploadError>

  /** The bytes in a channel, errors aside. */
  function Bytes(queue: seq<Piece>): (s: seq<Byte>) {
    if queue == [] then []
    else (if queue[0].Ok? then queue[0].value else []) + Bytes(queue[1..])
  }

  lemma {:induction false} BytesAppend(queue: seq<Piece>, p: Piece)
    ensures Bytes(queue + [p]) == Bytes(queue) + (if p.Ok? then p.value else [])
  {
    if queue == [] {
      assert queue + [p] == [p] && [p][1..] == [];
    } else {
      assert (queue + [p])[1..] == queue[1..] + [p];
      BytesAppend(queue[1..], p);
    }
  }

  class Transfer {
    const source: seq<Byte>     // all the connection carries before it ends
    const declared: nat
    // the pump
    var position: nat           // bytes taken from the connection
    var left: nat
    var pumping: bool
    // the channel
    var queue: seq<Piece>
    // the reader
    var current: seq<Byte>
    var at: nat
    var outstanding: nat
    // history
    ghost var returned: seq<Byte>
    ghost var cancelled: bool
    ghost var erred: bool

    ghost predicate Accounts()
      reads this
    {
      && left <= declared && declared - left <= |source|
      && at <= |current|
      && returned + current[at..] + Bytes(queue) == source[..declared - left]
      && |returned| + outstanding == declared
    }

    ghost predicate Channel()
      reads this
    {
      && |queue| <= UPLOAD_PIECES_IN_FLIGHT
      && (forall i :: 0 <= i < |queue| && queue[i].Ok? ==> queue[i].value != [])
      && (forall i :: 0 <= i < |queue| && queue[i].Err? ==>
            i == |queue| - 1 && !pumping && left > 0 && queue[i].error == ConnectionEnded)
    }

    ghost predicate Endings()
      reads this
    {
      && (pumping ==> position == declared - left && !cancelled)
      && (!pumping && left > 0 ==> cancelled || |source| < declared)
      && (!pumping && left > 0 && !cancelled && !erred ==> queue != [] && queue[|queue| - 1].Err?)
      && (!pumping && left == 0 ==> position == declared)
      && (erred ==> !pumping && left > 0 && queue == [] && at == |current|)
    }

    ghost predicate Valid()
      reads this
    {
      Accounts() && Channel() && Endings()
    }

    constructor (source: seq<Byte>, declared: nat)
      ensures Valid() && this.source == source && this.declared == declared
      ensures returned == [] && !cancelled && !erred && pumping
    {
      this.source, this.declared := source, declared;
      position, left, pumping := 0, declared, true;
      queue, current, at, outstanding := [], [], 0, declared;
      returned, cancelled, erred := [], false, false;
    }

    /** One turn of the pump: a whole piece, an error piece, or the end of the loop. */
    method PumpStep()
      requires Valid() && pumping && |queue| < UPLOAD_PIECES_IN_FLIGHT
      modifies this`position, this`left, this`pumping, this`queue
      ensures Valid()
      ensures pumping ==> left < old(left) && |queue| == |old(queue)| + 1
      ensures var want := if old(left) < 262_144 then old(left) else 262_144;
              && (old(left) == 0 ==> !pumping && queue == old(queue) && left == 0)
              && (old(left) > 0 && old(position) + want <= |source| ==>
                    pumping && left == old(left) - want && position == old(position) + want
                    && queue == old(queue) + [Ok(source[old(position)..old(position) + want])])
              && (old(left) > 0 && old(position) + want > |source| ==>
                    !pumping && left == old(left) && position == |source| && queue == old(queue) + [Err(ConnectionEnded)])
      ensures !pumping && left == 0 ==> position == declared
    {
      hide Bytes;
      if left == 0 {
        pumping := false;
        return;
      }
      var want := if left < UPLOAD_PIECE_BYTES then left else UPLOAD_PIECE_BYTES;
      if position + want <= |source| {
        var piece := source[position..position + want];
        BytesAppend(queue, Ok(piece));
        assert source[..position + want] == source[..position] + piece;
        queue := queue + [Ok(piece)];
        position := position + want;
        left := left - want;
        assert returned + current[at..] + Bytes(queue) == source[..position];
      } else {
        BytesAppend(queue, Err(ConnectionEnded));
        assert Bytes(queue + [Err(ConnectionEnded)]) == Bytes(queue);
        queue := queue + [Err(ConnectionEnded)];
        position := |source|;
        pumping := false;
      }
    }

    /** The pump's task is dropped: the caller went away mid-upload. */
    method Cancel()
      requires Valid() && pumping && left > 0
      modifies this`pumping, this`cancelled
      ensures Valid() && !pumping && cancelled
    {
      pumping, cancelled := false, true;
    }

    /** The next piece, waiting for the pump; None once the pump is gone and all is taken. */
    method Receive() returns (p: Option<Piece>)
      requires Valid() && at == |current|
      modifies this`position, this`left, this`pumping, this`queue, this`current, this`at
      ensures at == |current| || (p.Some? && p.value.Ok?)
      ensures p.Some? && p.value.Ok? ==> Valid() && !erred && at == 0 && current == p.value.value && current != []
      ensures !(p.Some? && p.value.Ok?) ==> !pumping && queue == [] && at == |current| && current == old(current)
      ensures !(p.Some? && p.value.Ok?) ==> Accounts() && Channel() && (left > 0 ==> cancelled || |source| < declared)
      ensures !(p.Some? && p.value.Ok?) ==> (left == 0 ==> position == declared) && (erred ==> left > 0)
      ensures p.Some? && p.value.Err? ==> left > 0 && p.value.error == ConnectionEnded
      ensures p.None? ==> !erred ==> left == 0 || cancelled
      ensures old(erred) ==> p.None?
    {
      while queue == [] && pumping
        invariant Valid() && at == |current| && current == old(current) && at == old(at)
        invariant old(erred) ==> !pumping && queue == []
        decreases left, pumping
      {
        PumpStep();
      }
      if queue == [] {
        return None;
      }
      var first := queue[0];
      assert current[at..] == [];
      queue := queue[1..];
      if first.Ok? {
        current, at := first.value, 0;
        assert current[at..] == current;
      } else {
        assert current[at..] == [];
      }
      return Some(first);
    }

    /** Wait until there is a byte to hand out, or nothing more to wait for. */
    method Fill() returns (filled: Filled)
      requires Valid()
      modifies this
      ensures Valid() && returned == old(returned) && cancelled == old(cancelled)
      ensures old(erred) ==> filled.Broken?
      ensures filled.Ready? ==> at < |current| && !erred
      ensures filled.Complete? ==> |returned| == declared && at == |current|
      ensures filled.Broken? ==> erred && |returned| < declared && (cancelled || |source| < declared)
      ensures filled.Broken? && old(erred) ==> filled.error == UnexpectedEof
      ensures filled.Broken? && !old(erred) && !cancelled ==> filled.error == ConnectionEnded
    {
      while at >= |current|
        invariant Valid() && returned == old(returned)
        invariant erred == old(erred) && cancelled == old(cancelled)
        decreases at >= |current|
      {
        if outstanding == 0 {
          DryWhenComplete();
          return Complete;
        }
        var piece := Receive();
        if piece.Some? && piece.value.Ok? {
          continue;
        }
        ShortWhenDry();
        erred := true;
        return Broken(if piece.Some? then piece.value.error else UnexpectedEof);
      }
      return Ready;
    }

    /**
     One read into a buffer of `size` bytes. What is returned continues the body; an empty
     answer to a buffer that could hold something means every declared byte was returned;
     an error means the body is short or its sender left, and every later read fails too.
     */
    method Read(size: nat) returns (r: Result<seq<Byte>, UploadError>)
      requires Valid()
      modifies this
      ensures Valid()
      ensures cancelled == old(cancelled)
      ensures r.Ok? ==> |r.value| <= size && returned == old(returned) + r.value
      ensures r.Ok? && r.value == [] && size > 0 ==> |returned| == declared
      ensures r.Err? ==> erred && returned == old(returned) && |returned| < declared
      ensures r.Err? ==> cancelled || |source| < declared
      ensures old(erred) ==> r.Err?
    {
      var filled := Fill();
      match filled {
        case Complete =>
          return Ok([]);
        case Broken(e) =>
          return Err(e);
        case Ready =>
          var out := Take(size);
          return Ok(out);
      }
    }

    /** Copy what fits of the piece in hand. */
    method Take(size: nat) returns (out: seq<Byte>)
      requires Valid() && at < |current| && !erred
      modifies this`at, this`outstanding, this`returned
      ensures Valid()
      ensures returned == old(returned) + out && |out| <= size
      ensures size > 0 ==> out != []
    {
      var take := if size < |current| - at then size else |current| - at;
      out := current[at..at + take];
      ShareOfBody(take);
      assert returned + current[at..] == (returned + out) + current[at + take..];
      at := at + take;
      outstanding := outstanding - take;
      returned := returned + out;
    }

    /** With the reader and the channel dry and the pump gone, what is missing was never sent. */
    lemma ShortWhenDry()
      requires Accounts() && !pumping && queue == [] && at == |current| && outstanding > 0
      requires left > 0 ==> cancelled || |source| < declared
      ensures left > 0 && |returned| < declared && (cancelled || |source| < declared)
    {
      assert current[at..] == [] && Bytes(queue) == [];
    }

    lemma DryWhenComplete()
      requires Valid() && outstanding == 0
      ensures left == 0 && !erred && at == |current|
    {
      assert |returned| + |current[at..]| + |Bytes(queue)| == declared - left;
    }

    lemma ShareOfBody(take: nat)
      requires Valid() && take <= |current| - at
      ensures take <= outstanding
    {
      assert |returned| + |current[at..]| + |Bytes(queue)| == declared - left;
    }

    /** What the sealer gets: the declared bytes exactly, or an error; never a shorter body. */
    method ReadToEnd(size: nat) returns (r: Result<seq<Byte>, UploadError>)
      requires Valid() && returned == [] && size > 0
      modifies this
      ensures Valid()
      ensures r.Ok? ==> |source| >= declared && r.value == source[..declared]
      ensures !cancelled ==> (r.Ok? <==> |source| >= declared)
    {
      var body: seq<Byte> := [];
      while true
        invariant Valid() && body == returned && cancelled == old(cancelled)
        decreases declared - |returned|
      {
        var part := Read(size);
        if part.Err? {
          return Err(part.error);
        }
        body := body + part.value;
        BodyIsPrefix();
        if part.value == [] {
          return Ok(body);
        }
      }
    }

    lemma BodyIsPrefix()
      requires Valid()
      ensures |returned| <= |source| && |returned| <= declared && returned == source[..|returned|]
    {
      var all := returned + current[at..] + Bytes(queue);
      assert returned == all[..|returned|];
      assert all[..|returned|] == source[..|returned|];
    }
  }

  // ---- the sending half -----------------------------------------------------------------------

  const U64_MAX: nat := 0xFFFF_FFFF_FFFF_FFFF

  /** The write of a pushed piece: all of it, or cut off after a part the sender never learns. */
  datatype Fate = Written | Cut(part: nat)

  datatype Pushing = Pushed(bytes: seq<Byte>, fate: Fate)

  /** `wire` is what left behind the header; `body` what the caller was told had been sent. */
  datatype Outbox = Outbox(sent: nat, wire: seq<Byte>, body: seq<Byte>)

  function SaturatingAdd(a: nat, b: nat): (r: nat) {
    if a + b < U64_MAX then a + b else U64_MAX
  }

  predicate Allowed(declared: nat, o: Outbox, bytes: seq<Byte>) {
    SaturatingAdd(o.sent, |bytes|) <= declared
  }

  /** The bytes of a piece that left although its push failed. */
  function Leaked(p: Pushing): (n: nat)
    ensures n <= |p.bytes|
  {
    if p.fate.Written? then 0 else if p.fate.part < |p.bytes| then p.fate.part else |p.bytes|
  }

  function AfterPush(declared: nat, o: Outbox, p: Pushing): (r: Outbox) {
    if !Allowed(declared, o, p.bytes) then o
    else if p.fate.Written? then Outbox(SaturatingAdd(o.sent, |p.bytes|), o.wire + p.bytes, o.body + p.bytes)
    else o.(wire := o.wire + p.bytes[..Leaked(p)])
  }

  function After(declared: nat, pushes: seq<Pushing>): (o: Outbox) {
    if pushes == [] then Outbox(0, [], [])
    else AfterPush(declared, After(declared, pushes[..|pushes| - 1]), pushes[|pushes| - 1])
  }

  /** Whether push `i` of a run answered Ok. */
  predicate PushOk(declared: nat, pushes: seq<Pushing>, i: nat)
    requires i < |pushes|
  {
    Allowed(declared, After(declared, pushes[..i]), pushes[i].bytes) && pushes[i].fate.Written?
  }

  /** Push `i` failed with something of it on the wire. */
  predicate PushLeaked(declared: nat, pushes: seq<Pushing>, i: nat)
    requires i < |pushes|
  {
    Allowed(declared, After(declared, pushes[..i]), pushes[i].bytes) && Leaked(pushes[i]) > 0
  }

  /** What a caller can see to: no push is made after one that failed. */
  predicate StopsAtFailure(declared: nat, pushes: seq<Pushing>) {
    forall i :: 0 <= i < |pushes| - 1 ==> PushOk(declared, pushes, i)
  }

  lemma {:induction false} SentCounts(declared: nat, pushes: seq<Pushing>)
    requires declared < U64_MAX
    ensures var o := After(declared, pushes); o.sent == |o.body| <= declared && |o.body| <= |o.wire|
  {
    if pushes != [] {
      SentCounts(declared, pushes[..|pushes| - 1]);
    }
  }

  /** The wire carries the caller's body exactly when no failed push had sent any of its piece. */
  lemma {:induction false} WireIsBodyIff(declared: nat, pushes: seq<Pushing>)
    ensures var o := After(declared, pushes);
            && (o.wire == o.body <==> forall i :: 0 <= i < |pushes| ==> !PushLeaked(declared, pushes, i))
            && (o.wire != o.body ==> |o.wire| > |o.body|)
  {
    if pushes != [] {
      var n := |pushes| - 1;
      var rest := pushes[..n];
      WireIsBodyIff(declared, rest);
      forall i | 0 <= i < n
        ensures PushLeaked(declared, rest, i) <==> PushLeaked(declared, pushes, i)
      {
        assert rest[..i] == pushes[..i];
      }
      var before, o := After(declared, rest), After(declared, pushes);
      if before.wire != before.body {
        assert |o.wire| > |o.body|;
      } else if PushLeaked(declared, pushes, n) {
        assert |o.wire| == |before.wire| + Leaked(pushes[n]);
      }
    }
  }

  lemma LeakLeavesShort(declared: nat, pushes: seq<Pushing>)
    requires declared < U64_MAX && pushes != []
    ensures PushLeaked(declared, pushes, |pushes| - 1) ==> After(declared, pushes).sent < declared
  {
    SentCounts(declared, pushes[..|pushes| - 1]);
  }

  /** So a caller that stops at its first failure never finishes a body it did not send. */
  lemma StoppingIsSafe(declared: nat, pushes: seq<Pushing>)
    requires declared < U64_MAX && StopsAtFailure(declared, pushes) && After(declared, pushes).sent == declared
    ensures var o := After(declared, pushes); o.wire == o.body && |o.wire| == declared
  {
    SentCounts(declared, pushes);
    WireIsBodyIff(declared, pushes);
    if pushes != [] {
      var n := |pushes| - 1;
      forall i | 0 <= i <= n
        ensures !PushLeaked(declared, pushes, i)
      {
        if i < n {
          assert PushOk(declared, pushes, i);
        } else {
          LeakLeavesShort(declared, pushes);
        }
      }
    }
  }

  /** One that tries again can: two bytes are declared and pushed, and the daemon reads two others. */
  lemma RetryShiftsBody()
    ensures var o := After(2, [Pushed([1, 2], Cut(1)), Pushed([1, 2], Written)]);
            o.sent == 2 && o.body == [1, 2] && o.wire == [1, 1, 2] && o.wire[..2] != o.body
  {
    var pushes := [Pushed([1, 2], Cut(1)), Pushed([1, 2], Written)];
    assert pushes[..1] == [Pushed([1, 2], Cut(1))] && pushes[..1][..0] == [];
    assert After(2, pushes[..1]) == AfterPush(2, After(2, []), pushes[0]);
    assert After(2, pushes[..1]) == Outbox(0, [1], []);
    var o := After(2, pushes);
    assert o.wire == [1, 1, 2] && o.body == [1, 2];
    assert o.wire[..2][1] != o.body[1];
  }

  class ContentUpload {
    const declared: nat
    var sent: nat
    ghost var pushes: seq<Pushing>

    ghost predicate Valid()
      reads this
    {
      sent == After(declared, pushes).sent && sent <= declared <= U64_MAX
    }

    constructor (declared: nat)
      requires declared <= U64_MAX
      ensures Valid() && this.declared == declared && pushes == []
    {
      this.declared, sent := declared, 0;
      pushes := [];
    }

    /** Never a byte past the declaration; a failed write may have sent any part of the piece. */
    method Push(bytes: seq<Byte>) returns (ok: bool)
      requires Valid()
      modifies this
      ensures Valid() && |pushes| == |old(pushes)| + 1 && old(pushes) <= pushes && pushes[|old(pushes)|].bytes == bytes
      ensures ok <==> PushOk(declared, pushes, |old(pushes)|)
      ensures declared < U64_MAX && |After(declared, old(pushes)).body| + |bytes| > declared ==>
                !ok && After(declared, pushes) == After(declared, old(pushes))
    {
      var total := sent + |bytes|;
      var next := if total < U64_MAX then total else U64_MAX;
      var written: bool, part: nat := *, *;
      ghost var was := pushes;
      pushes := pushes + [Pushed(bytes, if written then Written else Cut(part))];
      assert pushes[..|was|] == was;
      if declared < U64_MAX {
        SentCounts(declared, was);
      }
      if next > declared {
        return false;
      }
      if !written {
        return false;
      }
      sent := next;
      return true;
    }

    /**
     Refused while short. Otherwise the daemon has the caller's body exactly when no failed
     push had sent anything, which is certain if none was followed by another push.
     */
    method Finish() returns (ok: bool)
      requires Valid()
      ensures declared < U64_MAX ==> (ok <==> |After(declared, pushes).body| == declared)
      ensures ok && declared < U64_MAX && StopsAtFailure(declared, pushes) ==>
                After(declared, pushes).wire == After(declared, pushes).body
    {
      if declared < U64_MAX {
        SentCounts(declared, pushes);
        if sent == declared && StopsAtFailure(declared, pushes) {
          StoppingIsSafe(declared, pushes);
        }
      }
      return sent == declared;
    }
  }
}
