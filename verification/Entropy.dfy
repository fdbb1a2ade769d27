/**
 The simulation's seeded entropy: one shared counter, hashed with a seed into blocks. The
 `Source` class is the loop that fills a buffer; the step system below it lets calls on
 several threads interleave at every atomic operation.
 */
module Entropy {
  import opened Common

  const WORDS: nat := 0x1_0000_0000_0000_0000
  type Word = n: int | 0 <= n < 0x1_0000_0000_0000_0000

  const BLOCK: nat := 32
  type Block = b: seq<Byte> | |b| == 32 witness seq(32, i => 0)

  /** The hash, keyed by seed and draw; nothing is asked of it here. */
  type Hash = (Word, Word) -> Block

  // ---- what a request answers -----------------------------------------------------------

  function Blocks(n: nat): (k: nat) {
    (n + BLOCK - 1) / BLOCK
  }

  /** Byte `i` of the stream that starts at counter value `draw`. */
  function StreamAt(h: Hash, seed: Word, draw: Word, i: nat): (b: Byte) {
    h(seed, (draw + i / BLOCK) % WORDS)[i % BLOCK]
  }

  function Stream(h: Hash, seed: Word, draw: Word, n: nat): (s: seq<Byte>) {
    seq(n, i requires 0 <= i => StreamAt(h, seed, draw, i))
  }

  function BlocksOf(lens: seq<nat>): (k: nat) {
    if lens == [] then 0 else BlocksOf(lens[..|lens| - 1]) + Blocks(lens[|lens| - 1])
  }

  function BytesOf(lens: seq<nat>): (k: nat) {
    if lens == [] then 0 else BytesOf(lens[..|lens| - 1]) + lens[|lens| - 1]
  }

  /** The counter `k` draws on, wrapping at its width. */
  function After(draw: Word, k: nat): (w: Word) {
    (draw + k) % WORDS
  }

  lemma NotYet(draw: Word)
    ensures After(draw, 0) == draw
  {
  }

  lemma AfterAfter(draw: Word, j: nat, k: nat)
    ensures After(After(draw, j), k) == After(draw, j + k)
  {
    WrapsOnce(draw + j, k);
  }

  lemma WrapsOnce(a: nat, b: nat)
    ensures (a % WORDS + b) % WORDS == (a + b) % WORDS
  {
    assert a == WORDS * (a / WORDS) + a % WORDS;
    var q, r := (a % WORDS + b) / WORDS, (a % WORDS + b) % WORDS;
    assert a + b == WORDS * (a / WORDS + q) + r;
  }

  /** One block lies in the stream at its own multiple of the block length. */
  lemma BlockInStream(h: Hash, seed: Word, draw: Word, taken: nat, i: nat)
    requires taken * BLOCK <= i < (taken + 1) * BLOCK
    ensures h(seed, (draw + taken) % WORDS)[i - taken * BLOCK] == StreamAt(h, seed, draw, i)
  {
    assert i / BLOCK == taken;
  }

  lemma StreamGrows(h: Hash, seed: Word, draw: Word, n: nat, more: seq<Byte>)
    requires forall i :: n <= i < n + |more| ==> more[i - n] == StreamAt(h, seed, draw, i)
    ensures Stream(h, seed, draw, n) + more == Stream(h, seed, draw, n + |more|)
  {
  }

  class Source {
    const hash: Hash
    var seed: Word
    var drawn: Word

    constructor (hash: Hash)
      ensures this.hash == hash && seed == 0 && drawn == 0
    {
      this.hash, seed, drawn := hash, 0, 0;
    }

    method Seed(s: Word)
      modifies this
      ensures seed == s && drawn == 0
    {
      drawn := 0;
      seed := s;
    }

    method FetchAdd() returns (draw: Word)
      modifies this`drawn
      ensures draw == old(drawn) && drawn == (old(drawn) + 1) % WORDS
    {
      draw := drawn;
      drawn := (drawn + 1) % WORDS;
    }

    method Copy(dest: array<Byte>, at: nat, bytes: seq<Byte>)
      requires at + |bytes| <= dest.Length
      modifies dest
      ensures dest[..] == old(dest[..at]) + bytes + old(dest[at + |bytes|..])
    {
      forall i | 0 <= i < |bytes| {
        dest[at + i] := bytes[i];
      }
    }

    /** Writes every byte of the buffer, and consumes whole blocks to do it. */
    method Fill(dest: array<Byte>)
      modifies dest, this`drawn
      ensures dest[..] == Stream(hash, seed, old(drawn), dest.Length)
      ensures drawn == After(old(drawn), Blocks(dest.Length))
    {
      var key, len, written := seed, dest.Length, 0;
      ghost var taken, start := 0, drawn;
      while written < len
        invariant 0 <= written <= len
        invariant written == if len < taken * BLOCK then len else taken * BLOCK
        invariant taken <= Blocks(len)
        invariant drawn == (start + taken) % WORDS
        invariant dest[..written] == Stream(hash, key, start, written)
        decreases len - written
      {
        WrapsOnce(start + taken, 1);
        var draw := FetchAdd();
        var bytes := hash(key, draw);
        var take := if len - written < |bytes| then len - written else |bytes|;
        ghost var was := dest[..written];
        Copy(dest, written, bytes[..take]);
        assert dest[..written + take] == was + bytes[..take];
        forall i | written <= i < written + take
          ensures bytes[i - written] == StreamAt(hash, key, start, i)
        {
          BlockInStream(hash, key, start, taken, i);
        }
        StreamGrows(hash, key, start, written, bytes[..take]);
        written := written + take;
        taken := taken + 1;
      }
      assert dest[..] == dest[..written];
    }

    method Request(n: nat) returns (bytes: seq<Byte>)
      modifies this`drawn
      ensures bytes == Stream(hash, seed, old(drawn), n)
      ensures drawn == After(old(drawn), Blocks(n))
    {
      var buffer := new Byte[n];
      Fill(buffer);
      bytes := buffer[..];
    }

    /** The requests of a sequential run, one after another. */
    method Serve(lens: seq<nat>) returns (outs: seq<seq<Byte>>)
      modifies this`drawn
      ensures |outs| == |lens|
      ensures forall k :: 0 <= k < |lens| ==>
                outs[k] == Stream(hash, seed, After(old(drawn), BlocksOf(lens[..k])), lens[k])
      ensures drawn == After(old(drawn), BlocksOf(lens))
    {
      hide After, Stream, Blocks;
      outs := [];
      NotYet(drawn);
      while |outs| < |lens|
        invariant |outs| <= |lens|
        invariant drawn == After(old(drawn), BlocksOf(lens[..|outs|]))
        invariant forall k :: 0 <= k < |outs| ==>
                    outs[k] == Stream(hash, seed, After(old(drawn), BlocksOf(lens[..k])), lens[k])
        decreases |lens| - |outs|
      {
        var k := |outs|;
        AfterAfter(old(drawn), BlocksOf(lens[..k]), Blocks(lens[k]));
        var bytes := Request(lens[k]);
        outs := outs + [bytes];
        assert lens[..k + 1][..k] == lens[..k];
      }
      assert lens[..|outs|] == lens;
    }

    method Draws() returns (n: Word)
      ensures n == drawn
    {
      n := drawn;
    }
  }

  /**
   What `draws` counts. It is documented as bytes asked for; it is blocks consumed, and the
   two agree exactly on runs that never ask for more than one byte.
   */
  lemma {:induction false} DrawsCountBytesIff(lens: seq<nat>)
    ensures BlocksOf(lens) <= BytesOf(lens)
    ensures BlocksOf(lens) == BytesOf(lens) <==> forall k :: 0 <= k < |lens| ==> lens[k] <= 1
  {
    if lens != [] {
      var rest := lens[..|lens| - 1];
      DrawsCountBytesIff(rest);
      assert forall k :: 0 <= k < |rest| ==> rest[k] == lens[k];
    }
  }

  /** One process that seeds and then asks, twice over: the bytes are a function of the seed. */
  method Replay(h: Hash, s: Word, before: seq<nat>, lens: seq<nat>) returns (one: seq<seq<Byte>>, two: seq<seq<Byte>>)
    ensures one == two && |one| == |lens|
    ensures forall k :: 0 <= k < |lens| ==> one[k] == Stream(h, s, After(0, BlocksOf(lens[..k])), lens[k])
  {
    var source := new Source(h);
    source.Seed(s);
    one := source.Serve(lens);
    var _ := source.Serve(before);
    source.Seed(s);
    two := source.Serve(lens);
  }

  // ---- calls that interleave -------------------------------------------------------------

  /** A call: the seed it loaded on entry, how much it owes, what it wrote, and its draws' places in the log. */
  datatype Call = Call(seed: Word, len: nat, bytes: seq<Byte>, places: seq<nat>)

  datatype Key = Key(seed: Word, draw: Word)

  /**
   `issued` lists the hash keys in the order of the `fetch_add`s. `spans` cuts that history at
   every reset of the counter: each span lists the seeds its draws were made with.
   */
  datatype State = State(seed: Word, drawn: Word, calls: map<nat, Call>, issued: seq<Key>, spans: seq<seq<Word>>)

  /** Reseeding is two separate stores, and anything may fall between them. */
  datatype Label =
    | Enter(id: nat, len: nat)
    | Draw(id: nat)
    | Reset
    | Install(seed: Word)

  predicate Finished(c: Call) {
    |c.bytes| == c.len
  }

  /** A call that still owes bytes. */
  predicate UnderWay(s: State, id: nat) {
    id in s.calls && |s.calls[id].bytes| < s.calls[id].len
  }

  function Drawn(h: Hash, s: State, id: nat): (t: State)
    requires UnderWay(s, id) && s.spans != []
  {
    var c := s.calls[id];
    var block := h(c.seed, s.drawn);
    var owed := c.len - |c.bytes|;
    var take := if owed < |block| then owed else |block|;
    var n := |s.spans| - 1;
    s.(drawn := (s.drawn + 1) % WORDS,
       calls := s.calls[id := c.(bytes := c.bytes + block[..take], places := c.places + [|s.issued|])],
       issued := s.issued + [Key(c.seed, s.drawn)],
       spans := s.spans[n := s.spans[n] + [c.seed]])
  }

  ghost predicate Step(h: Hash, s: State, l: Label, t: State) {
    match l
    case Enter(id, len) => id !in s.calls && t == s.(calls := s.calls[id := Call(s.seed, len, [], [])])
    case Draw(id) => UnderWay(s, id) && s.spans != [] && t == Drawn(h, s, id)
    case Reset => t == s.(drawn := 0, spans := s.spans + [[]])
    case Install(seed) => t == s.(seed := seed)
  }

  ghost predicate IsRun(h: Hash, run: seq<State>, labels: seq<Label>) {
    && |run| == |labels| + 1
    && run[0] == State(0, 0, map[], [], [[]])
    && forall i :: 0 <= i < |labels| ==> Step(h, run[i], labels[i], run[i + 1])
  }

  function KeysOf(span: seq<Word>): (k: seq<Key>) {
    seq(|span|, i requires 0 <= i < |span| => Key(span[i], i % WORDS))
  }

  /** The keys of a history: within a span the counter runs from zero. */
  function Flat(spans: seq<seq<Word>>): (k: seq<Key>) {
    if spans == [] then [] else Flat(spans[..|spans| - 1]) + KeysOf(spans[|spans| - 1])
  }

  /** The block at a place in the log. */
  function BlockAt(h: Hash, issued: seq<Key>, place: nat): (b: Block)
    requires place < |issued|
  {
    h(issued[place].seed, issued[place].draw)
  }

  ghost predicate CallInv(h: Hash, issued: seq<Key>, c: Call) {
    && |c.bytes| == (if c.len < |c.places| * BLOCK then c.len else |c.places| * BLOCK)
    && |c.places| <= Blocks(c.len)
    && (forall i :: 0 <= i < |c.places| ==> c.places[i] < |issued| && issued[c.places[i]].seed == c.seed)
    && (forall i, j :: 0 <= i < j < |c.places| ==> c.places[i] < c.places[j])
    && (forall i :: 0 <= i < |c.bytes| ==>
          c.places[i / BLOCK] < |issued| && c.bytes[i] == BlockAt(h, issued, c.places[i / BLOCK])[i % BLOCK])
  }

  ghost predicate Apart(c: Call, d: Call) {
    forall i, j :: 0 <= i < |c.places| && 0 <= j < |d.places| ==> c.places[i] != d.places[j]
  }

  ghost predicate Inv(h: Hash, s: State) {
    && s.spans != []
    && s.drawn == |s.spans[|s.spans| - 1]| % WORDS
    && s.issued == Flat(s.spans)
    && (forall id :: id in s.calls ==> CallInv(h, s.issued, s.calls[id]))
    && (forall a, b :: a in s.calls && b in s.calls && a != b ==> Apart(s.calls[a], s.calls[b]))
  }

  lemma KeysGrow(span: seq<Word>, seed: Word)
    ensures KeysOf(span + [seed]) == KeysOf(span) + [Key(seed, |span| % WORDS)]
  {
    var k, grown := KeysOf(span), KeysOf(span + [seed]);
    forall i | 0 <= i < |span|
      ensures grown[i] == k[i]
    {
      assert (span + [seed])[i] == span[i];
    }
  }

  /** One more draw extends the last span's keys by the next one. */
  lemma FlatGrows(spans: seq<seq<Word>>, seed: Word)
    requires spans != []
    ensures var n := |spans| - 1;
            Flat(spans[n := spans[n] + [seed]]) == Flat(spans) + [Key(seed, |spans[n]| % WORDS)]
  {
    hide KeysOf;
    var n := |spans| - 1;
    var grown := spans[n := spans[n] + [seed]];
    assert grown[..n] == spans[..n];
    KeysGrow(spans[n], seed);
  }

  /** The drawing call: it owes at least a byte, and takes the place nobody has. */
  lemma DrawKeepsCall(h: Hash, s: State, id: nat)
    requires Inv(h, s) && UnderWay(s, id)
    ensures CallInv(h, Drawn(h, s, id).issued, Drawn(h, s, id).calls[id])
  {
    var c, t := s.calls[id], Drawn(h, s, id);
    var d := t.calls[id];
    assert |c.bytes| == |c.places| * BLOCK;
    forall i | 0 <= i < |d.bytes|
      ensures d.places[i / BLOCK] < |t.issued| && d.bytes[i] == BlockAt(h, t.issued, d.places[i / BLOCK])[i % BLOCK]
    {
      if i < |c.bytes| {
        assert c.bytes[i] == BlockAt(h, s.issued, c.places[i / BLOCK])[i % BLOCK];
      } else {
        assert i / BLOCK == |c.places| && i % BLOCK == i - |c.bytes|;
      }
    }
  }

  /** A call that is not drawing keeps its bytes; the log only grows. */
  lemma LogGrows(h: Hash, before: seq<Key>, after: seq<Key>, c: Call)
    requires CallInv(h, before, c) && before <= after
    ensures CallInv(h, after, c)
  {
    forall i | 0 <= i < |c.bytes|
      ensures c.places[i / BLOCK] < |after| && c.bytes[i] == BlockAt(h, after, c.places[i / BLOCK])[i % BLOCK]
    {
      assert c.bytes[i] == BlockAt(h, before, c.places[i / BLOCK])[i % BLOCK];
    }
  }

  lemma PlacesAreOld(h: Hash, issued: seq<Key>, c: Call)
    requires CallInv(h, issued, c)
    ensures forall i :: 0 <= i < |c.places| ==> c.places[i] < |issued|
  {
  }

  lemma DrawKeepsApart(h: Hash, s: State, id: nat)
    requires Inv(h, s) && UnderWay(s, id)
    ensures var t := Drawn(h, s, id);
            forall a, b :: a in t.calls && b in t.calls && a != b ==> Apart(t.calls[a], t.calls[b])
  {
    hide CallInv;
    var t := Drawn(h, s, id);
    forall a, b | a in t.calls && b in t.calls && a != b
      ensures Apart(t.calls[a], t.calls[b])
    {
      assert Apart(s.calls[a], s.calls[b]);
      PlacesAreOld(h, s.issued, s.calls[a]);
      PlacesAreOld(h, s.issued, s.calls[b]);
    }
  }

  lemma DrawKeepsInv(h: Hash, s: State, id: nat)
    requires Inv(h, s) && UnderWay(s, id)
    ensures Inv(h, Drawn(h, s, id))
  {
    hide CallInv, Apart;
    var t := Drawn(h, s, id);
    FlatGrows(s.spans, s.calls[id].seed);
    WrapsOnce(|s.spans[|s.spans| - 1]|, 1);
    DrawKeepsCall(h, s, id);
    DrawKeepsApart(h, s, id);
    forall a | a in t.calls
      ensures CallInv(h, t.issued, t.calls[a])
    {
      if a != id {
        LogGrows(h, s.issued, t.issued, s.calls[a]);
      }
    }
  }

  lemma NewCall(h: Hash, issued: seq<Key>, seed: Word, len: nat)
    ensures CallInv(h, issued, Call(seed, len, [], []))
  {
  }

  lemma EnterKeepsInv(h: Hash, s: State, id: nat, len: nat, t: State)
    requires Inv(h, s) && Step(h, s, Enter(id, len), t)
    ensures Inv(h, t)
  {
    hide CallInv;
    NewCall(h, s.issued, s.seed, len);
  }

  lemma ResetKeepsInv(h: Hash, s: State, t: State)
    requires Inv(h, s) && Step(h, s, Reset, t)
    ensures Inv(h, t)
  {
    hide CallInv, Apart;
    assert t.spans[..|t.spans| - 1] == s.spans;
    assert Flat(t.spans) == Flat(s.spans) + KeysOf([]);
  }

  lemma StepKeepsInv(h: Hash, s: State, l: Label, t: State)
    requires Inv(h, s) && Step(h, s, l, t)
    ensures Inv(h, t)
  {
    match l
    case Draw(id) => DrawKeepsInv(h, s, id);
    case Reset => ResetKeepsInv(h, s, t);
    case Enter(id, len) => EnterKeepsInv(h, s, id, len, t);
    case Install(_) => hide CallInv, Apart;
  }

  /** Over every interleaving of calls and of both halves of every reseed. */
  lemma {:induction false} RunInvariant(h: Hash, run: seq<State>, labels: seq<Label>, i: nat)
    requires IsRun(h, run, labels) && i < |run|
    ensures Inv(h, run[i])
  {
    if i == 0 {
      assert Flat([[]]) == Flat([]) + KeysOf([]);
    } else {
      RunInvariant(h, run, labels, i - 1);
      hide Inv, Step;
      assert Step(h, run[i - 1], labels[i - 1], run[i - 1 + 1]);
      StepKeepsInv(h, run[i - 1], labels[i - 1], run[i - 1 + 1]);
    }
  }

  /** The seed installed last before step `i`, or the one the process started with. */
  function Installed(labels: seq<Label>, i: nat): (s: Word)
    requires i <= |labels|
  {
    if i == 0 then 0
    else if labels[i - 1].Install? then labels[i - 1].seed
    else Installed(labels, i - 1)
  }

  /** A call draws with the seed installed last when it entered, to its end. */
  lemma {:induction false} SeedsInForce(h: Hash, run: seq<State>, labels: seq<Label>, i: nat)
    requires IsRun(h, run, labels) && i < |run|
    ensures run[i].seed == Installed(labels, i)
    ensures i > 0 && labels[i - 1].Enter? ==>
              labels[i - 1].id in run[i].calls && run[i].calls[labels[i - 1].id].seed == Installed(labels, i - 1)
    ensures i > 0 ==> forall id :: id in run[i - 1].calls ==> id in run[i].calls && run[i].calls[id].seed == run[i - 1].calls[id].seed
  {
    if i > 0 {
      SeedsInForce(h, run, labels, i - 1);
      assert Step(h, run[i - 1], labels[i - 1], run[i - 1 + 1]);
    }
  }

  // ---- when no key comes twice -------------------------------------------------------------

  /** Where a span begins in the log. */
  function SpanStart(spans: seq<seq<Word>>, e: nat): (p: nat)
    requires e <= |spans|
  {
    |Flat(spans[..e])|
  }

  lemma {:induction false} FlatAt(spans: seq<seq<Word>>, e: nat, i: nat)
    requires e < |spans| && i < |spans[e]|
    ensures SpanStart(spans, e) + i < |Flat(spans)|
    ensures Flat(spans)[SpanStart(spans, e) + i] == Key(spans[e][i], i % WORDS)
  {
    var n := |spans| - 1;
    assert spans[..n][..e] == spans[..e];
    if e < n {
      FlatAt(spans[..n], e, i);
    }
  }

  lemma {:induction false} Locate(spans: seq<seq<Word>>, p: nat) returns (e: nat, i: nat)
    requires p < |Flat(spans)|
    ensures e < |spans| && i < |spans[e]| && p == SpanStart(spans, e) + i
  {
    var n := |spans| - 1;
    var front := Flat(spans[..n]);
    if p < |front| {
      e, i := Locate(spans[..n], p);
      assert spans[..n][..e] == spans[..e];
    } else {
      e, i := n, p - |front|;
    }
  }

  lemma {:induction false} SpansFollow(spans: seq<seq<Word>>, e: nat, f: nat)
    requires e < f < |spans|
    ensures SpanStart(spans, e) + |spans[e]| <= SpanStart(spans, f)
  {
    assert spans[..f][..f - 1] == spans[..f - 1];
    if e < f - 1 {
      SpansFollow(spans, e, f - 1);
    }
  }

  ghost predicate NoRepeat(k: seq<Key>) {
    forall i, j :: 0 <= i < j < |k| ==> k[i] != k[j]
  }

  /** No seed has drawn twice at one counter value, in one span or in two. */
  ghost predicate Spaced(spans: seq<seq<Word>>) {
    forall e, i, f, j
      | 0 <= e <= f < |spans| && 0 <= i < |spans[e]| && 0 <= j < |spans[f]| && (e == f ==> i < j) ::
      spans[e][i] == spans[f][j] ==> i % WORDS != j % WORDS
  }

  lemma SpacedNoRepeat(spans: seq<seq<Word>>)
    requires Spaced(spans)
    ensures NoRepeat(Flat(spans))
  {
    var k := Flat(spans);
    forall p, q | 0 <= p < q < |k|
      ensures k[p] != k[q]
    {
      var e, i := Locate(spans, p);
      var f, j := Locate(spans, q);
      FlatAt(spans, e, i);
      FlatAt(spans, f, j);
      if f < e {
        SpansFollow(spans, f, e);
      }
    }
  }

  lemma NoRepeatSpaced(spans: seq<seq<Word>>)
    requires NoRepeat(Flat(spans))
    ensures Spaced(spans)
  {
    forall e, i, f, j | 0 <= e <= f < |spans| && 0 <= i < |spans[e]| && 0 <= j < |spans[f]|
                        && (e == f ==> i < j) && spans[e][i] == spans[f][j]
      ensures i % WORDS != j % WORDS
    {
      FlatAt(spans, e, i);
      FlatAt(spans, f, j);
      if e < f {
        SpansFollow(spans, e, f);
      }
    }
  }

  /** The step towards the quiet runs: repeats in the log are repeats in the spans, in every run. */
  lemma RunRepeatsIff(h: Hash, run: seq<State>, labels: seq<Label>, i: nat)
    requires IsRun(h, run, labels) && i < |run|
    ensures NoRepeat(run[i].issued) <==> Spaced(run[i].spans)
  {
    RunInvariant(h, run, labels, i);
    if NoRepeat(run[i].issued) {
      NoRepeatSpaced(run[i].spans);
    }
    if Spaced(run[i].spans) {
      SpacedNoRepeat(run[i].spans);
    }
  }

  ghost predicate InSpan(spans: seq<seq<Word>>, e: nat, p: nat) {
    e < |spans| && SpanStart(spans, e) <= p < SpanStart(spans, e) + |spans[e]|
  }

  lemma PlacesDiffer(h: Hash, s: State, a: nat, i: nat, b: nat, j: nat)
    requires Inv(h, s) && a in s.calls && b in s.calls && (a != b || i != j)
    requires i < |s.calls[a].places| && j < |s.calls[b].places|
    ensures s.calls[a].places[i] != s.calls[b].places[j]
  {
    if a != b {
      assert Apart(s.calls[a], s.calls[b]);
    } else {
      assert CallInv(h, s.issued, s.calls[a]);
    }
  }

  /**
   Interleaved calls never share a draw. Any two draws made since the same reset, by one call
   or by two, got different counter values, as long as that span stays within the counter's
   width, and whatever seeds were in use, then or before.
   */
  lemma InterleavedCallsNeverShare(h: Hash, run: seq<State>, labels: seq<Label>, m: nat, e: nat, a: nat, i: nat, b: nat, j: nat)
    requires IsRun(h, run, labels) && m < |run| && a in run[m].calls && b in run[m].calls
    requires i < |run[m].calls[a].places| && j < |run[m].calls[b].places| && (a != b || i != j)
    requires InSpan(run[m].spans, e, run[m].calls[a].places[i]) && InSpan(run[m].spans, e, run[m].calls[b].places[j])
    requires |run[m].spans[e]| <= WORDS
    ensures var p, q := run[m].calls[a].places[i], run[m].calls[b].places[j];
            p < |run[m].issued| && q < |run[m].issued| && run[m].issued[p].draw != run[m].issued[q].draw
  {
    hide CallInv, Apart, IsRun;
    RunInvariant(h, run, labels, m);
    var s := run[m];
    var p, q, start := s.calls[a].places[i], s.calls[b].places[j], SpanStart(s.spans, e);
    PlacesDiffer(h, s, a, i, b, j);
    FlatAt(s.spans, e, p - start);
    FlatAt(s.spans, e, q - start);
  }

  // ---- reseeds that find nobody drawing --------------------------------------------------------

  predicate AllFinished(s: State) {
    forall id :: id in s.calls ==> Finished(s.calls[id])
  }

  /** A reset finds every call finished and is followed at once by its own install. */
  ghost predicate QuietAt(run: seq<State>, labels: seq<Label>, i: nat)
    requires i < |labels| < |run|
  {
    && (labels[i].Reset? ==> AllFinished(run[i]) && (i + 1 < |labels| ==> labels[i + 1].Install?))
    && (labels[i].Install? ==> i > 0 && labels[i - 1].Reset?)
  }

  ghost predicate Quiet(run: seq<State>, labels: seq<Label>)
    requires |labels| < |run|
  {
    forall i :: 0 <= i < |labels| ==> QuietAt(run, labels, i)
  }

  predicate Uniform(span: seq<Word>) {
    forall i, j :: 0 <= i < j < |span| ==> span[i] == span[j]
  }

  predicate Only(span: seq<Word>, seed: Word) {
    forall i :: 0 <= i < |span| ==> span[i] == seed
  }

  ghost predicate QuietInv(s: State, justReset: bool) {
    && s.spans != []
    && (forall e :: 0 <= e < |s.spans| ==> Uniform(s.spans[e]))
    && (if justReset then
          s.spans[|s.spans| - 1] == [] && AllFinished(s)
        else
          && Only(s.spans[|s.spans| - 1], s.seed)
          && (forall id :: UnderWay(s, id) ==> s.calls[id].seed == s.seed))
  }

  lemma QuietStep(h: Hash, s: State, l: Label, t: State, justReset: bool)
    requires QuietInv(s, justReset) && Step(h, s, l, t)
    requires l.Reset? ==> AllFinished(s)
    requires l.Install? <==> justReset
    ensures QuietInv(t, l.Reset?)
  {
  }

  lemma {:induction false} QuietRun(h: Hash, run: seq<State>, labels: seq<Label>, i: nat)
    requires IsRun(h, run, labels) && Quiet(run, labels) && i < |run|
    ensures QuietInv(run[i], i > 0 && labels[i - 1].Reset?)
  {
    if i > 0 {
      QuietRun(h, run, labels, i - 1);
      hide QuietInv, Step;
      assert Step(h, run[i - 1], labels[i - 1], run[i - 1 + 1]);
      assert QuietAt(run, labels, i - 1) && (i > 1 ==> QuietAt(run, labels, i - 2));
      QuietStep(h, run[i - 1], labels[i - 1], run[i - 1 + 1], i > 1 && labels[i - 2].Reset?);
    }
  }

  /** No seeding runs past the counter's width, and none that drew at all shares another's seed. */
  predicate Spread(spans: seq<seq<Word>>) {
    && (forall e :: 0 <= e < |spans| ==> |spans[e]| <= WORDS)
    && (forall e, f :: 0 <= e < f < |spans| && spans[e] != [] && spans[f] != [] ==> spans[e][0] != spans[f][0])
  }

  lemma LongSpanRepeats(spans: seq<seq<Word>>, e: nat)
    requires e < |spans| && Uniform(spans[e]) && |spans[e]| > WORDS
    ensures !Spaced(spans)
  {
    assert spans[e][0] == spans[e][WORDS] && 0 % WORDS == WORDS % WORDS;
  }

  lemma FirstSeeds(spans: seq<seq<Word>>, e: nat, i: nat, f: nat, j: nat)
    requires e < |spans| && f < |spans| && Uniform(spans[e]) && Uniform(spans[f])
    requires i < |spans[e]| && j < |spans[f]|
    ensures spans[e][0] == spans[e][i] && spans[f][0] == spans[f][j]
  {
  }

  lemma SpacedIffSpread(spans: seq<seq<Word>>)
    requires forall e :: 0 <= e < |spans| ==> Uniform(spans[e])
    ensures Spaced(spans) <==> Spread(spans)
  {
    if Spaced(spans) {
      forall e | 0 <= e < |spans|
        ensures |spans[e]| <= WORDS
      {
        if |spans[e]| > WORDS {
          LongSpanRepeats(spans, e);
        }
      }
      assert Spread(spans);
    }
    if Spread(spans) {
      forall e, i, f, j | 0 <= e <= f < |spans| && 0 <= i < |spans[e]| && 0 <= j < |spans[f]|
                          && (e == f ==> i < j) && spans[e][i] == spans[f][j]
        ensures i % WORDS != j % WORDS
      {
        if e < f {
          FirstSeeds(spans, e, i, f, j);
        }
      }
    }
  }

  /** A quiet run uses every key at most once exactly when it spreads its seeds and stays in width. */
  lemma QuietRunRepeatsIff(h: Hash, run: seq<State>, labels: seq<Label>, i: nat)
    requires IsRun(h, run, labels) && Quiet(run, labels) && i < |run|
    ensures NoRepeat(run[i].issued) <==> Spread(run[i].spans)
  {
    RunRepeatsIff(h, run, labels, i);
    QuietRun(h, run, labels, i);
    SpacedIffSpread(run[i].spans);
  }

  /**
   A reset that is not quiet. The call under way keeps its seed, and its next draw is at zero:
   it uses a key again exactly when that seed had already drawn at zero, in any span.
   */
  lemma LoudResetRepeatsIff(h: Hash, run: seq<State>, labels: seq<Label>, m: nat, id: nat)
    requires IsRun(h, run, labels) && m + 2 < |run| && labels[m].Reset? && labels[m + 1] == Draw(id)
    requires NoRepeat(run[m].issued)
    ensures UnderWay(run[m], id)
    ensures !NoRepeat(run[m + 2].issued) <==>
              exists e, i :: 0 <= e < |run[m].spans| && 0 <= i < |run[m].spans[e]|
                             && run[m].spans[e][i] == run[m].calls[id].seed && i % WORDS == 0
  {
    RunInvariant(h, run, labels, m);
    assert Step(h, run[m], labels[m], run[m + 1]);
    assert Step(h, run[m + 1], labels[m + 1], run[m + 1 + 1]);
    var s := run[m];
    var key := Key(s.calls[id].seed, 0);
    assert run[m + 2].issued == s.issued + [key];
    if p :| 0 <= p < |s.issued| && s.issued[p] == key {
      var e, i := Locate(s.spans, p);
      FlatAt(s.spans, e, i);
      assert run[m + 2].issued[p] == run[m + 2].issued[|s.issued|];
    }
    if e, i :| 0 <= e < |s.spans| && 0 <= i < |s.spans[e]| && s.spans[e][i] == s.calls[id].seed && i % WORDS == 0 {
      FlatAt(s.spans, e, i);
      var p := SpanStart(s.spans, e) + i;
      assert run[m + 2].issued[p] == run[m + 2].issued[|s.issued|];
    }
  }
}
