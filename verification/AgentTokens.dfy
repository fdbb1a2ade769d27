/**
 The credential an agent shows. It is never stored: it is derived afresh from the agent's
 seed file and its epoch file, so what a token is worth follows from what those two files
 have been through. File contents are the bytes on disk; key derivation is opaque.
 */
module AgentTokens {
  import opened Common

  type Text = seq<bv8>
  type Name = nat
  type Seed = b: seq<bv8> | |b| == 32 witness seq(32, i => 0)

  const LAST_EPOCH: nat := 0xFFFF_FFFF

  /** The keyed hash, and the one validator of names. */
  datatype Derivation = Derivation(key: (Seed, nat) -> Seed, plain: Name -> bool)
  {
    /** No two of these seeds, at any epochs, derive the same key. */
    ghost predicate CollisionFree(seeds: set<Seed>) {
      forall a, b, i: nat, j: nat ::
        a in seeds && b in seeds && i <= LAST_EPOCH && j <= LAST_EPOCH && key(a, i) == key(b, j) ==> a == b && i == j
    }
  }

  // ---- comparing without an early exit ---------------------------------------------------

  /** The fold never stops early, yet decides exactly byte equality. */
  method ConstantTimeEq(a: Text, b: Text) returns (r: bool)
    ensures r <==> a == b
  {
    if |a| != |b| {
      return false;
    }
    var acc: bv8 := 0;
    for i := 0 to |a|
      invariant acc == 0 <==> a[..i] == b[..i]
    {
      FoldStep(acc, a[i], b[i]);
      acc := acc | (a[i] ^ b[i]);
      assert a[..i + 1] == a[..i] + [a[i]] && b[..i + 1] == b[..i] + [b[i]];
    }
    assert a[..|a|] == a && b[..|a|] == b;
    return acc == 0;
  }

  lemma FoldStep(acc: bv8, x: bv8, y: bv8)
    ensures acc | (x ^ y) == 0 <==> acc == 0 && x == y
  {
  }

  // ---- lower-case hex ----------------------------------------------------------------------

  function HexDigit(n: bv8): (c: bv8)
    requires n < 16
    ensures 0x21 <= c <= 0x7e
  {
    if n < 10 then 0x30 + n else 0x57 + n
  }

  function HexValue(c: bv8): (n: Option<bv8>)
    ensures n.Some? ==> n.value < 16 && HexDigit(n.value) == c
  {
    if 0x30 <= c <= 0x39 then Some(c - 0x30)
    else if 0x61 <= c <= 0x66 then Some(c - 0x57)
    else None
  }

  function Hex(bytes: seq<bv8>): (t: Text)
    ensures |t| == 2 * |bytes| && Graphic(t)
  {
    if bytes == [] then [] else [HexDigit(bytes[0] >> 4), HexDigit(bytes[0] & 15)] + Hex(bytes[1..])
  }

  function UnHex(t: Text): (bytes: Option<seq<bv8>>) {
    if t == [] then Some([])
    else if |t| == 1 || HexValue(t[0]).None? || HexValue(t[1]).None? then None
    else
      var rest := UnHex(t[2..]);
      if rest.None? then None
      else Some([(HexValue(t[0]).value << 4) | HexValue(t[1]).value] + rest.value)
  }

  lemma NibblesRejoin(b: bv8)
    ensures b >> 4 < 16 && b & 15 < 16
    ensures HexValue(HexDigit(b >> 4)) == Some(b >> 4) && HexValue(HexDigit(b & 15)) == Some(b & 15)
    ensures ((b >> 4) << 4) | (b & 15) == b
  {
  }

  lemma UnHexPair(b: bv8, rest: Text, bytes: seq<bv8>)
    requires UnHex(rest) == Some(bytes) && b >> 4 < 16 && b & 15 < 16
    ensures UnHex([HexDigit(b >> 4), HexDigit(b & 15)] + rest) == Some([b] + bytes)
  {
    NibblesRejoin(b);
    var t := [HexDigit(b >> 4), HexDigit(b & 15)] + rest;
    assert t[2..] == rest;
    hide HexDigit, HexValue;
  }

  lemma {:induction false} HexReadsBack(bytes: seq<bv8>)
    ensures UnHex(Hex(bytes)) == Some(bytes)
  {
    hide UnHex, HexDigit;
    if bytes == [] {
      UnHexNothing();
    } else {
      NibblesRejoin(bytes[0]);
      HexReadsBack(bytes[1..]);
      UnHexPair(bytes[0], Hex(bytes[1..]), bytes[1..]);
      assert bytes == [bytes[0]] + bytes[1..];
    }
  }

  lemma UnHexNothing()
    ensures UnHex([]) == Some([])
  {
  }

  // ---- white space ---------------------------------------------------------------------------

  /** Text with no space and no byte of a longer character, which trimming leaves alone. */
  predicate Graphic(t: Text) {
    forall i :: 0 <= i < |t| ==> 0x21 <= t[i] <= 0x7e
  }

  predicate WideSpace(a: bv8, b: bv8, c: bv8) {
    || (a == 0xE1 && b == 0x9A && c == 0x80)
    || (a == 0xE2 && b == 0x80 && (0x80 <= c <= 0x8A || c == 0xA8 || c == 0xA9 || c == 0xAF))
    || (a == 0xE2 && b == 0x81 && c == 0x9F)
    || (a == 0xE3 && b == 0x80 && c == 0x80)
  }

  /** Whether a text is one white-space character, in one, two or three bytes of UTF-8. */
  predicate IsSpace(t: Text) {
    || (|t| == 1 && (0x09 <= t[0] <= 0x0D || t[0] == 0x20))
    || (|t| == 2 && t[0] == 0xC2 && (t[1] == 0x85 || t[1] == 0xA0))
    || (|t| == 3 && WideSpace(t[0], t[1], t[2]))
  }

  /** The white space of Unicode, in UTF-8: the controls, the space, and these. */
  lemma SpacesAre()
    ensures forall b: bv8 :: IsSpace([b]) <==> b in {0x09, 0x0A, 0x0B, 0x0C, 0x0D, 0x20}
    ensures forall a: bv8, b: bv8 :: IsSpace([a, b]) <==> (a, b) in {(0xC2, 0x85), (0xC2, 0xA0)}
    ensures forall c: bv8 :: IsSpace([0xE1, 0x9A, c]) <==> c == 0x80
    ensures forall c: bv8 :: IsSpace([0xE2, 0x81, c]) <==> c == 0x9F
    ensures forall c: bv8 :: IsSpace([0xE3, 0x80, c]) <==> c == 0x80
    ensures forall c: bv8 :: IsSpace([0xE2, 0x80, c]) <==>
              c in {0x80, 0x81, 0x82, 0x83, 0x84, 0x85, 0x86, 0x87, 0x88, 0x89, 0x8A, 0xA8, 0xA9, 0xAF}
  {
  }

  function TrimStart(t: Text): (r: Text)
    ensures |r| <= |t|
  {
    if |t| >= 1 && IsSpace(t[..1]) then TrimStart(t[1..])
    else if |t| >= 2 && IsSpace(t[..2]) then TrimStart(t[2..])
    else if |t| >= 3 && IsSpace(t[..3]) then TrimStart(t[3..])
    else t
  }

  function TrimEnd(t: Text): (r: Text)
    ensures |r| <= |t|
  {
    if |t| >= 1 && IsSpace(t[|t| - 1..]) then TrimEnd(t[..|t| - 1])
    else if |t| >= 2 && IsSpace(t[|t| - 2..]) then TrimEnd(t[..|t| - 2])
    else if |t| >= 3 && IsSpace(t[|t| - 3..]) then TrimEnd(t[..|t| - 3])
    else t
  }

  function Trim(t: Text): (r: Text) {
    TrimEnd(TrimStart(t))
  }

  lemma NoSpaceWithin(t: Text, i: nat, j: nat)
    requires Graphic(t) && i <= j <= |t|
    ensures !IsSpace(t[i..j])
  {
    var part := t[i..j];
    assert |part| > 0 ==> part[0] == t[i];
  }

  lemma TrimStartKeeps(t: Text)
    requires Graphic(t)
    ensures TrimStart(t) == t
  {
    hide IsSpace, Graphic;
    forall k | 0 <= k <= |t|
      ensures !IsSpace(t[..k])
    {
      NoSpaceWithin(t, 0, k);
      assert t[0..k] == t[..k];
    }
  }

  lemma TrimEndKeeps(t: Text)
    requires Graphic(t)
    ensures TrimEnd(t) == t
  {
    hide IsSpace, Graphic;
    forall k | 0 <= k <= |t|
      ensures !IsSpace(t[k..])
    {
      NoSpaceWithin(t, k, |t|);
      assert t[k..|t|] == t[k..];
    }
  }

  lemma TrimKeepsGraphic(t: Text)
    requires Graphic(t)
    ensures Trim(t) == t
  {
    hide TrimStart, TrimEnd, Graphic;
    TrimStartKeeps(t);
    TrimEndKeeps(t);
  }

  /** White-space characters one after another. */
  function Spaces(chars: seq<Text>): (t: Text) {
    if chars == [] then [] else chars[0] + Spaces(chars[1..])
  }

  predicate AllSpaces(chars: seq<Text>) {
    forall i :: 0 <= i < |chars| ==> IsSpace(chars[i])
  }

  /** A space at the front is taken off whole, whatever follows it. */
  lemma StartStrips(space: Text, t: Text)
    requires IsSpace(space)
    ensures TrimStart(space + t) == TrimStart(t)
  {
    var s := space + t;
    assert s[..|space|] == space && s[|space|..] == t;
    if |space| == 1 {
    } else if |space| == 2 {
      assert s[..1][0] == space[0];
    } else {
      assert s[..1][0] == space[0] && s[..2][0] == space[0];
    }
  }

  lemma EndStrips(t: Text, space: Text)
    requires IsSpace(space)
    ensures TrimEnd(t + space) == TrimEnd(t)
  {
    var s := t + space;
    var n := |s|;
    assert s[n - |space|..] == space && s[..n - |space|] == t;
    if |space| == 2 {
      assert s[n - 1..][0] == space[1];
    } else if |space| == 3 {
      assert s[n - 1..][0] == space[2] && s[n - 2..][0] == space[1];
    }
  }

  lemma {:induction false} SpacesStripFront(chars: seq<Text>, t: Text)
    requires AllSpaces(chars)
    ensures TrimStart(Spaces(chars) + t) == TrimStart(t)
  {
    hide IsSpace, TrimStart;
    if chars == [] {
      assert Spaces(chars) + t == t;
    } else {
      StartStrips(chars[0], Spaces(chars[1..]) + t);
      assert Spaces(chars) + t == chars[0] + (Spaces(chars[1..]) + t);
      SpacesStripFront(chars[1..], t);
    }
  }

  lemma Associates(a: Text, b: Text, c: Text)
    ensures (a + b) + c == a + (b + c)
  {
  }

  lemma {:induction false} SpacesAtEnd(chars: seq<Text>)
    requires chars != []
    ensures Spaces(chars) == Spaces(chars[..|chars| - 1]) + chars[|chars| - 1]
  {
    var rest, front, last := chars[1..], chars[..|chars| - 1], chars[|chars| - 1];
    if |chars| == 1 {
      assert rest == [] && front == [];
    } else {
      SpacesAtEnd(rest);
      var middle := rest[..|rest| - 1];
      assert front[1..] == middle && front[0] == chars[0] && rest[|rest| - 1] == last;
      assert Spaces(front) == chars[0] + Spaces(middle);
      Associates(chars[0], Spaces(middle), last);
    }
  }

  lemma {:induction false} SpacesStripBack(t: Text, chars: seq<Text>)
    requires AllSpaces(chars)
    ensures TrimEnd(t + Spaces(chars)) == TrimEnd(t)
  {
    hide IsSpace, TrimEnd;
    if chars == [] {
      assert t + Spaces(chars) == t;
    } else {
      var front, last := chars[..|chars| - 1], chars[|chars| - 1];
      SpacesAtEnd(chars);
      assert t + Spaces(chars) == (t + Spaces(front)) + last;
      EndStrips(t + Spaces(front), last);
      SpacesStripBack(t, front);
    }
  }

  /** White space around a text goes, and nothing else does. */
  lemma TrimStrips(before: seq<Text>, t: Text, after: seq<Text>)
    requires AllSpaces(before) && AllSpaces(after) && Graphic(t) && t != []
    ensures Trim(Spaces(before) + t + Spaces(after)) == t
  {
    hide IsSpace, TrimEnd, Graphic;
    assert Spaces(before) + t + Spaces(after) == Spaces(before) + (t + Spaces(after));
    SpacesStripFront(before, t + Spaces(after));
    FrontStops(t, Spaces(after));
    SpacesStripBack(t, after);
    TrimEndKeeps(t);
  }

  lemma FrontStops(t: Text, rest: Text)
    requires Graphic(t) && t != []
    ensures TrimStart(t + rest) == t + rest
  {
    var s := t + rest;
    assert s[0] == t[0];
  }

  // ---- decimal -------------------------------------------------------------------------------

  function Digit(n: nat): (c: bv8)
    requires n < 10
    ensures 0x21 <= c <= 0x7e
  {
    if n == 0 then 0x30 else if n == 1 then 0x31 else if n == 2 then 0x32 else if n == 3 then 0x33
    else if n == 4 then 0x34 else if n == 5 then 0x35 else if n == 6 then 0x36
    else if n == 7 then 0x37 else if n == 8 then 0x38 else 0x39
  }

  function DigitValue(c: bv8): (n: Option<nat>)
    ensures n.Some? ==> n.value < 10
  {
    if c == 0x30 then Some(0) else if c == 0x31 then Some(1) else if c == 0x32 then Some(2)
    else if c == 0x33 then Some(3) else if c == 0x34 then Some(4) else if c == 0x35 then Some(5)
    else if c == 0x36 then Some(6) else if c == 0x37 then Some(7) else if c == 0x38 then Some(8)
    else if c == 0x39 then Some(9) else None
  }

  lemma DigitReadsBack(n: nat)
    requires n < 10
    ensures DigitValue(Digit(n)) == Some(n) && Digit(n) != 0x2B
  {
  }

  function Show(n: nat): (t: Text)
    ensures |t| >= 1 && Graphic(t)
  {
    if n < 10 then [Digit(n)] else Show(n / 10) + [Digit(n % 10)]
  }

  function Value(t: Text): (n: Option<nat>) {
    if t == [] then Some(0)
    else
      var high := Value(t[..|t| - 1]);
      var low := DigitValue(t[|t| - 1]);
      if high.None? || low.None? then None else Some(10 * high.value + low.value)
  }

  /** Digits after an optional plus sign; empty or too large for 32 bits is malformed. */
  function ParseU32(t: Text): (n: Option<nat>)
    ensures n.Some? ==> n.value <= LAST_EPOCH
  {
    var digits := if t != [] && t[0] == 0x2B then t[1..] else t;
    if digits == [] then None
    else
      var v := Value(digits);
      if v.Some? && v.value <= LAST_EPOCH then v else None
  }

  /** A number without its last `m` decimal digits. */
  function Cut(n: nat, m: nat): (r: nat)
    ensures r <= n && (m > 0 && n > 0 ==> r < n)
    ensures m > 0 && n > 1 ==> r < n - 1
  {
    if m == 0 then n else Cut(n / 10, m - 1)
  }

  /** A decimal text stopped after `k` digits is the number less the digits that are missing. */
  lemma {:induction false} ShowPrefix(n: nat, k: nat)
    requires k <= |Show(n)|
    ensures Value(Show(n)[..k]) == Some(Cut(n, |Show(n)| - k))
  {
    hide Digit, DigitValue;
    var t := Show(n);
    DigitReadsBack(n % 10);
    if n < 10 {
      assert t[..1] == t && t[..1][..0] == [];
    } else if k == |t| {
      ShowPrefix(n / 10, k - 1);
      assert t[..k] == t && t[..k - 1] == Show(n / 10) == Show(n / 10)[..k - 1];
    } else {
      ShowPrefix(n / 10, k);
      assert t[..k] == Show(n / 10)[..k];
    }
  }

  lemma {:induction false} ShowHasNoSign(n: nat)
    ensures Show(n)[0] != 0x2B
  {
    DigitReadsBack(n % 10);
    if n >= 10 {
      ShowHasNoSign(n / 10);
    }
  }

  // ---- what a home's files say ----------------------------------------------------------------

  datatype File = Missing | Unreadable | Holds(text: Text)

  datatype Agent = Agent(secret: File, epoch: File)

  type Home = map<Name, Agent>

  const NO_AGENT := Agent(Missing, Missing)

  function At(home: Home, name: Name): (a: Agent) {
    if name in home then home[name] else NO_AGENT
  }

  function Recorded(f: File): (n: nat)
    ensures n <= LAST_EPOCH
  {
    if f.Holds? && ParseU32(Trim(f.text)).Some? then ParseU32(Trim(f.text)).value else 0
  }

  /** Absent, unreadable or malformed reads as the epoch of an agent never rotated. */
  function Epoch(k: Derivation, home: Home, name: Name): (n: nat)
    ensures n <= LAST_EPOCH
  {
    if k.plain(name) then Recorded(At(home, name).epoch) else 0
  }

  function SeedIn(f: File): (s: Option<Seed>) {
    if f.Holds? then
      var bytes := UnHex(Trim(f.text));
      if bytes.Some? && |bytes.value| == 32 then Some(bytes.value) else None
    else None
  }

  function SeedOf(k: Derivation, home: Home, name: Name): (s: Option<Seed>) {
    if k.plain(name) then SeedIn(At(home, name).secret) else None
  }

  function Derive(k: Derivation, seed: Seed, epoch: nat): (t: Text)
    ensures |t| == 64 && Graphic(t)
  {
    Hex(k.key(seed, epoch))
  }

  function ForAgent(k: Derivation, home: Home, name: Name): (t: Option<Text>)
    ensures t.Some? <==> SeedOf(k, home, name).Some?
  {
    var seed := SeedOf(k, home, name);
    if seed.None? then None else Some(Derive(k, seed.value, Epoch(k, home, name)))
  }

  /** The names whose seed is a file, each listed once, in whatever order. */
  predicate Provisioned(k: Derivation, home: Home, names: seq<Name>) {
    && (forall i, j :: 0 <= i < j < |names| ==> names[i] != names[j])
    && (forall n :: n in names ==> n in home && k.plain(n) && !home[n].secret.Missing?)
    && (forall n :: n in home && k.plain(n) && !home[n].secret.Missing? ==> n in names)
  }

  ghost predicate DistinctSeeds(k: Derivation, home: Home) {
    forall a, b :: SeedOf(k, home, a).Some? && SeedOf(k, home, a) == SeedOf(k, home, b) ==> a == b
  }

  ghost predicate HeldWithin(k: Derivation, home: Home, seeds: set<Seed>) {
    forall a :: SeedOf(k, home, a).Some? ==> SeedOf(k, home, a).value in seeds
  }

  /** What a file says: a padded hex seed is that seed, a padded number that epoch, anything else none and zero. */
  lemma FilesRead(before: seq<Text>, after: seq<Text>, seed: Seed, n: nat)
    requires AllSpaces(before) && AllSpaces(after)
    ensures SeedIn(Holds(Spaces(before) + Hex(seed) + Spaces(after))) == Some(seed)
    ensures n <= LAST_EPOCH ==> Recorded(Holds(Spaces(before) + Show(n) + Spaces(after))) == n
    ensures n <= LAST_EPOCH ==> Recorded(Holds(Spaces(before) + ([0x2B] + Show(n)) + Spaces(after))) == n
    ensures n > LAST_EPOCH ==> Recorded(Holds(Spaces(before) + Show(n) + Spaces(after))) == 0
    ensures Recorded(Missing) == Recorded(Unreadable) == 0 && SeedIn(Missing) == SeedIn(Unreadable) == None
  {
    hide Trim, Spaces, AllSpaces, Value;
    TrimStrips(before, Hex(seed), after);
    HexReadsBack(seed);
    TrimStrips(before, Show(n), after);
    TrimStrips(before, [0x2B] + Show(n), after);
    ShowHasNoSign(n);
    ShowPrefix(n, |Show(n)|);
    assert Show(n)[..|Show(n)|] == Show(n) && ([0x2B] + Show(n))[1..] == Show(n);
  }

  /** A name that is not plain has no seed, no epoch and no token. */
  lemma OnlyPlainNames(k: Derivation, home: Home, name: Name)
    requires !k.plain(name)
    ensures SeedOf(k, home, name) == None && Epoch(k, home, name) == 0 && ForAgent(k, home, name) == None
  {
  }

  lemma DeriveInjective(k: Derivation, seeds: set<Seed>, a: Seed, i: nat, b: Seed, j: nat)
    requires k.CollisionFree(seeds) && a in seeds && b in seeds && i <= LAST_EPOCH && j <= LAST_EPOCH
    requires Derive(k, a, i) == Derive(k, b, j)
    ensures a == b && i == j
  {
    HexReadsBack(k.key(a, i));
    HexReadsBack(k.key(b, j));
  }

  class Directory {
    const k: Derivation
    var home: Home

    constructor (k: Derivation, home: Home)
      ensures this.k == k && this.home == home
    {
      this.k, this.home := k, home;
    }

    /** The first listed agent whose token was shown; with distinct seeds, the only one. */
    method Identify(presented: Text, names: seq<Name>, ghost seeds: set<Seed>) returns (r: Option<Name>)
      requires Provisioned(k, home, names)
      ensures r.None? <==> forall a :: ForAgent(k, home, a) != Some(Trim(presented))
      ensures r.Some? ==> exists i :: 0 <= i < |names| && r.value == names[i]
                                      && ForAgent(k, home, names[i]) == Some(Trim(presented))
                                      && forall j :: 0 <= j < i ==> ForAgent(k, home, names[j]) != Some(Trim(presented))
      ensures k.CollisionFree(seeds) && HeldWithin(k, home, seeds) && DistinctSeeds(k, home) ==>
                forall a: Name :: r == Some(a) <==> ForAgent(k, home, a) == Some(Trim(presented))
    {
      hide Trim, Derivation.CollisionFree, DistinctSeeds, HeldWithin;
      var shown := Trim(presented);
      if shown == [] {
        return None;
      }
      for i := 0 to |names|
        invariant forall j :: 0 <= j < i ==> ForAgent(k, home, names[j]) != Some(shown)
      {
        var expected := ForAgent(k, home, names[i]);
        if expected.Some? {
          var same := ConstantTimeEq(expected.value, shown);
          if same {
            if k.CollisionFree(seeds) && HeldWithin(k, home, seeds) && DistinctSeeds(k, home) {
              OnlyOne(k, home, seeds, names[i]);
            }
            return Some(names[i]);
          }
        }
      }
      assert forall a :: ForAgent(k, home, a).Some? ==> a in names;
      return None;
    }

    /**
     One epoch on, unless it is the last. A name that is not plain is an error, and so is a
     failed write, which may already have left any part of the new text.
     */
    method Rotate(name: Name, storage: bool) returns (r: Result<nat, ()>)
      modifies this
      ensures !k.plain(name) ==> r.Err? && home == old(home)
      ensures r.Ok? ==> home == Rotated(k, old(home), name) && r.value == Epoch(k, home, name) == Next(old(Epoch(k, home, name)))
      ensures r.Err? ==> home == old(home)
                         || exists kept: nat :: kept <= |NextText(k, old(home), name)|
                                                && home == Written(old(home), name, NextText(k, old(home), name)[..kept])
      ensures storage && k.plain(name) ==> r.Ok?
    {
      if !k.plain(name) {
        return Err(());
      }
      var next := Next(Epoch(k, home, name));
      var text := NextText(k, home, name);
      var reached, kept: nat := *, *;
      if !storage {
        if reached && kept <= |text| {
          home := Written(home, name, text[..kept]);
          assert home == Written(old(home), name, NextText(k, old(home), name)[..kept]);
        }
        return Err(());
      }
      RotatedEpoch(k, home, name);
      home := Written(home, name, text);
      return Ok(next);
    }
  }

  lemma OnlyOne(k: Derivation, home: Home, seeds: set<Seed>, a: Name)
    requires k.CollisionFree(seeds) && HeldWithin(k, home, seeds) && DistinctSeeds(k, home)
    requires ForAgent(k, home, a).Some?
    ensures forall b :: ForAgent(k, home, b) == ForAgent(k, home, a) ==> b == a
  {
    forall b | ForAgent(k, home, b) == ForAgent(k, home, a)
      ensures b == a
    {
      DeriveInjective(k, seeds, SeedOf(k, home, a).value, Epoch(k, home, a), SeedOf(k, home, b).value, Epoch(k, home, b));
    }
  }

  // ---- runs ------------------------------------------------------------------------------------

  function Next(epoch: nat): (n: nat)
    ensures epoch <= LAST_EPOCH ==> n <= LAST_EPOCH
  {
    if epoch < LAST_EPOCH then epoch + 1 else LAST_EPOCH
  }

  function Written(home: Home, name: Name, text: Text): (h: Home) {
    home[name := At(home, name).(epoch := Holds(text))]
  }

  function NextText(k: Derivation, home: Home, name: Name): (t: Text) {
    Show(Next(Epoch(k, home, name)))
  }

  function Rotated(k: Derivation, home: Home, name: Name): (h: Home) {
    Written(home, name, NextText(k, home, name))
  }

  /** The epoch file is truncated and then written in place, so a crash can leave any prefix. */
  datatype Label =
    | Provision(name: Name, seed: Seed)
    | Rotate(name: Name)
    | TornRotate(name: Name, kept: nat)
    | Remove(name: Name)

  /** `used` is every seed the home has ever held. */
  datatype State = State(home: Home, used: set<Seed>)

  ghost predicate Step(k: Derivation, s: State, l: Label, t: State) {
    match l
    case Provision(name, seed) =>
      && k.plain(name) && At(s.home, name).secret.Missing? && seed !in s.used
      && t == State(s.home[name := At(s.home, name).(secret := Holds(Hex(seed)))], s.used + {seed})
    case Rotate(name) =>
      k.plain(name) && t == s.(home := Rotated(k, s.home, name))
    case TornRotate(name, kept) =>
      && k.plain(name)
      && var text := NextText(k, s.home, name);
         kept < |text| && t == s.(home := Written(s.home, name, text[..kept]))
    case Remove(name) => t == s.(home := s.home - {name})
  }

  ghost predicate IsRun(k: Derivation, run: seq<State>, labels: seq<Label>) {
    && |run| == |labels| + 1 && run[0] == State(map[], {})
    && forall i :: 0 <= i < |labels| ==> Step(k, run[i], labels[i], run[i + 1])
  }

  ghost predicate Inv(k: Derivation, s: State) {
    && DistinctSeeds(k, s.home)
    && HeldWithin(k, s.home, s.used)
  }

  lemma SeedReadsBack(seed: Seed)
    ensures SeedIn(Holds(Hex(seed))) == Some(seed)
  {
    HexReadsBack(seed);
    TrimKeepsGraphic(Hex(seed));
  }

  /** What one step does to the seed an agent is read as holding. */
  lemma StepSeeds(k: Derivation, s: State, l: Label, t: State, a: Name)
    requires Step(k, s, l, t)
    ensures SeedOf(k, t.home, a) == if l.name != a then SeedOf(k, s.home, a)
                                    else if l.Provision? then Some(l.seed)
                                    else if l.Remove? then None
                                    else SeedOf(k, s.home, a)
  {
    if l.Provision? {
      SeedReadsBack(l.seed);
    }
  }

  lemma StepKeepsInv(k: Derivation, s: State, l: Label, t: State)
    requires Inv(k, s) && Step(k, s, l, t)
    ensures Inv(k, t) && s.used <= t.used
  {
    forall a
      ensures SeedOf(k, t.home, a) == SeedOf(k, s.home, a) || SeedOf(k, t.home, a).None?
              || (l.Provision? && a == l.name && SeedOf(k, t.home, a) == Some(l.seed))
    {
      StepSeeds(k, s, l, t, a);
    }
  }

  lemma EmptyInv(k: Derivation)
    ensures Inv(k, State(map[], {}))
  {
  }

  lemma {:induction false} RunInvariant(k: Derivation, run: seq<State>, labels: seq<Label>, i: nat)
    requires IsRun(k, run, labels) && i < |run|
    ensures Inv(k, run[i])
  {
    hide Inv, Step;
    if i == 0 {
      EmptyInv(k);
    } else {
      RunInvariant(k, run, labels, i - 1);
      StepKeepsInv(k, run[i - 1], labels[i - 1], run[i - 1 + 1]);
    }
  }

  /** In every state a run reaches, a token names the one agent it is current for, or nobody. */
  lemma TokensAreApart(k: Derivation, run: seq<State>, labels: seq<Label>, i: nat, a: Name, b: Name)
    requires IsRun(k, run, labels) && i < |run| && k.CollisionFree(run[i].used)
    requires ForAgent(k, run[i].home, a).Some? && ForAgent(k, run[i].home, a) == ForAgent(k, run[i].home, b)
    ensures a == b
  {
    RunInvariant(k, run, labels, i);
    OnlyOne(k, run[i].home, run[i].used, a);
  }

  // ---- what a rotation does to tokens already out --------------------------------------------

  lemma ParseUnsigned(t: Text)
    requires t == [] || t[0] != 0x2B
    ensures t == [] ==> ParseU32(t).None? && Value(t) == Some(0)
    ensures t != [] && Value(t).Some? && Value(t).value <= LAST_EPOCH ==> ParseU32(t) == Value(t)
  {
  }

  lemma RecordedReadsBack(n: nat, kept: nat)
    requires n <= LAST_EPOCH && kept <= |Show(n)|
    ensures Recorded(Holds(Show(n)[..kept])) == Cut(n, |Show(n)| - kept)
  {
    hide Trim, Show, ParseU32, Value;
    var text := Show(n)[..kept];
    ShowPrefix(n, kept);
    ShowHasNoSign(n);
    ParseUnsigned(text);
    assert Graphic(text);
    TrimKeepsGraphic(text);
  }

  lemma RotatedEpoch(k: Derivation, home: Home, name: Name)
    requires k.plain(name)
    ensures Epoch(k, Rotated(k, home, name), name) == Next(Epoch(k, home, name))
  {
    hide Recorded, Show;
    var n := Next(Epoch(k, home, name));
    RecordedReadsBack(n, |Show(n)|);
    assert Show(n)[..|Show(n)|] == Show(n);
  }

  ghost predicate Untorn(labels: seq<Label>, i: nat, j: nat, name: Name)
    requires i <= j <= |labels|
  {
    forall m :: i <= m < j ==> !(labels[m].TornRotate? && labels[m].name == name)
  }

  function Rotations(labels: seq<Label>, i: nat, j: nat, name: Name): (n: nat)
    requires i <= j <= |labels|
    decreases j
  {
    if i == j then 0
    else Rotations(labels, i, j - 1, name) + (if labels[j - 1] == Rotate(name) then 1 else 0)
  }

  /** A seed that was ever used is held at the end only by an agent that held it all along. */
  lemma {:induction false} SeedNeverReturns(k: Derivation, run: seq<State>, labels: seq<Label>, i: nat, j: nat, a: Name, x: Seed)
    requires IsRun(k, run, labels) && i < j < |run|
    requires x in run[i].used && SeedOf(k, run[j].home, a) == Some(x)
    ensures SeedOf(k, run[j - 1].home, a) == Some(x) && x in run[j - 1].used
    ensures labels[j - 1] != Remove(a) && (labels[j - 1].Provision? ==> labels[j - 1].name != a)
  {
    hide SeedOf;
    UsedGrows(k, run, labels, i, j - 1);
    assert Step(k, run[j - 1], labels[j - 1], run[j - 1 + 1]);
    StepSeeds(k, run[j - 1], labels[j - 1], run[j], a);
  }

  lemma {:induction false} UsedGrows(k: Derivation, run: seq<State>, labels: seq<Label>, i: nat, j: nat)
    requires IsRun(k, run, labels) && i <= j < |run|
    ensures run[i].used <= run[j].used
  {
    if i < j {
      UsedGrows(k, run, labels, i, j - 1);
      assert Step(k, run[j - 1], labels[j - 1], run[j - 1 + 1]);
    }
  }

  lemma StepEpoch(k: Derivation, s: State, l: Label, t: State, a: Name)
    requires Step(k, s, l, t) && (l.name == a ==> l.Provision? || l.Rotate?)
    ensures Epoch(k, t.home, a) == if l == Rotate(a) then Next(Epoch(k, s.home, a)) else Epoch(k, s.home, a)
  {
    hide Recorded;
    if l == Rotate(a) {
      RotatedEpoch(k, s.home, a);
    } else {
      assert At(t.home, a).epoch == At(s.home, a).epoch;
    }
  }

  /** While an agent keeps its seed and its file is intact, its epoch counts its rotations. */
  lemma {:induction false} EpochCountsRotations(k: Derivation, run: seq<State>, labels: seq<Label>, i: nat, j: nat, a: Name, x: Seed)
    requires IsRun(k, run, labels) && i <= j < |run| && Untorn(labels, i, j, a)
    requires x in run[i].used && SeedOf(k, run[j].home, a) == Some(x)
    ensures SeedOf(k, run[i].home, a) == Some(x)
    ensures var n := Epoch(k, run[i].home, a) + Rotations(labels, i, j, a);
            Epoch(k, run[j].home, a) == if n <= LAST_EPOCH then n else LAST_EPOCH
  {
    hide Step, SeedOf, Epoch;
    if i < j {
      SeedNeverReturns(k, run, labels, i, j, a, x);
      EpochCountsRotations(k, run, labels, i, j - 1, a, x);
      StepEpoch(k, run[j - 1], labels[j - 1], run[j - 1 + 1], a);
    }
  }

  /**
   A token issued at one moment and shown at another. With the epoch file intact between the
   two, it still names somebody exactly when its agent was never removed and either never
   rotated or already at the last epoch, where rotating changes nothing.
   */
  lemma IssuedTokenLivesIff(k: Derivation, run: seq<State>, labels: seq<Label>, i: nat, j: nat, a: Name)
    requires IsRun(k, run, labels) && i <= j < |run| && k.CollisionFree(run[j].used) && Untorn(labels, i, j, a)
    requires ForAgent(k, run[i].home, a).Some?
    ensures (exists b :: ForAgent(k, run[j].home, b) == ForAgent(k, run[i].home, a))
            <==> && SeedOf(k, run[j].home, a) == SeedOf(k, run[i].home, a)
                 && (Rotations(labels, i, j, a) == 0 || Epoch(k, run[i].home, a) == LAST_EPOCH)
    ensures forall b :: ForAgent(k, run[j].home, b) == ForAgent(k, run[i].home, a) ==> b == a
  {
    RunInvariant(k, run, labels, i);
    RunInvariant(k, run, labels, j);
    UsedGrows(k, run, labels, i, j);
    var x := SeedOf(k, run[i].home, a).value;
    forall b | ForAgent(k, run[j].home, b) == ForAgent(k, run[i].home, a)
      ensures b == a && SeedOf(k, run[j].home, a) == Some(x)
      ensures Rotations(labels, i, j, a) == 0 || Epoch(k, run[i].home, a) == LAST_EPOCH
    {
      DeriveInjective(k, run[j].used, SeedOf(k, run[j].home, b).value, Epoch(k, run[j].home, b), x, Epoch(k, run[i].home, a));
      HolderKept(k, run, labels, i, j, b, x);
      EpochCountsRotations(k, run, labels, i, j, a, x);
    }
    if SeedOf(k, run[j].home, a) == Some(x) && (Rotations(labels, i, j, a) == 0 || Epoch(k, run[i].home, a) == LAST_EPOCH) {
      EpochCountsRotations(k, run, labels, i, j, a, x);
      assert ForAgent(k, run[j].home, a) == ForAgent(k, run[i].home, a);
    }
  }

  lemma {:induction false} HolderKept(k: Derivation, run: seq<State>, labels: seq<Label>, i: nat, j: nat, b: Name, x: Seed)
    requires IsRun(k, run, labels) && i <= j < |run|
    requires x in run[i].used && SeedOf(k, run[j].home, b) == Some(x)
    ensures SeedOf(k, run[i].home, b) == Some(x)
  {
    hide Step, SeedOf;
    if i < j {
      SeedNeverReturns(k, run, labels, i, j, b, x);
      HolderKept(k, run, labels, i, j - 1, b, x);
    }
  }

  /**
   A rotation cut off in its write. The file keeps the leading digits, the epoch becomes that
   smaller number, and so the agent's epoch falls exactly when it had been rotated before: a
   token withdrawn by an earlier rotation is then good again.
   */
  lemma TornRotationFallsIff(k: Derivation, s: State, a: Name, kept: nat, t: State)
    requires Step(k, s, TornRotate(a, kept), t)
    ensures var next := Next(Epoch(k, s.home, a));
            Epoch(k, t.home, a) == Cut(next, |Show(next)| - kept)
    ensures Epoch(k, t.home, a) < Epoch(k, s.home, a) <==> 0 < Epoch(k, s.home, a)
    ensures Epoch(k, t.home, a) <= Epoch(k, s.home, a)
    ensures SeedOf(k, t.home, a) == SeedOf(k, s.home, a)
    ensures SeedOf(k, s.home, a).Some? ==>
              ForAgent(k, t.home, a) == Some(Derive(k, SeedOf(k, s.home, a).value, Epoch(k, t.home, a)))
  {
    hide Recorded, SeedIn, Show;
    RecordedReadsBack(Next(Epoch(k, s.home, a)), kept);
  }

  /** The smallest such run: issue, rotate, and a second rotation cut off before its first digit. */
  lemma TornRotationRevives(k: Derivation, run: seq<State>, a: Name, x: Seed)
    requires IsRun(k, run, [Provision(a, x), Rotate(a), TornRotate(a, 0)]) && k.CollisionFree({x})
    ensures ForAgent(k, run[1].home, a).Some?
    ensures ForAgent(k, run[2].home, a) != ForAgent(k, run[1].home, a)
    ensures ForAgent(k, run[3].home, a) == ForAgent(k, run[1].home, a)
  {
    hide Step, SeedOf, Epoch, DistinctSeeds;
    var labels := [Provision(a, x), Rotate(a), TornRotate(a, 0)];
    forall i | 0 <= i < 3
      ensures Step(k, run[i], labels[i], run[i + 1])
    {
    }
    assert Step(k, run[0], labels[0], run[1]) && Step(k, run[1], labels[1], run[2]) && Step(k, run[2], labels[2], run[3]);
    StepSeeds(k, run[0], labels[0], run[1], a);
    StepSeeds(k, run[1], labels[1], run[2], a);
    StepEpoch(k, run[0], labels[0], run[1], a);
    StepEpoch(k, run[1], labels[1], run[2], a);
    NeverRotated(k, a);
    TornRotationFallsIff(k, run[2], a, 0, run[3]);
    if ForAgent(k, run[2].home, a) == ForAgent(k, run[1].home, a) {
      DeriveInjective(k, {x}, x, 1, x, 0);
    }
  }

  lemma NeverRotated(k: Derivation, a: Name)
    ensures Epoch(k, map[], a) == 0
  {
  }
}
