/**
 How a home finds, founds or migrates its profile at boot. The home is three files; a boot
 is a fixed order of reads and writes, and may stop between any two writes. Signatures and
 hashes are opaque: `Keys` says only what the boot path relies on.
 */
module IdentityProfile {
  import opened Common

  type Seed = nat
  type Device = nat
  type Profile = nat
  type Genesis = nat

  /** `seal` is the link two seeds sign together; none when they name one device. */
  datatype Keys = Keys(
    deviceOf: Seed -> Device,
    seal: (Seed, Seed) -> Option<Genesis>,
    verifies: Genesis -> bool,
    profileOf: Genesis -> Profile,
    names: Genesis -> set<Device>)
  {
    ghost predicate Lawful() {
      forall a: Seed, b: Seed ::
        && (seal(a, b).None? <==> deviceOf(a) == deviceOf(b))
        && (seal(a, b).Some? ==>
              verifies(seal(a, b).value) && names(seal(a, b).value) == {deviceOf(a), deviceOf(b)})
    }

    /** Two pairs of these seeds stand for one profile only if they are the same pair. */
    ghost predicate DistinctProfiles(seeds: set<Seed>) {
      forall a, b, x, y | a in seeds && b in seeds && x in seeds && y in seeds ::
        seal(a, b).Some? && seal(x, y).Some? && profileOf(seal(a, b).value) == profileOf(seal(x, y).value) ==>
          {a, b} == {x, y}
    }
  }

  const MAX_ENTRIES: nat := 4096

  datatype Entry = Link(genesis: Genesis) | Retire(device: Device) | Avow

  datatype Holding = Authored(entries: seq<Entry>) | Known(devices: set<Device>)

  datatype ReachState = ReachState(genesis: Option<Genesis>, holdings: map<Profile, Holding>)

  datatype File<T> = Missing | Torn | Holds(value: T)

  datatype Disk = Disk(secret: File<Seed>, cosigner: File<Seed>, store: File<ReachState>)

  // ---- the registry ---------------------------------------------------------------------

  function Linked(k: Keys, entries: seq<Entry>): (d: set<Device>) {
    if entries == [] then {}
    else (if entries[0].Link? then k.names(entries[0].genesis) else {}) + Linked(k, entries[1..])
  }

  function Retired(entries: seq<Entry>): (d: set<Device>) {
    if entries == [] then {}
    else (if entries[0].Retire? then {entries[0].device} else {}) + Retired(entries[1..])
  }

  /** The devices a log resolves to: every linked one, less every retired one. */
  function Devices(k: Keys, h: Holding): (d: set<Device>) {
    match h
    case Authored(entries) => Linked(k, entries) - Retired(entries)
    case Known(devices) => devices
  }

  predicate Resolves(k: Keys, s: ReachState, p: Profile, me: Device) {
    p in s.holdings && me in Devices(k, s.holdings[p])
  }

  predicate AuthoredOnly(s: ReachState, p: Profile) {
    forall q :: q in s.holdings && s.holdings[q].Authored? ==> q == p
  }

  datatype Refusal = CannotReconstruct | BadGenesis | Unreadable | Failed

  /** Found over a store that carries no genesis, or over nothing; the cosigner signs and leaves. */
  function FoundHere(k: Keys, identity: Seed, cosigner: Seed, held: Option<ReachState>): (r: Result<ReachState, Refusal>)
    ensures r.Ok? ==> k.seal(identity, cosigner).Some? && r.value.genesis == k.seal(identity, cosigner)
  {
    match k.seal(identity, cosigner)
    case None => Err(Failed)
    case Some(genesis) =>
      var p := k.profileOf(genesis);
      var base := if held.Some? then held.value.holdings else map[];
      if held.Some? && !AuthoredOnly(held.value, p) then Err(CannotReconstruct)
      else
        var entries := if p in base && base[p].Authored? then base[p].entries else [Link(genesis)];
        if |entries| >= MAX_ENTRIES then Err(Failed)
        else Ok(ReachState(Some(genesis), base[p := Authored(entries + [Retire(k.deviceOf(cosigner))])]))
  }

  // ---- what a home's disk may become ------------------------------------------------------

  function Held(d: Disk): (held: Option<ReachState>) {
    if d.store.Holds? then Some(d.store.value) else None
  }

  predicate Carries(k: Keys, d: Disk, identity: Seed, cosigner: Seed) {
    d.store.Holds? && d.store.value.genesis.Some? && k.seal(identity, cosigner) == d.store.value.genesis
  }

  datatype Write =
    | NoWrite
    | TearSecret
    | CreateSecret(identity: Seed)
    | Carry(cosigner: Seed)
    | RemoveCosigner
    | EditStore(state: ReachState)

  ghost predicate Step(k: Keys, d: Disk, w: Write, e: Disk) {
    match w
    case NoWrite => e == d
    case TearSecret => d.secret.Missing? && e == d.(secret := Torn)
    case CreateSecret(identity) => d.secret.Missing? && e == d.(secret := Holds(identity))
    case Carry(cosigner) =>
      && d.secret.Holds? && !d.cosigner.Torn? && !d.store.Torn?
      && (d.cosigner.Holds? ==> d.cosigner.value == cosigner)
      && (d.store.Holds? ==> d.store.value.genesis.None?)
      && var r := FoundHere(k, d.secret.value, cosigner, Held(d));
         r.Ok? && e == d.(store := Holds(r.value))
    case RemoveCosigner =>
      && d.secret.Holds? && d.cosigner.Holds?
      && Carries(k, d, d.secret.value, d.cosigner.value)
      && e == d.(cosigner := Missing)
    case EditStore(state) =>
      // What the daemon writes between boots: anything but the genesis.
      && d.store.Holds? && d.store.value.genesis.Some? && state.genesis == d.store.value.genesis
      && e == d.(store := Holds(state))
  }

  ghost predicate Next(k: Keys, d: Disk, e: Disk) {
    exists w :: Step(k, d, w, e)
  }

  ghost predicate IsRun(k: Keys, run: seq<Disk>) {
    |run| > 0 && forall i :: 0 <= i < |run| - 1 ==> Next(k, run[i], run[i + 1])
  }

  /** The profile a home already stands for: the genesis it carries, or the two seeds it holds. */
  function Determined(k: Keys, d: Disk): (p: Option<Profile>) {
    if d.store.Holds? && d.store.value.genesis.Some? then Some(k.profileOf(d.store.value.genesis.value))
    else if d.secret.Holds? && d.cosigner.Holds? && k.seal(d.secret.value, d.cosigner.value).Some? then
      Some(k.profileOf(k.seal(d.secret.value, d.cosigner.value).value))
    else None
  }

  lemma StepKeepsProfile(k: Keys, d: Disk, w: Write, e: Disk)
    requires Step(k, d, w, e) && Determined(k, d).Some?
    ensures Determined(k, e) == Determined(k, d)
  {
  }

  /** Whatever boots and crashes follow, a determined profile is the profile. */
  lemma {:induction false} ProfileNeverMoves(k: Keys, run: seq<Disk>, i: nat, j: nat)
    requires IsRun(k, run) && i <= j < |run| && Determined(k, run[i]).Some?
    ensures Determined(k, run[j]) == Determined(k, run[i])
  {
    if i < j {
      ProfileNeverMoves(k, run, i, j - 1);
      assert Next(k, run[j - 1], run[j - 1 + 1]);
      var w :| Step(k, run[j - 1], w, run[j]);
      StepKeepsProfile(k, run[j - 1], w, run[j]);
    }
  }

  /** The only copy of a cosigner seed goes only when the genesis it signed is already carried. */
  lemma CosignerLeavesLast(k: Keys, run: seq<Disk>, i: nat)
    requires IsRun(k, run) && i + 1 < |run|
    requires run[i].cosigner.Holds? && run[i + 1].cosigner != run[i].cosigner
    ensures run[i].secret.Holds? && Carries(k, run[i], run[i].secret.value, run[i].cosigner.value)
    ensures run[i + 1].store == run[i].store && run[i + 1].secret == run[i].secret
    ensures Determined(k, run[i + 1]) == Determined(k, run[i])
  {
    assert Next(k, run[i], run[i + 1]);
  }

  /** A seed once whole on disk is never rewritten, and a carried genesis never replaced. */
  lemma {:induction false} IdentityNeverMoves(k: Keys, run: seq<Disk>, i: nat, j: nat)
    requires IsRun(k, run) && i <= j < |run|
    ensures !run[i].secret.Missing? ==> run[j].secret == run[i].secret
    ensures run[i].store.Holds? && run[i].store.value.genesis.Some? ==>
              run[j].store.Holds? && run[j].store.value.genesis == run[i].store.value.genesis
  {
    if i < j {
      IdentityNeverMoves(k, run, i, j - 1);
      assert Next(k, run[j - 1], run[j - 1 + 1]);
    }
  }

  lemma RunExtends(k: Keys, run: seq<Disk>, w: Write, e: Disk)
    requires IsRun(k, run) && Step(k, run[|run| - 1], w, e)
    ensures IsRun(k, run + [e])
  {
    var longer := run + [e];
    forall i | 0 <= i < |longer| - 1
      ensures Next(k, longer[i], longer[i + 1])
    {
      if i < |run| - 1 {
        assert Next(k, run[i], run[i + 1]);
      }
    }
  }

  // ---- homes that boot ------------------------------------------------------------------

  /** A carried genesis this device is part of, or two seeds and nothing that contradicts them. */
  predicate Recoverable(k: Keys, d: Disk) {
    && d.secret.Holds? && !d.cosigner.Torn? && !d.store.Torn?
    && if d.store.Holds? && d.store.value.genesis.Some? then
         var g := d.store.value.genesis.value;
         k.verifies(g) && Resolves(k, d.store.value, k.profileOf(g), k.deviceOf(d.secret.value))
       else
         && d.cosigner.Holds?
         && FoundHere(k, d.secret.value, d.cosigner.value, Held(d)).Ok?
  }

  lemma {:induction false} LinkedConcat(k: Keys, a: seq<Entry>, b: seq<Entry>)
    ensures Linked(k, a + b) == Linked(k, a) + Linked(k, b)
    ensures Retired(a + b) == Retired(a) + Retired(b)
  {
    if a == [] {
      assert a + b == b;
    } else {
      assert (a + b)[1..] == a[1..] + b;
      LinkedConcat(k, a[1..], b);
    }
  }

  /** The store already holds a log this home authored for the profile. */
  predicate AuthoredHere(held: Option<ReachState>, p: Profile) {
    held.Some? && p in held.value.holdings && held.value.holdings[p].Authored?
  }

  /**
   What a founding does to the registry. Every other profile's entry is kept; the founded one
   resolves to the devices it had, less the cosigner, or to this device alone when it is new.
   */
  lemma FoundingRetiresCosigner(k: Keys, identity: Seed, cosigner: Seed, held: Option<ReachState>)
    requires k.Lawful() && FoundHere(k, identity, cosigner, held).Ok?
    ensures var after := FoundHere(k, identity, cosigner, held).value;
            var p := k.profileOf(after.genesis.value);
            && p in after.holdings && after.holdings[p].Authored?
            && Devices(k, after.holdings[p])
               == (if AuthoredHere(held, p) then Devices(k, held.value.holdings[p]) - {k.deviceOf(cosigner)}
                   else {k.deviceOf(identity)})
            && (forall q :: q != p ==>
                  && (q in after.holdings <==> held.Some? && q in held.value.holdings)
                  && (q in after.holdings ==> after.holdings[q] == held.value.holdings[q]))
  {
    var g := k.seal(identity, cosigner).value;
    var p, retire := k.profileOf(g), [Retire(k.deviceOf(cosigner))];
    var base := if held.Some? then held.value.holdings else map[];
    var entries := if p in base && base[p].Authored? then base[p].entries else [Link(g)];
    LinkedConcat(k, entries, retire);
    assert Retired(retire) == {k.deviceOf(cosigner)} + Retired([]);
    assert Linked(k, retire) == {} + Linked(k, []);
    if !AuthoredHere(held, p) {
      assert Linked(k, [Link(g)]) == k.names(g) + Linked(k, []);
      assert Retired([Link(g)]) == {} + Retired([]);
    }
  }

  /**
   The crash window. A boot stopped between saving its store and removing its key keeps the
   profile, and the home boots again exactly when the log it was extending, if there was
   one, already named this device.
   */
  lemma CrashWindowRecovers(k: Keys, d: Disk, cosigner: Seed, e: Disk)
    requires k.Lawful() && Step(k, d, Carry(cosigner), e)
    ensures Determined(k, d).Some? ==> Determined(k, e) == Determined(k, d)
    ensures Carries(k, e, e.secret.value, cosigner) && e.cosigner == d.cosigner
    ensures var p := k.profileOf(k.seal(d.secret.value, cosigner).value);
            Recoverable(k, e) <==>
              (AuthoredHere(Held(d), p) ==> Resolves(k, d.store.value, p, k.deviceOf(d.secret.value)))
  {
    FoundingRetiresCosigner(k, d.secret.value, cosigner, Held(d));
  }

  /** A home that fails it: the log it extends has retired this very device. */
  lemma MigrationLocksOutRetired(k: Keys, identity: Seed, cosigner: Seed) returns (d: Disk, e: Disk)
    requires k.Lawful() && k.seal(identity, cosigner).Some?
    ensures d.secret == Holds(identity) && d.cosigner == Holds(cosigner) && d.store.Holds?
    ensures Step(k, d, Carry(cosigner), e) && Determined(k, e) == Determined(k, d)
    ensures !Recoverable(k, e)
  {
    var g := k.seal(identity, cosigner).value;
    var p, entries := k.profileOf(g), [Link(g), Retire(k.deviceOf(identity))];
    d := Disk(Holds(identity), Holds(cosigner), Holds(ReachState(None, map[p := Authored(entries)])));
    assert Held(d) == Some(d.store.value);
    e := d.(store := Holds(FoundHere(k, identity, cosigner, Held(d)).value));
    CrashWindowRecovers(k, d, cosigner, e);
    assert entries == [Link(g)] + [Retire(k.deviceOf(identity))];
    LinkedConcat(k, [Link(g)], [Retire(k.deviceOf(identity))]);
    assert Retired([Retire(k.deviceOf(identity))]) == {k.deviceOf(identity)} + Retired([]);
  }

  // ---- what a boot does when storage works ------------------------------------------------

  /** When a founding goes through: two devices, nobody else's log, and room for the retirement. */
  lemma FoundHereIff(k: Keys, identity: Seed, cosigner: Seed, held: Option<ReachState>)
    requires k.Lawful()
    ensures k.deviceOf(identity) == k.deviceOf(cosigner) ==> FoundHere(k, identity, cosigner, held) == Err(Failed)
    ensures k.deviceOf(identity) != k.deviceOf(cosigner) ==>
              var p := k.profileOf(k.seal(identity, cosigner).value);
              var others := held.Some? && exists q :: q in held.value.holdings && held.value.holdings[q].Authored? && q != p;
              && (others ==> FoundHere(k, identity, cosigner, held) == Err(CannotReconstruct))
              && (!others && AuthoredHere(held, p) && |held.value.holdings[p].entries| >= MAX_ENTRIES ==>
                    FoundHere(k, identity, cosigner, held) == Err(Failed))
              && (!others && (AuthoredHere(held, p) ==> |held.value.holdings[p].entries| < MAX_ENTRIES) ==>
                    FoundHere(k, identity, cosigner, held).Ok?)
  {
  }

  /** The identity a boot goes by: the one on disk, or the one it mints. */
  function IdentityAt(d: Disk, minted: Seed): (s: Seed) {
    if d.secret.Holds? then d.secret.value else minted
  }

  function CosignerAt(d: Disk, minted: Seed): (s: Seed) {
    if d.cosigner.Holds? then d.cosigner.value else minted
  }

  /** The homes a boot succeeds on, given the seeds it may mint. */
  ghost predicate Bootable(k: Keys, d: Disk, freshIdentity: Seed, freshCosigner: Seed) {
    && !d.secret.Torn? && !d.store.Torn? && !d.cosigner.Torn?
    && var me := IdentityAt(d, freshIdentity);
       if d.store.Holds? && d.store.value.genesis.Some? then
         var g := d.store.value.genesis.value;
         k.verifies(g) && Resolves(k, d.store.value, k.profileOf(g), k.deviceOf(me))
       else
         FoundHere(k, me, CosignerAt(d, freshCosigner), Held(d)).Ok?
  }

  /** Why a boot is refused on the others. */
  ghost function BootRefusal(k: Keys, d: Disk, freshIdentity: Seed, freshCosigner: Seed): (e: Refusal)
    requires !Bootable(k, d, freshIdentity, freshCosigner)
  {
    if d.secret.Torn? || d.store.Torn? || d.cosigner.Torn? then Unreadable
    else if d.store.Holds? && d.store.value.genesis.Some? then
      if k.verifies(d.store.value.genesis.value) then CannotReconstruct else BadGenesis
    else FoundHere(k, IdentityAt(d, freshIdentity), CosignerAt(d, freshCosigner), Held(d)).error
  }

  /** What such a boot leaves: a seed, a store that carries its genesis, and no key it has spent. */
  ghost predicate BootLeaves(k: Keys, d: Disk, freshIdentity: Seed, freshCosigner: Seed, p: Profile, e: Disk) {
    var me, other := IdentityAt(d, freshIdentity), CosignerAt(d, freshCosigner);
    && e.secret == Holds(me)
    && (d.store.Holds? && d.store.value.genesis.Some? ==>
          && e.store == d.store && p == k.profileOf(d.store.value.genesis.value)
          && (if d.cosigner.Holds? && k.seal(me, d.cosigner.value) == d.store.value.genesis then e.cosigner.Missing?
              else e.cosigner == d.cosigner))
    && (!(d.store.Holds? && d.store.value.genesis.Some?) ==>
          && k.seal(me, other).Some? && p == k.profileOf(k.seal(me, other).value)
          && FoundHere(k, me, other, Held(d)).Ok? && e.store == Holds(FoundHere(k, me, other, Held(d)).value)
          && e.cosigner.Missing?)
  }

  // ---- the boot ---------------------------------------------------------------------------

  class Home {
    const k: Keys
    var disk: Disk
    ghost var run: seq<Disk>

    ghost predicate Valid()
      reads this
    {
      IsRun(k, run) && run[|run| - 1] == disk
    }

    constructor (k: Keys, disk: Disk)
      ensures Valid() && this.k == k && this.disk == disk && run == [disk]
    {
      this.k, this.disk := k, disk;
      run := [disk];
    }

    method Put(ghost w: Write, next: Disk)
      requires Valid() && Step(k, disk, w, next)
      modifies this
      ensures Valid() && disk == next && run == old(run) + [next]
    {
      RunExtends(k, run, w, next);
      disk := next;
      run := run + [next];
    }

    /** The identity seed, minted on first boot. A write that is cut off leaves a torn file. */
    method LoadOrCreateIdentity(minted: Seed, storage: bool) returns (r: Result<Seed, Refusal>)
      requires Valid()
      modifies this
      ensures Valid() && old(run) <= run
      ensures disk.cosigner == old(disk.cosigner) && disk.store == old(disk.store)
      ensures r.Ok? ==> disk.secret == Holds(r.value)
      ensures old(disk.secret.Holds?) ==> r == Ok(old(disk.secret.value)) && disk == old(disk)
      ensures old(disk.secret.Torn?) ==> r == Err(Unreadable) && disk == old(disk)
      ensures storage && old(disk.secret.Missing?) ==> r == Ok(minted) && disk == old(disk).(secret := Holds(minted))
      ensures old(disk.secret.Missing?) && r.Ok? ==> r.value == minted
      ensures r.Err? ==> r.error != CannotReconstruct
    {
      match disk.secret {
        case Holds(seed) =>
          return Ok(seed);
        case Torn =>
          return Err(Unreadable);
        case Missing =>
          var written := *;
          if !storage && !written {
            Put(TearSecret, disk.(secret := Torn));
            return Err(Failed);
          }
          Put(CreateSecret(minted), disk.(secret := Holds(minted)));
          return Ok(minted);
      }
    }

    /** Read, found or migrate, or refuse; the key goes last, and only once it is proven spent. */
    method IdentityProfile(freshIdentity: Seed, freshCosigner: Seed, storage: bool) returns (r: Result<Profile, Refusal>)
      requires Valid()
      modifies this
      ensures Valid() && old(run) <= run
      ensures r.Ok? ==> Determined(k, disk) == Some(r.value)
      ensures storage && old(Recoverable(k, disk)) ==> r.Ok? && old(Determined(k, disk)) == Some(r.value)
      ensures r == Err(CannotReconstruct) ==> disk.store == old(disk.store) && disk.cosigner == old(disk.cosigner)
      ensures old(disk.secret.Torn?) ==> r.Err?
      ensures old(disk.secret.Holds? && disk.store.Holds? && disk.store.value.genesis.Some? && !Recoverable(k, disk)) ==> r.Err?
      ensures storage ==> (r.Ok? <==> Bootable(k, old(disk), freshIdentity, freshCosigner))
      ensures storage && r.Err? ==> r.error == BootRefusal(k, old(disk), freshIdentity, freshCosigner)
      ensures r.Ok? ==> BootLeaves(k, old(disk), freshIdentity, freshCosigner, r.value, disk)
      ensures storage && old(disk) == Disk(Missing, Missing, Missing) && k.seal(freshIdentity, freshCosigner).Some? ==>
                r == Ok(k.profileOf(k.seal(freshIdentity, freshCosigner).value)) && disk.secret == Holds(freshIdentity)
      ensures storage && old(disk.secret.Holds? && disk.cosigner.Missing? && disk.store.Missing?)
              && k.seal(old(disk.secret.value), freshCosigner).Some? ==>
                r == Ok(k.profileOf(k.seal(old(disk.secret.value), freshCosigner).value)) && disk.secret == old(disk.secret)
    {
      var loaded := LoadOrCreateIdentity(freshIdentity, storage);
      if loaded.Err? {
        return Err(loaded.error);
      }
      var identity := loaded.value;
      if disk.store.Torn? || disk.cosigner.Torn? {
        return Err(Unreadable);
      }
      if disk.store.Holds? && disk.store.value.genesis.Some? {
        r := ReadCarried(identity, storage);
      } else {
        r := FoundAndCarry(identity, freshCosigner, storage);
      }
    }

    method ReadCarried(identity: Seed, storage: bool) returns (r: Result<Profile, Refusal>)
      requires Valid() && disk.secret == Holds(identity) && !disk.cosigner.Torn?
      requires disk.store.Holds? && disk.store.value.genesis.Some?
      modifies this
      ensures Valid() && old(run) <= run && disk.store == old(disk.store) && disk.secret == old(disk.secret)
      ensures r.Ok? ==> Determined(k, disk) == Some(r.value)
      ensures storage && old(Recoverable(k, disk)) ==> r.Ok?
      ensures !old(Recoverable(k, disk)) ==> r.Err?
      ensures r.Ok? ==> r.value == k.profileOf(old(disk.store.value.genesis.value))
      ensures !k.verifies(old(disk.store.value.genesis.value)) ==> r == Err(BadGenesis)
      ensures storage && r.Err? && k.verifies(old(disk.store.value.genesis.value)) ==> r == Err(CannotReconstruct)
      ensures r.Ok? ==> disk.cosigner == if old(disk.cosigner.Holds?) && k.seal(identity, old(disk.cosigner.value)) == old(disk.store.value.genesis)
                                         then Missing else old(disk.cosigner)
      ensures r == Err(CannotReconstruct) ==> disk == old(disk)
      ensures r.Ok? ==> Resolves(k, disk.store.value, r.value, k.deviceOf(identity))
    {
      var genesis := disk.store.value.genesis.value;
      if !k.verifies(genesis) {
        return Err(BadGenesis);
      }
      var profile := k.profileOf(genesis);
      if !Resolves(k, disk.store.value, profile, k.deviceOf(identity)) {
        return Err(CannotReconstruct);
      }
      if disk.cosigner.Holds? && k.seal(identity, disk.cosigner.value) == Some(genesis) {
        var removed := *;
        if !storage && !removed {
          return Err(Failed);
        }
        Put(RemoveCosigner, disk.(cosigner := Missing));
      }
      return Ok(profile);
    }

    method FoundAndCarry(identity: Seed, freshCosigner: Seed, storage: bool) returns (r: Result<Profile, Refusal>)
      requires Valid() && disk.secret == Holds(identity) && !disk.cosigner.Torn? && !disk.store.Torn?
      requires disk.store.Holds? ==> disk.store.value.genesis.None?
      modifies this
      ensures Valid() && old(run) <= run && disk.secret == old(disk.secret)
      ensures r.Ok? ==> Determined(k, disk) == Some(r.value) && disk.cosigner.Missing?
      ensures storage && old(Recoverable(k, disk)) ==> r.Ok? && old(Determined(k, disk)) == Some(r.value)
      ensures r == Err(CannotReconstruct) ==> disk == old(disk)
      ensures var founded := FoundHere(k, identity, CosignerAt(old(disk), freshCosigner), Held(old(disk)));
              && (storage ==> (r.Ok? <==> founded.Ok?))
              && (founded.Err? ==> r == Err(founded.error))
              && (r.Ok? ==> founded.Ok? && disk.store == Holds(founded.value) && r.value == k.profileOf(founded.value.genesis.value))
    {
      var legacy := disk.cosigner;
      var cosigner := if legacy.Holds? then legacy.value else freshCosigner;
      var founded := FoundHere(k, identity, cosigner, Held(disk));
      if founded.Err? {
        return Err(founded.error);
      }
      var saved := *;
      if !storage && !saved {
        return Err(Failed);
      }
      Put(Carry(cosigner), disk.(store := Holds(founded.value)));
      if legacy.Holds? {
        var removed := *;
        if !storage && !removed {
          return Err(Failed);
        }
        Put(RemoveCosigner, disk.(cosigner := Missing));
      }
      return Ok(k.profileOf(founded.value.genesis.value));
    }
  }
}
