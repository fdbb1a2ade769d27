/**
 Boots that overlap. The boot path runs before the daemon lock is taken, and reads and
 writes its three files one at a time; so here every read, save and removal of every
 process is a step of its own, and a run is any interleaving of them, with failures and
 crashes anywhere. A process knows only what it has read.
 */
module RacingBoots {
  import opened Common
  import opened IdentityProfile

  type Pid = nat

  /** The seeds a boot draws, should it need them. */
  datatype Minted = Minted(identity: Seed, cosigner: Seed)

  datatype Phase =
    | LookingAtSecret
    | Minting
    | LoadingStore
    | LookingAtKey
    | ReadingKey
    | Saving
    | RemovingKey
    | Done(answer: Result<Profile, Refusal>)
    | Dead

  /** `held` is what the store read gave, `key` what the key read gave; None is not yet. */
  datatype Boot = Boot(
    phase: Phase, minted: Minted, minter: bool, identity: Option<Seed>,
    held: Option<Option<ReachState>>, key: Option<Option<Seed>>, saved: bool)

  /** `saver` is the boot whose save the store holds. */
  datatype Race = Race(disk: Disk, boots: map<Pid, Boot>, saver: Option<Pid>)

  datatype Event =
    | Start(p: Pid, minted: Minted)
    | Look(p: Pid)
    | Write(p: Pid)
    | Tear(p: Pid)
    | Load(p: Pid)
    | Find(p: Pid)
    | Read(p: Pid)
    | Store(p: Pid)
    | Unlink(p: Pid)
    | Fail(p: Pid)
    | Die(p: Pid)

  // ---- what a boot makes of what it read -------------------------------------------------

  predicate HasGenesis(held: Option<ReachState>) {
    held.Some? && held.value.genesis.Some?
  }

  predicate Informed(b: Boot) {
    b.identity.Some? && b.held.Some? && b.key.Some?
  }

  function CosignerOf(b: Boot): (c: Seed)
    requires b.key.Some?
  {
    if b.key.value.Some? then b.key.value.value else b.minted.cosigner
  }

  function Founded(k: Keys, b: Boot): (r: Result<ReachState, Refusal>)
    requires Informed(b)
  {
    FoundHere(k, b.identity.value, CosignerOf(b), b.held.value)
  }

  /** It read a store without a genesis, and can found over it. */
  predicate Founder(k: Keys, b: Boot) {
    Informed(b) && !HasGenesis(b.held.value) && Founded(k, b).Ok?
  }

  /** The profile a boot answers, if it comes to an answer. */
  function Answer(k: Keys, b: Boot): (p: Profile)
    requires Informed(b) && (HasGenesis(b.held.value) || Founder(k, b))
  {
    if HasGenesis(b.held.value) then k.profileOf(b.held.value.value.genesis.value)
    else k.profileOf(Founded(k, b).value.genesis.value)
  }

  /** With all three read: refuse, answer, or go on to write. */
  function Decided(k: Keys, b: Boot): (ph: Phase)
    requires Informed(b)
  {
    if HasGenesis(b.held.value) then
      var g := b.held.value.value.genesis.value;
      if !k.verifies(g) then Done(Err(BadGenesis))
      else if !Resolves(k, b.held.value.value, k.profileOf(g), k.deviceOf(b.identity.value)) then Done(Err(CannotReconstruct))
      else if b.key.value.Some? && k.seal(b.identity.value, b.key.value.value) == Some(g) then RemovingKey
      else Done(Ok(k.profileOf(g)))
    else if Founded(k, b).Err? then Done(Err(Founded(k, b).error))
    else Saving
  }

  predicate Finished(b: Boot) {
    b.phase.Done? || b.phase.Dead?
  }

  predicate AnsweredOk(b: Boot) {
    b.phase.Done? && b.phase.answer.Ok?
  }

  // ---- steps -------------------------------------------------------------------------------

  predicate Enabled(k: Keys, s: Race, e: Event) {
    if e.Start? then e.p !in s.boots
    else
      && e.p in s.boots
      && var b := s.boots[e.p];
         match e
         case Look(_) => b.phase.LookingAtSecret?
         case Write(_) => b.phase.Minting?
         case Tear(_) => b.phase.Minting?
         case Load(_) => b.phase.LoadingStore?
         case Find(_) => b.phase.LookingAtKey? && Informed(b.(key := Some(None)))
         case Read(_) => b.phase.ReadingKey? && Informed(b.(key := Some(None)))
         case Store(_) => b.phase.Saving? && Founder(k, b)
         case Unlink(_) => b.phase.RemovingKey? && Informed(b) && (HasGenesis(b.held.value) || Founder(k, b))
         case _ => !Finished(b)
  }

  function Put(s: Race, p: Pid, b: Boot): (t: Race) {
    s.(boots := s.boots[p := b])
  }

  function After(k: Keys, s: Race, e: Event): (t: Race)
    requires Enabled(k, s, e)
  {
    if e.Start? then Put(s, e.p, Boot(LookingAtSecret, e.minted, false, None, None, None, false))
    else
      var p, b, d := e.p, s.boots[e.p], s.disk;
      match e
      case Look(_) =>
        Put(s, p, match d.secret
                  case Missing => b.(phase := Minting)
                  case Torn => b.(phase := Done(Err(Unreadable)))
                  case Holds(x) => b.(phase := LoadingStore, identity := Some(x)))
      case Write(_) =>
        Put(s.(disk := d.(secret := Holds(b.minted.identity))), p,
            b.(phase := LoadingStore, minter := true, identity := Some(b.minted.identity)))
      case Tear(_) => Put(s.(disk := d.(secret := Torn)), p, b.(phase := Dead))
      case Load(_) =>
        Put(s, p, if d.store.Torn? then b.(phase := Done(Err(Unreadable))) else b.(phase := LookingAtKey, held := Some(Held(d))))
      case Find(_) =>
        Put(s, p, if d.cosigner.Missing? then var c := b.(key := Some(None)); c.(phase := Decided(k, c))
                  else b.(phase := ReadingKey))
      case Read(_) =>
        Put(s, p, if d.cosigner.Holds? then var c := b.(key := Some(Some(d.cosigner.value))); c.(phase := Decided(k, c))
                  else b.(phase := Done(Err(Unreadable))))
      case Store(_) =>
        Put(s.(disk := d.(store := Holds(Founded(k, b).value)), saver := Some(p)), p,
            b.(saved := true, phase := if b.key.value.Some? then RemovingKey else Done(Ok(Answer(k, b)))))
      case Unlink(_) => Put(s.(disk := d.(cosigner := Missing)), p, b.(phase := Done(Ok(Answer(k, b)))))
      case Fail(_) => Put(s, p, b.(phase := Done(Err(Failed))))
      case Die(_) => Put(s, p, b.(phase := Dead))
  }

  ghost predicate IsRun(k: Keys, run: seq<Race>, events: seq<Event>) {
    && |run| == |events| + 1 && run[0].boots == map[] && run[0].saver.None?
    && forall i :: 0 <= i < |events| ==> Enabled(k, run[i], events[i]) && run[i + 1] == After(k, run[i], events[i])
  }

  /** A step is its own process's: no other boot moves. */
  lemma OthersStay(k: Keys, s: Race, e: Event, q: Pid)
    requires Enabled(k, s, e) && q != e.p
    ensures q in s.boots <==> q in After(k, s, e).boots
    ensures q in s.boots ==> After(k, s, e).boots[q] == s.boots[q]
  {
  }

  // ---- what every interleaving keeps -------------------------------------------------------

  /** `h` is what boot `y` saved. */
  ghost predicate SavedBy(k: Keys, s: Race, y: Pid, h: Option<ReachState>) {
    y in s.boots && s.boots[y].saved && Founder(k, s.boots[y]) && h == Some(Founded(k, s.boots[y]).value)
  }

  ghost predicate MintedBy(s: Race, x: Pid, v: Seed) {
    x in s.boots && s.boots[x].minter && s.boots[x].minted.identity == v
  }

  /** Where a boot's identity came from: the home, itself, or another boot that minted. */
  ghost predicate IdentityInv(d: Disk, s: Race, b: Boot) {
    && (b.phase.Minting? ==> !d.secret.Holds?)
    && (b.minter ==> !d.secret.Holds? && b.identity == Some(b.minted.identity))
    && (b.identity.Some? && d.secret.Holds? ==> b.identity.value == d.secret.value)
    && (b.identity.Some? && !d.secret.Holds? && !b.minter ==> exists x :: MintedBy(s, x, b.identity.value))
  }

  /** Where a boot's store came from: the home, or another boot's save. */
  ghost predicate StoreInv(k: Keys, d: Disk, s: Race, p: Pid, b: Boot) {
    b.held.Some? ==> b.held.value == Held(d) || exists y :: y != p && SavedBy(k, s, y, b.held.value)
  }

  /** Where its cosigner came from: the home, or nowhere once somebody saved and removed it. */
  ghost predicate WitnessInv(d: Disk, s: Race, b: Boot) {
    b.key.Some? ==>
      if b.key.value.Some? then d.cosigner == Holds(b.key.value.value)
      else d.cosigner.Missing? || s.saver.Some?
  }

  ghost predicate PhaseInv(k: Keys, b: Boot) {
    && (b.phase.LookingAtSecret? || b.phase.Minting? || b.phase.LoadingStore? ==> b.held.None?)
    && (b.phase.LookingAtSecret? || b.phase.Minting? ==> b.identity.None? && !b.minter)
    && (b.phase.LoadingStore? || b.phase.LookingAtKey? || b.phase.ReadingKey? ==> b.identity.Some?)
    && (b.phase.LookingAtKey? || b.phase.ReadingKey? ==> b.held.Some?)
    && (b.key.None? && !b.phase.Done? ==> !b.saved)
    && (b.held.None? || b.phase.LookingAtKey? || b.phase.ReadingKey? ==> b.key.None?)
    && (b.saved ==> Founder(k, b))
    && (b.phase.Saving? ==> Founder(k, b) && !b.saved)
    && (b.key.None? ==> !b.saved)
    && (b.phase.RemovingKey? || AnsweredOk(b) ==>
          Informed(b) && (HasGenesis(b.held.value) || (Founder(k, b) && b.saved)))
    && (b.phase.RemovingKey? ==> b.key.value.Some?)
    && (AnsweredOk(b) ==> b.phase.answer.value == Answer(k, b))
  }

  ghost predicate BootInv(k: Keys, d: Disk, s: Race, p: Pid) {
    p in s.boots ==>
      var b := s.boots[p];
      IdentityInv(d, s, b) && StoreInv(k, d, s, p, b) && WitnessInv(d, s, b) && PhaseInv(k, b)
  }

  ghost predicate DiskInv(k: Keys, d: Disk, s: Race) {
    && (s.disk.cosigner == d.cosigner || s.disk.cosigner.Missing?)
    && (s.disk.cosigner.Missing? && !d.cosigner.Missing? ==> s.saver.Some?)
    && (s.saver.None? ==> s.disk.store == d.store && forall y :: y in s.boots ==> !s.boots[y].saved)
    && (s.saver.Some? ==> s.disk.store.Holds? && SavedBy(k, s, s.saver.value, Held(s.disk)))
    && (d.secret.Holds? ==> s.disk.secret == d.secret)
    && (!d.secret.Holds? && s.disk.secret.Holds? ==> exists x :: MintedBy(s, x, s.disk.secret.value))
  }

  /** `d` is the home before any of the boots began. */
  ghost predicate Inv(k: Keys, d: Disk, s: Race) {
    DiskInv(k, d, s) && forall p :: BootInv(k, d, s, p)
  }

  lemma SavesStay(k: Keys, d: Disk, s: Race, e: Event, y: Pid, h: Option<ReachState>)
    requires Enabled(k, s, e) && BootInv(k, d, s, y) && SavedBy(k, s, y, h)
    ensures SavedBy(k, After(k, s, e), y, h)
  {
    if y != e.p {
      OthersStay(k, s, e, y);
    }
  }

  lemma MintsStay(k: Keys, s: Race, e: Event, x: Pid, v: Seed)
    requires Enabled(k, s, e) && MintedBy(s, x, v)
    ensures MintedBy(After(k, s, e), x, v)
  {
    if x != e.p {
      OthersStay(k, s, e, x);
    }
  }

  lemma OtherBootKept(k: Keys, d: Disk, s: Race, e: Event, q: Pid)
    requires Inv(k, d, s) && Enabled(k, s, e) && q != e.p
    ensures BootInv(k, d, After(k, s, e), q)
  {
    var t := After(k, s, e);
    OthersStay(k, s, e, q);
    assert BootInv(k, d, s, q);
    if q in s.boots {
      var b := s.boots[q];
      if x :| b.identity.Some? && MintedBy(s, x, b.identity.value) {
        MintsStay(k, s, e, x, b.identity.value);
      }
      if y :| y != q && b.held.Some? && SavedBy(k, s, y, b.held.value) {
        assert BootInv(k, d, s, y);
        SavesStay(k, d, s, e, y, b.held.value);
      }
    }
  }

  /** The boot that moves: its identity is the home's, its own, or another's that minted. */
  lemma OwnIdentityKept(k: Keys, d: Disk, s: Race, e: Event)
    requires Inv(k, d, s) && Enabled(k, s, e)
    ensures IdentityInv(d, After(k, s, e), After(k, s, e).boots[e.p])
  {
    assert BootInv(k, d, s, e.p);
    if !e.Start? {
      var b := s.boots[e.p];
      if x :| b.identity.Some? && MintedBy(s, x, b.identity.value) {
        MintsStay(k, s, e, x, b.identity.value);
      }
      if x :| s.disk.secret.Holds? && MintedBy(s, x, s.disk.secret.value) {
        MintsStay(k, s, e, x, s.disk.secret.value);
      }
    }
  }

  /** The store it read is the home's, or another's save. */
  lemma OwnStoreKept(k: Keys, d: Disk, s: Race, e: Event)
    requires Inv(k, d, s) && Enabled(k, s, e)
    ensures StoreInv(k, d, After(k, s, e), e.p, After(k, s, e).boots[e.p])
  {
    var t := After(k, s, e);
    assert BootInv(k, d, s, e.p);
    if e.Load? && s.saver.Some? {
      assert BootInv(k, d, s, s.saver.value);
      SavesStay(k, d, s, e, s.saver.value, Held(s.disk));
    } else if !e.Start? && !e.Load? {
      var b := s.boots[e.p];
      assert t.boots[e.p].held == b.held;
      if y :| y != e.p && b.held.Some? && SavedBy(k, s, y, b.held.value) {
        assert BootInv(k, d, s, y);
        SavesStay(k, d, s, e, y, b.held.value);
      }
    }
  }

  lemma OwnPhaseKept(k: Keys, d: Disk, s: Race, e: Event)
    requires Inv(k, d, s) && Enabled(k, s, e)
    ensures WitnessInv(d, After(k, s, e), After(k, s, e).boots[e.p]) && PhaseInv(k, After(k, s, e).boots[e.p])
  {
    hide SavedBy, MintedBy, FoundHere, Resolves;
    assert BootInv(k, d, s, e.p);
  }

  lemma DiskKept(k: Keys, d: Disk, s: Race, e: Event)
    requires Inv(k, d, s) && Enabled(k, s, e) && !HasGenesis(Held(d))
    ensures DiskInv(k, d, After(k, s, e))
  {
    var t := After(k, s, e);
    assert BootInv(k, d, s, e.p);
    if s.saver.Some? {
      assert BootInv(k, d, s, s.saver.value);
      SavesStay(k, d, s, e, s.saver.value, Held(s.disk));
    }
    if e.Write? {
      assert MintedBy(t, e.p, t.disk.secret.value);
    } else if x :| s.disk.secret.Holds? && MintedBy(s, x, s.disk.secret.value) {
      MintsStay(k, s, e, x, s.disk.secret.value);
    }
  }

  lemma {:induction false} RunInvariant(k: Keys, run: seq<Race>, events: seq<Event>, i: nat)
    requires IsRun(k, run, events) && i < |run| && !HasGenesis(Held(run[0].disk))
    ensures Inv(k, run[0].disk, run[i])
  {
    if i > 0 {
      RunInvariant(k, run, events, i - 1);
      var d, s, e := run[0].disk, run[i - 1], events[i - 1];
      assert run[i - 1 + 1] == After(k, s, e);
      DiskKept(k, d, s, e);
      forall p
        ensures BootInv(k, d, run[i], p)
      {
        if p == e.p {
          OwnIdentityKept(k, d, s, e);
          OwnStoreKept(k, d, s, e);
          OwnPhaseKept(k, d, s, e);
        } else {
          OtherBootKept(k, d, s, e, p);
        }
      }
    }
  }

  // ---- when two boots agree ------------------------------------------------------------------

  function SeedsOf(d: Disk, a: Minted, b: Minted): (s: set<Seed>) {
    {a.identity, a.cosigner, b.identity, b.cosigner}
    + (if d.secret.Holds? then {d.secret.value} else {})
    + (if d.cosigner.Holds? then {d.cosigner.value} else {})
  }

  /** Random seeds: none drawn twice, and none already on the disk. */
  predicate Fresh(d: Disk, a: Minted, b: Minted) {
    && a.identity !in {a.cosigner, b.identity, b.cosigner}
    && a.cosigner !in {b.identity, b.cosigner} && b.identity != b.cosigner
    && (d.secret.Holds? ==> d.secret.value !in {a.identity, a.cosigner, b.identity, b.cosigner})
    && (d.cosigner.Holds? ==> d.cosigner.value !in {a.identity, a.cosigner, b.identity, b.cosigner})
  }

  /** The home had a key when the boots began, and this boot found none. */
  predicate MissedKey(d: Disk, b: Boot) {
    d.cosigner.Holds? && b.key == Some(None)
  }

  /** Two boots, and no third, are all that ever ran. */
  ghost predicate OnlyTwo(s: Race, a: Pid, b: Pid) {
    a != b && s.boots.Keys == {a, b}
  }

  /** A boot that read the other's save answers the other's profile. */
  lemma ReaderAgrees(k: Keys, d: Disk, s: Race, a: Pid, b: Pid)
    requires Inv(k, d, s) && OnlyTwo(s, a, b) && !HasGenesis(Held(d))
    requires Informed(s.boots[a]) && HasGenesis(s.boots[a].held.value)
    ensures Founder(k, s.boots[b]) && Answer(k, s.boots[a]) == Answer(k, s.boots[b])
  {
    assert BootInv(k, d, s, a);
    var y :| y != a && SavedBy(k, s, y, s.boots[a].held.value);
    assert y in s.boots.Keys;
  }

  /** Two founders answer one profile exactly when they used the same two seeds. */
  lemma FoundersAgreeIff(k: Keys, d: Disk, s: Race, a: Pid, b: Pid)
    requires Inv(k, d, s) && OnlyTwo(s, a, b) && Founder(k, s.boots[a]) && Founder(k, s.boots[b])
    requires Fresh(d, s.boots[a].minted, s.boots[b].minted)
    requires k.DistinctProfiles(SeedsOf(d, s.boots[a].minted, s.boots[b].minted))
    ensures Answer(k, s.boots[a]) != Answer(k, s.boots[b]) <==>
              || !d.cosigner.Holds? || MissedKey(d, s.boots[a]) || MissedKey(d, s.boots[b])
              || (s.boots[a].minter && s.boots[b].minter)
  {
    var x, y := s.boots[a], s.boots[b];
    assert BootInv(k, d, s, a) && BootInv(k, d, s, b);
    IdentityOfTwo(k, d, s, a, b);
    IdentityOfTwo(k, d, s, b, a);
    var i, c, j, e := x.identity.value, CosignerOf(x), y.identity.value, CosignerOf(y);
    if Answer(k, x) == Answer(k, y) {
      assert {i, c} == {j, e};
      assert i in {j, e} && c in {j, e};
    }
  }

  lemma IdentityOfTwo(k: Keys, d: Disk, s: Race, a: Pid, b: Pid)
    requires Inv(k, d, s) && OnlyTwo(s, a, b) && s.boots[a].identity.Some?
    ensures s.boots[a].identity.value ==
              if d.secret.Holds? then d.secret.value
              else if s.boots[a].minter then s.boots[a].minted.identity
              else s.boots[b].minted.identity
    ensures !d.secret.Holds? && !s.boots[a].minter ==> s.boots[b].minter
    ensures s.boots[a].minter ==> !d.secret.Holds?
  {
    assert BootInv(k, d, s, a);
    if !d.secret.Holds? && !s.boots[a].minter {
      var x :| MintedBy(s, x, s.boots[a].identity.value);
      assert x in s.boots.Keys;
    }
  }

  /**
   Two boots, any interleaving, any home that carries no genesis yet. Both having answered,
   they answer different profiles exactly when both read the store before either's save could
   be seen, and then the home held no key to share, or one of them came too late for it, or
   each minted a secret of its own.
   */
  lemma TwoBootsDisagreeIff(k: Keys, run: seq<Race>, events: seq<Event>, n: nat, a: Pid, b: Pid)
    requires IsRun(k, run, events) && n < |run| && !HasGenesis(Held(run[0].disk)) && OnlyTwo(run[n], a, b)
    requires AnsweredOk(run[n].boots[a]) && AnsweredOk(run[n].boots[b])
    requires Fresh(run[0].disk, run[n].boots[a].minted, run[n].boots[b].minted)
    requires k.DistinctProfiles(SeedsOf(run[0].disk, run[n].boots[a].minted, run[n].boots[b].minted))
    ensures var d, x, y := run[0].disk, run[n].boots[a], run[n].boots[b];
            x.phase.answer != y.phase.answer <==>
              && Founder(k, x) && Founder(k, y)
              && (!d.cosigner.Holds? || MissedKey(d, x) || MissedKey(d, y) || (x.minter && y.minter))
  {
    var d, s := run[0].disk, run[n];
    RunInvariant(k, run, events, n);
    assert BootInv(k, d, s, a) && BootInv(k, d, s, b);
    var x, y := s.boots[a], s.boots[b];
    if HasGenesis(x.held.value) {
      ReaderAgrees(k, d, s, a, b);
    } else if HasGenesis(y.held.value) {
      ReaderAgrees(k, d, s, b, a);
    } else {
      FoundersAgreeIff(k, d, s, a, b);
    }
  }

  /**
   Any number of boots on a home with both seeds and no genesis: as long as none founds after
   missing the key, the home's profile stays what the two seeds say, and is every answer.
   */
  lemma UncrossedKeepsProfile(k: Keys, run: seq<Race>, events: seq<Event>, n: nat)
    requires IsRun(k, run, events) && n < |run| && !HasGenesis(Held(run[0].disk))
    requires run[0].disk.secret.Holds? && run[0].disk.cosigner.Holds? && Determined(k, run[0].disk).Some?
    requires forall p :: p in run[n].boots && Founder(k, run[n].boots[p]) ==> !MissedKey(run[0].disk, run[n].boots[p])
    ensures forall p :: p in run[n].boots && AnsweredOk(run[n].boots[p]) ==>
              Some(run[n].boots[p].phase.answer.value) == Determined(k, run[0].disk)
    ensures run[n].saver.Some? ==> Determined(k, run[n].disk) == Determined(k, run[0].disk)
  {
    var d, s := run[0].disk, run[n];
    RunInvariant(k, run, events, n);
    forall p | p in s.boots && Founder(k, s.boots[p])
      ensures Some(Answer(k, s.boots[p])) == Determined(k, d)
    {
      assert BootInv(k, d, s, p);
    }
    forall p | p in s.boots && AnsweredOk(s.boots[p])
      ensures Some(s.boots[p].phase.answer.value) == Determined(k, d)
    {
      assert BootInv(k, d, s, p);
      var b := s.boots[p];
      if HasGenesis(b.held.value) {
        var y :| y != p && SavedBy(k, s, y, b.held.value);
        assert Some(Answer(k, s.boots[y])) == Determined(k, d);
      }
    }
  }

  /**
   What any number of boots leave behind once one has saved. On a home that had no store, it
   boots again exactly when the secret that survived is of the device that founded.
   */
  lemma LeftBootableIff(k: Keys, run: seq<Race>, events: seq<Event>, n: nat)
    requires k.Lawful() && IsRun(k, run, events) && n < |run|
    requires run[0].disk.store.Missing? && !run[0].disk.cosigner.Torn? && run[n].saver.Some?
    ensures run[n].saver.value in run[n].boots && run[n].boots[run[n].saver.value].identity.Some?
    ensures Recoverable(k, run[n].disk) <==>
              && run[n].disk.secret.Holds?
              && k.deviceOf(run[n].disk.secret.value) == k.deviceOf(run[n].boots[run[n].saver.value].identity.value)
  {
    var d, s := run[0].disk, run[n];
    RunInvariant(k, run, events, n);
    var y := s.saver.value;
    assert BootInv(k, d, s, y);
    var b := s.boots[y];
    assert b.held.value == None;
    FoundingRetiresCosigner(k, b.identity.value, CosignerOf(b), None);
  }

  // ---- the same, told by the order of the steps ----------------------------------------------

  function Rank(ph: Phase): (r: nat) {
    match ph
    case LookingAtSecret => 0
    case Minting => 1
    case LoadingStore => 2
    case LookingAtKey => 3
    case ReadingKey => 4
    case Saving => 5
    case RemovingKey => 6
    case _ => 7
  }

  /** The phase a file step is taken in. */
  function EventRank(e: Event): (r: Option<nat>) {
    match e
    case Look(_) => Some(0)
    case Write(_) => Some(1)
    case Tear(_) => Some(1)
    case Load(_) => Some(2)
    case Find(_) => Some(3)
    case Read(_) => Some(4)
    case Store(_) => Some(5)
    case Unlink(_) => Some(6)
    case _ => None
  }

  lemma StepAscends(k: Keys, s: Race, e: Event, p: Pid)
    requires Enabled(k, s, e) && p in s.boots
    ensures p in After(k, s, e).boots
    ensures Rank(s.boots[p].phase) <= Rank(After(k, s, e).boots[p].phase)
    ensures p == e.p && EventRank(e).Some? ==>
              Rank(s.boots[p].phase) == EventRank(e).value < Rank(After(k, s, e).boots[p].phase)
    ensures s.boots[p].saved ==> After(k, s, e).boots[p].saved
  {
    if p != e.p {
      OthersStay(k, s, e, p);
    }
  }

  lemma {:induction false} RunAscends(k: Keys, run: seq<Race>, events: seq<Event>, i: nat, j: nat, p: Pid)
    requires IsRun(k, run, events) && i <= j < |run| && p in run[i].boots
    ensures p in run[j].boots && Rank(run[i].boots[p].phase) <= Rank(run[j].boots[p].phase)
    ensures run[i].boots[p].saved ==> run[j].boots[p].saved
  {
    hide Enabled, After;
    if i < j {
      RunAscends(k, run, events, i, j - 1, p);
      assert Enabled(k, run[j - 1], events[j - 1]) && run[j - 1 + 1] == After(k, run[j - 1], events[j - 1]);
      StepAscends(k, run[j - 1], events[j - 1], p);
    }
  }

  /** A boot takes its file steps in order, each at most once. */
  lemma Ordered(k: Keys, run: seq<Race>, events: seq<Event>, i: nat, j: nat)
    requires IsRun(k, run, events) && i < j < |events| && events[i].p == events[j].p
    requires EventRank(events[i]).Some? && EventRank(events[j]).Some?
    ensures EventRank(events[i]).value < EventRank(events[j]).value
    ensures events[i].p in run[i].boots
  {
    var p := events[i].p;
    assert Enabled(k, run[i], events[i]) && run[i + 1] == After(k, run[i], events[i]);
    StepAscends(k, run[i], events[i], p);
    RunAscends(k, run, events, i + 1, j, p);
    assert Enabled(k, run[j], events[j]);
    StepAscends(k, run[j], events[j], p);
  }

  lemma StepHeld(k: Keys, s: Race, e: Event, p: Pid)
    requires Enabled(k, s, e) && p in After(k, s, e).boots
    ensures After(k, s, e).boots[p].held ==
              if e == Load(p) && !s.disk.store.Torn? then Some(Held(s.disk))
              else if p in s.boots then s.boots[p].held
              else None
  {
    if p != e.p {
      OthersStay(k, s, e, p);
    }
  }

  /** What a boot holds of the store is the store at its load. */
  lemma {:induction false} LoadOf(k: Keys, run: seq<Race>, events: seq<Event>, n: nat, p: Pid) returns (i: nat)
    requires IsRun(k, run, events) && n < |run| && p in run[n].boots && run[n].boots[p].held.Some?
    ensures i < n && events[i] == Load(p) && run[n].boots[p].held == Some(Held(run[i].disk))
  {
    hide Enabled, After;
    assert n > 0;
    var s, e := run[n - 1], events[n - 1];
    assert Enabled(k, s, e) && run[n - 1 + 1] == After(k, s, e);
    StepHeld(k, s, e, p);
    if e == Load(p) && !s.disk.store.Torn? {
      i := n - 1;
    } else {
      i := LoadOf(k, run, events, n - 1, p);
    }
  }

  /** A boot found no key exactly when there was none when it looked. */
  lemma {:induction false} FindOf(k: Keys, run: seq<Race>, events: seq<Event>, n: nat, p: Pid) returns (j: nat)
    requires IsRun(k, run, events) && n < |run| && p in run[n].boots
    requires run[n].boots[p].key.Some? || run[n].boots[p].phase.ReadingKey?
    requires !HasGenesis(Held(run[0].disk))
    ensures j < n && events[j] == Find(p)
    ensures run[n].boots[p].key == Some(None) <==> run[j].disk.cosigner.Missing?
  {
    assert n > 0;
    var s, e := run[n - 1], events[n - 1];
    assert Enabled(k, s, e) && run[n - 1 + 1] == After(k, s, e);
    if p != e.p {
      OthersStay(k, s, e, p);
    }
    RunInvariant(k, run, events, n - 1);
    assert BootInv(k, run[0].disk, s, p);
    if e == Find(p) {
      j := n - 1;
    } else {
      j := FindOf(k, run, events, n - 1, p);
    }
  }

  lemma {:induction false} SaveOf(k: Keys, run: seq<Race>, events: seq<Event>, n: nat, p: Pid) returns (m: nat)
    requires IsRun(k, run, events) && n < |run| && p in run[n].boots && run[n].boots[p].saved
    ensures m < n && events[m] == Store(p)
  {
    assert n > 0;
    var s, e := run[n - 1], events[n - 1];
    assert Enabled(k, s, e) && run[n - 1 + 1] == After(k, s, e);
    if p != e.p {
      OthersStay(k, s, e, p);
    }
    if e == Store(p) {
      m := n - 1;
    } else {
      m := SaveOf(k, run, events, n - 1, p);
    }
  }

  ghost predicate StoredBefore(events: seq<Event>, n: nat) {
    exists m :: 0 <= m < n && m < |events| && events[m].Store?
  }

  ghost predicate UnlinkedBefore(events: seq<Event>, n: nat) {
    exists m :: 0 <= m < n && m < |events| && events[m].Unlink?
  }

  /** The two files change hands only by these steps. */
  lemma {:induction false} FilesSince(k: Keys, run: seq<Race>, events: seq<Event>, n: nat)
    requires IsRun(k, run, events) && n < |run|
    ensures run[n].saver.Some? <==> StoredBefore(events, n)
    ensures run[0].disk.cosigner.Holds? ==> (run[n].disk.cosigner.Missing? <==> UnlinkedBefore(events, n))
  {
    if n > 0 {
      FilesSince(k, run, events, n - 1);
      var s, e := run[n - 1], events[n - 1];
      assert Enabled(k, s, e) && run[n - 1 + 1] == After(k, s, e);
      assert e.Store? ==> events[n - 1].Store?;
      assert e.Unlink? ==> events[n - 1].Unlink?;
    }
  }

  /** The store has a genesis exactly when somebody has saved one. */
  lemma GenesisSince(k: Keys, run: seq<Race>, events: seq<Event>, i: nat)
    requires IsRun(k, run, events) && i < |run| && !HasGenesis(Held(run[0].disk))
    ensures HasGenesis(Held(run[i].disk)) <==> StoredBefore(events, i)
  {
    RunInvariant(k, run, events, i);
    FilesSince(k, run, events, i);
  }

  /** A step belongs to a boot that is still there at the end; a save stays one. */
  lemma StepOfTwo(k: Keys, run: seq<Race>, events: seq<Event>, o: nat, a: Pid, b: Pid)
    requires IsRun(k, run, events) && OnlyTwo(run[|events|], a, b) && o < |events| && !events[o].Start?
    ensures events[o].p == a || events[o].p == b
    ensures events[o].Store? ==> run[|events|].boots[events[o].p].saved
  {
    var p := events[o].p;
    assert Enabled(k, run[o], events[o]) && run[o + 1] == After(k, run[o], events[o]);
    StepAscends(k, run[o], events[o], p);
    RunAscends(k, run, events, o + 1, |events|, p);
    assert p in run[|events|].boots.Keys;
  }

  /** `b` loaded the store before `a` saved, and looked for the key after `a` removed it. */
  predicate CrossesAt(events: seq<Event>, a: Pid, b: Pid, i: nat, m: nat, u: nat, j: nat) {
    && i < m < |events| && events[i] == Load(b) && events[m] == Store(a)
    && u < j < |events| && events[u] == Unlink(a) && events[j] == Find(b)
  }

  ghost predicate Crosses(events: seq<Event>, a: Pid, b: Pid) {
    exists i: nat, m: nat, u: nat, j: nat :: CrossesAt(events, a, b, i, m, u, j)
  }

  lemma MissedKeyCrosses(k: Keys, run: seq<Race>, events: seq<Event>, a: Pid, b: Pid)
    requires IsRun(k, run, events) && !HasGenesis(Held(run[0].disk)) && OnlyTwo(run[|events|], a, b)
    requires Founder(k, run[|events|].boots[b]) && run[|events|].boots[a].saved && MissedKey(run[0].disk, run[|events|].boots[b])
    ensures Crosses(events, a, b)
  {
    hide Enabled, After, Inv;
    var n := |events|;
    var i := LoadOf(k, run, events, n, b);
    var j := FindOf(k, run, events, n, b);
    var m := SaveOf(k, run, events, n, a);
    GenesisSince(k, run, events, i);
    FilesSince(k, run, events, j);
    assert events[m].Store?;
    assert i < m;
    var u :| 0 <= u < j && u < |events| && events[u].Unlink?;
    StepOfTwo(k, run, events, u, a, b);
    if events[u].p == b {
      Ordered(k, run, events, u, j);
    }
    assert CrossesAt(events, a, b, i, m, u, j);
  }

  lemma CrossingMissesKey(k: Keys, run: seq<Race>, events: seq<Event>, a: Pid, b: Pid, i: nat, m: nat, u: nat, j: nat)
    requires IsRun(k, run, events) && !HasGenesis(Held(run[0].disk)) && OnlyTwo(run[|events|], a, b)
    requires run[0].disk.cosigner.Holds? && CrossesAt(events, a, b, i, m, u, j)
    requires Informed(run[|events|].boots[b])
    ensures MissedKey(run[0].disk, run[|events|].boots[b]) && !HasGenesis(run[|events|].boots[b].held.value)
    ensures run[|events|].boots[a].saved
  {
    hide Enabled, After, Inv;
    var n := |events|;
    var i' := LoadOf(k, run, events, n, b);
    var j' := FindOf(k, run, events, n, b);
    SameStep(k, run, events, i, i');
    SameStep(k, run, events, j, j');
    LoadedEarly(k, run, events, i, m, a, b);
    FilesSince(k, run, events, j);
    StepOfTwo(k, run, events, m, a, b);
    assert events[u].Unlink?;
  }

  /** A load before the other's save saw no genesis. */
  lemma LoadedEarly(k: Keys, run: seq<Race>, events: seq<Event>, i: nat, m: nat, a: Pid, b: Pid)
    requires IsRun(k, run, events) && !HasGenesis(Held(run[0].disk)) && OnlyTwo(run[|events|], a, b)
    requires i < m < |events| && events[i] == Load(b) && events[m] == Store(a)
    ensures !HasGenesis(Held(run[i].disk))
  {
    hide Enabled, After, Inv;
    GenesisSince(k, run, events, i);
    if StoredBefore(events, i) {
      var o :| 0 <= o < i && o < |events| && events[o].Store?;
      StepOfTwo(k, run, events, o, a, b);
      if events[o].p == a {
        Ordered(k, run, events, o, m);
      } else {
        Ordered(k, run, events, o, i);
      }
    }
  }

  lemma SameStep(k: Keys, run: seq<Race>, events: seq<Event>, i: nat, j: nat)
    requires IsRun(k, run, events) && i < |events| && j < |events| && events[i] == events[j] && EventRank(events[i]).Some?
    ensures i == j
  {
    hide IsRun;
    if i < j {
      Ordered(k, run, events, i, j);
    } else if j < i {
      Ordered(k, run, events, j, i);
    }
  }

  /**
   On a home with both seeds, two boots that answer disagree exactly when one crosses the
   other: it loads the store before the other saves it, and looks for the key after the
   other has removed it.
   */
  lemma TwoBootsCrossIff(k: Keys, run: seq<Race>, events: seq<Event>, a: Pid, b: Pid)
    requires IsRun(k, run, events) && !HasGenesis(Held(run[0].disk)) && OnlyTwo(run[|events|], a, b)
    requires run[0].disk.secret.Holds? && run[0].disk.cosigner.Holds?
    requires AnsweredOk(run[|events|].boots[a]) && AnsweredOk(run[|events|].boots[b])
    requires Fresh(run[0].disk, run[|events|].boots[a].minted, run[|events|].boots[b].minted)
    requires k.DistinctProfiles(SeedsOf(run[0].disk, run[|events|].boots[a].minted, run[|events|].boots[b].minted))
    ensures run[|events|].boots[a].phase.answer != run[|events|].boots[b].phase.answer <==>
              Crosses(events, a, b) || Crosses(events, b, a)
  {
    hide Enabled, After, CrossesAt;
    var n := |events|;
    var d, s := run[0].disk, run[n];
    TwoBootsDisagreeIff(k, run, events, n, a, b);
    RunInvariant(k, run, events, n);
    assert BootInv(k, d, s, a) && BootInv(k, d, s, b);
    hide Founder, Answer;
    if s.boots[a].phase.answer != s.boots[b].phase.answer {
      if MissedKey(d, s.boots[b]) {
        MissedKeyCrosses(k, run, events, a, b);
      } else {
        MissedKeyCrosses(k, run, events, b, a);
      }
    }
    if i: nat, m: nat, u: nat, j: nat :| CrossesAt(events, a, b, i, m, u, j) {
      CrossingMissesKey(k, run, events, a, b, i, m, u, j);
    }
    if i: nat, m: nat, u: nat, j: nat :| CrossesAt(events, b, a, i, m, u, j) {
      CrossingMissesKey(k, run, events, b, a, i, m, u, j);
    }
  }

  // ---- the rule: one boot at a time ------------------------------------------------------------

  predicate AllFinished(s: Race) {
    forall p :: p in s.boots ==> Finished(s.boots[p])
  }

  /** No boot starts while another is under way. */
  ghost predicate Alone(run: seq<Race>, events: seq<Event>)
    requires |events| < |run|
  {
    forall i :: 0 <= i < |events| && events[i].Start? ==> AllFinished(run[i])
  }

  /** What an unfinished boot has read is what is on the disk. */
  ghost predicate Current(k: Keys, d: Disk, b: Boot) {
    match b.phase
    case LookingAtSecret => true
    case Minting => d.secret.Missing?
    case LoadingStore => b.identity.Some? && d.secret == Holds(b.identity.value)
    case LookingAtKey => ReadSoFar(d, b)
    case ReadingKey => ReadSoFar(d, b)
    case Saving =>
      && ReadSoFar(d, b) && Founder(k, b) && !d.cosigner.Torn?
      && (d.cosigner.Holds? ==> CosignerOf(b) == d.cosigner.value)
      && (b.key.value.Some? ==> d.cosigner.Holds?)
    case RemovingKey =>
      && Informed(b) && d.secret == Holds(b.identity.value)
      && b.key.value.Some? && d.cosigner == Holds(b.key.value.value) && Carries(k, d, b.identity.value, b.key.value.value)
      && (HasGenesis(b.held.value) || Founder(k, b)) && Determined(k, d) == Some(Answer(k, b))
    case _ => true
  }

  predicate ReadSoFar(d: Disk, b: Boot) {
    && b.identity.Some? && d.secret == Holds(b.identity.value)
    && !d.store.Torn? && b.held == Some(Held(d))
  }

  ghost predicate AloneInv(k: Keys, s: Race) {
    && (forall p, q :: p in s.boots && q in s.boots && !Finished(s.boots[p]) && !Finished(s.boots[q]) ==> p == q)
    && (forall p :: p in s.boots && !Finished(s.boots[p]) ==> Current(k, s.disk, s.boots[p]))
    && (forall p :: p in s.boots && AnsweredOk(s.boots[p]) ==> Determined(k, s.disk) == Some(s.boots[p].phase.answer.value))
  }

  /** With what it read still true, a boot's step is a write of the boot that runs alone. */
  lemma CurrentWrites(k: Keys, s: Race, e: Event)
    requires Enabled(k, s, e) && (!e.Start? ==> Current(k, s.disk, s.boots[e.p]))
    ensures Next(k, s.disk, After(k, s, e).disk)
  {
    hide Resolves;
    var t := After(k, s, e);
    match e
    case Write(p) => assert Step(k, s.disk, CreateSecret(s.boots[p].minted.identity), t.disk);
    case Tear(p) => assert Step(k, s.disk, TearSecret, t.disk);
    case Store(p) => assert Step(k, s.disk, Carry(CosignerOf(s.boots[p])), t.disk);
    case Unlink(p) => assert Step(k, s.disk, RemoveCosigner, t.disk);
    case _ => assert Step(k, s.disk, NoWrite, t.disk);
  }

  lemma CurrentStays(k: Keys, s: Race, e: Event)
    requires Enabled(k, s, e) && (!e.Start? ==> Current(k, s.disk, s.boots[e.p]))
    ensures var b := After(k, s, e).boots[e.p];
            && (!Finished(b) ==> Current(k, After(k, s, e).disk, b))
            && (AnsweredOk(b) ==> Determined(k, After(k, s, e).disk) == Some(b.phase.answer.value))
  {
    hide Resolves;
  }

  lemma AloneStep(k: Keys, s: Race, e: Event)
    requires AloneInv(k, s) && Enabled(k, s, e) && (e.Start? ==> AllFinished(s))
    ensures AloneInv(k, After(k, s, e)) && Next(k, s.disk, After(k, s, e).disk)
  {
    var t := After(k, s, e);
    assert !e.Start? ==> !Finished(s.boots[e.p]);
    CurrentWrites(k, s, e);
    CurrentStays(k, s, e);
    forall q | q in t.boots && q != e.p
      ensures q in s.boots && t.boots[q] == s.boots[q] && Finished(t.boots[q])
    {
      OthersStay(k, s, e, q);
    }
    hide After, Enabled;
    forall q | q in s.boots && AnsweredOk(s.boots[q])
      ensures Determined(k, t.disk) == Determined(k, s.disk)
    {
      var w :| Step(k, s.disk, w, t.disk);
      StepKeepsProfile(k, s.disk, w, t.disk);
    }
  }

  lemma {:induction false} AloneRun(k: Keys, run: seq<Race>, events: seq<Event>, i: nat)
    requires IsRun(k, run, events) && Alone(run, events) && i < |run|
    ensures AloneInv(k, run[i])
    ensures i > 0 ==> Next(k, run[i - 1].disk, run[i].disk)
  {
    if i > 0 {
      AloneRun(k, run, events, i - 1);
      assert Enabled(k, run[i - 1], events[i - 1]) && run[i - 1 + 1] == After(k, run[i - 1], events[i - 1]);
      AloneStep(k, run[i - 1], events[i - 1]);
    }
  }

  function DisksOf(run: seq<Race>): (disks: seq<Disk>)
    ensures |disks| == |run| && forall i :: 0 <= i < |run| ==> disks[i] == run[i].disk
  {
    seq(|run|, i requires 0 <= i < |run| => run[i].disk)
  }

  /**
   Boots that run one at a time are the boots of the sequential model, on any home and with
   any crashes; so all that ever answer, answer one profile, which is the home's.
   */
  lemma AloneBootsAgree(k: Keys, run: seq<Race>, events: seq<Event>, n: nat)
    requires IsRun(k, run, events) && Alone(run, events) && n < |run|
    ensures IdentityProfile.IsRun(k, DisksOf(run))
    ensures forall p :: p in run[n].boots && AnsweredOk(run[n].boots[p]) ==>
              Determined(k, run[n].disk) == Some(run[n].boots[p].phase.answer.value)
  {
    AloneRun(k, run, events, n);
    var disks := DisksOf(run);
    forall i | 0 <= i < |disks| - 1
      ensures Next(k, disks[i], disks[i + 1])
    {
      AloneRun(k, run, events, i + 1);
    }
  }

  // ---- two runs -----------------------------------------------------------------------------

  lemma Extend(k: Keys, run: seq<Race>, events: seq<Event>, e: Event, t: Race)
    requires IsRun(k, run, events) && Enabled(k, run[|events|], e) && t == After(k, run[|events|], e)
    ensures IsRun(k, run + [t], events + [e])
  {
    var longer, more := run + [t], events + [e];
    forall i | 0 <= i < |more|
      ensures Enabled(k, longer[i], more[i]) && longer[i + 1] == After(k, longer[i], more[i])
    {
      if i < |events| {
        assert Enabled(k, run[i], events[i]) && run[i + 1] == After(k, run[i], events[i]);
      }
    }
  }

  function Began(m: Minted): (b: Boot) {
    Boot(LookingAtSecret, m, false, None, None, None, false)
  }

  /** Two boots have both loaded the store of a home with both seeds and no store. */
  function BothLoaded(s: Seed, c: Seed, x: Minted, y: Minted): (r: Race) {
    Race(Disk(Holds(s), Holds(c), Missing),
         map[0 := Boot(LookingAtKey, x, false, Some(s), Some(None), None, false),
             1 := Boot(LookingAtKey, y, false, Some(s), Some(None), None, false)], None)
  }

  lemma RunToBothLoaded(k: Keys, s: Seed, c: Seed, x: Minted, y: Minted) returns (run: seq<Race>, events: seq<Event>)
    ensures IsRun(k, run, events) && |events| == 6 && run[6] == BothLoaded(s, c, x, y)
    ensures run[0].disk == Disk(Holds(s), Holds(c), Missing)
  {
    var d := Disk(Holds(s), Holds(c), Missing);
    var x1, y1 := Began(x).(phase := LoadingStore, identity := Some(s)), Began(y).(phase := LoadingStore, identity := Some(s));
    var x2, y2 := x1.(phase := LookingAtKey, held := Some(None)), y1.(phase := LookingAtKey, held := Some(None));
    events := [Start(0, x), Start(1, y), Look(0), Look(1), Load(1), Load(0)];
    run := [Race(d, map[], None), Race(d, map[0 := Began(x)], None), Race(d, map[0 := Began(x), 1 := Began(y)], None),
            Race(d, map[0 := x1, 1 := Began(y)], None), Race(d, map[0 := x1, 1 := y1], None),
            Race(d, map[0 := x1, 1 := y2], None), Race(d, map[0 := x2, 1 := y2], None)];
    assert Held(d) == None;
    forall i | 0 <= i < 6
      ensures Enabled(k, run[i], events[i]) && run[i + 1] == After(k, run[i], events[i])
    {
    }
  }

  /** The first of them finds the key, saves, removes the key and answers. */
  function FirstDone(k: Keys, s: Seed, c: Seed, x: Minted, y: Minted): (r: Race)
    requires FoundHere(k, s, c, None).Ok?
  {
    var f := FoundHere(k, s, c, None).value;
    Race(Disk(Holds(s), Missing, Holds(f)),
         map[0 := Boot(Done(Ok(k.profileOf(f.genesis.value))), x, false, Some(s), Some(None), Some(Some(c)), true),
             1 := Boot(LookingAtKey, y, false, Some(s), Some(None), None, false)], Some(0))
  }

  lemma RunToFirstDone(k: Keys, s: Seed, c: Seed, x: Minted, y: Minted) returns (run: seq<Race>, events: seq<Event>)
    requires FoundHere(k, s, c, None).Ok?
    ensures IsRun(k, run, events) && |events| == 10 && run[10] == FirstDone(k, s, c, x, y)
    ensures run[0].disk == Disk(Holds(s), Holds(c), Missing)
  {
    run, events := RunToBothLoaded(k, s, c, x, y);
    var s0 := BothLoaded(s, c, x, y);
    var f, b, other := FoundHere(k, s, c, None).value, s0.boots[0], s0.boots[1];
    var s1 := s0.(boots := map[0 := b.(phase := ReadingKey), 1 := other]);
    Extend(k, run, events, Find(0), s1);
    var found := b.(key := Some(Some(c)), phase := Saving);
    var s2 := s0.(boots := map[0 := found, 1 := other]);
    Extend(k, run + [s1], events + [Find(0)], Read(0), s2);
    var s3 := Race(s0.disk.(store := Holds(f)), map[0 := found.(saved := true, phase := RemovingKey), 1 := other], Some(0));
    Extend(k, run + [s1] + [s2], events + [Find(0)] + [Read(0)], Store(0), s3);
    var s4 := FirstDone(k, s, c, x, y);
    Extend(k, run + [s1] + [s2] + [s3], events + [Find(0)] + [Read(0)] + [Store(0)], Unlink(0), s4);
    run, events := run + [s1] + [s2] + [s3] + [s4], events + [Find(0)] + [Read(0)] + [Store(0)] + [Unlink(0)];
  }

  /**
   The crossing run. Both seeds are on disk. The second boot has loaded the empty store; the
   first saves, removes the key and answers; the second finds no key, mints a cosigner and
   saves over it. The home's profile has moved, both answered, the only copy of the old
   cosigner is gone, and the home boots on under the new profile.
   */
  lemma CrossingMovesProfile(k: Keys, s: Seed, c: Seed, x: Minted, y: Minted) returns (run: seq<Race>, events: seq<Event>)
    requires k.Lawful() && FoundHere(k, s, c, None).Ok? && FoundHere(k, s, y.cosigner, None).Ok?
    ensures IsRun(k, run, events) && |events| == 12 && run[0].disk == Disk(Holds(s), Holds(c), Missing)
    ensures var p, q := k.profileOf(k.seal(s, c).value), k.profileOf(k.seal(s, y.cosigner).value);
            && Determined(k, run[10].disk) == Some(p) && Determined(k, run[12].disk) == Some(q)
            && run[12].boots.Keys == {0, 1}
            && run[12].boots[0].phase == Done(Ok(p)) && run[12].boots[1].phase == Done(Ok(q))
    ensures run[12].disk.cosigner.Missing? && Recoverable(k, run[12].disk)
  {
    run, events := RunToFirstDone(k, s, c, x, y);
    var s0 := FirstDone(k, s, c, x, y);
    var g := FoundHere(k, s, y.cosigner, None).value;
    var found := s0.boots[1].(key := Some(None), phase := Saving);
    var s1 := s0.(boots := map[0 := s0.boots[0], 1 := found]);
    Extend(k, run, events, Find(1), s1);
    var done := found.(saved := true, phase := Done(Ok(k.profileOf(g.genesis.value))));
    var s2 := Race(s0.disk.(store := Holds(g)), map[0 := s0.boots[0], 1 := done], Some(1));
    Extend(k, run + [s1], events + [Find(1)], Store(1), s2);
    run, events := run + [s1] + [s2], events + [Find(1)] + [Store(1)];
    LeftBootableIff(k, run, events, 12);
  }

  /** Two boots of a fresh home have minted, loaded and looked, and are about to save. */
  function BothSaving(x: Minted, y: Minted): (r: Race) {
    Race(Disk(Holds(y.identity), Missing, Missing),
         map[0 := Boot(Saving, x, true, Some(x.identity), Some(None), Some(None), false),
             1 := Boot(Saving, y, true, Some(y.identity), Some(None), Some(None), false)], None)
  }

  lemma RunToBothSaving(k: Keys, x: Minted, y: Minted) returns (run: seq<Race>, events: seq<Event>)
    requires FoundHere(k, x.identity, x.cosigner, None).Ok? && FoundHere(k, y.identity, y.cosigner, None).Ok?
    ensures IsRun(k, run, events) && |events| == 10 && run[10] == BothSaving(x, y)
    ensures run[0].disk == Disk(Missing, Missing, Missing)
  {
    var d, e, f := Disk(Missing, Missing, Missing), Disk(Holds(x.identity), Missing, Missing), Disk(Holds(y.identity), Missing, Missing);
    var x1, y1 := Began(x).(phase := Minting), Began(y).(phase := Minting);
    var x2, y2 := x1.(phase := LoadingStore, minter := true, identity := Some(x.identity)),
                  y1.(phase := LoadingStore, minter := true, identity := Some(y.identity));
    var x3, y3 := x2.(phase := LookingAtKey, held := Some(None)), y2.(phase := LookingAtKey, held := Some(None));
    var x4 := x3.(phase := Saving, key := Some(None));
    events := [Start(0, x), Start(1, y), Look(0), Look(1), Write(0), Write(1), Load(0), Load(1), Find(0), Find(1)];
    run := [Race(d, map[], None), Race(d, map[0 := Began(x)], None), Race(d, map[0 := Began(x), 1 := Began(y)], None),
            Race(d, map[0 := x1, 1 := Began(y)], None), Race(d, map[0 := x1, 1 := y1], None),
            Race(e, map[0 := x2, 1 := y1], None), Race(f, map[0 := x2, 1 := y2], None),
            Race(f, map[0 := x3, 1 := y2], None), Race(f, map[0 := x3, 1 := y3], None),
            Race(f, map[0 := x4, 1 := y3], None), BothSaving(x, y)];
    forall i | 0 <= i < 10
      ensures Enabled(k, run[i], events[i]) && run[i + 1] == After(k, run[i], events[i])
    {
    }
  }

  /**
   The other run. On a fresh home both boots mint a secret; the second's survives, and the
   first's store. Both answered, and no boot succeeds on that home again.
   */
  lemma FirstBootsLeaveUnbootable(k: Keys, x: Minted, y: Minted) returns (run: seq<Race>, events: seq<Event>)
    requires k.Lawful() && k.deviceOf(x.identity) != k.deviceOf(y.identity)
    requires FoundHere(k, x.identity, x.cosigner, None).Ok? && FoundHere(k, y.identity, y.cosigner, None).Ok?
    ensures IsRun(k, run, events) && |events| == 12 && run[0].disk == Disk(Missing, Missing, Missing)
    ensures run[12].boots.Keys == {0, 1} && AnsweredOk(run[12].boots[0]) && AnsweredOk(run[12].boots[1])
    ensures !Recoverable(k, run[12].disk)
  {
    run, events := RunToBothSaving(k, x, y);
    var s0 := BothSaving(x, y);
    var f, g := FoundHere(k, x.identity, x.cosigner, None).value, FoundHere(k, y.identity, y.cosigner, None).value;
    var b0 := s0.boots[0].(saved := true, phase := Done(Ok(k.profileOf(f.genesis.value))));
    var b1 := s0.boots[1].(saved := true, phase := Done(Ok(k.profileOf(g.genesis.value))));
    var s1 := Race(s0.disk.(store := Holds(g)), map[0 := s0.boots[0], 1 := b1], Some(1));
    Extend(k, run, events, Store(1), s1);
    var s2 := Race(s0.disk.(store := Holds(f)), map[0 := b0, 1 := b1], Some(0));
    Extend(k, run + [s1], events + [Store(1)], Store(0), s2);
    run, events := run + [s1] + [s2], events + [Store(1)] + [Store(0)];
    LeftBootableIff(k, run, events, 12);
  }

  // ---- a boot by itself -----------------------------------------------------------------------

  /** The file step a boot takes next. */
  function NextStep(p: Pid, ph: Phase): (e: Event) {
    match ph
    case LookingAtSecret => Look(p)
    case Minting => Write(p)
    case LoadingStore => Load(p)
    case LookingAtKey => Find(p)
    case ReadingKey => Read(p)
    case Saving => Store(p)
    case RemovingKey => Unlink(p)
    case _ => Die(p)
  }

  /** The boot of process 0 taken `steps` steps on, with nobody else there. */
  function Drive(k: Keys, s: Race, steps: nat): (t: Race)
    requires 0 in s.boots
    ensures 0 in t.boots
    decreases steps
  {
    if steps == 0 || Finished(s.boots[0]) || !Enabled(k, s, NextStep(0, s.boots[0].phase)) then s
    else Drive(k, After(k, s, NextStep(0, s.boots[0].phase)), steps - 1)
  }

  function Alone0(d: Disk, b: Boot, saver: Option<Pid>): (s: Race) {
    Race(d, map[0 := b], saver)
  }

  /** How a boot that ends ends: as the sequential boot does. */
  ghost predicate EndsAs(k: Keys, d: Disk, m: Minted, t: Race)
    requires 0 in t.boots
  {
    && t.boots[0].phase.Done?
    && match t.boots[0].phase.answer
       case Ok(p) => Bootable(k, d, m.identity, m.cosigner) && BootLeaves(k, d, m.identity, m.cosigner, p, t.disk)
       case Err(e) => !Bootable(k, d, m.identity, m.cosigner) && e == BootRefusal(k, d, m.identity, m.cosigner)
  }

  /** From the store read on, with the identity known. */
  lemma SoloFromStore(k: Keys, d: Disk, m: Minted, minter: bool, steps: nat)
    requires d.secret.Holds? && steps >= 5
    ensures EndsAs(k, d, m, Drive(k, Alone0(d, Boot(LoadingStore, m, minter, Some(d.secret.value), None, None, false), None), steps))
  {
    var b := Boot(LoadingStore, m, minter, Some(d.secret.value), None, None, false);
    var s1 := After(k, Alone0(d, b, None), Load(0));
    if !d.store.Torn? {
      assert s1 == Alone0(d, b.(phase := LookingAtKey, held := Some(Held(d))), None);
      SoloFromKey(k, d, m, minter, steps - 1);
    }
  }

  lemma SoloFromKey(k: Keys, d: Disk, m: Minted, minter: bool, steps: nat)
    requires d.secret.Holds? && !d.store.Torn? && steps >= 4
    ensures EndsAs(k, d, m, Drive(k, Alone0(d, Boot(LookingAtKey, m, minter, Some(d.secret.value), Some(Held(d)), None, false), None), steps))
  {
    hide EndsAs, Decided, FoundHere;
    var b := Boot(LookingAtKey, m, minter, Some(d.secret.value), Some(Held(d)), None, false);
    var s0 := Alone0(d, b, None);
    var s1 := After(k, s0, Find(0));
    assert Drive(k, s0, steps) == Drive(k, s1, steps - 1);
    if d.cosigner.Missing? {
      var c := b.(key := Some(None));
      assert s1 == Alone0(d, c.(phase := Decided(k, c)), None);
      SoloDecided(k, d, m, minter, None, steps - 1);
    } else {
      assert s1 == Alone0(d, b.(phase := ReadingKey), None);
      SoloFromRead(k, d, m, minter, steps - 1);
    }
  }

  lemma SoloFromRead(k: Keys, d: Disk, m: Minted, minter: bool, steps: nat)
    requires d.secret.Holds? && !d.store.Torn? && !d.cosigner.Missing? && steps >= 3
    ensures EndsAs(k, d, m, Drive(k, Alone0(d, Boot(ReadingKey, m, minter, Some(d.secret.value), Some(Held(d)), None, false), None), steps))
  {
    hide Decided, FoundHere, BootLeaves;
    var b := Boot(ReadingKey, m, minter, Some(d.secret.value), Some(Held(d)), None, false);
    var s0 := Alone0(d, b, None);
    var s1 := After(k, s0, Read(0));
    assert Drive(k, s0, steps) == Drive(k, s1, steps - 1);
    if d.cosigner.Holds? {
      var c := b.(phase := LookingAtKey, key := Some(Some(d.cosigner.value)));
      DecidedIgnoresPhase(k, b.(key := Some(Some(d.cosigner.value))), c);
      assert s1 == Alone0(d, c.(phase := Decided(k, c)), None);
      SoloDecided(k, d, m, minter, Some(d.cosigner.value), steps - 1);
    }
  }

  lemma DecidedIgnoresPhase(k: Keys, a: Boot, b: Boot)
    requires Informed(a) && b == a.(phase := b.phase)
    ensures Decided(k, a) == Decided(k, b)
  {
  }

  /** A boot that has read all three files, about to do what it decided. */
  function Ready(k: Keys, d: Disk, m: Minted, minter: bool, key: Option<Seed>): (s: Race)
    requires d.secret.Holds?
  {
    var c := Boot(LookingAtKey, m, minter, Some(d.secret.value), Some(Held(d)), Some(key), false);
    Alone0(d, c.(phase := Decided(k, c)), None)
  }

  lemma SoloDecided(k: Keys, d: Disk, m: Minted, minter: bool, key: Option<Seed>, steps: nat)
    requires d.secret.Holds? && !d.store.Torn? && !d.cosigner.Torn? && steps >= 2
    requires key == if d.cosigner.Holds? then Some(d.cosigner.value) else None
    ensures EndsAs(k, d, m, Drive(k, Ready(k, d, m, minter, key), steps))
  {
    if HasGenesis(Held(d)) {
      SoloCarried(k, d, m, minter, key, steps);
    } else {
      SoloFounds(k, d, m, minter, key, steps);
    }
  }

  lemma SoloCarried(k: Keys, d: Disk, m: Minted, minter: bool, key: Option<Seed>, steps: nat)
    requires d.secret.Holds? && !d.store.Torn? && !d.cosigner.Torn? && steps >= 2 && HasGenesis(Held(d))
    requires key == if d.cosigner.Holds? then Some(d.cosigner.value) else None
    ensures EndsAs(k, d, m, Drive(k, Ready(k, d, m, minter, key), steps))
  {
    hide Resolves, FoundHere;
    var s := Ready(k, d, m, minter, key);
    if s.boots[0].phase.RemovingKey? {
      var s1 := After(k, s, Unlink(0));
      assert Drive(k, s, steps) == Drive(k, s1, steps - 1);
    }
  }

  lemma SoloFounds(k: Keys, d: Disk, m: Minted, minter: bool, key: Option<Seed>, steps: nat)
    requires d.secret.Holds? && !d.store.Torn? && !d.cosigner.Torn? && steps >= 2 && !HasGenesis(Held(d))
    requires key == if d.cosigner.Holds? then Some(d.cosigner.value) else None
    ensures EndsAs(k, d, m, Drive(k, Ready(k, d, m, minter, key), steps))
  {
    hide Resolves, FoundHere;
    var s := Ready(k, d, m, minter, key);
    if s.boots[0].phase.Saving? {
      assert Founder(k, s.boots[0]);
      var s1 := After(k, s, Store(0));
      assert Drive(k, s, steps) == Drive(k, s1, steps - 1);
      if key.Some? {
        var s2 := After(k, s1, Unlink(0));
        assert Drive(k, s1, steps - 1) == Drive(k, s2, steps - 2);
      }
    }
  }

  /** Left to itself, a boot of this system is the boot of the sequential model, refusals and all. */
  lemma SoloBoot(k: Keys, d: Disk, m: Minted)
    ensures EndsAs(k, d, m, Drive(k, Alone0(d, Began(m), None), 7))
  {
    var s := Alone0(d, Began(m), None);
    var s1 := After(k, s, Look(0));
    match d.secret
    case Holds(x) =>
      assert s1 == Alone0(d, Began(m).(phase := LoadingStore, identity := Some(x)), None);
      SoloFromStore(k, d, m, false, 6);
    case Missing =>
      var s2 := After(k, s1, Write(0));
      var e := d.(secret := Holds(m.identity));
      assert s2 == Alone0(e, Boot(LoadingStore, m, true, Some(m.identity), None, None, false), None);
      SoloFromStore(k, e, m, true, 5);
      assert Held(e) == Held(d);
    case Torn =>
  }
}
