/**
 Which build displaces which. A fingerprint is what a daemon says of itself; the file is
 what would be spawned in its place.
 */
module BuildOrder {
  import opened Common

  datatype Fingerprint = Fingerprint(version: string, exe: string, built: nat)

  /** The semver crate: a parser and a strict order on what it parses. */
  datatype Semver = Semver(parse: string -> Option<nat>, above: (nat, nat) -> bool)
  {
    ghost predicate Lawful() {
      && (forall a: nat :: !above(a, a))
      && (forall a: nat, b: nat, c: nat :: above(a, b) && above(b, c) ==> above(a, c))
    }
  }

  predicate Supersedes(a: Fingerprint, b: Fingerprint) {
    a.exe == b.exe && a.built > b.built
  }

  predicate VersionAhead(v: Semver, a: Fingerprint, b: Fingerprint) {
    match (v.parse(a.version), v.parse(b.version))
    case (Some(x), Some(y)) => v.above(x, y)
    case _ => false
  }

  ghost predicate StrictOrder(r: (Fingerprint, Fingerprint) -> bool) {
    && (forall a: Fingerprint :: !r(a, a))
    && (forall a: Fingerprint, b: Fingerprint, c: Fingerprint :: r(a, b) && r(b, c) ==> r(a, c))
  }

  lemma DisplacementsAreStrictOrders(v: Semver)
    requires v.Lawful()
    ensures StrictOrder((a, b) => Supersedes(a, b))
    ensures StrictOrder((a, b) => VersionAhead(v, a, b))
  {
    forall a: Fingerprint, b: Fingerprint, c: Fingerprint | VersionAhead(v, a, b) && VersionAhead(v, b, c)
      ensures VersionAhead(v, a, c)
    {
      assert v.above(v.parse(a.version).value, v.parse(b.version).value);
    }
  }

  /** The executable file a caller would spawn from. */
  datatype File = File(version: string, exe: string, built: nat)

  function Spawned(f: File): (d: Fingerprint) {
    Fingerprint(f.version, f.exe, f.built)
  }

  /** The managed pair rule: the caller's version at the file's stamp outranks the daemon. */
  predicate SidecarSupersedes(v: Semver, callerVersion: string, f: File, theirs: Fingerprint) {
    theirs.exe == f.exe
    && var expected := Fingerprint(callerVersion, theirs.exe, f.built);
       Supersedes(expected, theirs) || VersionAhead(v, expected, theirs)
  }

  /** After an eviction the daemon spawned from the file is evicted again exactly when the file lags the caller. */
  lemma SidecarSettlesIff(v: Semver, callerVersion: string, f: File)
    requires v.Lawful()
    ensures SidecarSupersedes(v, callerVersion, f, Spawned(f)) <==>
              VersionAhead(v, Fingerprint(callerVersion, f.exe, f.built), Spawned(f))
    ensures SidecarSupersedes(v, callerVersion, f, Spawned(f)) <==>
              && v.parse(callerVersion).Some? && v.parse(f.version).Some?
              && v.above(v.parse(callerVersion).value, v.parse(f.version).value)
    ensures callerVersion == f.version ==> !SidecarSupersedes(v, callerVersion, f, Spawned(f))
  {
  }

  /** Whom the pair rule evicts: a daemon of the managed file that was built before it, or released before the caller. */
  lemma SidecarEvictsIff(v: Semver, callerVersion: string, f: File, theirs: Fingerprint)
    ensures SidecarSupersedes(v, callerVersion, f, theirs) <==>
              && theirs.exe == f.exe
              && (|| theirs.built < f.built
                  || (v.parse(callerVersion).Some? && v.parse(theirs.version).Some?
                      && v.above(v.parse(callerVersion).value, v.parse(theirs.version).value)))
  {
  }

  /** One probe eviction on the caller's own path: the daemon, and the one its file spawns. */
  predicate Evicts(ours: Fingerprint, f: File, theirs: Fingerprint, next: Fingerprint) {
    Supersedes(ours, theirs) && f.exe == ours.exe && next == Spawned(f)
  }

  /** The served stamp rises, and the caller is content, exactly when its file was not rolled back. */
  lemma EvictionRaisesStampIff(ours: Fingerprint, f: File, theirs: Fingerprint, next: Fingerprint)
    requires Evicts(ours, f, theirs, next)
    ensures !Supersedes(ours, next) <==> f.built >= ours.built
    ensures f.built >= ours.built ==> theirs.built < next.built && Supersedes(next, theirs)
  {
  }

  /** A history of served daemons on one path, each but the first put there by an eviction. */
  ghost predicate Evictions(callers: seq<Fingerprint>, files: seq<File>, served: seq<Fingerprint>) {
    && |served| == |callers| + 1 == |files| + 1
    && forall i :: 0 <= i < |callers| ==>
         Evicts(callers[i], files[i], served[i], served[i + 1]) && files[i].built >= callers[i].built
  }

  /** Callers that are never older than their file can evict each other only upwards. */
  lemma {:induction false} EvictionsAscend(callers: seq<Fingerprint>, files: seq<File>, served: seq<Fingerprint>, i: nat, j: nat)
    requires Evictions(callers, files, served) && i < j < |served|
    ensures served[i].built + (j - i) <= served[j].built
  {
    EvictionRaisesStampIff(callers[j - 1], files[j - 1], served[j - 1], served[j - 1 + 1]);
    if i < j - 1 {
      EvictionsAscend(callers, files, served, i, j - 1);
    }
  }

  // ---- the whole decision -------------------------------------------------------------------

  /** A caller: its own build, and the file it would spawn from. */
  datatype Caller = Caller(ours: Fingerprint, file: File)

  /** What `ensure` decides of a daemon it can talk to: the probe's rule, then the pair rule. */
  predicate EnsureEvicts(v: Semver, c: Caller, theirs: Fingerprint) {
    Supersedes(c.ours, theirs) || SidecarSupersedes(v, c.ours.version, c.file, theirs)
  }

  /** The caller is ahead of what it would spawn: a newer build on its path, or a newer version. */
  predicate AheadOfFile(v: Semver, c: Caller) {
    || (c.ours.exe == c.file.exe && c.ours.built > c.file.built)
    || VersionAhead(v, c.ours.(exe := c.file.exe, built := c.file.built), Spawned(c.file))
  }

  /** A caller evicts the daemon its own file spawned exactly when it is ahead of that file. */
  lemma EnsureEvictsOwnIff(v: Semver, c: Caller)
    requires v.Lawful()
    ensures EnsureEvicts(v, c, Spawned(c.file)) <==> AheadOfFile(v, c)
    ensures AheadOfFile(v, c) <==>
              || (c.ours.exe == c.file.exe && c.ours.built > c.file.built)
              || (v.parse(c.ours.version).Some? && v.parse(c.file.version).Some?
                  && v.above(v.parse(c.ours.version).value, v.parse(c.file.version).value))
  {
  }

  /** Callers in turn, by either rule: an eviction puts the file's own daemon there, else nothing moves. */
  ghost predicate History(v: Semver, callers: seq<Caller>, served: seq<Fingerprint>) {
    && |served| == |callers| + 1
    && forall i :: 0 <= i < |callers| ==>
         served[i + 1] == if EnsureEvicts(v, callers[i], served[i]) then Spawned(callers[i].file) else served[i]
  }

  /**
   While the file stays as it is, one eviction settles it, whichever rule made it: every
   caller after it evicts again exactly when it is ahead of the file, and what is served
   stays what the file spawns.
   */
  lemma {:induction false} OneEvictionSettles(v: Semver, callers: seq<Caller>, served: seq<Fingerprint>, f: File, i: nat, j: nat)
    requires v.Lawful() && History(v, callers, served) && i < j < |callers|
    requires forall n :: 0 <= n < |callers| ==> callers[n].file == f
    requires EnsureEvicts(v, callers[i], served[i])
    ensures served[j] == Spawned(f) && served[j + 1] == Spawned(f)
    ensures EnsureEvicts(v, callers[j], served[j]) <==> AheadOfFile(v, callers[j])
  {
    if i + 1 < j {
      OneEvictionSettles(v, callers, served, f, i, j - 1);
    } else {
      assert served[i + 1] == Spawned(callers[i].file);
    }
    EnsureEvictsOwnIff(v, callers[j]);
  }
}
