/**
 The registry of local Orbits: one file holding a list of rows, read whole, edited and
 written back whole. A row is keyed by its store path.
 */
module OrbitRegistry {
  import opened Common

  datatype Origin = Founded | Joined

  datatype Entry = Entry(path: string, space: string, name: string, hostNick: string, origin: Origin, lastOpened: nat)

  /** A missing or unreadable file lists as empty. */
  datatype File = Unreadable | Rows(rows: seq<Entry>)

  ghost predicate UniquePaths(rows: seq<Entry>) {
    forall i, j :: 0 <= i < j < |rows| ==> rows[i].path != rows[j].path
  }

  // ---- lists ------------------------------------------------------------------------------

  /** The tests the edits apply to a row. */
  datatype Test =
    | AtPath(path: string)
    | InSpace(space: string)
    | NamedBy(sel: string, resolved: string -> Option<string>)
    | Prefixed(sel: string)
    | Forgotten(sel: string, resolved: string -> Option<string>, exact: nat, hits: nat)
    | Vacant(present: string -> bool)

  predicate Matches(t: Test, e: Entry) {
    match t
    case AtPath(path) => e.path == path
    case InSpace(space) => e.space == space
    case NamedBy(sel, resolved) => Exact(sel, resolved, e)
    case Prefixed(sel) => StartsWith(sel, "ws_") && StartsWith(e.space, sel)
    case Forgotten(sel, resolved, exact, hits) =>
      Exact(sel, resolved, e) || (exact == 0 && hits == 1 && StartsWith(e.space, sel))
    case Vacant(present) => !present(e.path)
  }

  /** The rows for which the test answers `want`, in order. */
  function Select(rows: seq<Entry>, t: Test, want: bool): (r: seq<Entry>) {
    if rows == [] then []
    else Select(rows[..|rows| - 1], t, want) + (if Matches(t, rows[|rows| - 1]) == want then [rows[|rows| - 1]] else [])
  }

  lemma CountAtEnd<T>(s: seq<T>, last: T, x: T)
    ensures multiset(s + [last])[x] == multiset(s)[x] + (if last == x then 1 else 0)
  {
  }

  lemma {:induction false} SelectCount(rows: seq<Entry>, t: Test, want: bool, x: Entry)
    ensures multiset(Select(rows, t, want))[x] == if Matches(t, x) == want then multiset(rows)[x] else 0
  {
    hide Matches;
    if rows != [] {
      var front, last := rows[..|rows| - 1], rows[|rows| - 1];
      SelectCount(front, t, want, x);
      CountAtEnd(front, last, x);
      assert rows == front + [last];
      if Matches(t, last) == want {
        CountAtEnd(Select(front, t, want), last, x);
      } else {
        assert Select(rows, t, want) == Select(front, t, want);
      }
    }
  }

  lemma {:induction false} SelectMembers(rows: seq<Entry>, t: Test, want: bool)
    ensures forall e :: e in Select(rows, t, want) <==> e in rows && Matches(t, e) == want
  {
    hide Matches;
    if rows != [] {
      SelectMembers(rows[..|rows| - 1], t, want);
      assert rows == rows[..|rows| - 1] + [rows[|rows| - 1]];
    }
  }

  lemma {:induction false} SelectKeepsUnique(rows: seq<Entry>, t: Test, want: bool)
    requires UniquePaths(rows)
    ensures UniquePaths(Select(rows, t, want))
  {
    hide Matches;
    if rows != [] {
      var front, last := rows[..|rows| - 1], rows[|rows| - 1];
      SelectKeepsUnique(front, t, want);
      SelectMembers(front, t, want);
      var s := Select(front, t, want);
      forall i | 0 <= i < |s| ensures s[i].path != last.path {
        assert s[i] in front;
      }
    }
  }

  /** Newest first; equal times keep the order they came in. */
  function Place(sorted: seq<Entry>, e: Entry): (r: seq<Entry>) {
    if sorted == [] || sorted[|sorted| - 1].lastOpened >= e.lastOpened then sorted + [e]
    else Place(sorted[..|sorted| - 1], e) + [sorted[|sorted| - 1]]
  }

  function NewestFirst(rows: seq<Entry>): (r: seq<Entry>) {
    if rows == [] then [] else Place(NewestFirst(rows[..|rows| - 1]), rows[|rows| - 1])
  }

  ghost predicate Descending(rows: seq<Entry>) {
    forall i, j :: 0 <= i < j < |rows| ==> rows[i].lastOpened >= rows[j].lastOpened
  }

  lemma {:induction false} PlaceCounts(sorted: seq<Entry>, e: Entry)
    ensures multiset(Place(sorted, e)) == multiset(sorted) + multiset{e}
  {
    if sorted != [] && sorted[|sorted| - 1].lastOpened < e.lastOpened {
      var front, last := sorted[..|sorted| - 1], sorted[|sorted| - 1];
      PlaceCounts(front, e);
      assert sorted == front + [last];
    }
  }

  lemma PlaceSpec(sorted: seq<Entry>, e: Entry)
    requires Descending(sorted)
    ensures multiset(Place(sorted, e)) == multiset(sorted) + multiset{e}
    ensures Descending(Place(sorted, e))
    ensures forall x :: x in Place(sorted, e) <==> x in sorted || x == e
  {
    PlaceCounts(sorted, e);
    PlaceDescends(sorted, e);
    hide Descending, Place;
    var p := Place(sorted, e);
    assert forall x :: x in p <==> x in multiset(p);
    assert forall x :: x in sorted <==> x in multiset(sorted);
  }

  lemma {:induction false} PlaceDescends(sorted: seq<Entry>, e: Entry)
    requires Descending(sorted)
    ensures Descending(Place(sorted, e))
    ensures forall i :: 0 <= i < |Place(sorted, e)| && sorted != [] ==>
              sorted[|sorted| - 1].lastOpened <= Place(sorted, e)[i].lastOpened || e.lastOpened <= Place(sorted, e)[i].lastOpened
  {
    if sorted != [] && sorted[|sorted| - 1].lastOpened < e.lastOpened {
      PlaceDescends(sorted[..|sorted| - 1], e);
    }
  }

  lemma {:induction false} NewestFirstSpec(rows: seq<Entry>)
    ensures multiset(NewestFirst(rows)) == multiset(rows)
    ensures Descending(NewestFirst(rows))
    ensures forall x :: x in NewestFirst(rows) <==> x in rows
  {
    if rows != [] {
      var front, last := rows[..|rows| - 1], rows[|rows| - 1];
      NewestFirstSpec(front);
      PlaceSpec(NewestFirst(front), last);
      assert rows == front + [last];
    }
  }

  /** The rows opened at one time, in order. */
  function OpenedAt(rows: seq<Entry>, time: nat): (r: seq<Entry>) {
    if rows == [] then []
    else OpenedAt(rows[..|rows| - 1], time) + (if rows[|rows| - 1].lastOpened == time then [rows[|rows| - 1]] else [])
  }

  lemma OpenedAtEnd(rows: seq<Entry>, e: Entry, time: nat)
    ensures OpenedAt(rows + [e], time) == OpenedAt(rows, time) + (if e.lastOpened == time then [e] else [])
  {
    assert (rows + [e])[..|rows|] == rows;
  }

  lemma {:induction false} PlaceIsStable(sorted: seq<Entry>, e: Entry, time: nat)
    ensures OpenedAt(Place(sorted, e), time) == OpenedAt(sorted, time) + (if e.lastOpened == time then [e] else [])
  {
    if sorted == [] || sorted[|sorted| - 1].lastOpened >= e.lastOpened {
      OpenedAtEnd(sorted, e, time);
    } else {
      var front, last := sorted[..|sorted| - 1], sorted[|sorted| - 1];
      PlaceIsStable(front, e, time);
      OpenedAtEnd(Place(front, e), last, time);
    }
  }

  /** Rows opened at the same time keep the order the file had. */
  lemma {:induction false} NewestFirstIsStable(rows: seq<Entry>, time: nat)
    ensures OpenedAt(NewestFirst(rows), time) == OpenedAt(rows, time)
  {
    if rows != [] {
      NewestFirstIsStable(rows[..|rows| - 1], time);
      PlaceIsStable(NewestFirst(rows[..|rows| - 1]), rows[|rows| - 1], time);
    }
  }

  lemma {:induction false} PlaceKeepsUnique(sorted: seq<Entry>, e: Entry)
    requires UniquePaths(sorted) && Descending(sorted) && forall x :: x in sorted ==> x.path != e.path
    ensures UniquePaths(Place(sorted, e))
  {
    if sorted != [] && sorted[|sorted| - 1].lastOpened < e.lastOpened {
      var front, last := sorted[..|sorted| - 1], sorted[|sorted| - 1];
      PlaceKeepsUnique(front, e);
      PlaceSpec(front, e);
      var p := Place(front, e);
      forall i | 0 <= i < |p| ensures p[i].path != last.path {
        assert p[i] in p && last in sorted;
      }
    }
  }

  lemma {:induction false} NewestFirstKeepsUnique(rows: seq<Entry>)
    requires UniquePaths(rows)
    ensures UniquePaths(NewestFirst(rows))
  {
    if rows != [] {
      var front, last := rows[..|rows| - 1], rows[|rows| - 1];
      NewestFirstKeepsUnique(front);
      NewestFirstSpec(front);
      forall x | x in NewestFirst(front) ensures x.path != last.path {
        assert x in front;
      }
      PlaceKeepsUnique(NewestFirst(front), last);
    }
  }

  // ---- the edits --------------------------------------------------------------------------

  function Listed(f: File): (rows: seq<Entry>) {
    if f.Rows? then NewestFirst(f.rows) else []
  }

  /** A refresh of the same store keeps what the caller left blank, and never unfounds it. */
  function Merge(held: Entry, e: Entry): (r: Entry)
    ensures r.path == e.path && r.space == e.space && r.lastOpened == e.lastOpened
    ensures held.space == e.space && held.origin == Founded ==> r.origin == Founded
    ensures held.space == e.space && e.name == "" ==> r.name == held.name
    ensures held.space == e.space && e.hostNick == "" ==> r.hostNick == held.hostNick
    ensures e.name != "" ==> r.name == e.name
    ensures e.hostNick != "" ==> r.hostNick == e.hostNick
    ensures r.origin == Founded ==> e.origin == Founded || held.origin == Founded
    ensures held.space != e.space ==> r == e
  {
    if held.space != e.space then e
    else e.(name := if e.name == "" then held.name else e.name,
            hostNick := if e.hostNick == "" then held.hostNick else e.hostNick,
            origin := if held.origin == Founded then Founded else e.origin)
  }

  function Merged(rows: seq<Entry>, e: Entry): (r: Entry)
    ensures r.path == e.path && r.space == e.space
  {
    var at := FirstWhere(rows, AtPath(e.path));
    if at < |rows| then Merge(rows[at], e) else e
  }

  /** The index of the first row that matches, or the length. */
  function FirstWhere(rows: seq<Entry>, t: Test): (i: nat)
    ensures i <= |rows|
    ensures i < |rows| ==> Matches(t, rows[i])
    ensures forall k :: 0 <= k < i ==> !Matches(t, rows[k])
  {
    if rows == [] then 0
    else if Matches(t, rows[0]) then 0
    else
      var i := FirstWhere(rows[1..], t);
      assert forall k :: 1 <= k < i + 1 ==> rows[k] == rows[1..][k - 1];
      i + 1
  }

  function StartsWith(s: string, prefix: string): (b: bool) {
    prefix <= s
  }

  /** Whether a selector names a row outright: its path, its Space, or another spelling of its path. */
  predicate Exact(sel: string, resolved: string -> Option<string>, e: Entry) {
    e.path == sel || e.space == sel || (resolved(sel).Some? && resolved(e.path) == resolved(sel))
  }

  /** What forgetting removes: every row named outright, or the one row a prefix singles out. */
  function Forgets(rows: seq<Entry>, sel: string, resolved: string -> Option<string>): (t: Test) {
    Forgotten(sel, resolved, |Select(rows, NamedBy(sel, resolved), true)|, |Select(rows, Prefixed(sel), true)|)
  }

  datatype Op =
    | Upsert(entry: Entry)
    | Touch(space: string, now: nat)
    | Forget(sel: string, resolved: string -> Option<string>)
    | Prune(present: string -> bool)

  /** The rows an operation leaves in the file. */
  function Apply(rows: seq<Entry>, op: Op): (r: seq<Entry>) {
    var listed := NewestFirst(rows);
    match op
    case Upsert(e) => Select(listed, AtPath(e.path), false) + [Merged(listed, e)]
    case Touch(space, now) =>
      var i := FirstWhere(listed, InSpace(space));
      if i < |listed| then listed[i := listed[i].(lastOpened := now)] else rows
    case Forget(sel, resolved) =>
      var t := Forgets(listed, sel, resolved);
      if Select(listed, t, true) == [] then rows else Select(listed, t, false)
    case Prune(present) =>
      if Select(listed, Vacant(present), true) == [] then rows else Select(listed, Vacant(present), false)
  }

  // ---- what every operation keeps -----------------------------------------------------------

  lemma ApplyKeepsUnique(rows: seq<Entry>, op: Op)
    requires UniquePaths(rows)
    ensures UniquePaths(Apply(rows, op))
  {
    var listed := NewestFirst(rows);
    NewestFirstKeepsUnique(rows);
    match op
    case Upsert(e) =>
      SelectMembers(listed, AtPath(e.path), false);
      SelectKeepsUnique(listed, AtPath(e.path), false);
      var kept := Select(listed, AtPath(e.path), false);
      forall i | 0 <= i < |kept| ensures kept[i].path != e.path {
        assert kept[i] in kept;
      }
    case Touch(space, now) =>
    case Forget(sel, resolved) =>
      SelectKeepsUnique(listed, Forgets(listed, sel, resolved), false);
    case Prune(present) =>
      SelectKeepsUnique(listed, Vacant(present), false);
  }

  function ApplyAll(rows: seq<Entry>, ops: seq<Op>): (r: seq<Entry>)
    decreases ops
  {
    if ops == [] then rows else ApplyAll(Apply(rows, ops[0]), ops[1..])
  }

  /** However the registry is edited, a store has one row. */
  lemma {:induction false} RunKeepsUnique(rows: seq<Entry>, ops: seq<Op>)
    requires UniquePaths(rows)
    ensures UniquePaths(ApplyAll(rows, ops))
    decreases ops
  {
    if ops != [] {
      ApplyKeepsUnique(rows, ops[0]);
      RunKeepsUnique(Apply(rows, ops[0]), ops[1..]);
    }
  }

  /** Rows at other paths are untouched by an upsert, as a multiset. */
  lemma UpsertLeavesOthers(rows: seq<Entry>, e: Entry, x: Entry)
    requires x.path != e.path
    ensures multiset(Apply(rows, Upsert(e)))[x] == multiset(rows)[x]
  {
    NewestFirstSpec(rows);
    SelectCount(NewestFirst(rows), AtPath(e.path), false, x);
  }

  /** An upserted path has one row: the entry, or the entry merged with the row it replaces. */
  lemma UpsertPutsOneRow(rows: seq<Entry>, e: Entry, x: Entry)
    requires UniquePaths(rows) && x in Apply(rows, Upsert(e)) && x.path == e.path
    ensures x == Merged(NewestFirst(rows), e)
    ensures forall r :: r in rows && r.path == e.path ==> x == Merge(r, e)
    ensures (forall r :: r in rows ==> r.path != e.path) ==> x == e
  {
    var listed := NewestFirst(rows);
    NewestFirstSpec(rows);
    NewestFirstKeepsUnique(rows);
    SelectMembers(listed, AtPath(e.path), false);
    var at := FirstWhere(listed, AtPath(e.path));
    forall r | r in rows && r.path == e.path
      ensures x == Merge(r, e)
    {
      UniqueRow(listed, at, r);
    }
    if forall r :: r in rows ==> r.path != e.path {
      forall k | 0 <= k < |listed|
        ensures listed[k].path != e.path
      {
        assert listed[k] in listed;
      }
    }
  }

  /**
   Edits are not serialised: each reads the file, and replaces it later. When two upserts of
   different stores both read before either saves, the later save keeps the earlier row
   exactly when the file already held that very row.
   */
  lemma OverlappingUpsertsKeepIff(rows: seq<Entry>, first: Entry, second: Entry)
    requires first.path != second.path
    ensures Merged(NewestFirst(rows), first) in Apply(rows, Upsert(second))
            <==> Merged(NewestFirst(rows), first) in rows
  {
    UpsertLeavesOthers(rows, second, Merged(NewestFirst(rows), first));
  }

  /** Of the rows of one Space, the first listed is the newest. */
  lemma FirstIsNewest(listed: seq<Entry>, space: string, e: Entry)
    requires Descending(listed) && e in listed && e.space == space
    ensures FirstWhere(listed, InSpace(space)) < |listed|
    ensures e.lastOpened <= listed[FirstWhere(listed, InSpace(space))].lastOpened
  {
    var i := FirstWhere(listed, InSpace(space));
    var k :| 0 <= k < |listed| && listed[k] == e;
    assert Matches(InSpace(space), listed[k]);
    assert i <= k;
  }

  /** A touch stamps the newest row of its Space and no other. */
  lemma TouchStampsNewest(rows: seq<Entry>, space: string, now: nat) returns (row: Entry)
    requires exists e :: e in rows && e.space == space
    ensures row in rows && row.space == space
    ensures forall e :: e in rows && e.space == space ==> e.lastOpened <= row.lastOpened
    ensures multiset(Apply(rows, Touch(space, now)))
            == multiset(rows) - multiset{row} + multiset{row.(lastOpened := now)}
  {
    NewestFirstSpec(rows);
    var listed := NewestFirst(rows);
    hide NewestFirst, Descending;
    forall e | e in rows && e.space == space
      ensures FirstWhere(listed, InSpace(space)) < |listed|
      ensures e.lastOpened <= listed[FirstWhere(listed, InSpace(space))].lastOpened
    {
      FirstIsNewest(listed, space, e);
    }
    var i := FirstWhere(listed, InSpace(space));
    row := listed[i];
    assert row in listed;
  }

  /** Rows of other Spaces are untouched. */
  lemma TouchLeavesOthers(rows: seq<Entry>, space: string, now: nat, x: Entry)
    requires x.space != space
    ensures multiset(Apply(rows, Touch(space, now)))[x] == multiset(rows)[x]
  {
    hide NewestFirst, Descending, Select, Merged, Forgets;
    NewestFirstSpec(rows);
  }

  /** An edit that saves only when it removes something removes exactly what its test finds. */
  lemma RemovalCount(rows: seq<Entry>, listed: seq<Entry>, t: Test, x: Entry)
    requires multiset(listed) == multiset(rows)
    ensures multiset(if Select(listed, t, true) == [] then rows else Select(listed, t, false))[x]
            == if Matches(t, x) then 0 else multiset(rows)[x]
  {
    SelectCount(listed, t, true, x);
    SelectCount(listed, t, false, x);
  }

  /** Forgetting removes exactly the rows it decides to, and keeps every other. */
  lemma ForgetRemovesExactly(rows: seq<Entry>, sel: string, resolved: string -> Option<string>, x: Entry)
    ensures multiset(Apply(rows, Forget(sel, resolved)))[x] ==
              if Matches(Forgets(NewestFirst(rows), sel, resolved), x) then 0 else multiset(rows)[x]
  {
    hide Matches, Select, Forgets, NewestFirst, Descending, FirstWhere, Merged;
    NewestFirstSpec(rows);
    RemovalCount(rows, NewestFirst(rows), Forgets(NewestFirst(rows), sel, resolved), x);
  }

  /** Pruning removes exactly the rows whose store is gone. */
  lemma PruneRemovesExactly(rows: seq<Entry>, present: string -> bool, x: Entry)
    ensures multiset(Apply(rows, Prune(present)))[x] == if present(x.path) then multiset(rows)[x] else 0
  {
    hide Matches, Select, NewestFirst, Descending, FirstWhere, Merged, Forgets;
    NewestFirstSpec(rows);
    RemovalCount(rows, NewestFirst(rows), Vacant(present), x);
    VacantIsAbsent(present, x);
  }

  lemma VacantIsAbsent(present: string -> bool, x: Entry)
    ensures Matches(Vacant(present), x) <==> !present(x.path)
  {
  }

  /** A selector that names nothing outright removes at most one row, and none when it is ambiguous. */
  lemma PrefixForgetsAtMostOne(rows: seq<Entry>, sel: string, resolved: string -> Option<string>)
    requires forall e :: e in rows ==> !Exact(sel, resolved, e)
    ensures var listed := NewestFirst(rows);
            |Select(listed, Forgets(listed, sel, resolved), true)|
            == if |Select(listed, Prefixed(sel), true)| == 1 then 1 else 0
  {
    NewestFirstSpec(rows);
    var listed := NewestFirst(rows);
    var named, t := NamedBy(sel, resolved), Forgets(listed, sel, resolved);
    SelectNone(listed, named);
    if |Select(listed, Prefixed(sel), true)| == 1 {
      SelectMembers(listed, Prefixed(sel), true);
      assert Select(listed, Prefixed(sel), true)[0] in Select(listed, Prefixed(sel), true);
      SelectAgrees(listed, t, Prefixed(sel));
    } else {
      SelectNone(listed, t);
    }
  }

  /** The selector names the row outright: by its path, its Space, or a path that resolves to the same. */
  ghost predicate NamedOutright(sel: string, resolved: string -> Option<string>, x: Entry) {
    || x.path == sel || x.space == sel
    || (resolved(sel).Some? && resolved(x.path).Some? && resolved(x.path).value == resolved(sel).value)
  }

  /** What forgetting a selector may remove, said row by row. */
  ghost predicate Forgettable(rows: seq<Entry>, sel: string, resolved: string -> Option<string>, x: Entry) {
    || NamedOutright(sel, resolved, x)
    || (&& (forall y :: y in rows ==> !NamedOutright(sel, resolved, y))
        && "ws_" <= sel && sel <= x.space
        && (forall y :: y in rows && sel <= y.space ==> y == x))
  }

  lemma SelectOneIff(rows: seq<Entry>, t: Test, x: Entry)
    requires UniquePaths(rows) && x in rows && Matches(t, x)
    ensures |Select(rows, t, true)| == 1 <==> forall y :: y in rows && Matches(t, y) ==> y == x
  {
    SelectMembers(rows, t, true);
    SelectKeepsUnique(rows, t, true);
    hide Matches;
    var s := Select(rows, t, true);
    assert x in s;
    if |s| == 1 {
      assert forall y :: y in s ==> y == s[0];
    } else {
      assert s[0] in s && s[1] in s && s[0].path != s[1].path;
    }
  }

  lemma NamedIff(sel: string, resolved: string -> Option<string>, y: Entry)
    ensures Matches(NamedBy(sel, resolved), y) <==> NamedOutright(sel, resolved, y)
  {
  }

  lemma NoneNamedIff(rows: seq<Entry>, sel: string, resolved: string -> Option<string>)
    ensures |Select(rows, NamedBy(sel, resolved), true)| == 0 <==> forall y :: y in rows ==> !NamedOutright(sel, resolved, y)
  {
    SelectMembers(rows, NamedBy(sel, resolved), true);
    hide Matches, NamedOutright;
    forall y
      ensures Matches(NamedBy(sel, resolved), y) <==> NamedOutright(sel, resolved, y)
    {
      NamedIff(sel, resolved, y);
    }
    var s := Select(rows, NamedBy(sel, resolved), true);
    if |s| > 0 {
      assert s[0] in s;
    }
  }

  /** The one row a prefix singles out. */
  lemma SingledOutIff(rows: seq<Entry>, sel: string, x: Entry)
    requires UniquePaths(rows) && x in rows
    ensures |Select(rows, Prefixed(sel), true)| == 1 && sel <= x.space <==>
              "ws_" <= sel && sel <= x.space && forall y :: y in rows && sel <= y.space ==> y == x
  {
    SelectMembers(rows, Prefixed(sel), true);
    if "ws_" <= sel && sel <= x.space {
      SelectOneIff(rows, Prefixed(sel), x);
    } else if !("ws_" <= sel) {
      SelectNone(rows, Prefixed(sel));
    }
  }

  lemma ForgetsIff(rows: seq<Entry>, sel: string, resolved: string -> Option<string>, x: Entry)
    requires UniquePaths(rows) && x in rows
    ensures Matches(Forgets(rows, sel, resolved), x) <==> Forgettable(rows, sel, resolved, x)
  {
    NamedIff(sel, resolved, x);
    NoneNamedIff(rows, sel, resolved);
    SingledOutIff(rows, sel, x);
    assert Matches(Forgets(rows, sel, resolved), x) <==>
      Exact(sel, resolved, x) || (|Select(rows, NamedBy(sel, resolved), true)| == 0
                                  && |Select(rows, Prefixed(sel), true)| == 1 && sel <= x.space);
    hide Select, Forgets, NamedOutright, Exact;
  }

  lemma SameRows(a: seq<Entry>, b: seq<Entry>, sel: string, resolved: string -> Option<string>, x: Entry)
    requires forall y :: y in a <==> y in b
    ensures Forgettable(a, sel, resolved, x) <==> Forgettable(b, sel, resolved, x)
  {
    hide NamedOutright;
  }

  /** Which rows are forgotten: exactly those, and the rest stay. */
  lemma ForgottenIff(rows: seq<Entry>, sel: string, resolved: string -> Option<string>, x: Entry)
    requires UniquePaths(rows) && x in rows
    ensures x in Select(NewestFirst(rows), Forgets(NewestFirst(rows), sel, resolved), true) <==> Forgettable(rows, sel, resolved, x)
    ensures x in Apply(rows, Forget(sel, resolved)) <==> !Forgettable(rows, sel, resolved, x)
  {
    var listed := NewestFirst(rows);
    NewestFirstSpec(rows);
    NewestFirstKeepsUnique(rows);
    hide Matches, Forgettable, Forgets, Apply, UniquePaths, Select, NewestFirst, Descending;
    ForgetsIff(listed, sel, resolved, x);
    SameRows(listed, rows, sel, resolved, x);
    SelectMembers(listed, Forgets(listed, sel, resolved), true);
    ForgetRemovesExactly(rows, sel, resolved, x);
    assert multiset(rows)[x] > 0;
  }

  lemma ForgetOutcome(rows: seq<Entry>, sel: string, resolved: string -> Option<string>)
    requires UniquePaths(rows)
    ensures forall x :: x in Select(NewestFirst(rows), Forgets(NewestFirst(rows), sel, resolved), true)
                        <==> x in rows && Forgettable(rows, sel, resolved, x)
    ensures forall x :: x in rows ==> (x in Apply(rows, Forget(sel, resolved)) <==> !Forgettable(rows, sel, resolved, x))
  {
    NewestFirstSpec(rows);
    SelectMembers(NewestFirst(rows), Forgets(NewestFirst(rows), sel, resolved), true);
    hide Matches, Forgettable, Forgets, Apply, UniquePaths, Select, NewestFirst, Descending;
    forall x | x in rows
      ensures x in Select(NewestFirst(rows), Forgets(NewestFirst(rows), sel, resolved), true) <==> Forgettable(rows, sel, resolved, x)
      ensures x in Apply(rows, Forget(sel, resolved)) <==> !Forgettable(rows, sel, resolved, x)
    {
      ForgottenIff(rows, sel, resolved, x);
    }
  }

  /** Which rows are pruned: exactly those without a store. */
  lemma PrunedIff(rows: seq<Entry>, present: string -> bool, x: Entry)
    ensures x in Select(NewestFirst(rows), Vacant(present), true) <==> x in rows && !present(x.path)
    ensures x in Apply(rows, Prune(present)) <==> x in rows && present(x.path)
  {
    NewestFirstSpec(rows);
    hide Matches, Apply, Select, NewestFirst, Descending;
    SelectMembers(NewestFirst(rows), Vacant(present), true);
    VacantIsAbsent(present, x);
    PruneRemovesExactly(rows, present, x);
  }

  lemma SelectNone(rows: seq<Entry>, t: Test)
    requires forall e :: e in rows ==> !Matches(t, e)
    ensures Select(rows, t, true) == []
  {
    SelectMembers(rows, t, true);
    hide Matches;
    var s := Select(rows, t, true);
    assert forall i :: 0 <= i < |s| ==> s[i] in s;
  }

  lemma {:induction false} SelectAgrees(rows: seq<Entry>, t: Test, u: Test)
    requires forall e :: e in rows ==> Matches(t, e) == Matches(u, e)
    ensures Select(rows, t, true) == Select(rows, u, true)
  {
    hide Matches;
    if rows != [] {
      assert rows[|rows| - 1] in rows;
      SelectAgrees(rows[..|rows| - 1], t, u);
    }
  }

  // ---- what outlives edits ------------------------------------------------------------------

  /** What a row keeps once it has it: that it was founded here, or that it has a name. */
  datatype Mark = FoundedHere | Named

  predicate Bears(e: Entry, mark: Mark) {
    match mark
    case FoundedHere => e.origin == Founded
    case Named => e.name != ""
  }

  ghost predicate IsMarked(e: Entry, mark: Mark, path: string, space: string) {
    e.path == path && e.space == space && Bears(e, mark)
  }

  /** The row of `path` holds `space` and bears the mark. */
  ghost predicate MarkedAt(rows: seq<Entry>, mark: Mark, path: string, space: string) {
    exists e :: e in rows && IsMarked(e, mark, path, space)
  }

  /** The operation neither removes the row of `path` nor puts another Space there. */
  ghost predicate Spares(rows: seq<Entry>, op: Op, path: string, space: string) {
    match op
    case Upsert(e) => e.path == path ==> e.space == space
    case Touch(_, _) => true
    case Forget(sel, resolved) =>
      forall e :: e in rows && e.path == path ==> !Matches(Forgets(NewestFirst(rows), sel, resolved), e)
    case Prune(present) => present(path)
  }

  lemma UniqueRow(rows: seq<Entry>, i: nat, e: Entry)
    requires UniquePaths(rows) && i < |rows| && e in rows && e.path == rows[i].path
    ensures rows[i] == e
  {
  }

  lemma UpsertKeepsMark(rows: seq<Entry>, n: Entry, e: Entry, mark: Mark, space: string)
    requires UniquePaths(rows) && e in rows && IsMarked(e, mark, e.path, space)
    requires n.path == e.path ==> n.space == space
    ensures MarkedAt(Apply(rows, Upsert(n)), mark, e.path, space)
  {
    var listed := NewestFirst(rows);
    NewestFirstSpec(rows);
    NewestFirstKeepsUnique(rows);
    SelectMembers(listed, AtPath(n.path), false);
    var kept, merged := Select(listed, AtPath(n.path), false), Merged(listed, n);
    if n.path == e.path {
      UniqueRow(listed, FirstWhere(listed, AtPath(n.path)), e);
      assert (kept + [merged])[|kept|] == merged;
      assert IsMarked(merged, mark, e.path, space);
    } else {
      assert e in kept;
      assert e in kept + [merged];
    }
  }

  lemma TouchKeepsMark(rows: seq<Entry>, s: string, now: nat, e: Entry, mark: Mark, space: string)
    requires e in rows && IsMarked(e, mark, e.path, space)
    ensures MarkedAt(Apply(rows, Touch(s, now)), mark, e.path, space)
  {
    var listed := NewestFirst(rows);
    NewestFirstSpec(rows);
    var i := FirstWhere(listed, InSpace(s));
    if i < |listed| {
      var k :| 0 <= k < |listed| && listed[k] == e;
      var after := listed[i := listed[i].(lastOpened := now)];
      assert after[k] in after && IsMarked(after[k], mark, e.path, space);
    }
  }

  lemma SelectKeepsMark(rows: seq<Entry>, t: Test, e: Entry)
    requires e in rows && !Matches(t, e)
    ensures e in Select(NewestFirst(rows), t, false)
  {
    NewestFirstSpec(rows);
    SelectMembers(NewestFirst(rows), t, false);
  }

  lemma ApplyKeepsMark(rows: seq<Entry>, op: Op, mark: Mark, path: string, space: string)
    requires UniquePaths(rows) && MarkedAt(rows, mark, path, space) && Spares(rows, op, path, space)
    ensures MarkedAt(Apply(rows, op), mark, path, space)
  {
    var e :| e in rows && IsMarked(e, mark, path, space);
    match op
    case Upsert(n) => UpsertKeepsMark(rows, n, e, mark, space);
    case Touch(s, now) => TouchKeepsMark(rows, s, now, e, mark, space);
    case Forget(sel, resolved) => SelectKeepsMark(rows, Forgets(NewestFirst(rows), sel, resolved), e);
    case Prune(present) => SelectKeepsMark(rows, Vacant(present), e);
  }

  ghost predicate AllSpare(rows: seq<Entry>, ops: seq<Op>, path: string, space: string)
    decreases ops
  {
    ops == [] || (Spares(rows, ops[0], path, space) && AllSpare(Apply(rows, ops[0]), ops[1..], path, space))
  }

  lemma {:induction false} RunKeepsMark(rows: seq<Entry>, ops: seq<Op>, mark: Mark, path: string, space: string)
    requires UniquePaths(rows) && MarkedAt(rows, mark, path, space) && AllSpare(rows, ops, path, space)
    ensures MarkedAt(ApplyAll(rows, ops), mark, path, space)
    decreases ops
  {
    if ops != [] {
      ApplyKeepsUnique(rows, ops[0]);
      ApplyKeepsMark(rows, ops[0], mark, path, space);
      RunKeepsMark(Apply(rows, ops[0]), ops[1..], mark, path, space);
    }
  }

  /** A founder stays a founder, named or not, through any edits that spare its row. */
  lemma RunKeepsFounded(rows: seq<Entry>, ops: seq<Op>, e: Entry)
    requires UniquePaths(rows) && e in rows && e.origin == Founded && AllSpare(rows, ops, e.path, e.space)
    ensures exists x :: x in ApplyAll(rows, ops) && x.path == e.path && x.space == e.space && x.origin == Founded
  {
    assert IsMarked(e, FoundedHere, e.path, e.space);
    RunKeepsMark(rows, ops, FoundedHere, e.path, e.space);
    var x :| x in ApplyAll(rows, ops) && IsMarked(x, FoundedHere, e.path, e.space);
  }

  /** A named Orbit stays named, founded or joined. */
  lemma RunKeepsNamed(rows: seq<Entry>, ops: seq<Op>, e: Entry)
    requires UniquePaths(rows) && e in rows && e.name != "" && AllSpare(rows, ops, e.path, e.space)
    ensures exists x :: x in ApplyAll(rows, ops) && x.path == e.path && x.space == e.space && x.name != ""
  {
    assert IsMarked(e, Named, e.path, e.space);
    RunKeepsMark(rows, ops, Named, e.path, e.space);
    var x :| x in ApplyAll(rows, ops) && IsMarked(x, Named, e.path, e.space);
  }

  // ---- the file -----------------------------------------------------------------------------

  class Registry {
    const working: bool   // whether the file can always be replaced
    var file: File

    ghost predicate Valid()
      reads this
    {
      file.Rows? ==> UniquePaths(file.rows)
    }

    ghost function Rows(): (rows: seq<Entry>)
      reads this
    {
      if file.Rows? then file.rows else []
    }

    constructor (working: bool)
      ensures Valid() && Rows() == [] && this.working == working
    {
      this.working := working;
      file := File.Rows([]);
    }

    /** Replace the file, or fail and leave it. */
    method Save(rows: seq<Entry>) returns (ok: bool)
      modifies this
      ensures file == if ok then File.Rows(rows) else old(file)
      ensures working ==> ok
    {
      ok := *;
      ok := ok || working;
      if ok {
        file := File.Rows(rows);
      }
    }

    method UpsertEntry(entry: Entry) returns (ok: bool)
      requires Valid()
      modifies this
      ensures Valid()
      ensures file == if ok then File.Rows(Apply(old(Rows()), Upsert(entry))) else old(file)
      ensures working ==> ok
    {
      var entries := Listed(file);
      ApplyKeepsUnique(Rows(), Upsert(entry));
      var at := 0;
      while at < |entries| && entries[at].path != entry.path
        invariant 0 <= at <= |entries|
        invariant forall k :: 0 <= k < at ==> entries[k].path != entry.path
      {
        at := at + 1;
      }
      assert at == FirstWhere(entries, AtPath(entry.path));
      var merged := if at < |entries| then Merge(entries[at], entry) else entry;
      var out, kept := Partition(entries, AtPath(entry.path));
      ok := Save(kept + [merged]);
    }

    /** True when a row of that Space was stamped and saved; a missing row stays missing. */
    method TouchSpace(space: string, now: nat) returns (touched: Option<bool>)
      requires Valid()
      modifies this
      ensures Valid()
      ensures touched == Some(true) ==> file == File.Rows(Apply(old(Rows()), Touch(space, now)))
      ensures touched != Some(true) ==> file == old(file)
      ensures touched == Some(false) <==> forall e :: e in old(Rows()) ==> e.space != space
      ensures working ==> touched.Some?
    {
      var entries := Listed(file);
      NewestFirstSpec(Rows());
      ApplyKeepsUnique(Rows(), Touch(space, now));
      var i := 0;
      while i < |entries| && entries[i].space != space
        invariant 0 <= i <= |entries|
        invariant forall k :: 0 <= k < i ==> entries[k].space != space
      {
        i := i + 1;
      }
      if i == |entries| {
        return Some(false);
      }
      assert entries[i] in entries;
      assert i == FirstWhere(entries, InSpace(space));
      var ok := Save(entries[i := entries[i].(lastOpened := now)]);
      touched := if ok then Some(true) else None;
    }

    method ForgetSelected(sel: string, resolved: string -> Option<string>) returns (removed: Option<seq<Entry>>)
      requires Valid()
      modifies this
      ensures Valid()
      ensures removed.None? ==> file == old(file)
      ensures working ==> removed.Some?
      ensures removed.Some? ==>
                && Rows() == Apply(old(Rows()), Forget(sel, resolved))
                && (forall x :: x in removed.value <==> x in old(Rows()) && Forgettable(old(Rows()), sel, resolved, x))
                && (forall x :: x in old(Rows()) ==> (x in Rows() <==> !Forgettable(old(Rows()), sel, resolved, x)))
    {
      var entries := Listed(file);
      ApplyKeepsUnique(Rows(), Forget(sel, resolved));
      ForgetOutcome(Rows(), sel, resolved);
      var out, kept := Partition(entries, Forgets(entries, sel, resolved));
      if out != [] {
        var ok := Save(kept);
        if !ok {
          return None;
        }
      }
      return Some(out);
    }

    method PruneMissing(present: string -> bool) returns (removed: Option<seq<Entry>>)
      requires Valid()
      modifies this
      ensures Valid()
      ensures removed.None? ==> file == old(file)
      ensures working ==> removed.Some?
      ensures removed.Some? ==>
                && Rows() == Apply(old(Rows()), Prune(present))
                && (forall x :: x in removed.value <==> x in old(Rows()) && !present(x.path))
                && (forall x :: x in Rows() <==> x in old(Rows()) && present(x.path))
    {
      var entries := Listed(file);
      ApplyKeepsUnique(Rows(), Prune(present));
      forall x
        ensures x in Select(NewestFirst(Rows()), Vacant(present), true) <==> x in Rows() && !present(x.path)
        ensures x in Apply(Rows(), Prune(present)) <==> x in Rows() && present(x.path)
      {
        PrunedIff(Rows(), present, x);
      }
      var out, kept := Partition(entries, Vacant(present));
      if out != [] {
        var ok := Save(kept);
        if !ok {
          return None;
        }
      }
      return Some(out);
    }

    /** Split a list by a test, keeping both halves in order. */
    method Partition(entries: seq<Entry>, gone: Test) returns (out: seq<Entry>, kept: seq<Entry>)
      ensures out == Select(entries, gone, true) && kept == Select(entries, gone, false)
    {
      out, kept := [], [];
      var i := 0;
      while i < |entries|
        invariant 0 <= i <= |entries|
        invariant out == Select(entries[..i], gone, true) && kept == Select(entries[..i], gone, false)
      {
        assert entries[..i + 1][..i] == entries[..i];
        if Matches(gone, entries[i]) {
          out := out + [entries[i]];
        } else {
          kept := kept + [entries[i]];
        }
        i := i + 1;
      }
      assert entries[..i] == entries;
    }
  }
}
