/** The deterministic scan for contradictions among live rules, scope by scope and pair by pair. */
module ConflictScan {
  import opened Common
  import opened Rules
  import opened Stores

  const ALL_SCOPES: seq<RuleScope> := [Global, Account, Folder, Sender, Domain]

  /** Two live rules that share a condition and contradict in effect. */
  predicate Clash(text: Condition -> string, a: Rule, b: Rule) {
    ConditionsEquivalent(text, a.condition, b.condition) && Contradicts(a.effect, b.effect)
  }

  /** A stored rule as the engine sees it: its current version. */
  function Live(rule: StoredRule): Rule
    requires rule.versions != []
  {
    var current := rule.versions[|rule.versions| - 1];
    Rule(rule.id, rule.kind, rule.scope, AgentShadow, rule.status, current.condition, current.effect)
  }

  /** The rules of one kind, scope and status, in the order they were created. */
  function Snapshot(rules: seq<StoredRule>, kind: RuleKind, scope: RuleScope, status: RuleStatus): (r: seq<Rule>)
    ensures forall i :: 0 <= i < |r| ==> r[i].kind == kind && r[i].scope == scope && r[i].status == status
  {
    if rules == [] then []
    else
      var last := rules[|rules| - 1];
      Snapshot(rules[..|rules| - 1], kind, scope, status)
      + if last.kind == kind && last.scope == scope && last.status == status && last.versions != [] then [Live(last)]
        else []
  }

  /** The records of the clashes of rule `i` with the rules after it, up to `j`. */
  function RowClashes(text: Condition -> string, kind: RuleKind, rules: seq<Rule>, i: nat, j: nat): seq<Conflict>
    requires i < j <= |rules|
  {
    if j == i + 1 then []
    else
      RowClashes(text, kind, rules, i, j - 1)
      + if Clash(text, rules[i], rules[j - 1]) then [Conflict(kind, rules[i].id, rules[j - 1].id)] else []
  }

  /** The records of all clashes of the first `i` rules with rules after them. */
  function Clashes(text: Condition -> string, kind: RuleKind, rules: seq<Rule>, i: nat): seq<Conflict>
    requires i <= |rules|
  {
    if i == 0 then [] else Clashes(text, kind, rules, i - 1) + RowClashes(text, kind, rules, i - 1, |rules|)
  }

  function ClashesInScopes(
      text: Condition -> string, rules: seq<StoredRule>, kind: RuleKind, scopes: seq<RuleScope>): seq<Conflict>
  {
    if scopes == [] then []
    else
      var live := Snapshot(rules, kind, scopes[|scopes| - 1], Active);
      ClashesInScopes(text, rules, kind, scopes[..|scopes| - 1]) + Clashes(text, kind, live, |live|)
  }

  function AllClashes(text: Condition -> string, rules: seq<StoredRule>, kinds: seq<RuleKind>): seq<Conflict> {
    if kinds == [] then []
    else
      AllClashes(text, rules, kinds[..|kinds| - 1])
      + ClashesInScopes(text, rules, kinds[|kinds| - 1], ALL_SCOPES)
  }

  /** The database once some clashes are recorded: the records and their audit entries, in order,
      and nothing else. */
  function Recorded(db: Db, clashes: seq<Conflict>): Db {
    db.(conflicts := db.conflicts + clashes, audit := db.audit + Audits(clashes))
  }

  function Audits(clashes: seq<Conflict>): (r: seq<AuditEntry>)
    ensures |r| == |clashes|
    ensures forall k :: 0 <= k < |clashes| ==> r[k] == AuditEntry(RuleConflictDetected, None, Some(clashes[k].ruleA))
  {
    seq(|clashes|, k requires 0 <= k < |clashes| => AuditEntry(RuleConflictDetected, None, Some(clashes[k].ruleA)))
  }

  /** Records one clash: its row and its audit entry, or as much of that as the store lets through. */
  method RecordClash(store: Store, c: Conflict) returns (ok: bool)
    modifies store
    ensures ok ==> store.db == Recorded(old(store.db), [c]) && store.budget + 2 == old(store.budget)
    ensures ok == (old(store.budget) >= 2)
    ensures !ok ==> store.db in {old(store.db), old(store.db).(conflicts := old(store.db).conflicts + [c])}
  {
    ok := store.Do(AppendConflict(c));
    if ok {
      ok := store.Do(AppendAudit(AuditEntry(RuleConflictDetected, None, Some(c.ruleA))));
    }
  }

  /** A failed scan has recorded a first part of the clashes, and of the next one at most the row. */
  ghost predicate PartlyRecorded(before: Db, after: Db, clashes: seq<Conflict>) {
    exists k | 0 <= k <= |clashes| ::
      after == Recorded(before, clashes[..k])
      || (k < |clashes| &&
          after == Recorded(before, clashes[..k]).(conflicts := before.conflicts + clashes[..k + 1]))
  }

  lemma RecordedTwice(db: Db, a: seq<Conflict>, b: seq<Conflict>)
    ensures Recorded(Recorded(db, a), b) == Recorded(db, a + b)
  {
    assert Audits(a) + Audits(b) == Audits(a + b);
    assert db.audit + Audits(a) + Audits(b) == db.audit + (Audits(a) + Audits(b));
    assert db.conflicts + a + b == db.conflicts + (a + b);
  }

  // ---- prefixes ---------------------------------------------------------------------------

  lemma PrefixTransitive<T>(a: seq<T>, b: seq<T>, c: seq<T>)
    requires a <= b && b <= c
    ensures a <= c
  {
  }

  lemma {:induction false} RowGrows(text: Condition -> string, kind: RuleKind, rules: seq<Rule>, i: nat, j: nat, n: nat)
    requires i < j <= n <= |rules|
    ensures RowClashes(text, kind, rules, i, j) <= RowClashes(text, kind, rules, i, n)
    decreases n
  {
    hide Clash;
    if j < n {
      RowGrows(text, kind, rules, i, j, n - 1);
      PrefixTransitive(RowClashes(text, kind, rules, i, j), RowClashes(text, kind, rules, i, n - 1),
                       RowClashes(text, kind, rules, i, n));
    }
  }

  lemma {:induction false} TableGrows(text: Condition -> string, kind: RuleKind, rules: seq<Rule>, i: nat, n: nat)
    requires i <= n <= |rules|
    ensures Clashes(text, kind, rules, i) <= Clashes(text, kind, rules, n)
    decreases n
  {
    hide RowClashes;
    if i < n {
      TableGrows(text, kind, rules, i, n - 1);
      PrefixTransitive(Clashes(text, kind, rules, i), Clashes(text, kind, rules, n - 1), Clashes(text, kind, rules, n));
    }
  }

  lemma {:induction false} ScopesGrow(text: Condition -> string, rules: seq<StoredRule>, kind: RuleKind, s: nat, n: nat)
    requires s <= n <= |ALL_SCOPES|
    ensures ClashesInScopes(text, rules, kind, ALL_SCOPES[..s]) <= ClashesInScopes(text, rules, kind, ALL_SCOPES[..n])
    decreases n
  {
    hide Clashes;
    hide Snapshot;
    if s < n {
      ScopesGrow(text, rules, kind, s, n - 1);
      assert ALL_SCOPES[..n][..n - 1] == ALL_SCOPES[..n - 1];
      PrefixTransitive(ClashesInScopes(text, rules, kind, ALL_SCOPES[..s]),
                       ClashesInScopes(text, rules, kind, ALL_SCOPES[..n - 1]),
                       ClashesInScopes(text, rules, kind, ALL_SCOPES[..n]));
    }
  }

  lemma {:induction false} KindsGrow(text: Condition -> string, rules: seq<StoredRule>, kinds: seq<RuleKind>, k: nat)
    requires k <= |kinds|
    ensures AllClashes(text, rules, kinds[..k]) <= AllClashes(text, rules, kinds)
    decreases |kinds|
  {
    hide ClashesInScopes;
    if k < |kinds| {
      var init := kinds[..|kinds| - 1];
      KindsGrow(text, rules, init, k);
      assert init[..k] == kinds[..k];
      PrefixTransitive(
        AllClashes(text, rules, kinds[..k]), AllClashes(text, rules, init), AllClashes(text, rules, kinds));
    } else {
      assert kinds[..k] == kinds;
    }
  }

  lemma PartlyThere(before: Db, after: Db, done: seq<Conflict>, c: Conflict, all: seq<Conflict>)
    requires done + [c] <= all
    requires var part := Recorded(before, done);
             after in {part, part.(conflicts := part.conflicts + [c])}
    ensures PartlyRecorded(before, after, all)
  {
    var k := |done|;
    assert all[..k] == done && all[..k + 1] == done + [c];
    assert Recorded(before, done).conflicts + [c] == before.conflicts + all[..k + 1];
  }

  /** What is partly recorded after a first part is partly recorded on the whole. */
  lemma PartlyLater(before: Db, done: seq<Conflict>, after: Db, part: seq<Conflict>, all: seq<Conflict>)
    requires PartlyRecorded(Recorded(before, done), after, part) && done + part <= all
    ensures PartlyRecorded(before, after, all)
  {
    var mid := Recorded(before, done);
    var k :| 0 <= k <= |part| &&
      (after == Recorded(mid, part[..k])
       || (k < |part| && after == Recorded(mid, part[..k]).(conflicts := mid.conflicts + part[..k + 1])));
    RecordedTwice(before, done, part[..k]);
    var n := |done| + k;
    assert all[..n] == done + part[..k];
    if k < |part| {
      assert all[..n + 1] == done + part[..k + 1];
      assert mid.conflicts + part[..k + 1] == before.conflicts + all[..n + 1];
    }
    hide Recorded;
  }

  lemma NothingRecorded(db: Db)
    ensures Recorded(db, []) == db
  {
    assert db.conflicts + [] == db.conflicts && db.audit + Audits([]) == db.audit;
  }

  // ---- the scan, loop by loop -------------------------------------------------------------

  /** Compares one rule with every later one. */
  method ScanRow(store: Store, text: Condition -> string, kind: RuleKind, rules: seq<Rule>, i: nat)
    returns (ok: bool, out: seq<Conflict>)
    requires i < |rules|
    modifies store
    ensures ok == (old(store.budget) >= 2 * |RowClashes(text, kind, rules, i, |rules|)|)
    ensures ok ==> out == RowClashes(text, kind, rules, i, |rules|)
    ensures ok ==> store.db == Recorded(old(store.db), out) && store.budget + 2 * |out| == old(store.budget)
    ensures !ok ==> PartlyRecorded(old(store.db), store.db, RowClashes(text, kind, rules, i, |rules|))
  {
    hide Clash;
    hide PartlyRecorded;
    hide Recorded;
    ghost var before := store.db;
    out := [];
    NothingRecorded(before);
    for j := i + 1 to |rules|
      invariant out == RowClashes(text, kind, rules, i, j)
      invariant store.db == Recorded(before, out) && store.budget + 2 * |out| == old(store.budget)
    {
      if Clash(text, rules[i], rules[j]) {
        var record := Conflict(kind, rules[i].id, rules[j].id);
        assert out + [record] == RowClashes(text, kind, rules, i, j + 1);
        RowGrows(text, kind, rules, i, j + 1, |rules|);
        ok := RecordClash(store, record);
        if !ok {
          PartlyThere(before, store.db, out, record, RowClashes(text, kind, rules, i, |rules|));
          return;
        }
        RecordedTwice(before, out, [record]);
        out := out + [record];
      }
    }
    ok := true;
  }

  /** Compares every rule with every later one and records the clashes as they are found. */
  method ScanPairs(store: Store, text: Condition -> string, kind: RuleKind, rules: seq<Rule>)
    returns (ok: bool, out: seq<Conflict>)
    modifies store
    ensures ok == (old(store.budget) >= 2 * |Clashes(text, kind, rules, |rules|)|)
    ensures ok ==> out == Clashes(text, kind, rules, |rules|)
    ensures ok ==> store.db == Recorded(old(store.db), out) && store.budget + 2 * |out| == old(store.budget)
    ensures !ok ==> PartlyRecorded(old(store.db), store.db, Clashes(text, kind, rules, |rules|))
  {
    hide RowClashes;
    hide PartlyRecorded;
    hide Recorded;
    ghost var before := store.db;
    out := [];
    NothingRecorded(before);
    for i := 0 to |rules|
      invariant out == Clashes(text, kind, rules, i)
      invariant store.db == Recorded(before, out) && store.budget + 2 * |out| == old(store.budget)
    {
      TableGrows(text, kind, rules, i + 1, |rules|);
      var row;
      ok, row := ScanRow(store, text, kind, rules, i);
      if !ok {
        PartlyLater(
          before, out, store.db, RowClashes(text, kind, rules, i, |rules|), Clashes(text, kind, rules, |rules|));
        return;
      }
      RecordedTwice(before, out, row);
      out := out + row;
    }
    ok := true;
  }

  method ScanScopes(store: Store, text: Condition -> string, kind: RuleKind)
    returns (ok: bool, out: seq<Conflict>)
    modifies store
    ensures var all := ClashesInScopes(text, old(store.db).rules, kind, ALL_SCOPES);
            && ok == (old(store.budget) >= 5 + 2 * |all|)
            && (ok ==> out == all && store.db == Recorded(old(store.db), all)
                       && store.budget + 5 + 2 * |all| == old(store.budget))
            && (!ok ==> PartlyRecorded(old(store.db), store.db, all))
  {
    hide Clashes;
    hide Snapshot;
    hide PartlyRecorded;
    ghost var before := store.db;
    ghost var all := ClashesInScopes(text, before.rules, kind, ALL_SCOPES);
    out := [];
    NothingRecorded(before);
    for s := 0 to |ALL_SCOPES|
      invariant out == ClashesInScopes(text, before.rules, kind, ALL_SCOPES[..s])
      invariant store.db == Recorded(before, out) && store.budget + s + 2 * |out| == old(store.budget)
    {
      ScopesGrow(text, before.rules, kind, s + 1, |ALL_SCOPES|);
      assert ALL_SCOPES[..s + 1][..s] == ALL_SCOPES[..s] && ALL_SCOPES[..|ALL_SCOPES|] == ALL_SCOPES;
      ok := store.Do(Read);
      if !ok {
        PartlyHere(before, out, all);
        return;
      }
      var live := Snapshot(store.db.rules, kind, ALL_SCOPES[s], Active);
      var found;
      ok, found := ScanPairs(store, text, kind, live);
      if !ok {
        PartlyLater(before, out, store.db, Clashes(text, kind, live, |live|), all);
        return;
      }
      RecordedTwice(before, out, found);
      out := out + found;
    }
    assert ALL_SCOPES[..|ALL_SCOPES|] == ALL_SCOPES;
    ok := true;
  }

  lemma PartlyHere(before: Db, done: seq<Conflict>, all: seq<Conflict>)
    requires done <= all
    ensures PartlyRecorded(before, Recorded(before, done), all)
  {
    assert all[..|done|] == done;
    hide Recorded;
  }

  /** Scans the live rules of the given kinds, scope by scope. */
  method ScanConflicts(store: Store, text: Condition -> string, kinds: seq<RuleKind>)
    returns (ok: bool, out: seq<Conflict>)
    modifies store
    ensures var all := AllClashes(text, old(store.db).rules, kinds);
            && ok == (old(store.budget) >= 5 * |kinds| + 2 * |all|)
            && (ok ==> out == all && store.db == Recorded(old(store.db), all))
            && (!ok ==> PartlyRecorded(old(store.db), store.db, all))
  {
    hide ClashesInScopes;
    hide PartlyRecorded;
    ghost var before := store.db;
    ghost var all := AllClashes(text, before.rules, kinds);
    out := [];
    NothingRecorded(before);
    for k := 0 to |kinds|
      invariant out == AllClashes(text, before.rules, kinds[..k])
      invariant store.db == Recorded(before, out) && store.budget + 5 * k + 2 * |out| == old(store.budget)
    {
      KindsGrow(text, before.rules, kinds, k + 1);
      assert kinds[..k + 1][..k] == kinds[..k];
      var found;
      ok, found := ScanScopes(store, text, kinds[k]);
      if !ok {
        PartlyLater(before, out, store.db, ClashesInScopes(text, before.rules, kinds[k], ALL_SCOPES), all);
        return;
      }
      RecordedTwice(before, out, found);
      out := out + found;
    }
    assert kinds[..|kinds|] == kinds;
    ok := true;
  }

  // ---- each clashing pair exactly once ----------------------------------------------------

  lemma DistinctAppend<T>(a: seq<T>, b: seq<T>)
    requires Distinct(a) && Distinct(b) && forall i :: 0 <= i < |a| ==> a[i] !in b
    ensures Distinct(a + b)
  {
  }

  ghost predicate UniqueIds(rules: seq<Rule>) {
    forall i, j :: 0 <= i < j < |rules| ==> rules[i].id != rules[j].id
  }

  /** The record of the clash of rules `i` and `j`. */
  ghost predicate Records(text: Condition -> string, kind: RuleKind, rules: seq<Rule>, i: nat, j: nat, c: Conflict)
    requires i < |rules| && j < |rules|
  {
    Clash(text, rules[i], rules[j]) && c == Conflict(kind, rules[i].id, rules[j].id)
  }

  ghost predicate InRow(text: Condition -> string, kind: RuleKind, rules: seq<Rule>, i: nat, n: nat, c: Conflict)
    requires i < |rules| && n <= |rules|
  {
    exists j | i < j < n :: Records(text, kind, rules, i, j, c)
  }

  lemma OneMoreInRow(text: Condition -> string, kind: RuleKind, rules: seq<Rule>, i: nat, n: nat, c: Conflict)
    requires i + 1 < n <= |rules|
    ensures InRow(text, kind, rules, i, n, c) <==>
            InRow(text, kind, rules, i, n - 1, c) || Records(text, kind, rules, i, n - 1, c)
  {
    hide Records;
  }

  lemma OneMoreRowClash(text: Condition -> string, kind: RuleKind, rules: seq<Rule>, i: nat, n: nat, c: Conflict)
    requires i + 1 < n <= |rules|
    ensures c in RowClashes(text, kind, rules, i, n) <==>
            c in RowClashes(text, kind, rules, i, n - 1) || Records(text, kind, rules, i, n - 1, c)
  {
    hide Clash;
  }

  lemma {:induction false} RowMember(
      text: Condition -> string, kind: RuleKind, rules: seq<Rule>, i: nat, n: nat, c: Conflict)
    requires i < n <= |rules|
    ensures c in RowClashes(text, kind, rules, i, n) <==> InRow(text, kind, rules, i, n, c)
    decreases n
  {
    hide Records;
    hide Clash;
    if n == i + 1 {
      assert RowClashes(text, kind, rules, i, n) == [];
    } else {
      hide InRow;
      hide RowClashes;
      RowMember(text, kind, rules, i, n - 1, c);
      OneMoreInRow(text, kind, rules, i, n, c);
      OneMoreRowClash(text, kind, rules, i, n, c);
    }
  }

  lemma {:induction false} RowDistinct(text: Condition -> string, kind: RuleKind, rules: seq<Rule>, i: nat, n: nat)
    requires i < n <= |rules| && UniqueIds(rules)
    ensures Distinct(RowClashes(text, kind, rules, i, n))
    decreases n
  {
    hide Clash;
    if n > i + 1 && Clash(text, rules[i], rules[n - 1]) {
      RowDistinct(text, kind, rules, i, n - 1);
      var before := RowClashes(text, kind, rules, i, n - 1);
      var c := Conflict(kind, rules[i].id, rules[n - 1].id);
      RowMember(text, kind, rules, i, n - 1, c);
      hide RowClashes;
      assert c !in before;
      DistinctAppend(before, [c]);
      assert RowClashes(text, kind, rules, i, n) == before + [c] by {
        RowUnfolds(text, kind, rules, i, n);
      }
    } else if n > i + 1 {
      RowDistinct(text, kind, rules, i, n - 1);
    }
  }

  lemma RowUnfolds(text: Condition -> string, kind: RuleKind, rules: seq<Rule>, i: nat, n: nat)
    requires i + 1 < n <= |rules| && Clash(text, rules[i], rules[n - 1])
    ensures RowClashes(text, kind, rules, i, n) ==
            RowClashes(text, kind, rules, i, n - 1) + [Conflict(kind, rules[i].id, rules[n - 1].id)]
  {
    hide Clash;
  }

  ghost predicate InTable(text: Condition -> string, kind: RuleKind, rules: seq<Rule>, n: nat, c: Conflict)
    requires n <= |rules|
  {
    exists i | 0 <= i < n :: InRow(text, kind, rules, i, |rules|, c)
  }

  lemma {:induction false} TableMember(text: Condition -> string, kind: RuleKind, rules: seq<Rule>, n: nat, c: Conflict)
    requires n <= |rules|
    ensures c in Clashes(text, kind, rules, n) <==> InTable(text, kind, rules, n, c)
    decreases n
  {
    hide InRow;
    hide RowClashes;
    if n > 0 {
      TableMember(text, kind, rules, n - 1, c);
      RowMember(text, kind, rules, n - 1, |rules|, c);
      assert InTable(text, kind, rules, n, c) <==>
             InTable(text, kind, rules, n - 1, c) || InRow(text, kind, rules, n - 1, |rules|, c);
      hide InTable;
    }
  }

  /** Records of different rows have different first rules. */
  lemma RowsAreApart(text: Condition -> string, kind: RuleKind, rules: seq<Rule>, n: nat, c: Conflict)
    requires n < |rules| && UniqueIds(rules) && InTable(text, kind, rules, n, c)
    ensures !InRow(text, kind, rules, n, |rules|, c)
  {
    hide Clash;
    var i :| 0 <= i < n && InRow(text, kind, rules, i, |rules|, c);
    assert rules[i].id != rules[n].id;
  }

  lemma RowApartFromTable(text: Condition -> string, kind: RuleKind, rules: seq<Rule>, n: nat)
    requires n < |rules| && UniqueIds(rules)
    ensures var before := Clashes(text, kind, rules, n);
            forall x :: 0 <= x < |before| ==> before[x] !in RowClashes(text, kind, rules, n, |rules|)
  {
    hide RowClashes;
    hide Clashes;
    hide InRow;
    hide InTable;
    hide UniqueIds;
    var before := Clashes(text, kind, rules, n);
    forall x | 0 <= x < |before|
      ensures before[x] !in RowClashes(text, kind, rules, n, |rules|)
    {
      TableMember(text, kind, rules, n, before[x]);
      RowMember(text, kind, rules, n, |rules|, before[x]);
      RowsAreApart(text, kind, rules, n, before[x]);
    }
  }

  lemma {:induction false} TableDistinct(text: Condition -> string, kind: RuleKind, rules: seq<Rule>, n: nat)
    requires n <= |rules| && UniqueIds(rules)
    ensures Distinct(Clashes(text, kind, rules, n))
    decreases n
  {
    hide RowClashes;
    if n > 0 {
      hide UniqueIds;
      hide Distinct;
      TableDistinct(text, kind, rules, n - 1);
      RowDistinct(text, kind, rules, n - 1, |rules|);
      RowApartFromTable(text, kind, rules, n - 1);
      DistinctAppend(Clashes(text, kind, rules, n - 1), RowClashes(text, kind, rules, n - 1, |rules|));
    }
  }

  // ---- from snapshots to the table of rules -----------------------------------------------

  /** Rules are unique by kind and id, and each has a version. */
  ghost predicate WellKept(rules: seq<StoredRule>) {
    && (forall x :: 0 <= x < |rules| ==> rules[x].versions != [])
    && forall x, y :: 0 <= x < y < |rules| ==> !(rules[x].kind == rules[y].kind && rules[x].id == rules[y].id)
  }

  predicate InSnapshot(rule: StoredRule, kind: RuleKind, scope: RuleScope) {
    rule.kind == kind && rule.scope == scope && rule.status == Active && rule.versions != []
  }

  /** Where the rules of a snapshot stand in the table. */
  function Places(rules: seq<StoredRule>, kind: RuleKind, scope: RuleScope): (r: seq<nat>)
    ensures forall i :: 0 <= i < |r| ==> r[i] < |rules| && InSnapshot(rules[r[i]], kind, scope)
    ensures forall i, j :: 0 <= i < j < |r| ==> r[i] < r[j]
    ensures forall x :: 0 <= x < |rules| && InSnapshot(rules[x], kind, scope) ==> x in r
  {
    if rules == [] then []
    else
      var n := |rules| - 1;
      Places(rules[..n], kind, scope) + if InSnapshot(rules[n], kind, scope) then [n] else []
  }

  lemma {:induction false} SnapshotPlaces(rules: seq<StoredRule>, kind: RuleKind, scope: RuleScope)
    ensures var snapshot, places := Snapshot(rules, kind, scope, Active), Places(rules, kind, scope);
            |snapshot| == |places| && forall i :: 0 <= i < |snapshot| ==> snapshot[i] == Live(rules[places[i]])
  {
    if rules != [] {
      SnapshotPlaces(rules[..|rules| - 1], kind, scope);
    }
  }

  /** Two stored rules that the scan must report: live, of one kind and scope, in clash. */
  ghost predicate MustReport(text: Condition -> string, rules: seq<StoredRule>, x: nat, y: nat, c: Conflict)
    requires x < |rules| && y < |rules|
  {
    && x < y && rules[x].kind == rules[y].kind == c.kind && rules[x].scope == rules[y].scope
    && rules[x].status == rules[y].status == Active && rules[x].versions != [] && rules[y].versions != []
    && Clash(text, Live(rules[x]), Live(rules[y])) && c == Conflict(c.kind, rules[x].id, rules[y].id)
  }

  /** The record is of a pair to report, in one of these scopes. */
  ghost predicate ReportedIn(text: Condition -> string, rules: seq<StoredRule>, scopes: seq<RuleScope>, c: Conflict) {
    exists x, y | 0 <= x < |rules| && 0 <= y < |rules| ::
      MustReport(text, rules, x, y, c) && rules[x].scope in scopes
  }

  /** One scope of one kind: exactly the pairs to report there. */
  lemma ScopeIsExact(text: Condition -> string, rules: seq<StoredRule>, kind: RuleKind, scope: RuleScope, c: Conflict)
    ensures var live := Snapshot(rules, kind, scope, Active);
            c in Clashes(text, kind, live, |live|) <==> c.kind == kind && ReportedIn(text, rules, [scope], c)
  {
    var live := Snapshot(rules, kind, scope, Active);
    TableMember(text, kind, live, |live|, c);
    hide MustReport;
    hide InTable;
    hide Clashes;
    hide Snapshot;
    if InTable(text, kind, live, |live|, c) {
      TableIsReported(text, rules, kind, scope, c);
    }
    if c.kind == kind && ReportedIn(text, rules, [scope], c) {
      var x, y :| 0 <= x < |rules| && 0 <= y < |rules| && MustReport(text, rules, x, y, c) && rules[x].scope in [scope];
      ReportedIsInTable(text, rules, kind, scope, c, x, y);
    }
  }

  lemma TableIsReported(
      text: Condition -> string, rules: seq<StoredRule>, kind: RuleKind, scope: RuleScope, c: Conflict)
    requires var live := Snapshot(rules, kind, scope, Active); InTable(text, kind, live, |live|, c)
    ensures c.kind == kind && ReportedIn(text, rules, [scope], c)
  {
    hide Clash;
    var live, places := Snapshot(rules, kind, scope, Active), Places(rules, kind, scope);
    SnapshotPlaces(rules, kind, scope);
    hide Snapshot;
    hide Places;
    var i :| 0 <= i < |live| && InRow(text, kind, live, i, |live|, c);
    var j :| i < j < |live| && Records(text, kind, live, i, j, c);
    assert MustReport(text, rules, places[i], places[j], c);
  }

  lemma ReportedIsInTable(
      text: Condition -> string, rules: seq<StoredRule>, kind: RuleKind, scope: RuleScope, c: Conflict, x: nat,
      y: nat)
    requires x < |rules| && y < |rules| && MustReport(text, rules, x, y, c)
    requires c.kind == kind && rules[x].scope == scope
    ensures var live := Snapshot(rules, kind, scope, Active); InTable(text, kind, live, |live|, c)
  {
    hide Clash;
    var live, places := Snapshot(rules, kind, scope, Active), Places(rules, kind, scope);
    SnapshotPlaces(rules, kind, scope);
    hide Snapshot;
    var i :| 0 <= i < |places| && places[i] == x;
    var j :| 0 <= j < |places| && places[j] == y;
    hide Places;
    assert i < j;
    assert Records(text, kind, live, i, j, c);
    assert InRow(text, kind, live, i, |live|, c);
  }

  lemma ScopeIsDistinct(text: Condition -> string, rules: seq<StoredRule>, kind: RuleKind, scope: RuleScope)
    requires WellKept(rules)
    ensures var live := Snapshot(rules, kind, scope, Active); Distinct(Clashes(text, kind, live, |live|))
  {
    var live := Snapshot(rules, kind, scope, Active);
    SnapshotPlaces(rules, kind, scope);
    hide Clashes;
    hide Snapshot;
    TableDistinct(text, kind, live, |live|);
  }

  lemma OneMoreScope(
      text: Condition -> string, rules: seq<StoredRule>, kind: RuleKind, scopes: seq<RuleScope>, scope: RuleScope)
    ensures var live := Snapshot(rules, kind, scope, Active);
            ClashesInScopes(text, rules, kind, scopes + [scope]) ==
            ClashesInScopes(text, rules, kind, scopes) + Clashes(text, kind, live, |live|)
  {
    hide Clashes;
    hide Snapshot;
    assert (scopes + [scope])[..|scopes|] == scopes;
  }

  lemma {:induction false} ScopesAreExact(
      text: Condition -> string, rules: seq<StoredRule>, kind: RuleKind, scopes: seq<RuleScope>, c: Conflict)
    ensures c in ClashesInScopes(text, rules, kind, scopes) <==> c.kind == kind && ReportedIn(text, rules, scopes, c)
  {
    if scopes == [] {
      hide MustReport;
      assert ClashesInScopes(text, rules, kind, scopes) == [];
    } else {
      hide ReportedIn;
      hide Clashes;
      hide Snapshot;
      hide ClashesInScopes;
      var n := |scopes| - 1;
      var init, scope := scopes[..n], scopes[n];
      assert scopes == init + [scope];
      ScopesAreExact(text, rules, kind, init, c);
      ScopeIsExact(text, rules, kind, scope, c);
      ReportedInOneMore(text, rules, init, scope, c);
      OneMoreScope(text, rules, kind, init, scope);
    }
  }

  lemma ReportedInOneMore(
      text: Condition -> string, rules: seq<StoredRule>, scopes: seq<RuleScope>, scope: RuleScope, c: Conflict)
    ensures ReportedIn(text, rules, scopes + [scope], c) <==>
            ReportedIn(text, rules, scopes, c) || ReportedIn(text, rules, [scope], c)
  {
    hide MustReport;
  }

  /** One record, one scope. */
  lemma OneScopePerRecord(
      text: Condition -> string, rules: seq<StoredRule>, init: seq<RuleScope>, scope: RuleScope, c: Conflict)
    requires WellKept(rules) && scope !in init && ReportedIn(text, rules, init, c)
    ensures !ReportedIn(text, rules, [scope], c)
  {
    hide Clash;
    var x, y :| 0 <= x < |rules| && 0 <= y < |rules| && MustReport(text, rules, x, y, c) && rules[x].scope in init;
    forall u, v | 0 <= u < |rules| && 0 <= v < |rules| && MustReport(text, rules, u, v, c)
      ensures rules[u].scope !in [scope]
    {
      assert u == x;
    }
  }

  lemma ScopeApart(
      text: Condition -> string, rules: seq<StoredRule>, kind: RuleKind, init: seq<RuleScope>, scope: RuleScope)
    requires WellKept(rules) && scope !in init
    ensures var live := Snapshot(rules, kind, scope, Active);
            var before := ClashesInScopes(text, rules, kind, init);
            forall i :: 0 <= i < |before| ==> before[i] !in Clashes(text, kind, live, |live|)
  {
    hide ReportedIn;
    hide Clashes;
    hide Snapshot;
    hide ClashesInScopes;
    hide WellKept;
    var live := Snapshot(rules, kind, scope, Active);
    var before := ClashesInScopes(text, rules, kind, init);
    forall i | 0 <= i < |before|
      ensures before[i] !in Clashes(text, kind, live, |live|)
    {
      ScopesAreExact(text, rules, kind, init, before[i]);
      ScopeIsExact(text, rules, kind, scope, before[i]);
      OneScopePerRecord(text, rules, init, scope, before[i]);
    }
  }

  lemma {:induction false} ScopesAreDistinct(
      text: Condition -> string, rules: seq<StoredRule>, kind: RuleKind, scopes: seq<RuleScope>)
    requires WellKept(rules) && Distinct(scopes)
    ensures Distinct(ClashesInScopes(text, rules, kind, scopes))
  {
    hide Clashes;
    hide Snapshot;
    if scopes != [] {
      var n := |scopes| - 1;
      var init, scope := scopes[..n], scopes[n];
      var live := Snapshot(rules, kind, scope, Active);
      assert scope !in init && Distinct(init);
      hide WellKept;
      hide Distinct;
      ScopesAreDistinct(text, rules, kind, init);
      ScopeIsDistinct(text, rules, kind, scope);
      ScopeApart(text, rules, kind, init, scope);
      DistinctAppend(ClashesInScopes(text, rules, kind, init), Clashes(text, kind, live, |live|));
    }
  }

  lemma {:induction false} KindsAreExact(
      text: Condition -> string, rules: seq<StoredRule>, kinds: seq<RuleKind>, c: Conflict)
    ensures c in AllClashes(text, rules, kinds) <==> c.kind in kinds && ReportedIn(text, rules, ALL_SCOPES, c)
  {
    if kinds != [] {
      var n := |kinds| - 1;
      assert kinds == kinds[..n] + [kinds[n]];
      KindsAreExact(text, rules, kinds[..n], c);
      ScopesAreExact(text, rules, kinds[n], ALL_SCOPES, c);
      hide ReportedIn;
      hide ClashesInScopes;
    }
  }

  lemma KindApart(text: Condition -> string, rules: seq<StoredRule>, init: seq<RuleKind>, kind: RuleKind)
    requires kind !in init
    ensures var before := AllClashes(text, rules, init);
            forall i :: 0 <= i < |before| ==> before[i] !in ClashesInScopes(text, rules, kind, ALL_SCOPES)
  {
    hide ReportedIn;
    hide ClashesInScopes;
    hide AllClashes;
    var before := AllClashes(text, rules, init);
    forall i | 0 <= i < |before|
      ensures before[i] !in ClashesInScopes(text, rules, kind, ALL_SCOPES)
    {
      KindsAreExact(text, rules, init, before[i]);
      ScopesAreExact(text, rules, kind, ALL_SCOPES, before[i]);
    }
  }

  lemma {:induction false} KindsAreDistinct(text: Condition -> string, rules: seq<StoredRule>, kinds: seq<RuleKind>)
    requires WellKept(rules) && Distinct(kinds)
    ensures Distinct(AllClashes(text, rules, kinds))
  {
    hide ClashesInScopes;
    if kinds != [] {
      var n := |kinds| - 1;
      var init, kind := kinds[..n], kinds[n];
      assert kind !in init && Distinct(init);
      assert Distinct(ALL_SCOPES);
      hide WellKept;
      hide Distinct;
      KindsAreDistinct(text, rules, init);
      ScopesAreDistinct(text, rules, kind, ALL_SCOPES);
      KindApart(text, rules, init, kind);
      DistinctAppend(AllClashes(text, rules, init), ClashesInScopes(text, rules, kind, ALL_SCOPES));
    }
  }

  /** The scan finds each pair of live rules of one kind and scope that share a condition and
      contradict in effect, once each, and nothing else. Such a pair fires on the same messages. */
  lemma ScanIsExact(text: Condition -> string, rules: seq<StoredRule>, kinds: seq<RuleKind>)
    requires WellKept(rules) && Distinct(kinds)
    ensures Distinct(AllClashes(text, rules, kinds))
    ensures forall c: Conflict :: c in AllClashes(text, rules, kinds) <==>
              c.kind in kinds &&
              exists x, y | 0 <= x < |rules| && 0 <= y < |rules| :: MustReport(text, rules, x, y, c)
  {
    KindsAreDistinct(text, rules, kinds);
    forall c: Conflict
      ensures c in AllClashes(text, rules, kinds) <==>
              c.kind in kinds &&
              exists x, y | 0 <= x < |rules| && 0 <= y < |rules| :: MustReport(text, rules, x, y, c)
    {
      KindsAreExact(text, rules, kinds, c);
      AnyScope(text, rules, c);
    }
  }

  lemma AnyScope(text: Condition -> string, rules: seq<StoredRule>, c: Conflict)
    ensures ReportedIn(text, rules, ALL_SCOPES, c) <==>
            exists x, y | 0 <= x < |rules| && 0 <= y < |rules| :: MustReport(text, rules, x, y, c)
  {
    hide MustReport;
    forall scope: RuleScope
      ensures scope in ALL_SCOPES
    {
      match scope {
        case Global => assert ALL_SCOPES[0] == scope;
        case Account => assert ALL_SCOPES[1] == scope;
        case Folder => assert ALL_SCOPES[2] == scope;
        case Sender => assert ALL_SCOPES[3] == scope;
        case Domain => assert ALL_SCOPES[4] == scope;
      }
    }
  }

  /** A reported pair pulls the same messages two ways. */
  lemma ReportedPairsCollide(
      text: Condition -> string, m: Matchers, rules: seq<StoredRule>, x: nat, y: nat, c: Conflict, fields: Fields)
    requires x < |rules| && y < |rules| && MustReport(text, rules, x, y, c)
    ensures Fires(m, Live(rules[x]), fields) <==> Fires(m, Live(rules[y]), fields)
    ensures Contradicts(Live(rules[x]).effect, Live(rules[y]).effect)
  {
    EquivalentMeansTheSame(text, m, Live(rules[x]).condition, Live(rules[y]).condition, fields);
  }

  /** The scan judges a rule by its last version: two active rules of one kind and scope are reported
      exactly when their last versions have equivalent conditions and contradicting effects. */
  lemma ReportedByLastVersions(
      text: Condition -> string, rules: seq<StoredRule>, x: nat, y: nat, was: seq<Content>, a: Content,
      before: seq<Content>, b: Content)
    requires x < y < |rules| && rules[x].versions == was + [a] && rules[y].versions == before + [b]
    ensures MustReport(text, rules, x, y, Conflict(rules[x].kind, rules[x].id, rules[y].id)) <==>
      && rules[x].kind == rules[y].kind && rules[x].scope == rules[y].scope
      && rules[x].status == Active && rules[y].status == Active
      && ConditionsEquivalent(text, a.condition, b.condition)
      && ((a.effect.moveTo.Some? && b.effect.moveTo.Some? && a.effect.moveTo.value != b.effect.moveTo.value)
          || (a.effect.markJunk.Some? && b.effect.markJunk.Some? && a.effect.markJunk.value != b.effect.markJunk.value))
  {
  }
}
