/** A proposal pass: clustered feedback that clears the thresholds becomes saved, audited proposals. */
module LearningEngine {
  import opened Common
  import opened Rules
  import opened Evidence
  import opened Proposals
  import opened Stores
  import Shadow

  /** What a pass covers (one feedback source, or all) and its evidence bar. */
  datatype Trigger = Trigger(sourceKind: Option<SourceKind>, minFilingMoves: nat, minCorrections: nat)

  predicate Wants(filter: Option<SourceKind>, kind: SourceKind) {
    filter.None? || filter == Some(kind)
  }

  // ---- which clusters qualify -------------------------------------------------------------

  /** The clusters with at least `min` rows, in key order. */
  function Qualifying<T>(groups: seq<Group<T>>, min: nat): seq<Group<T>> {
    if groups == [] then []
    else
      var last := groups[|groups| - 1];
      Qualifying(groups[..|groups| - 1], min) + if |last.rows| >= min then [last] else []
  }

  lemma {:induction false} QualifyingMembers<T>(groups: seq<Group<T>>, min: nat, group: Group<T>)
    ensures group in Qualifying(groups, min) <==> group in groups && |group.rows| >= min
  {
    if groups != [] {
      assert groups == groups[..|groups| - 1] + [groups[|groups| - 1]];
      QualifyingMembers(groups[..|groups| - 1], min, group);
    }
  }

  lemma {:induction false} QualifyingAscend<T>(groups: seq<Group<T>>, min: nat)
    requires Ascending(groups)
    ensures Ascending(Qualifying(groups, min))
  {
    if groups != [] {
      var n := |groups| - 1;
      QualifyingAscend(groups[..n], min);
      var before := Qualifying(groups[..n], min);
      forall i | 0 <= i < |before|
        ensures KeyLess(before[i].key, groups[n].key)
      {
        QualifyingMembers(groups[..n], min, before[i]);
        var j :| 0 <= j < n && groups[..n][j] == before[i];
        assert groups[j] == before[i];
      }
    }
  }

  /** One qualifying cluster per key with at least `min` rows and at least one, in strictly ascending
      key order, holding exactly the rows of its key in the order they came. */
  lemma QualifyingIsExact<T>(keyOf: T -> Option<Key>, rows: seq<T>, min: nat, key: Key)
    ensures var q := Qualifying(Cluster(keyOf, rows), min);
            && Ascending(q)
            && (HasGroup(q, key) <==> |Having(keyOf, rows, key)| >= min && Having(keyOf, rows, key) != [])
            && forall k :: 0 <= k < |q| ==> q[k].rows == Having(keyOf, rows, q[k].key)
  {
    var groups := Cluster(keyOf, rows);
    var q := Qualifying(groups, min);
    ClustersAreExact(keyOf, rows);
    QualifyingAscend(groups, min);
    forall k | 0 <= k < |q|
      ensures q[k].rows == Having(keyOf, rows, q[k].key) && q[k].rows != [] && |q[k].rows| >= min
    {
      QualifyingMembers(groups, min, q[k]);
      assert q[k] in groups;
    }
    KeysOfClustering(keyOf, rows, groups, key);
    if HasGroup(groups, key) && |Having(keyOf, rows, key)| >= min {
      var i :| 0 <= i < |groups| && groups[i].key == key;
      QualifyingMembers(groups, min, groups[i]);
      assert groups[i] in q;
    }
  }

  // ---- candidates -------------------------------------------------------------------------

  /** Where ids of new proposals come from, and the label the engine signs with. */
  datatype Setting = Setting(newId: nat -> string, source: string)

  function FilingCandidates(c: Setting, groups: seq<Group<FilingRow>>, start: nat): (r: seq<Candidate>)
    ensures |r| == |groups|
    ensures forall k :: 0 <= k < |r| ==> r[k] == FilingProposal(groups[k], c.newId(start + k), c.source)
  {
    seq(|groups|, k requires 0 <= k < |groups| => FilingProposal(groups[k], c.newId(start + k), c.source))
  }

  function ClassificationCandidates(c: Setting, groups: seq<Group<ClassificationRow>>, start: nat): (r: seq<Candidate>)
    ensures |r| == |groups|
    ensures forall k :: 0 <= k < |r| ==> r[k] == ClassificationProposal(groups[k], c.newId(start + k), c.source)
  {
    seq(|groups|, k requires 0 <= k < |groups| => ClassificationProposal(groups[k], c.newId(start + k), c.source))
  }

  /** Each candidate is saved with its evidence in one call, and its emission audited. */
  function PersistOps(candidates: seq<Candidate>): seq<Op> {
    if candidates == [] then []
    else PersistOps(candidates[..|candidates| - 1]) + OpsOf(candidates[|candidates| - 1])
  }

  function OpsOf(candidate: Candidate): seq<Op> {
    [SaveProposal(candidate.proposal, candidate.evidence),
     AppendAudit(AuditEntry(RuleProposed, Some(candidate.proposal.id), None))]
  }

  lemma OneMorePersisted(candidates: seq<Candidate>, candidate: Candidate)
    ensures PersistOps(candidates + [candidate]) == PersistOps(candidates) + OpsOf(candidate)
  {
    assert (candidates + [candidate])[..|candidates|] == candidates;
  }

  lemma {:induction false} PersistGrows(candidates: seq<Candidate>, k: nat)
    requires k <= |candidates|
    ensures PersistOps(candidates[..k]) <= PersistOps(candidates)
    decreases |candidates|
  {
    if k == |candidates| {
      assert candidates[..k] == candidates;
    } else {
      var init := candidates[..|candidates| - 1];
      PersistGrows(init, k);
      assert init[..k] == candidates[..k];
    }
  }

  function Proposed(candidates: seq<Candidate>): (r: seq<Proposal>)
    ensures |r| == |candidates| && forall k :: 0 <= k < |r| ==> r[k] == candidates[k].proposal
  {
    seq(|candidates|, k requires 0 <= k < |candidates| => candidates[k].proposal)
  }

  /** The filing candidates of a pass. */
  function FilingPass(c: Setting, trigger: Trigger, filing: seq<FilingRow>): seq<Candidate> {
    if Wants(trigger.sourceKind, FilingSource)
    then FilingCandidates(c, Qualifying(Cluster(FilingKey, filing), trigger.minFilingMoves), 0)
    else []
  }

  function ClassificationPass(
      c: Setting, trigger: Trigger, judgements: seq<ClassificationRow>, start: nat): seq<Candidate>
  {
    if Wants(trigger.sourceKind, ClassificationSource)
    then ClassificationCandidates(c, Qualifying(Cluster(ClassificationKey, judgements), trigger.minCorrections), start)
    else []
  }

  /** Everything a pass proposes: filing rules, then classification rules. */
  function Candidates(
      c: Setting, trigger: Trigger, filing: seq<FilingRow>, judgements: seq<ClassificationRow>): seq<Candidate>
  {
    var first := FilingPass(c, trigger, filing);
    first + ClassificationPass(c, trigger, judgements, |first|)
  }

  method PersistProposal(store: Store, candidate: Candidate) returns (ok: bool)
    modifies store
    ensures Performed(store.db, ok) == Perform(old(store.db), old(store.budget), OpsOf(candidate))
    ensures ok ==> store.budget + 2 == old(store.budget)
  {
    ok := DoBoth(store, SaveProposal(candidate.proposal, candidate.evidence),
      AppendAudit(AuditEntry(RuleProposed, Some(candidate.proposal.id), None)));
  }

  lemma NothingPersisted(db: Db, budget: nat)
    ensures PersistOps([]) == [] && Perform(db, budget, []) == Performed(db, true)
  {
  }

  /** One more candidate of a list, saved or not. */
  lemma NextCandidate(start: Db, budget: nat, all: seq<Candidate>, k: nat, db: Db, left: nat)
    requires k < |all|
    requires Perform(start, budget, PersistOps(all[..k])) == Performed(db, true)
    requires left + |PersistOps(all[..k])| == budget
    ensures Perform(start, budget, PersistOps(all[..k + 1])) == Perform(db, left, OpsOf(all[k]))
    ensures |PersistOps(all[..k + 1])| == |PersistOps(all[..k])| + 2
    ensures !Perform(db, left, OpsOf(all[k])).ok ==>
      Perform(start, budget, PersistOps(all)) == Perform(db, left, OpsOf(all[k]))
  {
    hide Perform;
    hide PersistOps;
    assert all[..k + 1] == all[..k] + [all[k]];
    OneMorePersisted(all[..k], all[k]);
    GoesOn(start, budget, PersistOps(all[..k]), db, left, OpsOf(all[k]));
    PersistGrows(all, k + 1);
    if !Perform(db, left, OpsOf(all[k])).ok {
      StopsThere(start, budget, PersistOps(all[..k + 1]), PersistOps(all));
    }
  }

  lemma NoneQualifies<T>(groups: seq<Group<T>>, min: nat)
    ensures Qualifying(groups[..0], min) == []
  {
  }

  /** One more cluster: it is the next of those that qualify, or it is skipped. */
  lemma NextQualifying<T>(groups: seq<Group<T>>, min: nat, k: nat)
    requires k < |groups|
    ensures var n := |Qualifying(groups[..k], min)|;
            if |groups[k].rows| >= min
            then |Qualifying(groups[..k + 1], min)| == n + 1 <= |Qualifying(groups, min)|
                 && Qualifying(groups, min)[n] == groups[k]
            else |Qualifying(groups[..k + 1], min)| == n
  {
    QualifyingGrows(groups, min, k + 1);
    assert groups[..k + 1][..k] == groups[..k];
  }

  /** The filing half of a pass: clusters, thresholds, and one saved proposal after the other. */
  method ProposeFiling(store: Store, c: Setting, rows: seq<FilingRow>, min: nat)
    returns (ok: bool, out: seq<Proposal>)
    modifies store
    ensures var all := FilingCandidates(c, Qualifying(Cluster(FilingKey, rows), min), 0);
            && Performed(store.db, ok) == Perform(old(store.db), old(store.budget), PersistOps(all))
            && (ok ==> out == Proposed(all) && store.budget + |PersistOps(all)| == old(store.budget))
  {
    hide Perform;
    hide PersistOps;
    hide FilingProposal;
    hide Qualifying;
    hide Cluster;
    var groups := ClusterFiling(rows);
    ghost var all := FilingCandidates(c, Qualifying(groups, min), 0);
    out := [];
    NothingPersisted(store.db, store.budget);
    NoneQualifies(groups, min);
    for k := 0 to |groups|
      invariant |out| == |Qualifying(groups[..k], min)| <= |all|
      invariant out == Proposed(all)[..|out|]
      invariant Perform(old(store.db), old(store.budget), PersistOps(all[..|out|])) == Performed(store.db, true)
      invariant store.budget + |PersistOps(all[..|out|])| == old(store.budget)
    {
      assert groups[..k + 1][..k] == groups[..k];
      NextQualifying(groups, min, k);
      if |groups[k].rows| >= min {
        var candidate := FilingProposal(groups[k], c.newId(|out|), c.source);
        assert all[|out|] == candidate;
        NextCandidate(old(store.db), old(store.budget), all, |out|, store.db, store.budget);
        ok := PersistProposal(store, candidate);
        if !ok {
          return;
        }
        out := out + [candidate.proposal];
      }
    }
    assert groups[..|groups|] == groups && all[..|all|] == all && Proposed(all)[..|all|] == Proposed(all);
    ok := true;
  }

  lemma {:induction false} QualifyingGrows<T>(groups: seq<Group<T>>, min: nat, k: nat)
    requires k <= |groups|
    ensures Qualifying(groups[..k], min) <= Qualifying(groups, min)
    decreases |groups|
  {
    if k == |groups| {
      assert groups[..k] == groups;
    } else {
      var init := groups[..|groups| - 1];
      QualifyingGrows(init, min, k);
      assert init[..k] == groups[..k];
    }
  }

  /** The classification half, over corrections only. */
  method ProposeClassification(store: Store, c: Setting, rows: seq<ClassificationRow>, min: nat, start: nat)
    returns (ok: bool, out: seq<Proposal>)
    modifies store
    ensures var all := ClassificationCandidates(c, Qualifying(Cluster(ClassificationKey, rows), min), start);
            && Performed(store.db, ok) == Perform(old(store.db), old(store.budget), PersistOps(all))
            && (ok ==> out == Proposed(all) && store.budget + |PersistOps(all)| == old(store.budget))
  {
    hide Perform;
    hide PersistOps;
    hide ClassificationProposal;
    hide Qualifying;
    hide Cluster;
    var groups := ClusterClassification(rows);
    ghost var all := ClassificationCandidates(c, Qualifying(groups, min), start);
    out := [];
    NothingPersisted(store.db, store.budget);
    NoneQualifies(groups, min);
    for k := 0 to |groups|
      invariant |out| == |Qualifying(groups[..k], min)| <= |all|
      invariant out == Proposed(all)[..|out|]
      invariant Perform(old(store.db), old(store.budget), PersistOps(all[..|out|])) == Performed(store.db, true)
      invariant store.budget + |PersistOps(all[..|out|])| == old(store.budget)
    {
      assert groups[..k + 1][..k] == groups[..k];
      NextQualifying(groups, min, k);
      if |groups[k].rows| >= min {
        var candidate := ClassificationProposal(groups[k], c.newId(start + |out|), c.source);
        assert all[|out|] == candidate;
        NextCandidate(old(store.db), old(store.budget), all, |out|, store.db, store.budget);
        ok := PersistProposal(store, candidate);
        if !ok {
          return;
        }
        out := out + [candidate.proposal];
      }
    }
    assert groups[..|groups|] == groups && all[..|all|] == all && Proposed(all)[..|all|] == Proposed(all);
    ok := true;
  }

  /** All the calls of a pass. */
  function PassOps(c: Setting, trigger: Trigger, filing: seq<FilingRow>, judgements: seq<ClassificationRow>): seq<Op> {
    var first := FilingPass(c, trigger, filing);
    (if Wants(trigger.sourceKind, FilingSource) then [Read] + PersistOps(first) else [])
    + if Wants(trigger.sourceKind, ClassificationSource)
      then [Read] + PersistOps(ClassificationPass(c, trigger, judgements, |first|)) else []
  }

  method ProposeCandidates(
      store: Store, c: Setting, trigger: Trigger, filing: seq<FilingRow>, judgements: seq<ClassificationRow>)
    returns (r: Option<seq<Proposal>>)
    modifies store
    ensures Performed(store.db, r.Some?) ==
            Perform(old(store.db), old(store.budget), PassOps(c, trigger, filing, judgements))
    ensures r.Some? ==> r.value == Proposed(Candidates(c, trigger, filing, judgements))
  {
    hide Perform;
    hide PersistOps;
    hide Cluster;
    hide Qualifying;
    ghost var db0, b0 := store.db, store.budget;
    var proposals := [];
    var ok;
    ghost var first := FilingPass(c, trigger, filing);
    ghost var firstOps := if Wants(trigger.sourceKind, FilingSource) then [Read] + PersistOps(first) else [];
    NothingPersisted(db0, b0);
    if Wants(trigger.sourceKind, FilingSource) {
      PerformFirst(store.db, store.budget, Read, PersistOps(first));
      ok := store.Do(Read);
      if !ok {
        StopsThere(db0, b0, firstOps, PassOps(c, trigger, filing, judgements));
        return None;
      }
      ok, proposals := ProposeFiling(store, c, filing, trigger.minFilingMoves);
      if !ok {
        StopsThere(db0, b0, firstOps, PassOps(c, trigger, filing, judgements));
        return None;
      }
    }
    assert proposals == Proposed(first);
    if Wants(trigger.sourceKind, ClassificationSource) {
      ghost var second := ClassificationPass(c, trigger, judgements, |first|);
      GoesOn(db0, b0, firstOps, store.db, store.budget, [Read] + PersistOps(second));
      PerformFirst(store.db, store.budget, Read, PersistOps(second));
      ok := store.Do(Read);
      if !ok {
        return None;
      }
      var more;
      ok, more := ProposeClassification(store, c, judgements, trigger.minCorrections, |proposals|);
      if !ok {
        return None;
      }
      assert Proposed(first + second) == Proposed(first) + Proposed(second);
      proposals := proposals + more;
    } else {
      assert firstOps + [] == firstOps && first + [] == first;
    }
    return Some(proposals);
  }

  // ---- what a pass proposes ---------------------------------------------------------------

  /** A pass proposes one filing rule for every (domain, folder) with at least the threshold of rows,
      and at least one; in strictly ascending order, so none twice; each drafts the move of exactly
      that domain to that folder and cites exactly the rows of the pair, in order. */
  lemma FilingPassIsExact(c: Setting, trigger: Trigger, filing: seq<FilingRow>, key: Key)
    requires trigger.sourceKind == None || trigger.sourceKind == Some(FilingSource)
    ensures var q := Qualifying(Cluster(FilingKey, filing), trigger.minFilingMoves);
            var pass := FilingPass(c, trigger, filing);
            && |pass| == |q| && Ascending(q)
            && (HasGroup(q, key) <==>
                  |Having(FilingKey, filing, key)| >= trigger.minFilingMoves && Having(FilingKey, filing, key) != [])
            && forall k :: 0 <= k < |pass| ==>
                 && CitesExactly(pass[k], q[k].key, Having(FilingKey, filing, q[k].key))
                 && pass[k].proposal.id == c.newId(k) && pass[k].proposal.source == c.source
  {
    QualifyingIsExact(FilingKey, filing, trigger.minFilingMoves, key);
    hide Qualifying;
    hide Cluster;
  }

  /** The candidate moves the domain's mail to the folder, in shadow mode at low risk, on the evidence
      of these rows. */
  ghost predicate CitesExactly(candidate: Candidate, key: Key, rows: seq<FilingRow>) {
    var p := candidate.proposal;
    && p.kind == NewRule && p.status == PendingReview && p.risk == Low && p.recommended == ShadowMode
    && p.ruleDraft == Some(RuleDraft(Action, Domain, Leaf(Predicate("sender_domain", Eq, Text(key.domain))),
                                     RuleEffect([], Some(key.value), None, [], [], None)))
    && p.title == "File " + key.domain + " mail to " + key.value
    && p.rationale == "You moved " + Decimal(|rows|) + " messages from " + key.domain + " to " + key.value + "."
    && |p.evidenceRefs| == |candidate.evidence| == |rows|
    && forall k :: 0 <= k < |rows| ==>
         p.evidenceRefs[k] == EvidenceRef(FilingSource, rows[k].id)
         && candidate.evidence[k].sourceId == rows[k].id && candidate.evidence[k].messageId == rows[k].messageId
         && candidate.evidence[k].proposalId == p.id && candidate.evidence[k].ruleKind == p.ruleDraft.value.kind
  }

  /** Likewise one classification rule per (domain, label), counting corrections only. */
  lemma ClassificationPassIsExact(
      c: Setting, trigger: Trigger, judgements: seq<ClassificationRow>, start: nat, key: Key)
    requires trigger.sourceKind == None || trigger.sourceKind == Some(ClassificationSource)
    ensures var q := Qualifying(Cluster(ClassificationKey, judgements), trigger.minCorrections);
            var pass := ClassificationPass(c, trigger, judgements, start);
            && |pass| == |q| && Ascending(q)
            && (HasGroup(q, key) <==>
                  |Having(ClassificationKey, judgements, key)| >= trigger.minCorrections
                  && Having(ClassificationKey, judgements, key) != [])
            && (forall row :: row in Having(ClassificationKey, judgements, key) ==> row.polarity.Negative?)
            && forall k :: 0 <= k < |pass| ==>
                 && LabelsExactly(pass[k], q[k].key, Having(ClassificationKey, judgements, q[k].key))
                 && pass[k].proposal.id == c.newId(start + k) && pass[k].proposal.source == c.source
  {
    QualifyingIsExact(ClassificationKey, judgements, trigger.minCorrections, key);
    hide Qualifying;
    hide Cluster;
  }

  ghost predicate LabelsExactly(candidate: Candidate, key: Key, rows: seq<ClassificationRow>) {
    var p := candidate.proposal;
    && p.kind == NewRule && p.status == PendingReview && p.risk == Medium && p.recommended == ShadowMode
    && p.ruleDraft == Some(RuleDraft(RuleKind.Classification, Domain,
                                     Leaf(Predicate("sender_domain", Eq, Text(key.domain))),
                                     RuleEffect([], None, None, [], [key.value], None)))
    && p.title == "Label " + key.domain + " mail as " + key.value
    && p.rationale == "You corrected " + Decimal(|rows|) + " messages from " + key.domain + " to " + key.value + "."
    && |p.evidenceRefs| == |candidate.evidence| == |rows|
    && forall k :: 0 <= k < |rows| ==>
         p.evidenceRefs[k] == EvidenceRef(ClassificationSource, rows[k].id)
         && candidate.evidence[k].sourceId == rows[k].id && candidate.evidence[k].messageId == rows[k].messageId
         && candidate.evidence[k].proposalId == p.id && candidate.evidence[k].ruleKind == p.ruleDraft.value.kind
  }

  /** What a pass does: for each source it covers, the filings first, it reads the feedback and then saves
      and audits each candidate, in order; the ids of the second half follow those of the first. */
  lemma WhatAPassDoes(c: Setting, trigger: Trigger, filing: seq<FilingRow>, judgements: seq<ClassificationRow>)
    ensures var first := FilingPass(c, trigger, filing);
            var second := ClassificationPass(c, trigger, judgements, |first|);
            && Candidates(c, trigger, filing, judgements) == first + second
            && PassOps(c, trigger, filing, judgements)
               == (match trigger.sourceKind
                   case None => [Read] + PersistOps(first) + ([Read] + PersistOps(second))
                   case Some(FilingSource) => [Read] + PersistOps(first)
                   case Some(ClassificationSource) => [Read] + PersistOps(second)
                   case Some(FollowUpSource) => [])
            && (trigger.sourceKind.Some? && trigger.sourceKind != Some(FilingSource) ==> first == [])
            && (trigger.sourceKind.Some? && trigger.sourceKind != Some(ClassificationSource) ==> second == [])
  {
    hide FilingCandidates;
    hide ClassificationCandidates;
    hide Cluster;
    hide Qualifying;
    hide PersistOps;
  }

  /** Saving a candidate takes two calls: the proposal with its evidence, and the audit entry. */
  lemma {:induction false} CandidatesAreSavedInOrder(candidates: seq<Candidate>)
    ensures |PersistOps(candidates)| == 2 * |candidates|
    ensures forall k :: 0 <= k < |candidates| ==>
              && PersistOps(candidates)[2 * k] == SaveProposal(candidates[k].proposal, candidates[k].evidence)
              && PersistOps(candidates)[2 * k + 1]
                 == AppendAudit(AuditEntry(RuleProposed, Some(candidates[k].proposal.id), None))
  {
    if candidates != [] {
      CandidatesAreSavedInOrder(candidates[..|candidates| - 1]);
    }
  }

  // ---- evidence on demand -----------------------------------------------------------------

  datatype EvidenceQuery = EvidenceQuery(sourceKind: Option<SourceKind>, messageId: Option<string>, limit: Option<nat>)

  /** An accepted prediction reinforces; a correction overrides. */
  datatype EvidenceKind = Reinforces | Overrides

  /** A feedback row as an item of evidence. */
  datatype Evidential = Evidential(
    source: SourceKind, sourceId: string, messageId: string, kind: EvidenceKind, summary: string)

  function KindOf(polarity: Polarity): EvidenceKind {
    if polarity.Positive? then Reinforces else Overrides
  }

  function FromFiling(row: FilingRow): Evidential {
    Evidential(FilingSource, row.id, row.messageId, KindOf(row.polarity), "filed to " + row.chosenFolder)
  }

  function FromClassification(row: ClassificationRow): Evidential {
    Evidential(ClassificationSource, row.id, row.messageId, KindOf(row.polarity), "labeled " + row.humanLabel)
  }

  function EachFiling(rows: seq<FilingRow>): (r: seq<Evidential>)
    ensures |r| == |rows| && forall k :: 0 <= k < |rows| ==> r[k] == FromFiling(rows[k])
  {
    seq(|rows|, k requires 0 <= k < |rows| => FromFiling(rows[k]))
  }

  function EachClassification(rows: seq<ClassificationRow>): (r: seq<Evidential>)
    ensures |r| == |rows| && forall k :: 0 <= k < |rows| ==> r[k] == FromClassification(rows[k])
  {
    seq(|rows|, k requires 0 <= k < |rows| => FromClassification(rows[k]))
  }

  /** The rows about one message, or all of them, in the store's order. */
  function Matching<T>(messageOf: T -> string, rows: seq<T>, messageId: Option<string>): seq<T> {
    if rows == [] then []
    else
      var last := rows[|rows| - 1];
      Matching(messageOf, rows[..|rows| - 1], messageId)
      + if messageId.None? || messageId == Some(messageOf(last)) then [last] else []
  }

  function FirstOf<T>(rows: seq<T>, limit: Option<nat>): seq<T> {
    if limit.None? || |rows| <= limit.value then rows else rows[..limit.value]
  }

  function FilingMessage(row: FilingRow): string {
    row.messageId
  }

  function ClassificationMessage(row: ClassificationRow): string {
    row.messageId
  }

  /** Everything a query asks for, limit aside: judgements first, then filings. */
  function Everything(
      query: EvidenceQuery, filing: seq<FilingRow>, judgements: seq<ClassificationRow>): seq<Evidential>
  {
    (if Wants(query.sourceKind, ClassificationSource)
     then EachClassification(Matching(ClassificationMessage, judgements, query.messageId)) else [])
    + if Wants(query.sourceKind, FilingSource)
      then EachFiling(Matching(FilingMessage, filing, query.messageId)) else []
  }

  /** A limit put on each part and again on the whole is a limit on the whole. */
  lemma LimitPushedDown<T>(a: seq<T>, b: seq<T>, limit: Option<nat>)
    ensures FirstOf(FirstOf(a, limit) + FirstOf(b, limit), limit) == FirstOf(a + b, limit)
  {
  }

  lemma NothingToTake(limit: Option<nat>)
    ensures FirstOf<Evidential>([], limit) == []
  {
  }

  lemma FirstOfEach(filing: seq<FilingRow>, judgements: seq<ClassificationRow>, limit: Option<nat>)
    ensures EachFiling(FirstOf(filing, limit)) == FirstOf(EachFiling(filing), limit)
    ensures EachClassification(FirstOf(judgements, limit)) == FirstOf(EachClassification(judgements), limit)
  {
  }

  /** Gathers the evidence of the wanted sources, each table read under the limit; the result is the
      first so many items of everything there is. */
  method CollectEvidence(store: Store, query: EvidenceQuery, filing: seq<FilingRow>, judgements: seq<ClassificationRow>)
    returns (r: Option<seq<Evidential>>)
    modifies store
    ensures store.db == old(store.db)
    ensures r.Some? ==> r.value == FirstOf(Everything(query, filing, judgements), query.limit)
    ensures r.Some? <==> old(store.budget) >= (if query.sourceKind.None? then 2
                                               else if query.sourceKind.value.FollowUpSource? then 0 else 1)
  {
    hide Matching;
    hide FirstOf;
    hide EachFiling;
    hide EachClassification;
    var out := [];
    var theirs := Matching(ClassificationMessage, judgements, query.messageId);
    var ours := Matching(FilingMessage, filing, query.messageId);
    FirstOfEach(ours, theirs, query.limit);
    ghost var first, second := [], [];
    NothingToTake(query.limit);
    if Wants(query.sourceKind, ClassificationSource) {
      var ok := store.Do(Read);
      if !ok {
        return None;
      }
      first := EachClassification(theirs);
      out := out + EachClassification(FirstOf(theirs, query.limit));
    }
    if Wants(query.sourceKind, FilingSource) {
      var ok := store.Do(Read);
      if !ok {
        return None;
      }
      second := EachFiling(ours);
      out := out + EachFiling(FirstOf(ours, query.limit));
    }
    assert out == FirstOf(first, query.limit) + FirstOf(second, query.limit);
    assert first + second == Everything(query, filing, judgements);
    LimitPushedDown(first, second, query.limit);
    return Some(FirstOf(out, query.limit));
  }

  /** The rows about the message asked for, if one is. */
  lemma {:induction false} MatchingAre<T>(messageOf: T -> string, rows: seq<T>, messageId: Option<string>, row: T)
    ensures row in Matching(messageOf, rows, messageId) <==>
            row in rows && (messageId.Some? ==> messageOf(row) == messageId.value)
  {
    if rows != [] {
      MatchingAre(messageOf, rows[..|rows| - 1], messageId, row);
      assert rows == rows[..|rows| - 1] + [rows[|rows| - 1]];
    }
  }

  /** What there is to collect: of the sources asked for, the judgements and filings about the message
      asked for; what the user confirmed reinforces, what they changed overrides. */
  lemma WhatIsCollected(
      query: EvidenceQuery, filing: seq<FilingRow>, judgements: seq<ClassificationRow>, item: Evidential)
    ensures item in Everything(query, filing, judgements) <==>
      || ((query.sourceKind == None || query.sourceKind == Some(ClassificationSource))
          && exists row :: row in judgements && (query.messageId.Some? ==> row.messageId == query.messageId.value)
               && item == Evidential(ClassificationSource, row.id, row.messageId,
                                     if row.polarity.Positive? then Reinforces else Overrides,
                                     "labeled " + row.humanLabel))
      || ((query.sourceKind == None || query.sourceKind == Some(FilingSource))
          && exists row :: row in filing && (query.messageId.Some? ==> row.messageId == query.messageId.value)
               && item == Evidential(FilingSource, row.id, row.messageId,
                                     if row.polarity.Positive? then Reinforces else Overrides,
                                     "filed to " + row.chosenFolder))
  {
    var theirs := Matching(ClassificationMessage, judgements, query.messageId);
    var ours := Matching(FilingMessage, filing, query.messageId);
    forall row: ClassificationRow
      ensures row in theirs <==>
              row in judgements && (query.messageId.Some? ==> row.messageId == query.messageId.value)
    {
      MatchingAre(ClassificationMessage, judgements, query.messageId, row);
    }
    forall row: FilingRow
      ensures row in ours <==> row in filing && (query.messageId.Some? ==> row.messageId == query.messageId.value)
    {
      MatchingAre(FilingMessage, filing, query.messageId, row);
    }
    ItemsOfEach(ours, theirs, item);
    hide Matching;
    hide EachFiling;
    hide EachClassification;
  }

  lemma ItemsOfEach(ours: seq<FilingRow>, theirs: seq<ClassificationRow>, item: Evidential)
    ensures item in EachFiling(ours) <==> exists row :: row in ours && item == FromFiling(row)
    ensures item in EachClassification(theirs) <==> exists row :: row in theirs && item == FromClassification(row)
  {
    if row :| row in ours && item == FromFiling(row) {
      var k :| 0 <= k < |ours| && ours[k] == row;
      assert EachFiling(ours)[k] == item;
    }
    if row :| row in theirs && item == FromClassification(row) {
      var k :| 0 <= k < |theirs| && theirs[k] == row;
      assert EachClassification(theirs)[k] == item;
    }
  }

  /** A limit keeps the first so many. */
  lemma LimitKeepsTheFirst<T>(rows: seq<T>, limit: Option<nat>)
    ensures FirstOf(rows, limit) <= rows
    ensures |FirstOf(rows, limit)| == if limit.Some? && limit.value < |rows| then limit.value else |rows|
  {
  }
}
