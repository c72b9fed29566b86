/** Whole runs of the learning loop: proposal passes, curation passes, conflict scans, workflow
    proposals, reviews, and statuses set by hand, one after another, any of their store calls
    failing. */
module LearningRuns {
  import opened Common
  import opened Rules
  import opened Proposals
  import opened Stores
  import opened Review
  import opened ConflictScan
  import opened ReviewEffects
  import Evidence
  import LearningEngine
  import Curator

  datatype Step =
    | Propose(setting: LearningEngine.Setting, trigger: LearningEngine.Trigger,
              filing: seq<Evidence.FilingRow>, judgements: seq<Evidence.ClassificationRow>, budget: nat)
    | Curate(curator: Curator.Setting, request: Curator.Request,
             response: Option<seq<Curator.ProposalDto>>, budget: nat)
    | Scan(text: Condition -> string, kinds: seq<RuleKind>)
    | SuggestWorkflow(proposal: Proposal, budget: nat)
    | Decide(id: string, outcome: ReviewedAs, newId: string, budget: nat)
    | SetRule(kind: RuleKind, id: string, status: RuleStatus)
    | SetWorkflow(id: string, status: RuleStatus)

  /** What a step may do: exactly what its procedure does under the given budget of calls; a scan
      records all its clashes or, failing, a first part of them. The status of a rule or a workflow
      may be set by hand, to active as well. */
  ghost predicate StepTo(db: Db, step: Step, after: Db) {
    match step
    case Propose(c, trigger, filing, judgements, budget) =>
      after == Perform(db, budget, LearningEngine.PassOps(c, trigger, filing, judgements)).db
    case Curate(c, request, response, budget) =>
      exists r :: Curator.CuratesTo(db, budget, c, request, response, r, after)
    case Scan(text, kinds) =>
      var all := AllClashes(text, db.rules, kinds);
      after == Recorded(db, all) || PartlyRecorded(db, after, all)
    case SuggestWorkflow(p, budget) => IsWorkflowProposal(p) && after == Perform(db, budget, [SaveProposal(p, [])]).db
    case Decide(id, outcome, newId, budget) => after == ReviewOf(db, budget, id, outcome, newId).db
    case SetRule(kind, id, status) => after == Apply(db, UpdateRuleStatus(kind, id, status))
    case SetWorkflow(id, status) => after == Apply(db, UpdateWorkflowStatus(id, status))
  }

  /** The step is a human's hand on a status. */
  predicate ByHand(step: Step) {
    step.SetRule? || step.SetWorkflow?
  }

  /** A proposal as the workflow builder makes it. */
  ghost predicate IsWorkflowProposal(p: Proposal) {
    exists draft: WorkflowDraft, rows: seq<string> ::
      p == WorkflowProposal(draft, p.title, p.rationale, rows, p.id, p.source)
  }

  /** The databases a run goes through, starting empty. */
  ghost predicate Run(steps: seq<Step>, states: seq<Db>) {
    && |states| == |steps| + 1 && states[0] == EMPTY
    && forall k :: 0 <= k < |steps| ==> StepTo(states[k], steps[k], states[k + 1])
  }

  // ---- what holds after every step --------------------------------------------------------

  ghost predicate NeverRecommendsActive(db: Db) {
    forall id :: id in db.proposals ==> db.proposals[id].id == id && db.proposals[id].recommended != Active
  }

  function FeedbackCount(rows: seq<FeedbackRow>, id: string): nat {
    if rows == [] then 0
    else FeedbackCount(rows[..|rows| - 1], id) + if rows[|rows| - 1].proposalId == id then 1 else 0
  }

  function ReviewedCount(audit: seq<AuditEntry>, id: string): nat {
    if audit == [] then 0
    else
      var last := audit[|audit| - 1];
      ReviewedCount(audit[..|audit| - 1], id)
      + if last.event.ProposalReviewed? && last.proposalId == Some(id) then 1 else 0
  }

  /** At most one feedback row per proposal, and only for a proposal whose status is the terminal one
      the row's outcome calls for; and never more reviewed-audits than feedback rows. */
  ghost predicate FeedbackMatches(db: Db) {
    && (forall id: string :: FeedbackCount(db.feedback, id) <= 1)
    && (forall id: string :: ReviewedCount(db.audit, id) <= FeedbackCount(db.feedback, id))
    && forall k :: 0 <= k < |db.feedback| ==> RowMatches(db, db.feedback[k])
  }

  predicate RowMatches(db: Db, row: FeedbackRow) {
    row.proposalId in db.proposals && db.proposals[row.proposalId].status == NewStatus(row.outcome)
  }

  /** The rule comes from an accepted-or-interrupted acceptance of this proposal. */
  predicate CuratedFor(db: Db, rule: StoredRule, id: string) {
    && rule.stableName == CuratedName(id) && id in db.proposals
    && db.proposals[id].kind == NewRule && db.proposals[id].ruleDraft.Some?
    && db.proposals[id].ruleDraft.value.kind == rule.kind
  }

  ghost predicate HasOrigin(db: Db, rule: StoredRule) {
    exists id :: id in db.proposals && CuratedFor(db, rule, id)
  }

  ghost predicate Materialized(db: Db, id: string) {
    exists x | 0 <= x < |db.rules| :: CuratedFor(db, db.rules[x], id)
  }

  /** Every rule was made for a proposal, names are unique within a kind, and an accepted new-rule
      proposal has its rule. */
  ghost predicate RulesMatch(db: Db) {
    && (forall x :: 0 <= x < |db.rules| ==> HasOrigin(db, db.rules[x]))
    && (forall x, y :: 0 <= x < y < |db.rules| ==>
          !(db.rules[x].kind == db.rules[y].kind && db.rules[x].stableName == db.rules[y].stableName))
    && forall id :: id in db.proposals && db.proposals[id].kind == NewRule && db.proposals[id].status == Accepted ==>
         Materialized(db, id)
  }

  ghost predicate Sound(db: Db) {
    NeverRecommendsActive(db) && FeedbackMatches(db) && RulesMatch(db)
  }

  // ---- quiet calls ------------------------------------------------------------------------

  /** Calls that decide nothing: reads, new pending proposals that do not recommend active, records
      of conflicts, and audit entries other than of a review. */
  predicate Quiet(op: Op) {
    match op
    case Read => true
    case SaveProposal(p, _) => p.status == PendingReview && p.recommended != Active
    case AppendAudit(entry) => !entry.event.ProposalReviewed?
    case AppendConflict(_) => true
    case _ => false
  }

  ghost predicate AllQuiet(ops: seq<Op>) {
    forall k :: 0 <= k < |ops| ==> Quiet(ops[k])
  }

  /** How a database may grow when nothing is decided: proposals are only added, pending and not
      recommending active; rules, workflows and feedback stay; no review is audited. */
  ghost predicate GrowsQuietly(db: Db, after: Db) {
    && after.rules == db.rules && after.workflows == db.workflows && after.feedback == db.feedback
    && (forall id :: id in db.proposals ==> id in after.proposals && after.proposals[id] == db.proposals[id])
    && (forall id :: id in after.proposals && id !in db.proposals ==>
          var p := after.proposals[id]; p.id == id && p.status == PendingReview && p.recommended != Active)
    && forall id: string :: ReviewedCount(after.audit, id) == ReviewedCount(db.audit, id)
  }

  lemma OneMoreAudit(audit: seq<AuditEntry>, entry: AuditEntry, id: string)
    ensures ReviewedCount(audit + [entry], id) ==
            ReviewedCount(audit, id) + if entry.event.ProposalReviewed? && entry.proposalId == Some(id) then 1 else 0
  {
    assert (audit + [entry])[..|audit|] == audit;
  }

  lemma OneMoreFeedback(rows: seq<FeedbackRow>, row: FeedbackRow, id: string)
    ensures FeedbackCount(rows + [row], id) == FeedbackCount(rows, id) + if row.proposalId == id then 1 else 0
  {
    assert (rows + [row])[..|rows|] == rows;
  }

  lemma QuietCall(db: Db, op: Op)
    requires Quiet(op) && Permitted(db, op)
    ensures GrowsQuietly(db, Apply(db, op))
  {
    if op.AppendAudit? {
      forall id: string
        ensures ReviewedCount(Apply(db, op).audit, id) == ReviewedCount(db.audit, id)
      {
        OneMoreAudit(db.audit, op.entry, id);
      }
    }
  }

  lemma {:induction false} QuietCalls(db: Db, budget: nat, ops: seq<Op>)
    requires AllQuiet(ops)
    ensures GrowsQuietly(db, Perform(db, budget, ops).db)
    decreases |ops|
  {
    if ops != [] && budget > 0 && Permitted(db, ops[0]) {
      QuietCall(db, ops[0]);
      var next := Apply(db, ops[0]);
      hide Apply;
      hide Permitted;
      hide Quiet;
      QuietCalls(next, budget - 1, ops[1..]);
      var after := Perform(next, budget - 1, ops[1..]).db;
      hide Perform;
      GrowsTwice(db, next, after);
    }
  }

  lemma GrowsTwice(a: Db, b: Db, c: Db)
    requires GrowsQuietly(a, b) && GrowsQuietly(b, c)
    ensures GrowsQuietly(a, c)
  {
  }

  lemma QuietKeepsSound(db: Db, after: Db)
    requires Sound(db) && GrowsQuietly(db, after)
    ensures Sound(after)
  {
    forall k | 0 <= k < |after.feedback|
      ensures RowMatches(after, after.feedback[k])
    {
      assert RowMatches(db, db.feedback[k]);
    }
    forall x | 0 <= x < |after.rules|
      ensures HasOrigin(after, after.rules[x])
    {
      assert HasOrigin(db, db.rules[x]);
      var id :| id in db.proposals && CuratedFor(db, db.rules[x], id);
      assert CuratedFor(after, after.rules[x], id);
    }
    forall id | id in after.proposals && after.proposals[id].kind == NewRule && after.proposals[id].status == Accepted
      ensures Materialized(after, id)
    {
      assert Materialized(db, id);
      var x :| 0 <= x < |db.rules| && CuratedFor(db, db.rules[x], id);
      assert CuratedFor(after, after.rules[x], id);
    }
  }

  // ---- the quiet steps --------------------------------------------------------------------

  lemma {:induction false} EngineOpsAreQuiet(candidates: seq<Candidate>)
    requires forall k :: 0 <= k < |candidates| ==>
               candidates[k].proposal.status == PendingReview && candidates[k].proposal.recommended != Active
    ensures AllQuiet(LearningEngine.PersistOps(candidates))
  {
    if candidates != [] {
      EngineOpsAreQuiet(candidates[..|candidates| - 1]);
    }
  }

  lemma PassIsQuiet(c: LearningEngine.Setting, trigger: LearningEngine.Trigger,
                    filing: seq<Evidence.FilingRow>, judgements: seq<Evidence.ClassificationRow>)
    ensures AllQuiet(LearningEngine.PassOps(c, trigger, filing, judgements))
  {
    var first := LearningEngine.FilingPass(c, trigger, filing);
    EngineOpsAreQuiet(first);
    EngineOpsAreQuiet(LearningEngine.ClassificationPass(c, trigger, judgements, |first|));
    hide LearningEngine.PersistOps;
  }

  lemma {:induction false} KeptAreSafe(c: Curator.Setting, request: Curator.Request, dtos: seq<Curator.ProposalDto>)
    ensures forall k :: 0 <= k < |Curator.KeptProposals(c, request, dtos)| ==>
              var p := Curator.KeptProposals(c, request, dtos)[k];
              p.status == PendingReview && p.recommended != Active
  {
    if dtos != [] {
      KeptAreSafe(c, request, dtos[..|dtos| - 1]);
      var before := Curator.KeptProposals(c, request, dtos[..|dtos| - 1]);
      Curator.CuratedIsSafe(c.text, dtos[|dtos| - 1], c.engineRules, c.newId(|before|), c.source);
      hide Curator.Curated;
    }
  }

  lemma {:induction false} CuratorOpsAreQuiet(proposals: seq<Proposal>)
    requires forall k :: 0 <= k < |proposals| ==>
               proposals[k].status == PendingReview && proposals[k].recommended != Active
    ensures AllQuiet(Curator.SaveOps(proposals))
  {
    if proposals != [] {
      CuratorOpsAreQuiet(proposals[..|proposals| - 1]);
    }
  }

  /** Recording clashes decides nothing. */
  lemma {:induction false} RecordingIsQuiet(db: Db, clashes: seq<Conflict>)
    ensures GrowsQuietly(db, Recorded(db, clashes))
  {
    if clashes == [] {
      NothingRecorded(db);
    } else {
      var n := |clashes| - 1;
      RecordingIsQuiet(db, clashes[..n]);
      var before, after := Recorded(db, clashes[..n]), Recorded(db, clashes);
      var entry := Audits(clashes)[n];
      assert Audits(clashes) == Audits(clashes[..n]) + [entry];
      assert after.audit == before.audit + [entry];
      forall id: string
        ensures ReviewedCount(after.audit, id) == ReviewedCount(db.audit, id)
      {
        OneMoreAudit(before.audit, entry, id);
      }
    }
  }

  lemma PartlyRecordingIsQuiet(db: Db, after: Db, clashes: seq<Conflict>)
    requires PartlyRecorded(db, after, clashes)
    ensures GrowsQuietly(db, after)
  {
    var k :| 0 <= k <= |clashes| &&
      (after == Recorded(db, clashes[..k])
       || (k < |clashes| && after == Recorded(db, clashes[..k]).(conflicts := db.conflicts + clashes[..k + 1])));
    RecordingIsQuiet(db, clashes[..k]);
  }

  lemma CuratingIsQuiet(
      db: Db, budget: nat, c: Curator.Setting, request: Curator.Request,
      response: Option<seq<Curator.ProposalDto>>, r: Result<Curator.CuratorReport, Curator.CurateError>, after: Db)
    requires Curator.CuratesTo(db, budget, c, request, response, r, after)
    ensures GrowsQuietly(db, after)
  {
    var left := budget - Curator.ReadsOf(request);
    var proposals, clashes := Curator.Wanted(c, request, response), Curator.ClashesWanted(c, request, db.rules);
    NothingGrows(db);
    RejectionIsQuiet(db);
    if left >= 0 && !(request.WantsModel() && response.None?) {
      if response.Some? {
        KeptAreSafe(c, request, response.value);
      }
      CuratorOpsAreQuiet(proposals);
      hide Curator.KeptProposals;
      hide Curator.ClashesWanted;
      hide Curator.SaveOps;
      hide GrowsQuietly;
      hide Perform;
      QuietCalls(db, left, Curator.SaveOps(proposals));
      var saved := Perform(db, left, Curator.SaveOps(proposals)).db;
      if PartlyRecorded(saved, after, clashes) {
        PartlyRecordingIsQuiet(saved, after, clashes);
        GrowsTwice(db, saved, after);
      }
      RecordingIsQuiet(saved, clashes);
      GrowsTwice(db, saved, Recorded(saved, clashes));
    }
  }

  lemma NothingGrows(db: Db)
    ensures GrowsQuietly(db, db)
  {
  }

  lemma RejectionIsQuiet(db: Db)
    ensures GrowsQuietly(db, db.(audit := db.audit + [Curator.REJECTED_RESPONSE]))
  {
    QuietCall(db, AppendAudit(Curator.REJECTED_RESPONSE));
  }

  lemma QuietSteps(db: Db, step: Step, after: Db)
    requires StepTo(db, step, after) && !step.Decide? && !ByHand(step)
    ensures GrowsQuietly(db, after)
  {
    hide GrowsQuietly;
    hide Perform;
    match step {
      case Propose(c, trigger, filing, judgements, budget) =>
        PassIsQuiet(c, trigger, filing, judgements);
        QuietCalls(db, budget, LearningEngine.PassOps(c, trigger, filing, judgements));
      case Curate(c, request, response, budget) =>
        var r :| Curator.CuratesTo(db, budget, c, request, response, r, after);
        CuratingIsQuiet(db, budget, c, request, response, r, after);
      case Scan(text, kinds) =>
        var all := AllClashes(text, db.rules, kinds);
        if after == Recorded(db, all) {
          RecordingIsQuiet(db, all);
        } else {
          PartlyRecordingIsQuiet(db, after, all);
        }
      case SuggestWorkflow(p, budget) => QuietCalls(db, budget, [SaveProposal(p, [])]);
    }
  }

  // ---- a decision: building ---------------------------------------------------------------

  /** The proposal is stored and still open. */
  predicate Open(db: Db, p: Proposal) {
    p.id in db.proposals && db.proposals[p.id] == p && !p.status.IsTerminal()
  }

  /** The calls that carry out an accepted proposal. */
  predicate Building(p: Proposal, op: Op) {
    match op
    case SaveRuleDraft(kind, _, name, _, _) =>
      p.kind == NewRule && p.ruleDraft.Some? && kind == p.ruleDraft.value.kind && name == CuratedName(p.id)
    case UpdateRuleStatus(_, _, _) => true
    case UpdateWorkflowStatus(_, _) => true
    case CreateRuleVersion(_, _, _) => true
    case SaveWorkflowDraft(_, _, _) => true
    case CreateWorkflowVersion(_, _) => true
    case AppendAudit(entry) => !entry.event.ProposalReviewed?
    case _ => false
  }

  /** Every rule there was is there, with its kind, id, name and scope. */
  ghost predicate RulesStay(db: Db, after: Db) {
    |db.rules| <= |after.rules| && forall x :: 0 <= x < |db.rules| ==> SameRule(db.rules[x], after.rules[x])
  }

  ghost predicate KeepsRules(db: Db, after: Db) {
    after.proposals == db.proposals && RulesStay(db, after)
  }

  /** What building leaves alone: proposals and rules in this sense, feedback and reviewed-audits. A
      rule it adds bears the proposal's name. */
  ghost predicate Builds(p: Proposal, db: Db, after: Db) {
    && KeepsRules(db, after) && after.feedback == db.feedback
    && (forall id: string :: ReviewedCount(after.audit, id) == ReviewedCount(db.audit, id))
    && forall x :: |db.rules| <= x < |after.rules| ==> NamedFor(p, after.rules[x])
  }

  predicate NamedFor(p: Proposal, rule: StoredRule) {
    p.kind == NewRule && rule.stableName == CuratedName(p.id)
  }

  predicate SameRule(before: StoredRule, after: StoredRule) {
    after == before.(status := after.status, versions := after.versions)
  }

  lemma BuildingCall(db: Db, p: Proposal, op: Op)
    requires Building(p, op) && Permitted(db, op)
    ensures Builds(p, db, Apply(db, op))
  {
    if op.AppendAudit? {
      forall id: string
        ensures ReviewedCount(Apply(db, op).audit, id) == ReviewedCount(db.audit, id)
      {
        OneMoreAudit(db.audit, op.entry, id);
      }
    }
  }

  lemma MaterializedStays(db: Db, after: Db, id: string)
    requires KeepsRules(db, after) && Materialized(db, id)
    ensures Materialized(after, id)
  {
    var x :| 0 <= x < |db.rules| && CuratedFor(db, db.rules[x], id);
    assert SameRule(db.rules[x], after.rules[x]);
    assert CuratedFor(after, after.rules[x], id);
  }

  lemma OriginStays(db: Db, after: Db, x: nat)
    requires KeepsRules(db, after) && x < |db.rules| && HasOrigin(db, db.rules[x])
    ensures HasOrigin(after, after.rules[x])
  {
    var id :| id in db.proposals && CuratedFor(db, db.rules[x], id);
    assert SameRule(db.rules[x], after.rules[x]);
    assert CuratedFor(after, after.rules[x], id);
  }

  lemma BuildingKeepsRulesMatch(db: Db, p: Proposal, op: Op)
    requires Open(db, p) && Building(p, op) && Permitted(db, op) && RulesMatch(db)
    ensures RulesMatch(Apply(db, op))
    ensures op.SaveRuleDraft? ==> Materialized(Apply(db, op), p.id)
  {
    BuildingCall(db, p, op);
    var after := Apply(db, op);
    if op.SaveRuleDraft? {
      assert CuratedFor(after, after.rules[|db.rules|], p.id);
    }
    hide Building;
    forall x | 0 <= x < |after.rules|
      ensures HasOrigin(after, after.rules[x])
    {
      if x < |db.rules| {
        OriginStays(db, after, x);
      } else {
        assert CuratedFor(after, after.rules[x], p.id);
      }
    }
    forall id | id in after.proposals && after.proposals[id].kind == NewRule && after.proposals[id].status == Accepted
      ensures Materialized(after, id)
    {
      MaterializedStays(db, after, id);
    }
    NamesStayUnique(db, op);
  }

  lemma NamesStayUnique(db: Db, op: Op)
    requires Permitted(db, op)
    requires forall x, y :: 0 <= x < y < |db.rules| ==>
               !(db.rules[x].kind == db.rules[y].kind && db.rules[x].stableName == db.rules[y].stableName)
    ensures var rules := Apply(db, op).rules;
            forall x, y :: 0 <= x < y < |rules| ==>
              !(rules[x].kind == rules[y].kind && rules[x].stableName == rules[y].stableName)
  {
  }

  lemma BuildingKeepsFeedback(p: Proposal, db: Db, after: Db)
    requires Builds(p, db, after) && FeedbackMatches(db)
    ensures FeedbackMatches(after)
  {
    forall k | 0 <= k < |after.feedback|
      ensures RowMatches(after, after.feedback[k])
    {
      assert RowMatches(db, db.feedback[k]);
    }
  }

  lemma BuildingKeepsSound(db: Db, p: Proposal, op: Op)
    requires Sound(db) && Open(db, p) && Building(p, op) && Permitted(db, op)
    ensures Sound(Apply(db, op)) && Open(Apply(db, op), p) && Builds(p, db, Apply(db, op))
    ensures op.SaveRuleDraft? ==> Materialized(Apply(db, op), p.id)
  {
    BuildingCall(db, p, op);
    BuildingKeepsRulesMatch(db, p, op);
    BuildingKeepsFeedback(p, db, Apply(db, op));
    hide Apply;
    hide Permitted;
    hide Building;
    hide RulesMatch;
    hide FeedbackMatches;
    hide Materialized;
  }

  ghost predicate AllBuilding(p: Proposal, ops: seq<Op>) {
    forall k :: 0 <= k < |ops| ==> Building(p, ops[k])
  }

  lemma BuildsTwice(p: Proposal, a: Db, b: Db, c: Db)
    requires Builds(p, a, b) && Builds(p, b, c)
    ensures Builds(p, a, c)
  {
    forall x | |a.rules| <= x < |c.rules|
      ensures NamedFor(p, c.rules[x])
    {
      if x < |b.rules| {
        assert SameRule(b.rules[x], c.rules[x]) && NamedFor(p, b.rules[x]);
      }
    }
    forall x | 0 <= x < |a.rules|
      ensures SameRule(a.rules[x], c.rules[x])
    {
      assert SameRule(a.rules[x], b.rules[x]) && SameRule(b.rules[x], c.rules[x]);
    }
  }

  lemma {:induction false} BuildingCalls(db: Db, budget: nat, p: Proposal, ops: seq<Op>)
    requires Sound(db) && Open(db, p) && AllBuilding(p, ops)
    ensures var after := Perform(db, budget, ops);
            Sound(after.db) && Open(after.db, p) && Builds(p, db, after.db)
            && (after.ok && ops != [] && ops[0].SaveRuleDraft? ==> Materialized(after.db, p.id))
    decreases |ops|
  {
    hide Apply;
    hide Permitted;
    hide Building;
    hide Sound;
    hide Materialized;
    if ops == [] || budget == 0 || !Permitted(db, ops[0]) {
      assert Perform(db, budget, ops).db == db;
    } else {
      hide Perform;
      hide Builds;
      PerformHead(db, budget, ops);
      BuildingKeepsSound(db, p, ops[0]);
      var next := Apply(db, ops[0]);
      var after := Perform(next, budget - 1, ops[1..]);
      BuildingCalls(next, budget - 1, p, ops[1..]);
      BuildsTwice(p, db, next, after.db);
      if ops[0].SaveRuleDraft? {
        MaterializedStays(next, after.db, p.id);
      }
    }
  }

  lemma MaterializeIsBuilding(p: Proposal, newId: string)
    requires MaterializeOps(p, newId).Some?
    ensures AllBuilding(p, MaterializeOps(p, newId).value)
    ensures p.kind == NewRule ==>
      MaterializeOps(p, newId).value != [] && MaterializeOps(p, newId).value[0].SaveRuleDraft?
  {
  }

  // ---- a decision: closing ----------------------------------------------------------------

  lemma {:induction false} CountedIsThere(rows: seq<FeedbackRow>, id: string)
    requires FeedbackCount(rows, id) > 0
    ensures exists k :: 0 <= k < |rows| && rows[k].proposalId == id
  {
    var n := |rows| - 1;
    if rows[n].proposalId != id {
      CountedIsThere(rows[..n], id);
      var k :| 0 <= k < n && rows[..n][k].proposalId == id;
      assert rows[k].proposalId == id;
    }
  }

  /** An open proposal has no feedback row and no reviewed-audit. */
  lemma OpenHasNoFeedback(db: Db, p: Proposal)
    requires FeedbackMatches(db) && Open(db, p)
    ensures FeedbackCount(db.feedback, p.id) == 0 && ReviewedCount(db.audit, p.id) == 0
    ensures forall k :: 0 <= k < |db.feedback| ==> db.feedback[k].proposalId != p.id
  {
    forall k | 0 <= k < |db.feedback|
      ensures db.feedback[k].proposalId != p.id
    {
      assert RowMatches(db, db.feedback[k]);
    }
    if FeedbackCount(db.feedback, p.id) > 0 {
      CountedIsThere(db.feedback, p.id);
    }
  }

  /** Closing a proposal: the status first. */
  lemma StatusKeepsSound(db: Db, p: Proposal, status: ProposalStatus)
    requires Sound(db) && Open(db, p) && status.IsTerminal()
    requires p.kind == NewRule && status == Accepted ==> Materialized(db, p.id)
    ensures Sound(Apply(db, SetProposalStatus(p.id, status)))
  {
    var after := Apply(db, SetProposalStatus(p.id, status));
    OpenHasNoFeedback(db, p);
    forall k | 0 <= k < |after.feedback|
      ensures RowMatches(after, after.feedback[k])
    {
      assert RowMatches(db, db.feedback[k]);
    }
    forall x | 0 <= x < |after.rules|
      ensures HasOrigin(after, after.rules[x])
    {
      assert HasOrigin(db, db.rules[x]);
      var id :| id in db.proposals && CuratedFor(db, db.rules[x], id);
      assert CuratedFor(after, after.rules[x], id);
    }
    forall id | id in after.proposals && after.proposals[id].kind == NewRule && after.proposals[id].status == Accepted
      ensures Materialized(after, id)
    {
      assert Materialized(db, id);
      var x :| 0 <= x < |db.rules| && CuratedFor(db, db.rules[x], id);
      assert CuratedFor(after, after.rules[x], id);
    }
  }

  lemma FeedbackKeepsSound(db: Db, row: FeedbackRow)
    requires Sound(db) && FeedbackCount(db.feedback, row.proposalId) == 0 && RowMatches(db, row)
    ensures Sound(Apply(db, AppendFeedback(row)))
  {
    var after := Apply(db, AppendFeedback(row));
    UnchangedRules(db, after);
    hide RulesMatch;
    forall id: string
      ensures FeedbackCount(after.feedback, id) <= 1
      ensures ReviewedCount(after.audit, id) <= FeedbackCount(after.feedback, id)
    {
      OneMoreFeedback(db.feedback, row, id);
    }
    forall k | 0 <= k < |after.feedback|
      ensures RowMatches(after, after.feedback[k])
    {
      assert k < |db.feedback| ==> RowMatches(db, db.feedback[k]);
    }
  }

  /** What rules are for depends on rules and proposals only. */
  lemma UnchangedRules(db: Db, after: Db)
    requires RulesMatch(db) && after.rules == db.rules && after.proposals == db.proposals
    ensures RulesMatch(after)
  {
    forall x | 0 <= x < |after.rules|
      ensures HasOrigin(after, after.rules[x])
    {
      assert HasOrigin(db, db.rules[x]);
      var id :| id in db.proposals && CuratedFor(db, db.rules[x], id);
      assert CuratedFor(after, after.rules[x], id);
    }
    forall id | id in after.proposals && after.proposals[id].kind == NewRule && after.proposals[id].status == Accepted
      ensures Materialized(after, id)
    {
      assert Materialized(db, id);
      var x :| 0 <= x < |db.rules| && CuratedFor(db, db.rules[x], id);
      assert CuratedFor(after, after.rules[x], id);
    }
  }

  lemma AuditKeepsSound(db: Db, id: string)
    requires Sound(db) && FeedbackCount(db.feedback, id) == 1 && ReviewedCount(db.audit, id) == 0
    ensures Sound(Apply(db, AppendAudit(AuditEntry(ProposalReviewed, Some(id), None))))
  {
    var entry := AuditEntry(ProposalReviewed, Some(id), None);
    var after := Apply(db, AppendAudit(entry));
    forall other: string
      ensures ReviewedCount(after.audit, other) <= FeedbackCount(after.feedback, other)
    {
      OneMoreAudit(db.audit, entry, other);
    }
    forall k | 0 <= k < |after.feedback|
      ensures RowMatches(after, after.feedback[k])
    {
      assert RowMatches(db, db.feedback[k]);
    }
    UnchangedRules(db, after);
  }

  lemma ClosingStages(db: Db, p: Proposal, outcome: ReviewedAs)
    requires Sound(db) && Open(db, p)
    requires p.kind == NewRule && outcome.IsAcceptance() ==> Materialized(db, p.id)
    ensures var db1 := Apply(db, SetProposalStatus(p.id, NewStatus(outcome)));
            var db2 := Apply(db1, AppendFeedback(FeedbackRow(p.id, outcome)));
            var db3 := Apply(db2, AppendAudit(AuditEntry(ProposalReviewed, Some(p.id), None)));
            Sound(db1) && Sound(db2) && Sound(db3)
  {
    var row := FeedbackRow(p.id, outcome);
    OpenHasNoFeedback(db, p);
    var db1 := Apply(db, SetProposalStatus(p.id, NewStatus(outcome)));
    StatusKeepsSound(db, p, NewStatus(outcome));
    assert db1.feedback == db.feedback && db1.audit == db.audit && RowMatches(db1, row);
    hide Sound;
    var db2 := Apply(db1, AppendFeedback(row));
    FeedbackKeepsSound(db1, row);
    OneMoreFeedback(db1.feedback, row, p.id);
    assert db2.feedback == db1.feedback + [row] && db2.audit == db.audit;
    AuditKeepsSound(db2, p.id);
  }

  lemma ClosingKeepsSound(db: Db, budget: nat, p: Proposal, outcome: ReviewedAs)
    requires Sound(db) && Open(db, p)
    requires p.kind == NewRule && outcome.IsAcceptance() ==> Materialized(db, p.id)
    ensures Sound(Perform(db, budget, ClosingOps(p, outcome)).db)
  {
    hide Sound;
    hide Materialized;
    hide Perform;
    hide Apply;
    hide ClosingOps;
    ClosingStages(db, p, outcome);
    ThreeCalls(db, budget, SetProposalStatus(p.id, NewStatus(outcome)), AppendFeedback(FeedbackRow(p.id, outcome)),
               AppendAudit(AuditEntry(ProposalReviewed, Some(p.id), None)));
    ClosingIs(p, outcome);
  }

  /** The four places three calls that break no constraint can stop at. */
  lemma ThreeCalls(db: Db, budget: nat, op1: Op, op2: Op, op3: Op)
    requires Permitted(db, op1) && Permitted(Apply(db, op1), op2) && Permitted(Apply(Apply(db, op1), op2), op3)
    ensures var r := Perform(db, budget, [op1, op2, op3]);
            var db1 := Apply(db, op1);
            var db2 := Apply(db1, op2);
            r.db == (if budget == 0 then db
                     else if budget == 1 then db1
                     else if budget == 2 then db2
                     else Apply(db2, op3))
            && r.ok == (budget >= 3)
  {
    assert [op1] + [op2, op3] == [op1, op2, op3] && [op2] + [op3] == [op2, op3] && [op3] + [] == [op3];
    PerformFirst(db, budget, op1, [op2, op3]);
    if budget > 0 {
      PerformFirst(Apply(db, op1), budget - 1, op2, [op3]);
      if budget > 1 {
        PerformFirst(Apply(Apply(db, op1), op2), budget - 2, op3, []);
      }
    }
    hide Apply;
    hide Permitted;
  }

  /** A decision on an open proposal, call by call: what acceptance builds, then the closing calls. */
  lemma DecisionInParts(db: Db, budget: nat, p: Proposal, outcome: ReviewedAs, newId: string)
    requires Open(db, p) && budget > 0 && outcome.IsAcceptance() && MaterializeOps(p, newId).Some?
    ensures var ops := MaterializeOps(p, newId).value;
            var built := Perform(db, budget - 1, ops);
            var r := ReviewOf(db, budget, p.id, outcome, newId);
            if built.ok
            then |ops| <= budget - 1
                 && r.db == Perform(built.db, budget - 1 - |ops|, ClosingOps(p, outcome)).db
                 && (r.result.Ok? <==> Perform(built.db, budget - 1 - |ops|, ClosingOps(p, outcome)).ok)
            else r.db == built.db && r.result == Err(StoreFailed)
  {
    PerformAppend(db, budget - 1, MaterializeOps(p, newId).value, ClosingOps(p, outcome));
    hide Perform;
    hide MaterializeOps;
    hide ClosingOps;
  }

  lemma AcceptanceKeepsSound(db: Db, budget: nat, p: Proposal, outcome: ReviewedAs, newId: string)
    requires Sound(db) && Open(db, p) && budget > 0
    requires outcome.IsAcceptance() && MaterializeOps(p, newId).Some?
    ensures Sound(ReviewOf(db, budget, p.id, outcome, newId).db)
  {
    hide Sound;
    hide MaterializeOps;
    hide Perform;
    hide ReviewOf;
    hide Materialized;
    hide Builds;
    hide ClosingOps;
    hide AllBuilding;
    var ops := MaterializeOps(p, newId).value;
    DecisionInParts(db, budget, p, outcome, newId);
    MaterializeIsBuilding(p, newId);
    BuildingCalls(db, budget - 1, p, ops);
    var built := Perform(db, budget - 1, ops);
    if built.ok {
      ClosingKeepsSound(built.db, budget - 1 - |ops|, p, outcome);
    }
  }

  /** Whatever is decided, and wherever it is cut short. */
  lemma DecisionKeepsSound(db: Db, budget: nat, id: string, outcome: ReviewedAs, newId: string)
    requires Sound(db)
    ensures Sound(ReviewOf(db, budget, id, outcome, newId).db)
  {
    if budget > 0 && id in db.proposals && !db.proposals[id].status.IsTerminal() {
      var p := db.proposals[id];
      assert Open(db, p);
      hide Sound;
      hide MaterializeOps;
      if !outcome.IsAcceptance() {
        ClosingKeepsSound(db, budget - 1, p, outcome);
      } else if MaterializeOps(p, newId).Some? {
        AcceptanceKeepsSound(db, budget, p, outcome, newId);
      }
    }
  }

  /** A status set by hand changes no proposal, no record, and nothing else of a rule. */
  lemma ByHandKeeps(db: Db, step: Step, after: Db)
    requires StepTo(db, step, after) && ByHand(step)
    ensures KeepsRules(db, after) && |after.rules| == |db.rules|
    ensures after.feedback == db.feedback && after.audit == db.audit
  {
  }

  lemma ByHandKeepsSound(db: Db, step: Step, after: Db)
    requires Sound(db) && StepTo(db, step, after) && ByHand(step)
    ensures Sound(after)
  {
    ByHandKeeps(db, step, after);
    hide StepTo;
    forall k | 0 <= k < |after.feedback|
      ensures RowMatches(after, after.feedback[k])
    {
      assert RowMatches(db, db.feedback[k]);
    }
    assert RulesMatch(after) by {
      forall x | 0 <= x < |after.rules|
        ensures HasOrigin(after, after.rules[x])
      {
        OriginStays(db, after, x);
      }
      forall id | id in after.proposals && after.proposals[id].kind == NewRule && after.proposals[id].status == Accepted
        ensures Materialized(after, id)
      {
        MaterializedStays(db, after, id);
      }
      forall x, y | 0 <= x < y < |after.rules|
        ensures !(after.rules[x].kind == after.rules[y].kind && after.rules[x].stableName == after.rules[y].stableName)
      {
        assert SameRule(db.rules[x], after.rules[x]) && SameRule(db.rules[y], after.rules[y]);
      }
    }
  }

  lemma StepKeepsSound(db: Db, step: Step, after: Db)
    requires Sound(db) && StepTo(db, step, after)
    ensures Sound(after)
  {
    hide Sound;
    if ByHand(step) {
      ByHandKeepsSound(db, step, after);
    } else if step.Decide? {
      DecisionKeepsSound(db, step.budget, step.id, step.outcome, step.newId);
    } else {
      QuietSteps(db, step, after);
      QuietKeepsSound(db, after);
    }
  }

  // ---- what holds of every run ------------------------------------------------------------

  /** In every state of every run: no stored proposal recommends active; every proposal has at most
      one feedback row, which agrees with its terminal status, and no more reviewed-audits than
      feedback rows; and every rule was made for a new-rule proposal, at most one for each, and one
      for each accepted one. */
  lemma {:induction false} EveryRun(steps: seq<Step>, states: seq<Db>, k: nat)
    requires Run(steps, states) && k < |states|
    ensures NeverRecommendsActive(states[k])
    ensures FeedbackMatches(states[k]) && RulesMatch(states[k])
    ensures forall id: string, x, y | 0 <= x < |states[k].rules| && 0 <= y < |states[k].rules| ::
              CuratedFor(states[k], states[k].rules[x], id) && CuratedFor(states[k], states[k].rules[y], id) ==> x == y
  {
    if k > 0 {
      EveryRun(steps, states, k - 1);
      assert Sound(states[k - 1]);
      assert StepTo(states[k - 1], steps[k - 1], states[k]);
      hide StepTo;
      StepKeepsSound(states[k - 1], steps[k - 1], states[k]);
    }
    OneRuleEach(states[k]);
  }

  /** Every step of a run is from a sound database. */
  lemma StepOfRun(steps: seq<Step>, states: seq<Db>, k: nat)
    requires Run(steps, states) && 0 < k < |states|
    ensures Sound(states[k - 1]) && StepTo(states[k - 1], steps[k - 1], states[k])
  {
    hide StepTo;
    EveryRun(steps, states, k - 1);
  }

  lemma OneRuleEach(db: Db)
    requires RulesMatch(db)
    ensures forall id: string, x, y | 0 <= x < |db.rules| && 0 <= y < |db.rules| ::
              CuratedFor(db, db.rules[x], id) && CuratedFor(db, db.rules[y], id) ==> x == y
  {
    hide HasOrigin;
    hide Materialized;
    forall id: string, x, y | 0 <= x < |db.rules| && 0 <= y < |db.rules|
      ensures CuratedFor(db, db.rules[x], id) && CuratedFor(db, db.rules[y], id) ==> x == y
    {
    }
  }

  // ---- what a decision leaves ----------------------------------------------------------------

  lemma ClosingChangesOne(db: Db, budget: nat, p: Proposal, outcome: ReviewedAs)
    requires Open(db, p)
    ensures var after := Perform(db, budget, ClosingOps(p, outcome)).db;
            && after.rules == db.rules
            && (budget > 0 ==> after.proposals == db.proposals[p.id := p.(status := NewStatus(outcome))])
            && (budget == 0 ==> after.proposals == db.proposals)
  {
    var op1, op2 := SetProposalStatus(p.id, NewStatus(outcome)), AppendFeedback(FeedbackRow(p.id, outcome));
    var op3 := AppendAudit(AuditEntry(ProposalReviewed, Some(p.id), None));
    ThreeCalls(db, budget, op1, op2, op3);
    ClosingIs(p, outcome);
    hide ClosingOps;
    hide Perform;
  }

  /** What building leaves, and the proposal as it was or with the status decided. */
  ghost predicate DecidedFrom(db: Db, after: Db, p: Proposal, outcome: ReviewedAs, built: Db) {
    && Builds(p, db, built) && after.rules == built.rules
    && (!outcome.IsAcceptance() ==> built == db)
    && p.id in after.proposals && after.proposals[p.id].status in {p.status, NewStatus(outcome)}
    && after.proposals == db.proposals[p.id := p.(status := after.proposals[p.id].status)]
  }

  lemma NothingBuilt(db: Db, p: Proposal, outcome: ReviewedAs)
    requires Open(db, p)
    ensures DecidedFrom(db, db, p, outcome, db)
  {
    assert db.proposals[p.id := p] == db.proposals;
  }

  lemma AcceptanceLeaves(db: Db, budget: nat, p: Proposal, outcome: ReviewedAs, newId: string) returns (built: Db)
    requires Sound(db) && Open(db, p) && budget > 0
    requires outcome.IsAcceptance() && MaterializeOps(p, newId).Some?
    ensures DecidedFrom(db, ReviewOf(db, budget, p.id, outcome, newId).db, p, outcome, built)
  {
    hide Sound;
    hide MaterializeOps;
    hide Perform;
    hide ReviewOf;
    hide Materialized;
    hide ClosingOps;
    hide AllBuilding;
    var ops := MaterializeOps(p, newId).value;
    DecisionInParts(db, budget, p, outcome, newId);
    MaterializeIsBuilding(p, newId);
    BuildingCalls(db, budget - 1, p, ops);
    built := Perform(db, budget - 1, ops).db;
    assert db.proposals[p.id := p] == db.proposals;
    if Perform(db, budget - 1, ops).ok {
      ClosingChangesOne(built, budget - 1 - |ops|, p, outcome);
    }
    hide Builds;
  }

  lemma DecisionLeaves(db: Db, budget: nat, p: Proposal, outcome: ReviewedAs, newId: string) returns (built: Db)
    requires Sound(db) && Open(db, p)
    ensures DecidedFrom(db, ReviewOf(db, budget, p.id, outcome, newId).db, p, outcome, built)
  {
    hide Sound;
    hide MaterializeOps;
    NothingBuilt(db, p, outcome);
    built := db;
    if budget > 0 {
      if !outcome.IsAcceptance() {
        ClosingChangesOne(db, budget - 1, p, outcome);
        hide Perform;
        hide ClosingOps;
      } else if MaterializeOps(p, newId).Some? {
        built := AcceptanceLeaves(db, budget, p, outcome, newId);
      }
    }
  }

  /** A decision on a proposal that is not there or not open changes nothing. */
  lemma ClosedToDecisions(db: Db, budget: nat, id: string, outcome: ReviewedAs, newId: string)
    requires id !in db.proposals || db.proposals[id].status.IsTerminal()
    ensures ReviewOf(db, budget, id, outcome, newId).db == db
  {
  }

  /** Proposals stay; only the status of an open one may change. */
  ghost predicate OpenOnesChange(db: Db, after: Db) {
    forall id :: id in db.proposals ==>
      && id in after.proposals && after.proposals[id] == db.proposals[id].(status := after.proposals[id].status)
      && (db.proposals[id].status.IsTerminal() ==> after.proposals[id] == db.proposals[id])
  }

  /** A terminal proposal never changes again, an open one keeps everything but its status, and no
      rule ever goes. */
  lemma TerminalIsFinal(db: Db, step: Step, after: Db)
    requires Sound(db) && StepTo(db, step, after)
    ensures OpenOnesChange(db, after) && RulesStay(db, after)
  {
    if ByHand(step) {
      ByHandKeeps(db, step, after);
    } else if !step.Decide? {
      QuietSteps(db, step, after);
    } else if step.id in db.proposals && !db.proposals[step.id].status.IsTerminal() {
      var p := db.proposals[step.id];
      assert Open(db, p);
      var built := DecisionLeaves(db, step.budget, p, step.outcome, step.newId);
      hide ReviewOf;
      hide Sound;
    } else {
      ClosedToDecisions(db, step.budget, step.id, step.outcome, step.newId);
    }
  }

  // ---- what is active -----------------------------------------------------------------------

  /** No step but a human's hand on a status makes anything active. */
  lemma OnlyByHand(db: Db, step: Step, after: Db)
    requires NeverRecommendsActive(db) && StepTo(db, step, after) && !ByHand(step)
    ensures NothingActivated(db, after)
  {
    if step.Decide? {
      ReviewNeverActivates(db, step.budget, step.id, step.outcome, step.newId);
    } else {
      QuietSteps(db, step, after);
    }
  }

  /** The step sets this rule to active. */
  predicate Activates(step: Step, rule: StoredRule) {
    step == SetRule(rule.kind, rule.id, Active)
  }

  lemma RuleWasThere(db: Db, step: Step, after: Db, x: nat)
    requires Sound(db) && StepTo(db, step, after)
    requires x < |after.rules| && after.rules[x].status == Active && !Activates(step, after.rules[x])
    ensures x < |db.rules| && db.rules[x].status == Active
    ensures after.rules[x].kind == db.rules[x].kind && after.rules[x].id == db.rules[x].id
  {
    if ByHand(step) {
      ByHandKeeps(db, step, after);
      assert SameRule(db.rules[x], after.rules[x]);
    } else {
      OnlyByHand(db, step, after);
      TerminalIsFinal(db, step, after);
      hide StepTo;
      assert SameRule(db.rules[x], after.rules[x]);
    }
  }

  /** A rule is active only after a human has set it to active. */
  lemma {:induction false} ActiveWasActivated(steps: seq<Step>, states: seq<Db>, k: nat, x: nat) returns (i: nat)
    requires Run(steps, states) && k < |states|
    requires x < |states[k].rules| && states[k].rules[x].status == Active
    ensures i < k && Activates(steps[i], states[k].rules[x])
  {
    assert k > 0;
    hide Run;
    hide Sound;
    hide StepTo;
    var db, step, after := states[k - 1], steps[k - 1], states[k];
    StepOfRun(steps, states, k);
    if Activates(step, after.rules[x]) {
      i := k - 1;
    } else {
      RuleWasThere(db, step, after, x);
      i := ActiveWasActivated(steps, states, k - 1, x);
    }
  }

  // ---- when acceptance goes through -------------------------------------------------------

  /** Accepting a new-rule proposal goes through exactly when it has a draft, no rule of its kind bears
      its name or the new id, and seven store calls succeed. */
  lemma AcceptanceSucceedsIff(db: Db, budget: nat, p: Proposal, outcome: ReviewedAs, newId: string)
    requires Open(db, p) && p.kind == NewRule && outcome.IsAcceptance()
    ensures ReviewOf(db, budget, p.id, outcome, newId).result.Ok? <==>
            p.ruleDraft.Some? && budget >= 7
            && !HasRule(db.rules, p.ruleDraft.value.kind, newId)
            && !NameTaken(db.rules, p.ruleDraft.value.kind, CuratedName(p.id))
  {
    if budget > 0 && p.ruleDraft.Some? {
      DecisionInParts(db, budget, p, outcome, newId);
      NewRuleCalls(db, budget - 1, p, newId);
      var ops := MaterializeOps(p, newId).value;
      var built := Perform(db, budget - 1, ops);
      hide Perform;
      if built.ok {
        ClosingSucceedsIff(built.db, budget - 1 - |ops|, p, outcome);
      }
    }
  }

  lemma NewRuleCalls(db: Db, budget: nat, p: Proposal, newId: string)
    requires p.kind == NewRule && p.ruleDraft.Some?
    ensures var draft := p.ruleDraft.value;
            var ops := MaterializeOps(p, newId).value;
            && |ops| == 3 && ops[0].SaveRuleDraft?
            && (Perform(db, budget, ops).ok <==> budget >= 3 && Permitted(db, ops[0]))
            && (!Permitted(db, ops[0]) ==> Perform(db, budget, ops) == Performed(db, false))
            && (Permitted(db, ops[0]) <==>
                  !HasRule(db.rules, draft.kind, newId) && !NameTaken(db.rules, draft.kind, CuratedName(p.id)))
  {
    var ops := MaterializeOps(p, newId).value;
    assert ops == [ops[0]] + [ops[1], ops[2]] && ops == [ops[0], ops[1], ops[2]];
    PerformFirst(db, budget, ops[0], [ops[1], ops[2]]);
    if Permitted(db, ops[0]) {
      ThreeCalls(db, budget, ops[0], ops[1], ops[2]);
    }
    hide Perform;
    hide Apply;
  }

  lemma ClosingSucceedsIff(db: Db, budget: nat, p: Proposal, outcome: ReviewedAs)
    ensures Perform(db, budget, ClosingOps(p, outcome)).ok <==> budget >= 3
  {
    ThreeCalls(db, budget, SetProposalStatus(p.id, NewStatus(outcome)), AppendFeedback(FeedbackRow(p.id, outcome)),
               AppendAudit(AuditEntry(ProposalReviewed, Some(p.id), None)));
    ClosingIs(p, outcome);
    hide Perform;
  }

  /** An acceptance cut short after its rule was saved can never be completed: the proposal is still
      open, but its rule's name is taken, so every further acceptance fails and changes nothing. */
  lemma InterruptedAcceptanceIsStuck(db: Db, budget: nat, p: Proposal, outcome: ReviewedAs, newId: string)
    requires Open(db, p) && p.kind == NewRule && outcome.IsAcceptance() && Materialized(db, p.id)
    ensures ReviewOf(db, budget, p.id, outcome, newId) == Outcome(db, Err(StoreFailed))
  {
    var x :| 0 <= x < |db.rules| && CuratedFor(db, db.rules[x], p.id);
    assert NameTaken(db.rules, p.ruleDraft.value.kind, CuratedName(p.id));
    if budget > 0 {
      DecisionInParts(db, budget, p, outcome, newId);
      NewRuleCalls(db, budget - 1, p, newId);
    }
  }

  lemma FirstCallStays(db: Db, budget: nat, p: Proposal, ops: seq<Op>)
    requires Sound(db) && Open(db, p) && AllBuilding(p, ops) && budget > 0
    requires ops != [] && ops[0].SaveRuleDraft? && Permitted(db, ops[0])
    ensures var cut := Perform(db, budget, ops).db; Open(cut, p) && Materialized(cut, p.id)
  {
    hide Sound;
    hide Materialized;
    hide KeepsRules;
    hide Apply;
    hide Perform;
    hide Permitted;
    hide Building;
    var next := Apply(db, ops[0]);
    PerformHead(db, budget, ops);
    BuildingKeepsSound(db, p, ops[0]);
    BuildingCalls(next, budget - 1, p, ops[1..]);
    MaterializedStays(next, Perform(next, budget - 1, ops[1..]).db, p.id);
  }

  // ---- rules that only accepted proposals have ------------------------------------------------

  lemma CuratedNamesDiffer(a: string, b: string)
    requires CuratedName(a) == CuratedName(b)
    ensures a == b
  {
    assert CuratedName(a)[8..] == a && CuratedName(b)[8..] == b;
  }

  /** The proposal has a rule but is not accepted. */
  ghost predicate Stranded(db: Db, id: string) {
    id in db.proposals && Materialized(db, id) && db.proposals[id].status != Accepted
  }

  ghost predicate OnlyAcceptedHaveRules(db: Db) {
    forall id :: !Stranded(db, id)
  }

  /** The acceptance of a new rule that its draft, its name and its id allow, with calls enough to
      save the rule and too few to close the proposal. */
  predicate CutShort(db: Db, budget: nat, id: string, outcome: ReviewedAs, newId: string) {
    && id in db.proposals && !db.proposals[id].status.IsTerminal()
    && db.proposals[id].kind == NewRule && outcome.IsAcceptance() && db.proposals[id].ruleDraft.Some?
    && !HasRule(db.rules, db.proposals[id].ruleDraft.value.kind, newId)
    && !NameTaken(db.rules, db.proposals[id].ruleDraft.value.kind, CuratedName(id))
    && 2 <= budget <= 4
  }

  predicate CutsShort(db: Db, step: Step) {
    step.Decide? && CutShort(db, step.budget, step.id, step.outcome, step.newId)
  }

  /** Nothing is stranded by a decision that closes the proposal as accepted or adds no rule. */
  lemma NothingIsStranded(db: Db, after: Db, p: Proposal, outcome: ReviewedAs, built: Db)
    requires OnlyAcceptedHaveRules(db) && Open(db, p) && DecidedFrom(db, after, p, outcome, built)
    requires after.proposals[p.id].status == Accepted || |after.rules| == |db.rules|
    ensures OnlyAcceptedHaveRules(after)
  {
    forall id | id in after.proposals && Materialized(after, id)
      ensures after.proposals[id].status == Accepted
    {
      var x :| 0 <= x < |after.rules| && CuratedFor(after, after.rules[x], id);
      if x < |db.rules| {
        assert SameRule(db.rules[x], built.rules[x]);
        assert CuratedFor(db, db.rules[x], id);
        assert Materialized(db, id) && !Stranded(db, id);
      } else {
        assert NamedFor(p, built.rules[x]);
        CuratedNamesDiffer(id, p.id);
      }
    }
  }

  /** The new rule's three calls and the closing ones, by the number of calls there are: none gets
      to save the rule, some save it and do not close the proposal, enough close it. */
  lemma NewRuleByBudget(db: Db, budget: nat, p: Proposal, outcome: ReviewedAs, newId: string)
    requires Sound(db) && Open(db, p) && p.kind == NewRule && outcome.IsAcceptance() && p.ruleDraft.Some?
    ensures var after := ReviewOf(db, budget, p.id, outcome, newId).db;
            && (CutShort(db, budget, p.id, outcome, newId) ==> Open(after, p) && Materialized(after, p.id))
            && (!CutShort(db, budget, p.id, outcome, newId) ==>
                  after == db || (p.id in after.proposals && after.proposals[p.id].status == Accepted))
  {
    hide Sound;
    hide Materialized;
    var kind := p.ruleDraft.value.kind;
    if budget > 0 {
      DecisionInParts(db, budget, p, outcome, newId);
      NewRuleCalls(db, budget - 1, p, newId);
      MaterializeIsBuilding(p, newId);
      var ops := MaterializeOps(p, newId).value;
      var built := Perform(db, budget - 1, ops);
      hide MaterializeOps;
      hide ReviewOf;
      if !Permitted(db, ops[0]) {
      } else if budget == 1 {
        NoneGoes(db, ops);
      } else {
        FirstCallStays(db, budget - 1, p, ops);
        hide Perform;
        if built.ok {
          ClosingChangesOne(built.db, budget - 4, p, outcome);
        }
      }
      hide Permitted;
      hide Perform;
    }
  }

  lemma NoneGoes(db: Db, ops: seq<Op>)
    ensures Perform(db, 0, ops).db == db
  {
  }

  /** A decision on an open proposal leaves a rule without an accepted proposal exactly when it is
      an acceptance cut short between saving the rule and closing the proposal. */
  lemma DecisionStrandsIff(db: Db, budget: nat, p: Proposal, outcome: ReviewedAs, newId: string)
    requires Sound(db) && Open(db, p) && OnlyAcceptedHaveRules(db)
    ensures OnlyAcceptedHaveRules(ReviewOf(db, budget, p.id, outcome, newId).db)
       <==> !CutShort(db, budget, p.id, outcome, newId)
  {
    var after := ReviewOf(db, budget, p.id, outcome, newId).db;
    var built := DecisionLeaves(db, budget, p, outcome, newId);
    if p.kind == NewRule && outcome.IsAcceptance() && p.ruleDraft.Some? {
      NewRuleByBudget(db, budget, p, outcome, newId);
    } else if outcome.IsAcceptance() && p.kind == NewRule {
      DraftlessChangesNothing(db, budget, p, outcome, newId);
    }
    hide Sound;
    hide ReviewOf;
    hide OnlyAcceptedHaveRules;
    if CutShort(db, budget, p.id, outcome, newId) {
      assert Stranded(after, p.id);
      SomeStranded(after, p.id);
    } else if after != db {
      if !(p.kind == NewRule && outcome.IsAcceptance()) {
        NoneNamed(db, after, p, outcome, built);
      }
      NothingIsStranded(db, after, p, outcome, built);
    }
  }

  lemma DraftlessChangesNothing(db: Db, budget: nat, p: Proposal, outcome: ReviewedAs, newId: string)
    requires Open(db, p) && p.kind == NewRule && outcome.IsAcceptance() && p.ruleDraft.None?
    ensures ReviewOf(db, budget, p.id, outcome, newId).db == db
  {
  }

  lemma SomeStranded(db: Db, id: string)
    requires Stranded(db, id)
    ensures !OnlyAcceptedHaveRules(db)
  {
  }

  /** Only the acceptance of a new rule adds a rule. */
  lemma NoneNamed(db: Db, after: Db, p: Proposal, outcome: ReviewedAs, built: Db)
    requires DecidedFrom(db, after, p, outcome, built) && !(p.kind == NewRule && outcome.IsAcceptance())
    ensures |after.rules| == |db.rules|
  {
    if outcome.IsAcceptance() {
      assert |db.rules| < |built.rules| ==> NamedFor(p, built.rules[|db.rules|]);
    }
  }

  // ---- over whole runs ------------------------------------------------------------------------

  lemma QuietStrandsNothing(db: Db, after: Db)
    requires RulesMatch(db) && OnlyAcceptedHaveRules(db) && GrowsQuietly(db, after)
    ensures OnlyAcceptedHaveRules(after)
  {
    forall id | id in after.proposals && Materialized(after, id)
      ensures after.proposals[id].status == Accepted
    {
      var x :| 0 <= x < |after.rules| && CuratedFor(after, after.rules[x], id);
      assert HasOrigin(db, db.rules[x]);
      var origin :| origin in db.proposals && CuratedFor(db, db.rules[x], origin);
      CuratedNamesDiffer(id, origin);
      assert Materialized(db, id) && !Stranded(db, id);
    }
  }

  lemma ByHandStrandsNothing(db: Db, after: Db)
    requires OnlyAcceptedHaveRules(db) && KeepsRules(db, after) && |after.rules| == |db.rules|
    ensures OnlyAcceptedHaveRules(after)
  {
    forall id | id in after.proposals && Materialized(after, id)
      ensures after.proposals[id].status == Accepted
    {
      var x :| 0 <= x < |after.rules| && CuratedFor(after, after.rules[x], id);
      assert SameRule(db.rules[x], after.rules[x]);
      assert CuratedFor(db, db.rules[x], id);
      assert Materialized(db, id) && !Stranded(db, id);
    }
  }

  lemma StepStrandsIff(db: Db, step: Step, after: Db)
    requires Sound(db) && StepTo(db, step, after) && OnlyAcceptedHaveRules(db)
    ensures OnlyAcceptedHaveRules(after) <==> !CutsShort(db, step)
  {
    hide OnlyAcceptedHaveRules;
    if ByHand(step) {
      ByHandKeeps(db, step, after);
      ByHandStrandsNothing(db, after);
    } else if !step.Decide? {
      QuietSteps(db, step, after);
      QuietStrandsNothing(db, after);
    } else if step.id in db.proposals && !db.proposals[step.id].status.IsTerminal() {
      assert Open(db, db.proposals[step.id]);
      DecisionStrandsIff(db, step.budget, db.proposals[step.id], step.outcome, step.newId);
    } else {
      ClosedToDecisions(db, step.budget, step.id, step.outcome, step.newId);
    }
  }

  lemma RuleStays(db: Db, after: Db, id: string)
    requires OpenOnesChange(db, after) && RulesStay(db, after) && Materialized(db, id) && id in db.proposals
    ensures Materialized(after, id)
  {
    var x :| 0 <= x < |db.rules| && CuratedFor(db, db.rules[x], id);
    assert SameRule(db.rules[x], after.rules[x]);
    assert CuratedFor(after, after.rules[x], id);
  }

  /** A rule left behind stays behind: no step accepts its proposal or removes it. */
  lemma StrandedStays(db: Db, step: Step, after: Db, id: string)
    requires Sound(db) && StepTo(db, step, after) && Stranded(db, id)
    ensures Stranded(after, id)
  {
    TerminalIsFinal(db, step, after);
    RuleStays(db, after, id);
    if ByHand(step) {
      ByHandKeeps(db, step, after);
    } else if !step.Decide? {
      QuietSteps(db, step, after);
    } else if step.id in db.proposals && !db.proposals[step.id].status.IsTerminal() {
      var p := db.proposals[step.id];
      assert Open(db, p);
      var built := DecisionLeaves(db, step.budget, p, step.outcome, step.newId);
      if step.id == id && step.outcome.IsAcceptance() {
        var x :| 0 <= x < |db.rules| && CuratedFor(db, db.rules[x], id);
        InterruptedAcceptanceIsStuck(db, step.budget, p, step.outcome, step.newId);
      }
      hide Sound;
      hide Materialized;
    } else {
      ClosedToDecisions(db, step.budget, step.id, step.outcome, step.newId);
    }
  }

  /** In every run no rule is without its accepted proposal, if and only if no acceptance so far was
      cut short; after the first that is, there always is one. */
  lemma {:induction false} NothingStrandedIff(steps: seq<Step>, states: seq<Db>, k: nat)
    requires Run(steps, states) && k < |states|
    ensures OnlyAcceptedHaveRules(states[k]) <==> forall i :: 0 <= i < k ==> !CutsShort(states[i], steps[i])
  {
    hide Sound;
    hide StepTo;
    hide CutsShort;
    if k == 0 {
      assert forall id :: id !in EMPTY.proposals;
    } else {
      hide Run;
      var db, step, after := states[k - 1], steps[k - 1], states[k];
      NothingStrandedIff(steps, states, k - 1);
      StepOfRun(steps, states, k);
      hide Stranded;
      if OnlyAcceptedHaveRules(db) {
        StepStrandsIff(db, step, after);
        hide OnlyAcceptedHaveRules;
      } else {
        var id :| Stranded(db, id);
        StrandedStays(db, step, after, id);
        assert !OnlyAcceptedHaveRules(after);
      }
    }
  }

  /** In every run a new-rule proposal has its rule exactly when it is accepted, for all proposals, if
      and only if no acceptance so far was cut short. */
  lemma RuleIffAccepted(steps: seq<Step>, states: seq<Db>, k: nat)
    requires Run(steps, states) && k < |states|
    ensures (forall id :: id in states[k].proposals && states[k].proposals[id].kind == NewRule ==>
               (Materialized(states[k], id) <==> states[k].proposals[id].status == Accepted))
       <==> (forall i :: 0 <= i < k ==> !CutsShort(states[i], steps[i]))
  {
    EveryRun(steps, states, k);
    NothingStrandedIff(steps, states, k);
    hide CutsShort;
    hide Run;
    var db := states[k];
    if forall id :: id in db.proposals && db.proposals[id].kind == NewRule ==>
      (Materialized(db, id) <==> db.proposals[id].status == Accepted) {
      forall id
        ensures !Stranded(db, id)
      {
        if Stranded(db, id) {
          MaterializedIsNewRule(db, id);
        }
      }
    } else {
      var id :| id in db.proposals && db.proposals[id].kind == NewRule
        && !(Materialized(db, id) <==> db.proposals[id].status == Accepted);
      assert Stranded(db, id);
    }
  }

  lemma MaterializedIsNewRule(db: Db, id: string)
    requires Materialized(db, id)
    ensures id in db.proposals && db.proposals[id].kind == NewRule
  {
  }

  /** The database after the model's one proposal is saved. */
  function WithOne(p: Proposal): Db {
    EMPTY.(proposals := map[p.id := p], audit := [AuditEntry(RuleProposed, Some(p.id), None)])
  }

  lemma OneIsSaved(p: Proposal)
    ensures Perform(EMPTY, 2, Curator.SaveOps([p])) == Performed(WithOne(p), true)
  {
    var save, audit := SaveProposal(p, []), Curator.ProposedAudit(p.id);
    assert [p][..0] == [];
    assert Curator.SaveOps([p]) == [save] + [audit];
    assert [audit] + [] == [audit];
    PerformFirst(EMPTY, 2, save, [audit]);
    PerformFirst(Apply(EMPTY, save), 1, audit, []);
    assert EMPTY.evidence + [] == EMPTY.evidence;
    hide Perform;
  }

  lemma OneIsKept(c: Curator.Setting, request: Curator.Request, dto: Curator.ProposalDto)
    requires Curator.Keeps(request, dto)
    ensures Curator.KeptProposals(c, request, [dto])
         == [Curator.Curated(c.text, dto, c.engineRules, c.newId(0), c.source)]
  {
    hide Curator.Curated;
    assert [dto][..0] == [];
  }

  lemma TwoCallsPerProposal(p: Proposal)
    ensures |Curator.SaveOps([p])| == 2
  {
    assert [p][..0] == [];
  }

  /** A pass that saves one proposal and scans nothing, with just the calls it takes. */
  lemma OneIsCurated(c: Curator.Setting, request: Curator.Request, dtos: seq<Curator.ProposalDto>, p: Proposal)
    requires request.WantsModel() && !request.Wants(Curator.DetectConflictsOp)
    requires Curator.KeptProposals(c, request, dtos) == [p]
    ensures Curator.CuratesTo(EMPTY, Curator.ReadsOf(request) + 2, c, request, Some(dtos),
                              Ok(Curator.CuratorReport([p], [])), WithOne(p))
  {
    hide Perform;
    hide Curator.SaveOps;
    hide Curator.ReadsOf;
    hide Curator.KeptProposals;
    OneIsSaved(p);
    TwoCallsPerProposal(p);
    NothingRecorded(WithOne(p));
    hide WithOne;
    hide Recorded;
    hide PartlyRecorded;
  }

  lemma ModelProposesOne(c: Curator.Setting, dto: Curator.ProposalDto) returns (step: Step)
    requires dto.kind == NewRule
    ensures StepTo(EMPTY, step, WithOne(Curator.Curated(c.text, dto, c.engineRules, c.newId(0), c.source)))
  {
    hide Curator.Curated;
    hide Curator.CuratesTo;
    hide Curator.ReadsOf;
    hide Curator.KeptProposals;
    hide WithOne;
    var request := Curator.Request([Curator.CuratorOperation.Propose], None);
    assert request.WantsModel() by {
      assert Curator.CuratorOperation.Propose in request.operations;
    }
    OneIsKept(c, request, dto);
    OneIsCurated(c, request, [dto], Curator.Curated(c.text, dto, c.engineRules, c.newId(0), c.source));
    step := Curate(c, request, Some([dto]), Curator.ReadsOf(request) + 2);
  }

  /** It does happen: any rule the model drafts is left behind by the run in which its proposal is
      saved and its acceptance gets two to four calls. */
  lemma AnyDraftCanBeStranded(c: Curator.Setting, dto: Curator.ProposalDto, newId: string, budget: nat)
    returns (steps: seq<Step>, states: seq<Db>)
    requires dto.kind == NewRule && dto.ruleDraft.Some? && 2 <= budget <= 4
    ensures Run(steps, states) && |states| == 3 && Stranded(states[2], c.newId(0))
  {
    var p := Curator.Curated(c.text, dto, c.engineRules, c.newId(0), c.source);
    var id := c.newId(0);
    assert p.id == id && p.kind == NewRule && p.ruleDraft.Some? && p.status == PendingReview;
    hide Curator.Curated;
    hide Curator.CuratesTo;
    var first := ModelProposesOne(c, dto);
    var db := WithOne(p);
    var after := ReviewOf(db, budget, id, AcceptedAsIs, newId).db;
    var second := Decide(id, AcceptedAsIs, newId, budget);
    assert StepTo(db, second, after);
    steps, states := [first, second], [EMPTY, db, after];
    hide StepTo;
    StepOfRun(steps, states, 2);
    assert CutShort(db, budget, id, AcceptedAsIs, newId);
    NewRuleByBudget(db, budget, p, AcceptedAsIs, newId);
  }
}
