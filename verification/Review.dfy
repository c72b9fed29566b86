/** A human's decision on a proposal: the only place where proposed rules are created, through a
    series of store calls any of which may fail. */
module Review {
  import opened Common
  import opened Rules
  import opened Proposals
  import opened Stores

  datatype ReviewError = NotFound | AlreadyReviewed | MissingDraft | StoreFailed

  /** The status a proposal is left in, and the rule created for it. */
  datatype Decided = Decided(status: ProposalStatus, created: Option<string>)

  function CuratedName(id: string): string {
    "curated-" + id
  }

  function CuratedWorkflowName(id: string): string {
    "curated-wf-" + id
  }

  function NewContent(p: Proposal, draft: RuleDraft, reason: string): Content {
    Content(draft.condition, draft.effect, p.risk, reason + p.id)
  }

  function StatusAudit(p: Proposal, ruleId: string): Op {
    AppendAudit(AuditEntry(RuleStatusChanged, Some(p.id), Some(ruleId)))
  }

  function WorkflowAudit(p: Proposal): Op {
    AppendAudit(AuditEntry(WorkflowStatusChanged, Some(p.id), None))
  }

  /** The calls that carry out what an accepted proposal recommends, or None when the draft it
      needs is missing. `newId` is the id a created row gets. */
  function MaterializeOps(p: Proposal, newId: string): Option<seq<Op>> {
    match p.kind
    case NewRule =>
      if p.ruleDraft.None? then None
      else
        var draft := p.ruleDraft.value;
        Some([SaveRuleDraft(draft.kind, newId, CuratedName(p.id), draft.scope,
                            NewContent(p, draft, "accepted from proposal ")),
              UpdateRuleStatus(draft.kind, newId, p.recommended), StatusAudit(p, newId)])
    case RefineRule =>
      if p.targetRuleId.Some? && p.targetRuleKind.Some? && p.ruleDraft.Some? then
        Some([CreateRuleVersion(p.targetRuleKind.value, p.targetRuleId.value,
                                NewContent(p, p.ruleDraft.value, "refined via proposal ")),
              StatusAudit(p, p.targetRuleId.value)])
      else Some([])
    case RetireRule =>
      if p.targetRuleId.Some? && p.targetRuleKind.Some? then
        Some([UpdateRuleStatus(p.targetRuleKind.value, p.targetRuleId.value, Retired),
              StatusAudit(p, p.targetRuleId.value)])
      else Some([])
    case NewWorkflow =>
      if p.workflowDraft.None? then None
      else
        Some([SaveWorkflowDraft(newId, CuratedWorkflowName(p.id), p.workflowDraft.value),
              UpdateWorkflowStatus(newId, p.recommended), WorkflowAudit(p)])
    case RetireWorkflow =>
      if p.targetWorkflowId.Some? then
        Some([UpdateWorkflowStatus(p.targetWorkflowId.value, Retired), WorkflowAudit(p)])
      else Some([])
    case RefineWorkflowCadence => Some(RefineWorkflowOps(p))
    case RefineWorkflowStopCondition => Some(RefineWorkflowOps(p))
    case MergeRules => Some([])
    case SplitRule => Some([])
    case SuggestEnrollment => Some([])
  }

  function RefineWorkflowOps(p: Proposal): seq<Op> {
    if p.targetWorkflowId.Some? && p.workflowDraft.Some?
    then [CreateWorkflowVersion(p.targetWorkflowId.value, p.workflowDraft.value), WorkflowAudit(p)]
    else []
  }

  function Created(p: Proposal, newId: string): Option<string> {
    if p.kind.NewRule? then Some(newId) else None
  }

  function NewStatus(outcome: ReviewedAs): ProposalStatus {
    if outcome.IsAcceptance() then Accepted else ProposalStatus.Rejected
  }

  /** The calls that record a decision. */
  function ClosingOps(p: Proposal, outcome: ReviewedAs): seq<Op> {
    [SetProposalStatus(p.id, NewStatus(outcome)), AppendFeedback(FeedbackRow(p.id, outcome)),
     AppendAudit(AuditEntry(ProposalReviewed, Some(p.id), None))]
  }

  /** All the calls a decision makes after reading the proposal. */
  function DecisionOps(p: Proposal, outcome: ReviewedAs, newId: string): Option<seq<Op>> {
    if outcome.IsAcceptance() then
      match MaterializeOps(p, newId)
      case None => None
      case Some(ops) => Some(ops + ClosingOps(p, outcome))
    else Some(ClosingOps(p, outcome))
  }

  /** The outcome of a review: the database after it and the answer. */
  datatype Outcome = Outcome(db: Db, result: Result<Decided, ReviewError>)

  function ReviewOf(db: Db, budget: nat, id: string, outcome: ReviewedAs, newId: string): Outcome {
    if budget == 0 then Outcome(db, Err(StoreFailed))
    else if id !in db.proposals then Outcome(db, Err(NotFound))
    else if db.proposals[id].status.IsTerminal() then Outcome(db, Err(AlreadyReviewed))
    else
      var p := db.proposals[id];
      match DecisionOps(p, outcome, newId)
      case None => Outcome(db, Err(MissingDraft))
      case Some(ops) =>
        var performed := Perform(db, budget - 1, ops);
        Outcome(performed.db,
                if performed.ok
                then Ok(Decided(NewStatus(outcome), if outcome.IsAcceptance() then Created(p, newId) else None))
                else Err(StoreFailed))
  }

  // ---- step by step -----------------------------------------------------------------------

  method RefineWorkflow(store: Store, p: Proposal) returns (ok: bool)
    modifies store
    ensures Performed(store.db, ok) == Perform(old(store.db), old(store.budget), RefineWorkflowOps(p))
    ensures ok ==> store.budget + |RefineWorkflowOps(p)| == old(store.budget)
  {
    if p.targetWorkflowId.Some? && p.workflowDraft.Some? {
      ok := DoBoth(store, CreateWorkflowVersion(p.targetWorkflowId.value, p.workflowDraft.value), WorkflowAudit(p));
    } else {
      ok := true;
    }
  }

  /** Carries out an accepted proposal. */
  method Materialize(store: Store, p: Proposal, newId: string) returns (r: Result<Option<string>, ReviewError>)
    modifies store
    ensures MaterializeOps(p, newId).None? ==>
      r == Err(MissingDraft) && store.db == old(store.db) && store.budget == old(store.budget)
    ensures MaterializeOps(p, newId).Some? ==>
      var performed := Perform(old(store.db), old(store.budget), MaterializeOps(p, newId).value);
      && store.db == performed.db
      && r == (if performed.ok then Ok(Created(p, newId)) else Err(StoreFailed))
      && (performed.ok ==> store.budget + |MaterializeOps(p, newId).value| == old(store.budget))
  {
    hide Perform;
    NothingToDo(store.db, store.budget);
    var ok := true;
    match p.kind {
      case NewRule =>
        if p.ruleDraft.None? {
          return Err(MissingDraft);
        }
        var draft := p.ruleDraft.value;
        ok := DoThree(store,
          SaveRuleDraft(draft.kind, newId, "curated-" + p.id, draft.scope,
                        NewContent(p, draft, "accepted from proposal ")),
          UpdateRuleStatus(draft.kind, newId, p.recommended), StatusAudit(p, newId));
      case RefineRule =>
        if p.targetRuleId.Some? && p.targetRuleKind.Some? && p.ruleDraft.Some? {
          ok := DoBoth(store,
            CreateRuleVersion(p.targetRuleKind.value, p.targetRuleId.value,
                              NewContent(p, p.ruleDraft.value, "refined via proposal ")),
            StatusAudit(p, p.targetRuleId.value));
        }
      case RetireRule =>
        if p.targetRuleId.Some? && p.targetRuleKind.Some? {
          ok := DoBoth(store, UpdateRuleStatus(p.targetRuleKind.value, p.targetRuleId.value, Retired),
            StatusAudit(p, p.targetRuleId.value));
        }
      case NewWorkflow =>
        if p.workflowDraft.None? {
          return Err(MissingDraft);
        }
        ok := DoThree(store, SaveWorkflowDraft(newId, "curated-wf-" + p.id, p.workflowDraft.value),
          UpdateWorkflowStatus(newId, p.recommended), WorkflowAudit(p));
      case RetireWorkflow =>
        if p.targetWorkflowId.Some? {
          ok := DoBoth(store, UpdateWorkflowStatus(p.targetWorkflowId.value, Retired), WorkflowAudit(p));
        }
      case MergeRules =>
      case SplitRule =>
      case SuggestEnrollment =>
      case RefineWorkflowCadence => ok := RefineWorkflow(store, p);
      case RefineWorkflowStopCondition => ok := RefineWorkflow(store, p);
    }
    r := if ok then Ok(Created(p, newId)) else Err(StoreFailed);
  }

  lemma NothingToDo(db: Db, budget: nat)
    ensures Perform(db, budget, []) == Performed(db, true)
  {
  }

  method ReviewProposal(store: Store, id: string, outcome: ReviewedAs, newId: string)
    returns (r: Result<Decided, ReviewError>)
    modifies store
    ensures Outcome(store.db, r) == ReviewOf(old(store.db), old(store.budget), id, outcome, newId)
  {
    hide Perform;
    var ok := store.Do(Read);
    if !ok {
      return Err(StoreFailed);
    }
    if id !in store.db.proposals {
      return Err(NotFound);
    }
    var p := store.db.proposals[id];
    if p.status.IsTerminal() {
      return Err(AlreadyReviewed);
    }
    ghost var db, budget := store.db, store.budget;
    var status, created := ProposalStatus.Rejected, None;
    if outcome.IsAcceptance() {
      if MaterializeOps(p, newId).Some? {
        PerformAppend(db, budget, MaterializeOps(p, newId).value, ClosingOps(p, outcome));
      }
      hide MaterializeOps;
      var materialized := Materialize(store, p, newId);
      if materialized.Err? {
        return Err(materialized.error);
      }
      status, created := Accepted, materialized.value;
    }
    hide ClosingOps;
    assert ClosingOps(p, outcome) ==
           [SetProposalStatus(p.id, status), AppendFeedback(FeedbackRow(p.id, outcome)),
            AppendAudit(AuditEntry(ProposalReviewed, Some(p.id), None))] by {
      ClosingIs(p, outcome);
    }
    ok := DoThree(store, SetProposalStatus(p.id, status), AppendFeedback(FeedbackRow(p.id, outcome)),
      AppendAudit(AuditEntry(ProposalReviewed, Some(p.id), None)));
    if !ok {
      return Err(StoreFailed);
    }
    return Ok(Decided(status, created));
  }

  lemma ClosingIs(p: Proposal, outcome: ReviewedAs)
    ensures ClosingOps(p, outcome) ==
            [SetProposalStatus(p.id, NewStatus(outcome)), AppendFeedback(FeedbackRow(p.id, outcome)),
             AppendAudit(AuditEntry(ProposalReviewed, Some(p.id), None))]
  {
  }
}
