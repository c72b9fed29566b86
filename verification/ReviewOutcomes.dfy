/** What a review that goes through leaves behind, kind by kind: the whole new database. */
module ReviewOutcomes {
  import opened Common
  import opened Rules
  import opened Proposals
  import opened Stores
  import opened Review

  predicate Stored(db: Db, p: Proposal) {
    p.id in db.proposals && db.proposals[p.id] == p
  }

  /** The database with the proposal closed: its status, one more feedback row and one more audit
      entry. */
  function ClosedDb(db: Db, p: Proposal, status: ProposalStatus, outcome: ReviewedAs): Db {
    db.(proposals := db.proposals[p.id := p.(status := status)],
        feedback := db.feedback + [FeedbackRow(p.id, outcome)],
        audit := db.audit + [AuditEntry(ProposalReviewed, Some(p.id), None)])
  }

  lemma FirstSucceeds(db: Db, budget: nat, op: Op, rest: seq<Op>)
    requires Perform(db, budget, [op] + rest).ok
    ensures budget > 0 && Permitted(db, op)
    ensures Perform(db, budget, [op] + rest) == Perform(Apply(db, op), budget - 1, rest)
  {
    PerformFirst(db, budget, op, rest);
  }

  /** The closing calls record the decision: status, feedback row and audit entry. */
  lemma Closed(db: Db, budget: nat, p: Proposal, outcome: ReviewedAs)
    requires Stored(db, p) && Perform(db, budget, ClosingOps(p, outcome)).ok
    ensures Perform(db, budget, ClosingOps(p, outcome)).db
         == ClosedDb(db, p, if outcome.IsAcceptance() then Accepted else ProposalStatus.Rejected, outcome)
  {
    var op1, op2 := SetProposalStatus(p.id, NewStatus(outcome)), AppendFeedback(FeedbackRow(p.id, outcome));
    var op3 := AppendAudit(AuditEntry(ProposalReviewed, Some(p.id), None));
    ClosingIs(p, outcome);
    assert [op1, op2, op3] == [op1] + [op2, op3] && [op2, op3] == [op2] + [op3] && [op3] == [op3] + [];
    hide Perform;
    FirstSucceeds(db, budget, op1, [op2, op3]);
    FirstSucceeds(Apply(db, op1), budget - 1, op2, [op3]);
    FirstSucceeds(Apply(Apply(db, op1), op2), budget - 2, op3, []);
    NothingToDo(Apply(Apply(Apply(db, op1), op2), op3), budget - 3);
  }

  /** A review that accepts and goes through has carried out the proposal and then closed it. */
  lemma BuiltThenClosed(db: Db, budget: nat, p: Proposal, outcome: ReviewedAs, newId: string)
    requires Stored(db, p) && outcome.IsAcceptance() && ReviewOf(db, budget, p.id, outcome, newId).result.Ok?
    ensures budget > 0 && MaterializeOps(p, newId).Some?
    ensures var built := Perform(db, budget - 1, MaterializeOps(p, newId).value);
            && built.ok
            && (Stored(built.db, p) ==>
                  ReviewOf(db, budget, p.id, outcome, newId).db == ClosedDb(built.db, p, Accepted, outcome))
  {
    var ops := MaterializeOps(p, newId).value;
    PerformAppend(db, budget - 1, ops, ClosingOps(p, outcome));
    var built := Perform(db, budget - 1, ops);
    if built.ok && Stored(built.db, p) {
      Closed(built.db, budget - 1 - |ops|, p, outcome);
    }
    hide Perform;
    hide MaterializeOps;
    hide ClosingOps;
  }

  lemma TwoSucceed(db: Db, budget: nat, op1: Op, op2: Op)
    requires Perform(db, budget, [op1, op2]).ok
    ensures Permitted(db, op1) && Permitted(Apply(db, op1), op2)
    ensures Perform(db, budget, [op1, op2]).db == Apply(Apply(db, op1), op2)
  {
    assert [op1, op2] == [op1] + [op2] && [op2] == [op2] + [];
    hide Apply;
    hide Permitted;
    FirstSucceeds(db, budget, op1, [op2]);
    FirstSucceeds(Apply(db, op1), budget - 1, op2, []);
  }

  lemma ThreeSucceed(db: Db, budget: nat, op1: Op, op2: Op, op3: Op)
    requires Perform(db, budget, [op1, op2, op3]).ok
    ensures Permitted(db, op1) && Permitted(Apply(db, op1), op2) && Permitted(Apply(Apply(db, op1), op2), op3)
    ensures Perform(db, budget, [op1, op2, op3]).db == Apply(Apply(Apply(db, op1), op2), op3)
  {
    assert [op1, op2, op3] == [op1] + [op2, op3];
    hide Apply;
    hide Permitted;
    FirstSucceeds(db, budget, op1, [op2, op3]);
    TwoSucceed(Apply(db, op1), budget - 1, op2, op3);
  }

  /** The three calls of a new rule: the drafted rule is there, in the recommended status, with one
      version that says what the draft says; nothing else has changed but the audit log. */
  lemma NewRuleIsItsDraft(db: Db, budget: nat, p: Proposal, newId: string)
    requires p.kind == NewRule && MaterializeOps(p, newId).Some?
    requires Perform(db, budget, MaterializeOps(p, newId).value).ok
    ensures p.ruleDraft.Some? && !HasRule(db.rules, p.ruleDraft.value.kind, newId)
    ensures var draft := p.ruleDraft.value;
            var content := Content(draft.condition, draft.effect, p.risk, "accepted from proposal " + p.id);
            Perform(db, budget, MaterializeOps(p, newId).value).db
            == db.(rules := db.rules
                            + [StoredRule(draft.kind, newId, "curated-" + p.id, draft.scope, p.recommended, [content])],
                   audit := db.audit + [AuditEntry(RuleStatusChanged, Some(p.id), Some(newId))])
  {
    var draft := p.ruleDraft.value;
    var content := Content(draft.condition, draft.effect, p.risk, "accepted from proposal " + p.id);
    var save := SaveRuleDraft(draft.kind, newId, "curated-" + p.id, draft.scope, content);
    var set_ := UpdateRuleStatus(draft.kind, newId, p.recommended);
    var audit := AppendAudit(AuditEntry(RuleStatusChanged, Some(p.id), Some(newId)));
    assert MaterializeOps(p, newId).value == [save, set_, audit];
    hide Perform;
    ThreeSucceed(db, budget, save, set_, audit);
    var saved := StoredRule(draft.kind, newId, "curated-" + p.id, draft.scope, Draft, [content]);
    StatusOfTheNewOne(db.rules, saved, p.recommended);
    hide HasRule;
    hide NameTaken;
    hide MaterializeOps;
  }

  lemma StatusOfTheNewOne(rules: seq<StoredRule>, rule: StoredRule, status: RuleStatus)
    requires !HasRule(rules, rule.kind, rule.id)
    ensures EachWithStatus(rules + [rule], rule.kind, rule.id, status) == rules + [rule.(status := status)]
  {
  }

  /** Accepting a new rule, when it goes through, leaves exactly one more rule: of the draft's kind and
      scope, in the recommended status, whose one version has the draft's condition and effect and
      the proposal's risk; and the decision on record. */
  lemma AcceptedRuleIsItsDraft(db: Db, budget: nat, p: Proposal, outcome: ReviewedAs, newId: string)
    requires Stored(db, p) && p.kind == NewRule && outcome.IsAcceptance()
    requires ReviewOf(db, budget, p.id, outcome, newId).result.Ok?
    ensures p.ruleDraft.Some? && !HasRule(db.rules, p.ruleDraft.value.kind, newId)
    ensures var draft := p.ruleDraft.value;
            var content := Content(draft.condition, draft.effect, p.risk, "accepted from proposal " + p.id);
            var rule := StoredRule(draft.kind, newId, "curated-" + p.id, draft.scope, p.recommended, [content]);
            ReviewOf(db, budget, p.id, outcome, newId)
            == Outcome(db.(proposals := db.proposals[p.id := p.(status := Accepted)],
                           rules := db.rules + [rule],
                           feedback := db.feedback + [FeedbackRow(p.id, outcome)],
                           audit := db.audit + [AuditEntry(RuleStatusChanged, Some(p.id), Some(newId)),
                                                AuditEntry(ProposalReviewed, Some(p.id), None)]),
                       Ok(Decided(Accepted, Some(newId))))
  {
    BuiltThenClosed(db, budget, p, outcome, newId);
    NewRuleIsItsDraft(db, budget - 1, p, newId);
    AnswerOfReview(db, budget, p, outcome, newId);
    TwoAudits(db.audit, AuditEntry(RuleStatusChanged, Some(p.id), Some(newId)),
              AuditEntry(ProposalReviewed, Some(p.id), None));
    hide Perform;
    hide MaterializeOps;
    hide ReviewOf;
    hide HasRule;
  }

  lemma TwoAudits(audit: seq<AuditEntry>, a: AuditEntry, b: AuditEntry)
    ensures audit + [a] + [b] == audit + [a, b]
  {
  }

  /** What a review answers: the status decided and, for a new rule accepted, its id. */
  lemma AnswerOfReview(db: Db, budget: nat, p: Proposal, outcome: ReviewedAs, newId: string)
    requires Stored(db, p) && ReviewOf(db, budget, p.id, outcome, newId).result.Ok?
    ensures ReviewOf(db, budget, p.id, outcome, newId).result
         == Ok(if !outcome.IsAcceptance() then Decided(ProposalStatus.Rejected, None)
               else if p.kind == NewRule then Decided(Accepted, Some(newId))
               else Decided(Accepted, None))
  {
  }

  /** Accepting a refinement, when it goes through, gives the target one more version, last, with the
      draft's condition and effect and the proposal's risk, and changes no other rule. */
  lemma AcceptedRefinementIsItsDraft(db: Db, budget: nat, p: Proposal, outcome: ReviewedAs, newId: string)
    requires Stored(db, p) && p.kind == RefineRule && outcome.IsAcceptance()
    requires p.ruleDraft.Some? && p.targetRuleKind.Some? && p.targetRuleId.Some?
    requires ReviewOf(db, budget, p.id, outcome, newId).result.Ok?
    ensures var after := ReviewOf(db, budget, p.id, outcome, newId).db;
            var draft, kind, target := p.ruleDraft.value, p.targetRuleKind.value, p.targetRuleId.value;
            && HasRule(db.rules, kind, target) && |after.rules| == |db.rules|
            && forall x :: 0 <= x < |db.rules| ==>
                 after.rules[x]
                 == if db.rules[x].kind == kind && db.rules[x].id == target
                    then db.rules[x].(versions := db.rules[x].versions
                           + [Content(draft.condition, draft.effect, p.risk, "refined via proposal " + p.id)])
                    else db.rules[x]
    ensures var after := ReviewOf(db, budget, p.id, outcome, newId).db;
            after == ClosedDb(db, p, Accepted, outcome)
                     .(rules := after.rules,
                       audit := db.audit + [AuditEntry(RuleStatusChanged, Some(p.id), Some(p.targetRuleId.value)),
                                            AuditEntry(ProposalReviewed, Some(p.id), None)])
  {
    var draft, kind, target := p.ruleDraft.value, p.targetRuleKind.value, p.targetRuleId.value;
    var content := Content(draft.condition, draft.effect, p.risk, "refined via proposal " + p.id);
    var audit := AuditEntry(RuleStatusChanged, Some(p.id), Some(target));
    BuiltThenClosed(db, budget, p, outcome, newId);
    assert MaterializeOps(p, newId).value == [CreateRuleVersion(kind, target, content), AppendAudit(audit)];
    hide Perform;
    hide MaterializeOps;
    hide ReviewOf;
    TwoSucceed(db, budget - 1, CreateRuleVersion(kind, target, content), AppendAudit(audit));
    TwoAudits(db.audit, audit, AuditEntry(ProposalReviewed, Some(p.id), None));
    hide HasRule;
  }

  /** Accepting a retirement, when it goes through, leaves the target retired and no other rule
      changed. */
  lemma AcceptedRetirementRetires(db: Db, budget: nat, p: Proposal, outcome: ReviewedAs, newId: string)
    requires Stored(db, p) && p.kind == RetireRule && outcome.IsAcceptance()
    requires p.targetRuleKind.Some? && p.targetRuleId.Some?
    requires ReviewOf(db, budget, p.id, outcome, newId).result.Ok?
    ensures var after := ReviewOf(db, budget, p.id, outcome, newId).db;
            var kind, target := p.targetRuleKind.value, p.targetRuleId.value;
            && |after.rules| == |db.rules|
            && forall x :: 0 <= x < |db.rules| ==>
                 after.rules[x]
                 == if db.rules[x].kind == kind && db.rules[x].id == target
                    then db.rules[x].(status := Retired) else db.rules[x]
    ensures var after := ReviewOf(db, budget, p.id, outcome, newId).db;
            after == ClosedDb(db, p, Accepted, outcome)
                     .(rules := after.rules,
                       audit := db.audit + [AuditEntry(RuleStatusChanged, Some(p.id), Some(p.targetRuleId.value)),
                                            AuditEntry(ProposalReviewed, Some(p.id), None)])
  {
    var kind, target := p.targetRuleKind.value, p.targetRuleId.value;
    var audit := AuditEntry(RuleStatusChanged, Some(p.id), Some(target));
    BuiltThenClosed(db, budget, p, outcome, newId);
    assert MaterializeOps(p, newId).value == [UpdateRuleStatus(kind, target, Retired), AppendAudit(audit)];
    hide Perform;
    hide MaterializeOps;
    hide ReviewOf;
    TwoSucceed(db, budget - 1, UpdateRuleStatus(kind, target, Retired), AppendAudit(audit));
    TwoAudits(db.audit, audit, AuditEntry(ProposalReviewed, Some(p.id), None));
  }

  /** Accepting a new workflow, when it goes through, leaves exactly one more, in the recommended
      status, with the drafted version. */
  lemma AcceptedWorkflowIsItsDraft(db: Db, budget: nat, p: Proposal, outcome: ReviewedAs, newId: string)
    requires Stored(db, p) && p.kind == NewWorkflow && outcome.IsAcceptance()
    requires ReviewOf(db, budget, p.id, outcome, newId).result.Ok?
    ensures p.workflowDraft.Some?
    ensures var workflow := StoredWorkflow(newId, "curated-wf-" + p.id, p.recommended, [p.workflowDraft.value]);
            ReviewOf(db, budget, p.id, outcome, newId).db
            == ClosedDb(db, p, Accepted, outcome)
               .(workflows := db.workflows + [workflow],
                 audit := db.audit + [AuditEntry(WorkflowStatusChanged, Some(p.id), None),
                                      AuditEntry(ProposalReviewed, Some(p.id), None)])
  {
    BuiltThenClosed(db, budget, p, outcome, newId);
    var draft := p.workflowDraft.value;
    var save := SaveWorkflowDraft(newId, "curated-wf-" + p.id, draft);
    var set_ := UpdateWorkflowStatus(newId, p.recommended);
    var audit := AuditEntry(WorkflowStatusChanged, Some(p.id), None);
    assert MaterializeOps(p, newId).value == [save, set_, AppendAudit(audit)];
    hide Perform;
    hide MaterializeOps;
    hide ReviewOf;
    ThreeSucceed(db, budget - 1, save, set_, AppendAudit(audit));
    StatusOfTheNewWorkflow(db.workflows, StoredWorkflow(newId, "curated-wf-" + p.id, Draft, [draft]), p.recommended);
    TwoAudits(db.audit, audit, AuditEntry(ProposalReviewed, Some(p.id), None));
    hide HasWorkflow;
    hide WorkflowNameTaken;
  }

  lemma StatusOfTheNewWorkflow(workflows: seq<StoredWorkflow>, w: StoredWorkflow, status: RuleStatus)
    requires !HasWorkflow(workflows, w.id)
    ensures EachWorkflowWithStatus(workflows + [w], w.id, status) == workflows + [w.(status := status)]
  {
  }

  /** Accepting a change of a workflow, when it goes through: a refinement adds the drafted version to
      the target, a retirement retires it, and no other workflow and no rule changes. */
  lemma AcceptedWorkflowChange(db: Db, budget: nat, p: Proposal, outcome: ReviewedAs, newId: string)
    requires Stored(db, p) && outcome.IsAcceptance() && p.targetWorkflowId.Some?
    requires p.kind == RetireWorkflow
          || (p.kind in {RefineWorkflowCadence, RefineWorkflowStopCondition} && p.workflowDraft.Some?)
    requires ReviewOf(db, budget, p.id, outcome, newId).result.Ok?
    ensures var after := ReviewOf(db, budget, p.id, outcome, newId).db;
            && |after.workflows| == |db.workflows|
            && forall x :: 0 <= x < |db.workflows| ==>
                 after.workflows[x]
                 == if db.workflows[x].id != p.targetWorkflowId.value then db.workflows[x]
                    else if p.kind == RetireWorkflow then db.workflows[x].(status := Retired)
                    else db.workflows[x].(versions := db.workflows[x].versions + [p.workflowDraft.value])
    ensures var after := ReviewOf(db, budget, p.id, outcome, newId).db;
            after == ClosedDb(db, p, Accepted, outcome)
                     .(workflows := after.workflows,
                       audit := db.audit + [AuditEntry(WorkflowStatusChanged, Some(p.id), None),
                                            AuditEntry(ProposalReviewed, Some(p.id), None)])
  {
    var target := p.targetWorkflowId.value;
    var op := if p.kind == RetireWorkflow then UpdateWorkflowStatus(target, Retired)
              else CreateWorkflowVersion(target, p.workflowDraft.value);
    var audit := AuditEntry(WorkflowStatusChanged, Some(p.id), None);
    BuiltThenClosed(db, budget, p, outcome, newId);
    assert MaterializeOps(p, newId).value == [op, AppendAudit(audit)];
    hide Perform;
    hide MaterializeOps;
    hide ReviewOf;
    TwoSucceed(db, budget - 1, op, AppendAudit(audit));
    TwoAudits(db.audit, audit, AuditEntry(ProposalReviewed, Some(p.id), None));
    hide HasWorkflow;
  }

  /** Everything else only closes the proposal: a rejection, a proposal that needs a manual
      restructuring, an enrolment, and a change that names no target or has no draft. */
  predicate OnlyCloses(p: Proposal, outcome: ReviewedAs) {
    || outcome.RejectedOutright? || outcome.DisabledLater?
    || p.kind.MergeRules? || p.kind.SplitRule? || p.kind.SuggestEnrollment?
    || (p.kind.RefineRule? && (p.targetRuleId.None? || p.targetRuleKind.None? || p.ruleDraft.None?))
    || (p.kind.RetireRule? && (p.targetRuleId.None? || p.targetRuleKind.None?))
    || (p.kind.RetireWorkflow? && p.targetWorkflowId.None?)
    || ((p.kind.RefineWorkflowCadence? || p.kind.RefineWorkflowStopCondition?)
        && (p.targetWorkflowId.None? || p.workflowDraft.None?))
  }

  lemma OtherReviewsOnlyClose(db: Db, budget: nat, p: Proposal, outcome: ReviewedAs, newId: string)
    requires Stored(db, p) && OnlyCloses(p, outcome) && ReviewOf(db, budget, p.id, outcome, newId).result.Ok?
    ensures ReviewOf(db, budget, p.id, outcome, newId).db
         == ClosedDb(db, p, if outcome.AcceptedAsIs? || outcome.AcceptedWithEdits? then Accepted
                            else ProposalStatus.Rejected, outcome)
  {
    if outcome.IsAcceptance() {
      BuiltThenClosed(db, budget, p, outcome, newId);
      assert MaterializeOps(p, newId).value == [];
      NothingToDo(db, budget - 1);
    } else {
      Closed(db, budget - 1, p, outcome);
    }
    hide Perform;
  }

  /** Why a review is refused before anything changes. */
  lemma RefusedReview(db: Db, budget: nat, id: string, outcome: ReviewedAs, newId: string)
    requires budget > 0
    ensures var r := ReviewOf(db, budget, id, outcome, newId);
            && (r.result == Err(NotFound) <==> id !in db.proposals)
            && (r.result == Err(AlreadyReviewed) <==>
                  id in db.proposals && (db.proposals[id].status.Accepted? || db.proposals[id].status.Rejected?))
            && (r.result == Err(MissingDraft) <==>
                  && id in db.proposals && !db.proposals[id].status.Accepted? && !db.proposals[id].status.Rejected?
                  && (outcome.AcceptedAsIs? || outcome.AcceptedWithEdits?)
                  && ((db.proposals[id].kind.NewRule? && db.proposals[id].ruleDraft.None?)
                      || (db.proposals[id].kind.NewWorkflow? && db.proposals[id].workflowDraft.None?)))
            && (r.result in {Err(NotFound), Err(AlreadyReviewed), Err(MissingDraft)} ==> r.db == db)
  {
  }
}
