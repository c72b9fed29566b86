/** What a review can and cannot do to the rules there are, on any database. */
module ReviewEffects {
  import opened Common
  import opened Rules
  import opened Proposals
  import opened Stores
  import opened Review

  // ---- activation -------------------------------------------------------------------------

  /** Whatever is active was active before. */
  ghost predicate NothingActivated(db: Db, after: Db) {
    && (forall x :: 0 <= x < |after.rules| && after.rules[x].status == Active ==>
          x < |db.rules| && db.rules[x].status == Active)
    && forall x :: 0 <= x < |after.workflows| && after.workflows[x].status == Active ==>
         x < |db.workflows| && db.workflows[x].status == Active
  }

  /** The call does not set a status to active. */
  predicate Tame(op: Op) {
    match op
    case UpdateRuleStatus(_, _, status) => status != Active
    case UpdateWorkflowStatus(_, status) => status != Active
    case _ => true
  }

  lemma TameCall(db: Db, op: Op)
    requires Permitted(db, op) && Tame(op)
    ensures NothingActivated(db, Apply(db, op))
  {
  }

  lemma {:induction false} TameCalls(db: Db, budget: nat, ops: seq<Op>)
    requires forall k :: 0 <= k < |ops| ==> Tame(ops[k])
    ensures NothingActivated(db, Perform(db, budget, ops).db)
    decreases |ops|
  {
    if ops != [] && budget > 0 && Permitted(db, ops[0]) {
      TameCall(db, ops[0]);
      hide Apply;
      hide Permitted;
      TameCalls(Apply(db, ops[0]), budget - 1, ops[1..]);
    }
  }

  lemma DecisionIsTame(p: Proposal, outcome: ReviewedAs, newId: string)
    requires p.recommended != Active && DecisionOps(p, outcome, newId).Some?
    ensures forall k :: 0 <= k < |DecisionOps(p, outcome, newId).value| ==>
              Tame(DecisionOps(p, outcome, newId).value[k])
  {
  }

  /** Reviewing a proposal that does not recommend active never activates a rule or a workflow,
      whatever the decision and wherever it is cut short. */
  lemma ReviewNeverActivates(db: Db, budget: nat, id: string, outcome: ReviewedAs, newId: string)
    requires id in db.proposals ==> db.proposals[id].recommended != Active
    ensures NothingActivated(db, ReviewOf(db, budget, id, outcome, newId).db)
  {
    if budget > 0 && id in db.proposals && DecisionOps(db.proposals[id], outcome, newId).Some? {
      var ops := DecisionOps(db.proposals[id], outcome, newId).value;
      DecisionIsTame(db.proposals[id], outcome, newId);
      hide DecisionOps;
      hide Tame;
      hide Perform;
      TameCalls(db, budget - 1, ops);
    }
  }

  // ---- content ----------------------------------------------------------------------------

  /** The rules there were say what they said. */
  ghost predicate SameContent(db: Db, after: Db) {
    && |db.rules| <= |after.rules|
    && forall x :: 0 <= x < |db.rules| ==> after.rules[x].versions == db.rules[x].versions
  }

  lemma {:induction false} ContentStays(db: Db, budget: nat, ops: seq<Op>)
    requires forall k :: 0 <= k < |ops| ==> !ops[k].CreateRuleVersion?
    ensures SameContent(db, Perform(db, budget, ops).db)
    decreases |ops|
  {
    if ops != [] && budget > 0 && Permitted(db, ops[0]) {
      ContentStaysOnce(db, ops[0]);
      hide Apply;
      hide Permitted;
      ContentStays(Apply(db, ops[0]), budget - 1, ops[1..]);
    }
  }

  lemma ContentStaysOnce(db: Db, op: Op)
    requires Permitted(db, op) && !op.CreateRuleVersion?
    ensures SameContent(db, Apply(db, op))
  {
  }

  /** The review accepts a refinement with everything it needs, of a rule there is, and gets as far as
      the call that makes it. The rule's own status is not asked for. */
  predicate Refines(db: Db, budget: nat, id: string, outcome: ReviewedAs) {
    && budget >= 2 && id in db.proposals && !db.proposals[id].status.IsTerminal() && outcome.IsAcceptance()
    && var p := db.proposals[id];
       p.kind == RefineRule && p.targetRuleKind.Some? && p.targetRuleId.Some? && p.ruleDraft.Some?
       && HasRule(db.rules, p.targetRuleKind.value, p.targetRuleId.value)
  }

  lemma OnlyRefiningAddsVersions(p: Proposal, outcome: ReviewedAs, newId: string)
    requires DecisionOps(p, outcome, newId).Some?
    requires !(outcome.IsAcceptance() && p.kind == RefineRule && p.targetRuleKind.Some? && p.targetRuleId.Some?
               && p.ruleDraft.Some?)
    ensures forall k :: 0 <= k < |DecisionOps(p, outcome, newId).value| ==>
              !DecisionOps(p, outcome, newId).value[k].CreateRuleVersion?
  {
  }

  lemma RefiningStarts(p: Proposal, outcome: ReviewedAs, newId: string) returns (rest: seq<Op>)
    requires outcome.IsAcceptance() && p.kind == RefineRule && p.targetRuleKind.Some? && p.targetRuleId.Some?
    requires p.ruleDraft.Some?
    ensures DecisionOps(p, outcome, newId) ==
            Some([CreateRuleVersion(p.targetRuleKind.value, p.targetRuleId.value,
                                    NewContent(p, p.ruleDraft.value, "refined via proposal "))] + rest)
    ensures forall k :: 0 <= k < |rest| ==> !rest[k].CreateRuleVersion?
  {
    var first := CreateRuleVersion(p.targetRuleKind.value, p.targetRuleId.value,
                                   NewContent(p, p.ruleDraft.value, "refined via proposal "));
    rest := [StatusAudit(p, p.targetRuleId.value)] + ClosingOps(p, outcome);
    assert MaterializeOps(p, newId) == Some([first, StatusAudit(p, p.targetRuleId.value)]);
    assert [first, StatusAudit(p, p.targetRuleId.value)] + ClosingOps(p, outcome) == [first] + rest;
  }

  /** A review changes what an existing rule says exactly when it accepts a refinement of it; the rule
      then has one more version, the drafted one, and a rule that is live changes there and then. */
  lemma ContentChangesIffRefined(db: Db, budget: nat, id: string, outcome: ReviewedAs, newId: string)
    ensures var after := ReviewOf(db, budget, id, outcome, newId).db;
            && (!SameContent(db, after) <==> Refines(db, budget, id, outcome))
            && (Refines(db, budget, id, outcome) ==>
                  var p := db.proposals[id];
                  && |db.rules| <= |after.rules|
                  && forall x :: 0 <= x < |db.rules| ==>
                       after.rules[x].versions ==
                       db.rules[x].versions
                       + if IsRule(db.rules[x], p.targetRuleKind.value, p.targetRuleId.value)
                         then [NewContent(p, p.ruleDraft.value, "refined via proposal ")] else [])
  {
    if budget > 0 && id in db.proposals && !db.proposals[id].status.IsTerminal()
       && DecisionOps(db.proposals[id], outcome, newId).Some? {
      var p := db.proposals[id];
      if outcome.IsAcceptance() && p.kind == RefineRule && p.targetRuleKind.Some? && p.targetRuleId.Some?
         && p.ruleDraft.Some? {
        RefinementChangesContent(db, budget, p, outcome, newId);
      } else {
        OnlyRefiningAddsVersions(p, outcome, newId);
        hide DecisionOps;
        ContentStays(db, budget - 1, DecisionOps(p, outcome, newId).value);
      }
    }
  }

  lemma RefinementChangesContent(db: Db, budget: nat, p: Proposal, outcome: ReviewedAs, newId: string)
    requires budget > 0 && outcome.IsAcceptance() && p.kind == RefineRule
    requires p.targetRuleKind.Some? && p.targetRuleId.Some? && p.ruleDraft.Some? && DecisionOps(p, outcome, newId).Some?
    ensures var after := Perform(db, budget - 1, DecisionOps(p, outcome, newId).value).db;
            var kind, target := p.targetRuleKind.value, p.targetRuleId.value;
            var content := NewContent(p, p.ruleDraft.value, "refined via proposal ");
            && (budget == 1 || !HasRule(db.rules, kind, target) ==> after == db)
            && (budget > 1 && HasRule(db.rules, kind, target) ==>
                  !SameContent(db, after) && |db.rules| <= |after.rules|
                  && forall x :: 0 <= x < |db.rules| ==>
                       after.rules[x].versions ==
                       db.rules[x].versions + if IsRule(db.rules[x], kind, target) then [content] else [])
  {
    var rest := RefiningStarts(p, outcome, newId);
    var kind, target := p.targetRuleKind.value, p.targetRuleId.value;
    var op := CreateRuleVersion(kind, target, NewContent(p, p.ruleDraft.value, "refined via proposal "));
    PerformFirst(db, budget - 1, op, rest);
    if budget > 1 && HasRule(db.rules, kind, target) {
      var mid := Apply(db, op);
      ContentStays(mid, budget - 2, rest);
      hide DecisionOps;
      hide Perform;
      var x :| 0 <= x < |db.rules| && IsRule(db.rules[x], kind, target);
      assert |mid.rules[x].versions| == |db.rules[x].versions| + 1;
    }
  }
}
