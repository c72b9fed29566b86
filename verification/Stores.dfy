/** The stores behind the learning loop, as one database, and what one call does to it. */
module Stores {
  import opened Common
  import opened Rules
  import opened Proposals

  /** What a rule version says. */
  datatype Content = Content(condition: Condition, effect: RuleEffect, risk: RiskLevel, changeReason: string)

  /** A rule row with its versions, oldest first; the last is current. */
  datatype StoredRule = StoredRule(
    kind: RuleKind, id: string, stableName: string, scope: RuleScope, status: RuleStatus, versions: seq<Content>)

  datatype StoredWorkflow = StoredWorkflow(
    id: string, stableName: string, status: RuleStatus, versions: seq<WorkflowDraft>)

  datatype ReviewedAs = AcceptedAsIs | AcceptedWithEdits | RejectedOutright | DisabledLater {
    predicate IsAcceptance() {
      AcceptedAsIs? || AcceptedWithEdits?
    }
  }

  datatype FeedbackRow = FeedbackRow(proposalId: string, outcome: ReviewedAs)

  datatype Event =
    | RuleProposed | RuleStatusChanged | WorkflowStatusChanged
    | ProposalReviewed | RuleConflictDetected | ProviderResponseRejected

  datatype AuditEntry = AuditEntry(event: Event, proposalId: Option<string>, ruleId: Option<string>)

  datatype Conflict = Conflict(kind: RuleKind, ruleA: string, ruleB: string)

  /** The tables; rules, workflows, feedback, audit and conflicts in the order they were written. */
  datatype Db = Db(
    proposals: map<string, Proposal>, evidence: seq<EvidenceItem>,
    rules: seq<StoredRule>, workflows: seq<StoredWorkflow>,
    feedback: seq<FeedbackRow>, audit: seq<AuditEntry>, conflicts: seq<Conflict>)

  const EMPTY: Db := Db(map[], [], [], [], [], [], [])

  /** One call on a store. */
  datatype Op =
    | Read
    | SaveProposal(proposal: Proposal, items: seq<EvidenceItem>)
    | SetProposalStatus(proposalId: string, reviewed: ProposalStatus)
    | SaveRuleDraft(draftKind: RuleKind, newId: string, name: string, scope: RuleScope, content: Content)
    | CreateRuleVersion(ruleKind: RuleKind, ruleId: string, content: Content)
    | UpdateRuleStatus(ruleKind: RuleKind, ruleId: string, status: RuleStatus)
    | SaveWorkflowDraft(newId: string, name: string, draft: WorkflowDraft)
    | CreateWorkflowVersion(workflowId: string, draft: WorkflowDraft)
    | UpdateWorkflowStatus(workflowId: string, status: RuleStatus)
    | AppendFeedback(row: FeedbackRow)
    | AppendAudit(entry: AuditEntry)
    | AppendConflict(conflict: Conflict)

  predicate IsRule(rule: StoredRule, kind: RuleKind, id: string) {
    rule.kind == kind && rule.id == id
  }

  predicate HasRule(rules: seq<StoredRule>, kind: RuleKind, id: string) {
    exists i | 0 <= i < |rules| :: IsRule(rules[i], kind, id)
  }

  /** A stable name is unique within a rule kind. */
  predicate NameTaken(rules: seq<StoredRule>, kind: RuleKind, name: string) {
    exists i | 0 <= i < |rules| :: rules[i].kind == kind && rules[i].stableName == name
  }

  predicate HasWorkflow(workflows: seq<StoredWorkflow>, id: string) {
    exists i | 0 <= i < |workflows| :: workflows[i].id == id
  }

  predicate WorkflowNameTaken(workflows: seq<StoredWorkflow>, name: string) {
    exists i | 0 <= i < |workflows| :: workflows[i].stableName == name
  }

  /** The constraints a call must meet: fresh keys, unique names, existing parents. Updates of rows
      that do not exist are no errors; they change nothing. */
  predicate Permitted(db: Db, op: Op) {
    match op
    case SaveProposal(p, _) => p.id !in db.proposals
    case SaveRuleDraft(kind, id, name, _, _) => !HasRule(db.rules, kind, id) && !NameTaken(db.rules, kind, name)
    case CreateRuleVersion(kind, id, _) => HasRule(db.rules, kind, id)
    case SaveWorkflowDraft(id, name, _) => !HasWorkflow(db.workflows, id) && !WorkflowNameTaken(db.workflows, name)
    case CreateWorkflowVersion(id, _) => HasWorkflow(db.workflows, id)
    case _ => true
  }

  function WithStatus(rule: StoredRule, kind: RuleKind, id: string, status: RuleStatus): StoredRule {
    if IsRule(rule, kind, id) then rule.(status := status) else rule
  }

  function WithVersion(rule: StoredRule, kind: RuleKind, id: string, content: Content): StoredRule {
    if IsRule(rule, kind, id) then rule.(versions := rule.versions + [content]) else rule
  }

  function EachWithStatus(rules: seq<StoredRule>, kind: RuleKind, id: string, status: RuleStatus): (r: seq<StoredRule>)
    ensures |r| == |rules| && forall i :: 0 <= i < |rules| ==> r[i] == WithStatus(rules[i], kind, id, status)
  {
    seq(|rules|, i requires 0 <= i < |rules| => WithStatus(rules[i], kind, id, status))
  }

  function EachWithVersion(rules: seq<StoredRule>, kind: RuleKind, id: string, content: Content): (r: seq<StoredRule>)
    ensures |r| == |rules| && forall i :: 0 <= i < |rules| ==> r[i] == WithVersion(rules[i], kind, id, content)
  {
    seq(|rules|, i requires 0 <= i < |rules| => WithVersion(rules[i], kind, id, content))
  }

  function WorkflowWithStatus(w: StoredWorkflow, id: string, status: RuleStatus): StoredWorkflow {
    if w.id == id then w.(status := status) else w
  }

  function WorkflowWithVersion(w: StoredWorkflow, id: string, draft: WorkflowDraft): StoredWorkflow {
    if w.id == id then w.(versions := w.versions + [draft]) else w
  }

  function EachWorkflowWithStatus(ws: seq<StoredWorkflow>, id: string, status: RuleStatus): (r: seq<StoredWorkflow>)
    ensures |r| == |ws| && forall i :: 0 <= i < |ws| ==> r[i] == WorkflowWithStatus(ws[i], id, status)
  {
    seq(|ws|, i requires 0 <= i < |ws| => WorkflowWithStatus(ws[i], id, status))
  }

  function EachWorkflowWithVersion(ws: seq<StoredWorkflow>, id: string, draft: WorkflowDraft): (r: seq<StoredWorkflow>)
    ensures |r| == |ws| && forall i :: 0 <= i < |ws| ==> r[i] == WorkflowWithVersion(ws[i], id, draft)
  {
    seq(|ws|, i requires 0 <= i < |ws| => WorkflowWithVersion(ws[i], id, draft))
  }

  /** What a permitted call does. A drafted rule or workflow starts in draft status with one
      version; its row and its version are written together. */
  function Apply(db: Db, op: Op): Db
    requires Permitted(db, op)
  {
    match op
    case Read => db
    case SaveProposal(p, items) => db.(proposals := db.proposals[p.id := p], evidence := db.evidence + items)
    case SetProposalStatus(id, status) =>
      if id in db.proposals then db.(proposals := db.proposals[id := db.proposals[id].(status := status)]) else db
    case SaveRuleDraft(kind, id, name, scope, content) =>
      db.(rules := db.rules + [StoredRule(kind, id, name, scope, Draft, [content])])
    case CreateRuleVersion(kind, id, content) => db.(rules := EachWithVersion(db.rules, kind, id, content))
    case UpdateRuleStatus(kind, id, status) => db.(rules := EachWithStatus(db.rules, kind, id, status))
    case SaveWorkflowDraft(id, name, draft) =>
      db.(workflows := db.workflows + [StoredWorkflow(id, name, Draft, [draft])])
    case CreateWorkflowVersion(id, draft) => db.(workflows := EachWorkflowWithVersion(db.workflows, id, draft))
    case UpdateWorkflowStatus(id, status) => db.(workflows := EachWorkflowWithStatus(db.workflows, id, status))
    case AppendFeedback(row) => db.(feedback := db.feedback + [row])
    case AppendAudit(entry) => db.(audit := db.audit + [entry])
    case AppendConflict(conflict) => db.(conflicts := db.conflicts + [conflict])
  }

  // ---- calls that may fail ----------------------------------------------------------------

  /** The outcome of a list of calls: the database after them, and whether all succeeded. */
  datatype Performed = Performed(db: Db, ok: bool)

  /** Performs the calls in order up to the first that fails: the one that finds `budget` used up,
      or that breaks a constraint. */
  function Perform(db: Db, budget: nat, ops: seq<Op>): Performed
    decreases |ops|
  {
    if ops == [] then Performed(db, true)
    else if budget == 0 || !Permitted(db, ops[0]) then Performed(db, false)
    else Perform(Apply(db, ops[0]), budget - 1, ops[1..])
  }

  /** Which calls break a constraint: a proposal's id is unique; a rule's id and name are, within its
      kind; a workflow's id and name are; and a version needs its rule or workflow. Nothing else is
      asked. */
  lemma ConstraintsMean(db: Db, op: Op)
    ensures Perform(db, 1, [op]).ok <==>
      match op
      case SaveProposal(p, _) => p.id !in db.proposals
      case SaveRuleDraft(kind, id, name, _, _) =>
        forall x :: 0 <= x < |db.rules| && db.rules[x].kind == kind ==>
          db.rules[x].id != id && db.rules[x].stableName != name
      case CreateRuleVersion(kind, id, _) =>
        exists x :: 0 <= x < |db.rules| && db.rules[x].kind == kind && db.rules[x].id == id
      case SaveWorkflowDraft(id, name, _) =>
        forall x :: 0 <= x < |db.workflows| ==> db.workflows[x].id != id && db.workflows[x].stableName != name
      case CreateWorkflowVersion(id, _) =>
        exists x :: 0 <= x < |db.workflows| && db.workflows[x].id == id
      case _ => true
  {
    assert [op] == [op] + [];
    PerformFirst(db, 1, op, []);
    hide Apply;
  }

  class Store {
    var db: Db
    /** How many calls succeed before one fails. */
    var budget: nat

    constructor (db: Db, budget: nat)
      ensures this.db == db && this.budget == budget
    {
      this.db, this.budget := db, budget;
    }

    method Do(op: Op) returns (ok: bool)
      modifies this
      ensures ok == (old(budget) > 0 && Permitted(old(db), op))
      ensures ok ==> db == Apply(old(db), op) && budget == old(budget) - 1
      ensures !ok ==> db == old(db) && budget == old(budget)
    {
      ok := budget > 0 && Permitted(db, op);
      if ok {
        db := Apply(db, op);
        budget := budget - 1;
      }
    }
  }

  lemma {:induction false} PerformAppend(db: Db, budget: nat, a: seq<Op>, b: seq<Op>)
    ensures var first := Perform(db, budget, a);
            && (first.ok ==> |a| <= budget && Perform(db, budget, a + b) == Perform(first.db, budget - |a|, b))
            && (!first.ok ==> Perform(db, budget, a + b) == first)
    decreases |a|
  {
    if a == [] {
      assert a + b == b;
    } else {
      assert (a + b)[0] == a[0] && (a + b)[1..] == a[1..] + b;
      if budget > 0 && Permitted(db, a[0]) {
        hide Apply;
        hide Permitted;
        PerformAppend(Apply(db, a[0]), budget - 1, a[1..], b);
      }
    }
  }

  /** One call, as the first of a list. */
  lemma PerformFirst(db: Db, budget: nat, op: Op, rest: seq<Op>)
    ensures Perform(db, budget, [op] + rest) ==
            if budget == 0 || !Permitted(db, op) then Performed(db, false)
            else Perform(Apply(db, op), budget - 1, rest)
  {
    assert ([op] + rest)[1..] == rest;
    hide Permitted;
    hide Apply;
  }

  /** A call and then a second one. */
  method DoBoth(store: Store, first: Op, second: Op) returns (ok: bool)
    modifies store
    ensures Performed(store.db, ok) == Perform(old(store.db), old(store.budget), [first, second])
    ensures ok ==> store.budget + 2 == old(store.budget)
  {
    hide Permitted;
    hide Apply;
    PerformFirst(store.db, store.budget, first, [second]);
    assert [first] + [second] == [first, second];
    ok := store.Do(first);
    if !ok {
      return;
    }
    PerformFirst(store.db, store.budget, second, []);
    ok := store.Do(second);
  }

  method DoThree(store: Store, first: Op, second: Op, third: Op) returns (ok: bool)
    modifies store
    ensures Performed(store.db, ok) == Perform(old(store.db), old(store.budget), [first, second, third])
    ensures ok ==> store.budget + 3 == old(store.budget)
  {
    hide Permitted;
    hide Apply;
    PerformFirst(store.db, store.budget, first, [second, third]);
    assert [first] + [second, third] == [first, second, third];
    ok := store.Do(first);
    if !ok {
      return;
    }
    ok := DoBoth(store, second, third);
  }

  /** The first call of a list, when it succeeds. */
  lemma PerformHead(db: Db, budget: nat, ops: seq<Op>)
    requires ops != [] && budget > 0 && Permitted(db, ops[0])
    ensures Perform(db, budget, ops) == Perform(Apply(db, ops[0]), budget - 1, ops[1..])
  {
    hide Apply;
    hide Permitted;
  }

  /** After a first part went through, the rest goes on from where it ended. */
  lemma GoesOn(start: Db, budget: nat, done: seq<Op>, db: Db, left: nat, ops: seq<Op>)
    requires Perform(start, budget, done) == Performed(db, true) && left + |done| == budget
    ensures Perform(start, budget, done + ops) == Perform(db, left, ops)
  {
    PerformAppend(start, budget, done, ops);
  }

  /** Once a first part has failed, nothing after it is tried. */
  lemma StopsThere(start: Db, budget: nat, part: seq<Op>, all: seq<Op>)
    requires part <= all && !Perform(start, budget, part).ok
    ensures Perform(start, budget, all) == Perform(start, budget, part)
  {
    PerformAppend(start, budget, part, all[|part|..]);
    assert part + all[|part|..] == all;
  }
}
