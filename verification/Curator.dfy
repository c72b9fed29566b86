/** The rule curator: the clamps every proposal of the model goes through, and a whole pass. */
module Curator {
  import opened Common
  import opened Rules
  import opened Proposals
  import opened Stores
  import opened ConflictScan

  // ---- proposals of the model -------------------------------------------------------------

  /** A proposal as the model returns it. */
  datatype ProposalDto = ProposalDto(
    kind: ProposalKind, title: string, rationale: string, risk: RiskLevel, recommended: RuleStatus,
    ruleDraft: Option<RuleDraft>, targetRuleKind: Option<RuleKind>, targetRuleId: Option<string>)

  /** Risky proposals go to a human; an active recommendation degrades to shadow. */
  function ClampStatus(risk: RiskLevel, recommended: RuleStatus): RuleStatus {
    if risk in {High, Critical} then PendingHumanReview
    else if recommended == Active then ShadowMode
    else recommended
  }

  /** How many rules of the engine a proposal's draft conflicts with. */
  function ConflictCount(text: Condition -> string, dto: ProposalDto, engineRules: seq<Rule>): nat {
    match dto.ruleDraft
    case None => 0
    case Some(draft) => |Conflicting(text, draft, engineRules)|
  }

  /** The proposal saved for what the model returned. */
  function Curated(
      text: Condition -> string, dto: ProposalDto, engineRules: seq<Rule>, id: string, source: string): Proposal
  {
    var conflicts := ConflictCount(text, dto, engineRules);
    Proposal(id, dto.kind, PendingReview, dto.title,
             if conflicts > 0
             then dto.rationale + " [conflicts with " + Decimal(conflicts) + " existing rule(s); needs human review]"
             else dto.rationale,
             dto.risk,
             if conflicts > 0 then PendingHumanReview else ClampStatus(dto.risk, dto.recommended),
             dto.ruleDraft, dto.targetRuleKind, dto.targetRuleId, None, None, [], source)
  }

  function ProposedAudit(id: string): Op {
    AppendAudit(AuditEntry(RuleProposed, Some(id), None))
  }

  /** Whatever the model recommends, the saved proposal never recommends active, and goes to a
      human when it is high or critical risk or its draft contradicts a rule of the same kind and
      scope that fires on the same messages. */
  lemma CuratedIsSafe(text: Condition -> string, dto: ProposalDto, engineRules: seq<Rule>, id: string, source: string)
    ensures var p := Curated(text, dto, engineRules, id, source);
            && p.recommended != Active && p.status == PendingReview
            && (p.recommended != PendingHumanReview ==>
                  !dto.risk.High? && !dto.risk.Critical? && dto.recommended in {p.recommended, Active}
                  && (dto.ruleDraft.Some? ==>
                        forall rule :: rule in engineRules ==> !ConflictsWith(text, dto.ruleDraft.value, rule)))
  {
    if dto.ruleDraft.Some? {
      var found := Conflicting(text, dto.ruleDraft.value, engineRules);
      if found == [] {
        assert forall rule :: rule in engineRules ==> !ConflictsWith(text, dto.ruleDraft.value, rule) by {
          forall rule | rule in engineRules
            ensures !ConflictsWith(text, dto.ruleDraft.value, rule)
          {
            assert rule !in found;
          }
        }
      }
    }
  }

  method PersistProposal(
      store: Store, text: Condition -> string, dto: ProposalDto, engineRules: seq<Rule>, id: string, source: string)
    returns (r: Option<Proposal>)
    modifies store
    ensures var p := Curated(text, dto, engineRules, id, source);
            var performed := Perform(old(store.db), old(store.budget), [SaveProposal(p, []), ProposedAudit(id)]);
            && store.db == performed.db && r == (if performed.ok then Some(p) else None)
            && (performed.ok ==> store.budget + 2 == old(store.budget))
  {
    var recommended := ClampStatus(dto.risk, dto.recommended);
    var rationale := dto.rationale;
    if dto.ruleDraft.Some? {
      var conflicts := DetectConflicts(text, dto.ruleDraft.value, engineRules);
      if conflicts != [] {
        recommended := PendingHumanReview;
        rationale := rationale + " [conflicts with " + Decimal(|conflicts|) + " existing rule(s); needs human review]";
      }
    }
    var p := Proposal(id, dto.kind, PendingReview, dto.title, rationale, dto.risk, recommended,
                      dto.ruleDraft, dto.targetRuleKind, dto.targetRuleId, None, None, [], source);
    hide Conflicting;
    hide Permitted;
    hide Apply;
    var ok := DoBoth(store, SaveProposal(p, []), ProposedAudit(id));
    r := if ok then Some(p) else None;
  }

  // ---- one pass of the model --------------------------------------------------------------

  datatype CuratorOperation =
    | Propose | Refine | Merge | Split | DetectStale | DetectConflictsOp | SuggestThresholds | SummarizeFeedback

  datatype Request = Request(operations: seq<CuratorOperation>, ruleKind: Option<RuleKind>) {
    /** An empty list asks for everything. */
    predicate Wants(op: CuratorOperation) {
      operations == [] || op in operations
    }

    predicate WantsModel() {
      operations == [] || exists op | op in operations :: op != DetectConflictsOp
    }

    function Kinds(): (r: seq<RuleKind>)
      ensures Distinct(r)
    {
      match ruleKind
      case Some(kind) => [kind]
      case None => [RuleKind.Classification, Action]
    }
  }

  /** The operation a proposal kind belongs to; workflow kinds belong to none. */
  function OperationFor(kind: ProposalKind): Option<CuratorOperation> {
    match kind
    case NewRule => Some(Propose)
    case RefineRule => Some(Refine)
    case MergeRules => Some(Merge)
    case SplitRule => Some(Split)
    case RetireRule => Some(DetectStale)
    case _ => None
  }

  predicate Keeps(request: Request, dto: ProposalDto) {
    OperationFor(dto.kind).Some? && request.Wants(OperationFor(dto.kind).value)
  }

  /** Everything a pass works with besides the stores: the JSON text of conditions, the engine's
      rules, the ids new proposals get, and the source label. */
  datatype Setting = Setting(text: Condition -> string, engineRules: seq<Rule>, newId: nat -> string, source: string)

  /** The proposals made of the kept part of a response, in its order. */
  function KeptProposals(c: Setting, request: Request, dtos: seq<ProposalDto>): seq<Proposal> {
    if dtos == [] then []
    else
      var before := KeptProposals(c, request, dtos[..|dtos| - 1]);
      var last := dtos[|dtos| - 1];
      before + if Keeps(request, last) then [Curated(c.text, last, c.engineRules, c.newId(|before|), c.source)] else []
  }

  /** Each proposal is saved and its emission audited. */
  function SaveOps(proposals: seq<Proposal>): seq<Op> {
    if proposals == [] then []
    else
      var last := proposals[|proposals| - 1];
      SaveOps(proposals[..|proposals| - 1]) + [SaveProposal(last, []), ProposedAudit(last.id)]
  }

  lemma OneMoreSaved(proposals: seq<Proposal>, p: Proposal)
    ensures SaveOps(proposals + [p]) == SaveOps(proposals) + [SaveProposal(p, []), ProposedAudit(p.id)]
  {
    assert (proposals + [p])[..|proposals|] == proposals;
  }

  lemma {:induction false} SavedGrows(c: Setting, request: Request, dtos: seq<ProposalDto>, k: nat)
    requires k <= |dtos|
    ensures SaveOps(KeptProposals(c, request, dtos[..k])) <= SaveOps(KeptProposals(c, request, dtos))
    decreases |dtos|
  {
    hide Curated;
    if k == |dtos| {
      assert dtos[..k] == dtos;
    } else {
      var init := dtos[..|dtos| - 1];
      SavedGrows(c, request, init, k);
      assert init[..k] == dtos[..k];
      hide SaveOps;
      var before := KeptProposals(c, request, init);
      assert before + [] == before;
      if Keeps(request, dtos[|dtos| - 1]) {
        OneMoreSaved(before, Curated(c.text, dtos[|dtos| - 1], c.engineRules, c.newId(|before|), c.source));
      }
    }
  }

  /** Saves what the request asked for out of a response, one proposal after the other. */
  method PersistKept(store: Store, c: Setting, request: Request, dtos: seq<ProposalDto>)
    returns (ok: bool, out: seq<Proposal>)
    modifies store
    ensures Performed(store.db, ok)
         == Perform(old(store.db), old(store.budget), SaveOps(KeptProposals(c, request, dtos)))
    ensures ok ==> out == KeptProposals(c, request, dtos)
    ensures ok ==> store.budget + |SaveOps(out)| == old(store.budget)
  {
    hide Perform;
    hide Curated;
    hide SaveOps;
    ghost var db0, b0 := store.db, store.budget;
    out := [];
    NothingSaved(db0, b0);
    for k := 0 to |dtos|
      invariant out == KeptProposals(c, request, dtos[..k])
      invariant Perform(db0, b0, SaveOps(out)) == Performed(store.db, true) && store.budget + |SaveOps(out)| == b0
    {
      assert dtos[..k + 1][..k] == dtos[..k];
      if OperationFor(dtos[k].kind).Some? && request.Wants(OperationFor(dtos[k].kind).value) {
        ghost var p := Curated(c.text, dtos[k], c.engineRules, c.newId(|out|), c.source);
        OneMoreSaved(out, p);
        assert p.id == c.newId(|out|) by {
          CuratedId(c.text, dtos[k], c.engineRules, c.newId(|out|), c.source);
        }
        GoesOn(db0, b0, SaveOps(out), store.db, store.budget, [SaveProposal(p, []), ProposedAudit(p.id)]);
        assert out + [p] == KeptProposals(c, request, dtos[..k + 1]);
        var saved := PersistProposal(store, c.text, dtos[k], c.engineRules, c.newId(|out|), c.source);
        if saved.None? {
          SavedGrows(c, request, dtos, k + 1);
          StopsThere(db0, b0, SaveOps(out + [p]), SaveOps(KeptProposals(c, request, dtos)));
          ok := false;
          return;
        }
        out := out + [saved.value];
      }
    }
    assert dtos[..|dtos|] == dtos;
    ok := true;
  }

  lemma CuratedId(text: Condition -> string, dto: ProposalDto, engineRules: seq<Rule>, id: string, source: string)
    ensures Curated(text, dto, engineRules, id, source).id == id
  {
  }

  lemma NothingSaved(db: Db, budget: nat)
    ensures SaveOps([]) == [] && Perform(db, budget, []) == Performed(db, true)
  {
  }

  // ---- a whole pass -----------------------------------------------------------------------

  datatype CurateError = ProviderFailed | StoreError

  datatype CuratorReport = CuratorReport(proposals: seq<Proposal>, conflicts: seq<Conflict>)

  /** The reads of a pass: two feedback tables, the open conflicts, and the active and shadow rules
      of every kind and scope. */
  function ReadCount(request: Request): nat {
    3 + 10 * |request.Kinds()|
  }

  function Reads(n: nat): (r: seq<Op>)
    ensures |r| == n
  {
    if n == 0 then [] else Reads(n - 1) + [Read]
  }

  lemma {:induction false} ReadsChangeNothing(db: Db, budget: nat, n: nat)
    ensures Perform(db, budget, Reads(n)) == Performed(db, budget >= n)
  {
    if n > 0 {
      ReadsChangeNothing(db, budget, n - 1);
      PerformAppend(db, budget, Reads(n - 1), [Read]);
    }
  }

  method ReadAll(store: Store, n: nat) returns (ok: bool)
    modifies store
    ensures ok == (old(store.budget) >= n) && store.db == old(store.db)
    ensures ok ==> store.budget + n == old(store.budget)
  {
    for k := 0 to n
      invariant store.db == old(store.db) && store.budget + k == old(store.budget)
    {
      ok := store.Do(Read);
      if !ok {
        return;
      }
    }
    ok := true;
  }

  /** The audit entry of a provider that failed or whose answer was invalid. */
  const REJECTED_RESPONSE: AuditEntry := AuditEntry(ProviderResponseRejected, None, None)

  /** The reads of a pass, and the proposals and clashes it is after. */
  function ReadsOf(request: Request): nat {
    if request.WantsModel() then ReadCount(request) else 0
  }

  function Wanted(c: Setting, request: Request, response: Option<seq<ProposalDto>>): seq<Proposal> {
    if request.WantsModel() && response.Some? then KeptProposals(c, request, response.value) else []
  }

  function ClashesWanted(c: Setting, request: Request, rules: seq<StoredRule>): seq<Conflict> {
    if request.Wants(DetectConflictsOp) then AllClashes(c.text, rules, request.Kinds()) else []
  }

  function ScanCost(request: Request, clashes: seq<Conflict>): nat {
    if request.Wants(DetectConflictsOp) then 5 * |request.Kinds()| + 2 * |clashes| else 0
  }

  /** What a pass answers and leaves behind under a budget of calls, wherever it fails; `response`
      is what the model answered, None when it failed or its answer was invalid. */
  ghost predicate CuratesTo(
      db: Db, budget: nat, c: Setting, request: Request, response: Option<seq<ProposalDto>>,
      r: Result<CuratorReport, CurateError>, after: Db)
  {
    var proposals, clashes := Wanted(c, request, response), ClashesWanted(c, request, db.rules);
    var left := budget - ReadsOf(request);
    if left < 0 then r == Err(StoreError) && after == db
    else if request.WantsModel() && response.None? then
      if left == 0 then r == Err(StoreError) && after == db
      else r == Err(ProviderFailed) && after == db.(audit := db.audit + [REJECTED_RESPONSE])
    else
      var saved := Perform(db, left, SaveOps(proposals));
      if !saved.ok then r == Err(StoreError) && after == saved.db
      else if left - |SaveOps(proposals)| < ScanCost(request, clashes) then
        r == Err(StoreError) && PartlyRecorded(saved.db, after, clashes)
      else r == Ok(CuratorReport(proposals, clashes)) && after == Recorded(saved.db, clashes)
  }

  /** One curation pass: it reads, saves the proposals the model made and the request asked for,
      one after the other, and then records the clashes of live rules, up to its first failing
      call. */
  method Curate(store: Store, c: Setting, request: Request, response: Option<seq<ProposalDto>>)
    returns (r: Result<CuratorReport, CurateError>)
    modifies store
    ensures CuratesTo(old(store.db), old(store.budget), c, request, response, r, store.db)
  {
    hide Perform;
    hide SaveOps;
    hide AllClashes;
    hide KeptProposals;
    hide PartlyRecorded;
    var proposals, conflicts := [], [];
    NothingSaved(store.db, store.budget);
    ghost var start, budget := store.db, store.budget;
    if request.WantsModel() {
      var ok := ReadAll(store, ReadCount(request));
      if !ok {
        return Err(StoreError);
      }
      if response.None? {
        ok := store.Do(AppendAudit(REJECTED_RESPONSE));
        return Err(if ok then ProviderFailed else StoreError);
      }
      budget := store.budget;
      ok, proposals := PersistKept(store, c, request, response.value);
      if !ok {
        return Err(StoreError);
      }
      SavingKeepsRules(start, budget, proposals);
    }
    NothingRecorded(store.db);
    if request.Wants(DetectConflictsOp) {
      var ok;
      ok, conflicts := ScanConflicts(store, c.text, request.Kinds());
      if !ok {
        return Err(StoreError);
      }
    }
    return Ok(CuratorReport(proposals, conflicts));
  }

  /** A pass that succeeds has saved exactly the proposals it reports, then recorded exactly the
      clashes it reports. */
  lemma SuccessfulPass(
      db: Db, budget: nat, c: Setting, request: Request, response: Option<seq<ProposalDto>>,
      report: CuratorReport, after: Db)
    requires CuratesTo(db, budget, c, request, response, Ok(report), after)
    ensures var saved := Perform(db, |SaveOps(report.proposals)|, SaveOps(report.proposals));
            saved.ok && after == Recorded(saved.db, report.conflicts)
    ensures report.proposals == Wanted(c, request, response) && report.conflicts == ClashesWanted(c, request, db.rules)
  {
    hide Perform;
    hide SaveOps;
    hide Wanted;
    hide ClashesWanted;
    hide PartlyRecorded;
    hide Recorded;
    hide ScanCost;
    BudgetToSpare(db, budget - ReadsOf(request), SaveOps(Wanted(c, request, response)));
  }

  /** Wherever a pass stops, it has changed no rule. */
  lemma PassKeepsRules(
      db: Db, budget: nat, c: Setting, request: Request, response: Option<seq<ProposalDto>>,
      r: Result<CuratorReport, CurateError>, after: Db)
    requires CuratesTo(db, budget, c, request, response, r, after)
    ensures after.rules == db.rules
  {
    hide Perform;
    hide SaveOps;
    hide Wanted;
    hide ClashesWanted;
    hide ScanCost;
    hide ReadsOf;
    var left := budget - ReadsOf(request);
    if left >= 0 {
      SavingKeepsRules(db, left, Wanted(c, request, response));
    }
  }

  /** Calls that went through need no more of the budget than their number. */
  lemma {:induction false} BudgetToSpare(db: Db, budget: nat, ops: seq<Op>)
    requires Perform(db, budget, ops).ok
    ensures Perform(db, |ops|, ops) == Perform(db, budget, ops)
    decreases |ops|
  {
    if ops != [] {
      hide Apply;
      hide Permitted;
      BudgetToSpare(Apply(db, ops[0]), budget - 1, ops[1..]);
    }
  }

  lemma {:induction false} SavingKeepsRules(db: Db, budget: nat, proposals: seq<Proposal>)
    ensures Perform(db, budget, SaveOps(proposals)).db.rules == db.rules
  {
    if proposals != [] {
      var n := |proposals| - 1;
      var last := [SaveProposal(proposals[n], []), ProposedAudit(proposals[n].id)];
      SavingKeepsRules(db, budget, proposals[..n]);
      PerformAppend(db, budget, SaveOps(proposals[..n]), last);
      var first := Perform(db, budget, SaveOps(proposals[..n]));
      if first.ok {
        TwoKeepRules(first.db, budget - |SaveOps(proposals[..n])|, proposals[n]);
      }
    }
  }

  lemma TwoKeepRules(db: Db, budget: nat, p: Proposal)
    ensures Perform(db, budget, [SaveProposal(p, []), ProposedAudit(p.id)]).db.rules == db.rules
  {
    var save, audit := SaveProposal(p, []), ProposedAudit(p.id);
    assert [save] + [audit] == [save, audit] && [audit] + [] == [audit];
    PerformFirst(db, budget, save, [audit]);
    if budget > 0 && Permitted(db, save) {
      PerformFirst(Apply(db, save), budget - 1, audit, []);
    }
  }

  // ---- what is asked for and what it takes ------------------------------------------------------

  /** The model is asked unless the scan alone is; a request that lists nothing asks for everything. */
  lemma WhenTheModelIsAsked(request: Request)
    ensures request.WantsModel() <==>
      request.operations == []
      || exists i :: 0 <= i < |request.operations| && !request.operations[i].DetectConflictsOp?
  {
    if i :| 0 <= i < |request.operations| && !request.operations[i].DetectConflictsOp? {
      assert request.operations[i] in request.operations;
    }
  }

  /** Which of the model's proposals are kept: those of an operation asked for; proposals about workflows
      and enrolments never are. */
  lemma WhatIsKept(request: Request, dto: ProposalDto)
    ensures var asked := (op: CuratorOperation) => request.operations == [] || op in request.operations;
            Keeps(request, dto) <==>
              match dto.kind
              case NewRule => asked(Propose)
              case RefineRule => asked(Refine)
              case MergeRules => asked(Merge)
              case SplitRule => asked(Split)
              case RetireRule => asked(DetectStale)
              case _ => false
  {
  }

  /** The proposal made of one that is kept: what the model said, pending review, in the status asked for
      unless that is active or the risk or a conflict sends it to a human; the rationale names the
      number of conflicting rules when there are any. */
  lemma CuratedSays(text: Condition -> string, dto: ProposalDto, engineRules: seq<Rule>, id: string, source: string)
    ensures var p := Curated(text, dto, engineRules, id, source);
            var conflicts := if dto.ruleDraft.Some? then |Conflicting(text, dto.ruleDraft.value, engineRules)| else 0;
            && p.id == id && p.kind == dto.kind && p.status == PendingReview && p.title == dto.title
            && p.risk == dto.risk && p.ruleDraft == dto.ruleDraft && p.source == source
            && p.targetRuleKind == dto.targetRuleKind && p.targetRuleId == dto.targetRuleId
            && p.workflowDraft == None && p.targetWorkflowId == None && p.evidenceRefs == []
            && p.rationale == dto.rationale + (if conflicts == 0 then ""
                 else " [conflicts with " + Decimal(conflicts) + " existing rule(s); needs human review]")
            && p.recommended == (if conflicts != 0 || dto.risk.High? || dto.risk.Critical? then PendingHumanReview
                                 else if dto.recommended.Active? then ShadowMode else dto.recommended)
  {
    hide Conflicting;
    hide Decimal;
    assert dto.rationale + "" == dto.rationale;
  }

  /** Kept proposals come in the order of the response, and take new ids in that order. */
  lemma KeptOneByOne(c: Setting, request: Request, dtos: seq<ProposalDto>, dto: ProposalDto)
    ensures KeptProposals(c, request, []) == []
    ensures var before := KeptProposals(c, request, dtos);
            KeptProposals(c, request, dtos + [dto])
            == if Keeps(request, dto)
               then before + [Curated(c.text, dto, c.engineRules, c.newId(|before|), c.source)] else before
  {
    assert (dtos + [dto])[..|dtos|] == dtos;
  }

  /** New ids that no stored proposal has and no other new one. */
  ghost predicate Unused(db: Db, proposals: seq<Proposal>) {
    && (forall i :: 0 <= i < |proposals| ==> proposals[i].id !in db.proposals)
    && forall i, j :: 0 <= i < j < |proposals| ==> proposals[i].id != proposals[j].id
  }

  lemma {:induction false} SavesIff(db: Db, budget: nat, proposals: seq<Proposal>)
    ensures |SaveOps(proposals)| == 2 * |proposals|
    ensures Perform(db, budget, SaveOps(proposals)).ok <==> budget >= 2 * |proposals| && Unused(db, proposals)
    ensures Perform(db, budget, SaveOps(proposals)).ok ==>
      forall id :: id in Perform(db, budget, SaveOps(proposals)).db.proposals <==>
        id in db.proposals || exists i :: 0 <= i < |proposals| && proposals[i].id == id
  {
    if proposals != [] {
      var n := |proposals| - 1;
      var init, last := proposals[..n], proposals[n];
      SavesIff(db, budget, init);
      PerformAppend(db, budget, SaveOps(init), [SaveProposal(last, []), ProposedAudit(last.id)]);
      assert SaveOps(proposals) == SaveOps(init) + [SaveProposal(last, []), ProposedAudit(last.id)];
      assert Unused(db, proposals) ==> Unused(db, init);
      var first := Perform(db, budget, SaveOps(init));
      if first.ok {
        TwoCallsIff(first.db, budget - 2 * n, last);
        UnusedOneMore(db, init, last);
        assert proposals == init + [last];
      }
      hide Perform;
      hide SaveOps;
      hide Unused;
    }
  }

  lemma TwoCallsIff(db: Db, budget: nat, p: Proposal)
    ensures var r := Perform(db, budget, [SaveProposal(p, []), ProposedAudit(p.id)]);
            && (r.ok <==> budget >= 2 && p.id !in db.proposals)
            && (r.ok ==> r.db.proposals == db.proposals[p.id := p])
  {
    var save, audit := SaveProposal(p, []), ProposedAudit(p.id);
    assert [save] + [audit] == [save, audit] && [audit] + [] == [audit];
    PerformFirst(db, budget, save, [audit]);
    if budget > 0 && Permitted(db, save) {
      PerformFirst(Apply(db, save), budget - 1, audit, []);
    }
  }

  lemma UnusedOneMore(db: Db, init: seq<Proposal>, last: Proposal)
    requires Unused(db, init)
    ensures Unused(db, init + [last]) <==>
            last.id !in db.proposals && !(exists i :: 0 <= i < |init| && init[i].id == last.id)
  {
    var all := init + [last];
    if Unused(db, all) {
      assert all[|init|] == last;
      assert forall i :: 0 <= i < |init| ==> all[i] == init[i];
    }
  }

  /** A pass succeeds exactly when the model, if asked, answered, the new ids are unused, and the store
      allows: three reads and ten for every kind, if the model is asked; two calls for every proposal
      kept; five reads for every kind and two calls for every clash, if the scan is asked for. */
  lemma PassSucceedsIff(
      db: Db, budget: nat, c: Setting, request: Request, response: Option<seq<ProposalDto>>,
      r: Result<CuratorReport, CurateError>, after: Db)
    requires CuratesTo(db, budget, c, request, response, r, after)
    ensures var kinds := if request.ruleKind.Some? then 1 else 2;
            var kept := if request.WantsModel() && response.Some? then KeptProposals(c, request, response.value)
                        else [];
            var scans := request.operations == [] || DetectConflictsOp in request.operations;
            r.Ok? <==>
              && (request.WantsModel() ==> response.Some?)
              && Unused(db, kept)
              && budget >= (if request.WantsModel() then 3 + 10 * kinds else 0) + 2 * |kept|
                           + (if scans then 5 * kinds + 2 * |AllClashes(c.text, db.rules, request.Kinds())| else 0)
  {
    var kept := Wanted(c, request, response);
    var left := budget - ReadsOf(request);
    assert |request.Kinds()| == if request.ruleKind.Some? then 1 else 2;
    if left >= 0 {
      SavesIff(db, left, kept);
    }
    hide Perform;
    hide SaveOps;
    hide KeptProposals;
    hide AllClashes;
    hide Unused;
    hide PartlyRecorded;
  }
}
