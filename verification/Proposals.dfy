/** Proposals and the builders that make them from clusters of feedback. */
module Proposals {
  import opened Common
  import opened Rules
  import opened Evidence
  import Shadow

  datatype ProposalKind =
    | NewRule | RefineRule | MergeRules | SplitRule | RetireRule
    | NewWorkflow | RefineWorkflowCadence | RefineWorkflowStopCondition | SuggestEnrollment | RetireWorkflow

  datatype ProposalStatus = Drafted | PendingReview | Accepted | Rejected | Shadowing {
    predicate IsTerminal() {
      Accepted? || Rejected?
    }
  }

  /** A candidate cadence; its content is opaque here. */
  datatype WorkflowDraft = WorkflowDraft(risk: RiskLevel, content: string)

  datatype SourceKind = FilingSource | ClassificationSource | FollowUpSource

  datatype EvidenceRef = EvidenceRef(kind: SourceKind, id: string)

  /** An evidence row linking a proposal to one feedback row. */
  datatype EvidenceItem = EvidenceItem(
    proposalId: string, ruleKind: RuleKind, source: SourceKind, sourceId: string, messageId: string, summary: string)

  datatype Proposal = Proposal(
    id: string, kind: ProposalKind, status: ProposalStatus, title: string, rationale: string,
    risk: RiskLevel, recommended: RuleStatus, ruleDraft: Option<RuleDraft>,
    targetRuleKind: Option<RuleKind>, targetRuleId: Option<string>,
    workflowDraft: Option<WorkflowDraft>, targetWorkflowId: Option<string>,
    evidenceRefs: seq<EvidenceRef>, source: string)

  /** A feedback row as evidence: its id, its message, and what it says. */
  datatype Witness = Witness(sourceId: string, messageId: string, summary: string)

  function Refs(source: SourceKind, rows: seq<Witness>): (r: seq<EvidenceRef>)
    ensures |r| == |rows|
    ensures forall k :: 0 <= k < |rows| ==> r[k] == EvidenceRef(source, rows[k].sourceId)
  {
    seq(|rows|, k requires 0 <= k < |rows| => EvidenceRef(source, rows[k].sourceId))
  }

  function Items(proposalId: string, ruleKind: RuleKind, source: SourceKind, rows: seq<Witness>): (r: seq<EvidenceItem>)
    ensures |r| == |rows|
    ensures forall k :: 0 <= k < |rows| ==>
      r[k] == EvidenceItem(proposalId, ruleKind, source, rows[k].sourceId, rows[k].messageId, rows[k].summary)
  {
    seq(|rows|, k requires 0 <= k < |rows| =>
        EvidenceItem(proposalId, ruleKind, source, rows[k].sourceId, rows[k].messageId, rows[k].summary))
  }

  method EvidenceRows(proposalId: string, ruleKind: RuleKind, source: SourceKind, rows: seq<Witness>)
    returns (evidence: seq<EvidenceItem>, refs: seq<EvidenceRef>)
    ensures evidence == Items(proposalId, ruleKind, source, rows)
    ensures refs == Refs(source, rows)
  {
    evidence, refs := [], [];
    for k := 0 to |rows|
      invariant |evidence| == |refs| == k
      invariant evidence == Items(proposalId, ruleKind, source, rows)[..k]
      invariant refs == Refs(source, rows)[..k]
    {
      var row := rows[k];
      refs := refs + [EvidenceRef(source, row.sourceId)];
      evidence := evidence + [EvidenceItem(proposalId, ruleKind, source, row.sourceId, row.messageId, row.summary)];
    }
  }

  function FilingWitnesses(rows: seq<FilingRow>): (r: seq<Witness>)
    ensures |r| == |rows|
    ensures forall k :: 0 <= k < |rows| ==>
      r[k] == Witness(rows[k].id, rows[k].messageId, "moved to " + rows[k].chosenFolder)
  {
    seq(|rows|, k requires 0 <= k < |rows| =>
      Witness(rows[k].id, rows[k].messageId, "moved to " + rows[k].chosenFolder))
  }

  function ClassificationWitnesses(rows: seq<ClassificationRow>): (r: seq<Witness>)
    ensures |r| == |rows|
    ensures forall k :: 0 <= k < |rows| ==>
      r[k] == Witness(rows[k].id, rows[k].messageId, "corrected to " + rows[k].humanLabel)
  {
    seq(|rows|, k requires 0 <= k < |rows| =>
      Witness(rows[k].id, rows[k].messageId, "corrected to " + rows[k].humanLabel))
  }

  /** A proposal together with the evidence rows saved beside it. */
  datatype Candidate = Candidate(proposal: Proposal, evidence: seq<EvidenceItem>)

  /** The candidate for a filing cluster: move the domain's mail to the folder. */
  function FilingProposal(group: Group<FilingRow>, id: string, source: string): Candidate {
    var rows := FilingWitnesses(group.rows);
    Candidate(
      Proposal(id, NewRule, PendingReview,
               "File " + group.key.domain + " mail to " + group.key.value,
               "You moved " + Decimal(|group.rows|) + " messages from " + group.key.domain
               + " to " + group.key.value + ".",
               Low, ShadowMode, Some(Shadow.FilingDraft(group.key)), None, None, None, None,
               Refs(FilingSource, rows), source),
      Items(id, Action, FilingSource, rows))
  }

  /** The rule drafted for a classification cluster: label mail of the domain. */
  function ClassificationDraft(key: Key): RuleDraft {
    RuleDraft(RuleKind.Classification, Domain, Shadow.SenderDomainEq(key.domain), NO_EFFECT.(setLabels := [key.value]))
  }

  /** The candidate for a classification cluster; riskier than a filing move. */
  function ClassificationProposal(group: Group<ClassificationRow>, id: string, source: string): Candidate {
    var rows := ClassificationWitnesses(group.rows);
    Candidate(
      Proposal(id, NewRule, PendingReview,
               "Label " + group.key.domain + " mail as " + group.key.value,
               "You corrected " + Decimal(|group.rows|) + " messages from " + group.key.domain
               + " to " + group.key.value + ".",
               Medium, ShadowMode, Some(ClassificationDraft(group.key)), None, None, None, None,
               Refs(ClassificationSource, rows), source),
      Items(id, RuleKind.Classification, ClassificationSource, rows))
  }

  /** A candidate cadence, justified by follow-up feedback. */
  function WorkflowProposal(
      draft: WorkflowDraft, title: string, rationale: string, rows: seq<string>, id: string, source: string): Proposal
  {
    Proposal(id, NewWorkflow, PendingReview, title, rationale, draft.risk, ShadowMode,
             None, None, None, Some(draft), None,
             seq(|rows|, k requires 0 <= k < |rows| => EvidenceRef(FollowUpSource, rows[k])), source)
  }
}
