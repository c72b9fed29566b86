/** The back-test gate: a candidate rule is replayed over past decisions, and only one that agrees
    with them often enough is eligible for promotion. */
module Shadow {
  import opened Common
  import opened Rules
  import opened Evidence

  /** A past decision: the fields of the message, and what the user did. */
  datatype HistoricalExample = HistoricalExample(fields: Fields, actual: RuleEffect)

  datatype ShadowReport = ShadowReport(fires: nat, correct: nat) {
    function Precision(): Option<real> {
      if fires > 0 then Some(correct as real / fires as real) else None
    }

    /** Enough firings, and a precision at the bar. */
    predicate IsEligible(bar: real, minSupport: nat) {
      fires >= minSupport && Precision().Some? && Precision().value >= bar
    }
  }

  /** Every effect the candidate would impose is one the user had. */
  predicate EffectAgrees(candidate: RuleEffect, actual: RuleEffect) {
    && (candidate.moveTo.None? || candidate.moveTo == actual.moveTo)
    && (forall l | l in candidate.setLabels :: l in actual.setLabels)
    && (forall t | t in candidate.tag :: t in actual.tag)
    && (candidate.markJunk.None? || candidate.markJunk == actual.markJunk)
  }

  /** A candidate never agrees with a decision it contradicts. */
  lemma AgreementIsNoContradiction(candidate: RuleEffect, actual: RuleEffect)
    requires EffectAgrees(candidate, actual)
    ensures !Contradicts(candidate, actual)
  {
  }

  function LiftCandidate(draft: RuleDraft): Rule {
    Rule("rule_candidate", draft.kind, draft.scope, AgentShadow, ShadowMode, draft.condition, draft.effect)
  }

  /** The past decisions whose message meets the candidate's condition. */
  function Replayed(m: Matchers, draft: RuleDraft, history: seq<HistoricalExample>): seq<HistoricalExample> {
    if history == [] then []
    else
      var last := history[|history| - 1];
      Replayed(m, draft, history[..|history| - 1])
      + if Evaluate(m, draft.condition, last.fields) then [last] else []
  }

  /** Those of them the candidate agrees with. */
  function Agreeing(effect: RuleEffect, history: seq<HistoricalExample>): (n: nat)
    ensures n <= |history|
  {
    if history == [] then 0
    else
      Agreeing(effect, history[..|history| - 1])
      + if EffectAgrees(effect, history[|history| - 1].actual) then 1 else 0
  }

  /** The report of replaying a draft. */
  function Report(m: Matchers, draft: RuleDraft, history: seq<HistoricalExample>): ShadowReport {
    var replayed := Replayed(m, draft, history);
    ShadowReport(|replayed|, Agreeing(draft.effect, replayed))
  }

  /** A lifted candidate is in shadow: it never applies, and is recorded exactly when its condition
      holds. */
  lemma CandidateFires(m: Matchers, draft: RuleDraft, fields: Fields)
    ensures Firing(m, [LiftCandidate(draft)], Active, fields) == []
    ensures Firing(m, [LiftCandidate(draft)], ShadowMode, fields) ==
            if Evaluate(m, draft.condition, fields) then [LiftCandidate(draft)] else []
  {
    hide Evaluate;
    var rules := [LiftCandidate(draft)];
    assert rules[..0] == [];
    assert Firing(m, [], Active, fields) == [] && Firing(m, [], ShadowMode, fields) == [];
  }

  method BackTest(m: Matchers, candidate: RuleDraft, history: seq<HistoricalExample>) returns (r: ShadowReport)
    ensures r == Report(m, candidate, history)
  {
    var fires, correct := 0, 0;
    for k := 0 to |history|
      invariant ShadowReport(fires, correct) == Report(m, candidate, history[..k])
    {
      var result := EvaluateRules(m, [LiftCandidate(candidate)], history[k].fields);
      CandidateFires(m, candidate, history[k].fields);
      OneMoreExample(m, candidate, history[..k], history[k]);
      assert history[..k + 1] == history[..k] + [history[k]];
      if result.shadows != [] {
        fires := fires + 1;
        if EffectAgrees(candidate.effect, history[k].actual) {
          correct := correct + 1;
        }
      }
    }
    assert history[..|history|] == history;
    r := ShadowReport(fires, correct);
  }

  lemma OneMoreExample(m: Matchers, draft: RuleDraft, history: seq<HistoricalExample>, example: HistoricalExample)
    ensures var before, after := Report(m, draft, history), Report(m, draft, history + [example]);
            var fired := Evaluate(m, draft.condition, example.fields);
            && after.fires == before.fires + (if fired then 1 else 0)
            && after.correct == before.correct
                                + (if fired && EffectAgrees(draft.effect, example.actual) then 1 else 0)
  {
    hide Evaluate;
    hide EffectAgrees;
    var all := history + [example];
    assert all[..|all| - 1] == history && all[|all| - 1] == example;
    if Evaluate(m, draft.condition, example.fields) {
      AgreeingOnOneMore(draft.effect, Replayed(m, draft, history), example);
    } else {
      assert Replayed(m, draft, all) == Replayed(m, draft, history);
    }
  }

  lemma AgreeingOnOneMore(effect: RuleEffect, history: seq<HistoricalExample>, example: HistoricalExample)
    ensures Agreeing(effect, history + [example]) ==
            Agreeing(effect, history) + if EffectAgrees(effect, example.actual) then 1 else 0
  {
    var all := history + [example];
    assert all[..|all| - 1] == history && all[|all| - 1] == example;
    hide EffectAgrees;
  }

  // ---- filing candidates over the filing history ------------------------------------------

  const DOMAIN_FIELD: string := "sender_domain"

  /** The field test both kinds of learned rule use. */
  function SenderDomainEq(domain: string): Condition {
    Leaf(Predicate(DOMAIN_FIELD, Eq, Text(domain)))
  }

  /** The rule drafted for a filing cluster: move mail of the domain to the folder. */
  function FilingDraft(key: Key): RuleDraft {
    RuleDraft(Action, Domain, SenderDomainEq(key.domain), NO_EFFECT.(moveTo := Some(key.value)))
  }

  /** A domain rule holds of exactly the messages from that domain. */
  lemma DomainRuleMeans(m: Matchers, domain: string, fields: Fields)
    ensures Evaluate(m, SenderDomainEq(domain), fields) <==>
            DOMAIN_FIELD in fields && fields[DOMAIN_FIELD] == Text(domain)
  {
  }

  /** The decision a filing row records: a message from the domain moved to the folder. */
  function ExampleOf(row: FilingRow): HistoricalExample
    requires row.senderDomain.Some?
  {
    HistoricalExample(map[DOMAIN_FIELD := Text(row.senderDomain.value)], NO_EFFECT.(moveTo := Some(row.chosenFolder)))
  }

  /** The history made of all filing rows that name a domain. */
  function HistoryOf(rows: seq<FilingRow>): seq<HistoricalExample> {
    if rows == [] then []
    else
      var last := rows[|rows| - 1];
      HistoryOf(rows[..|rows| - 1]) + if last.senderDomain.Some? then [ExampleOf(last)] else []
  }

  /** How many rows come from a domain. */
  function FromDomain(rows: seq<FilingRow>, domain: string): nat {
    if rows == [] then 0
    else
      FromDomain(rows[..|rows| - 1], domain) + if rows[|rows| - 1].senderDomain == Some(domain) then 1 else 0
  }

  lemma ReportOfRow(m: Matchers, key: Key, row: FilingRow)
    requires row.senderDomain.Some?
    ensures Evaluate(m, FilingDraft(key).condition, ExampleOf(row).fields) <==> row.senderDomain == Some(key.domain)
    ensures EffectAgrees(FilingDraft(key).effect, ExampleOf(row).actual) <==> row.chosenFolder == key.value
  {
    DomainRuleMeans(m, key.domain, ExampleOf(row).fields);
  }

  /** Back-tested over the whole filing history, the draft of a (domain, folder) pair fires exactly
      as often as the domain occurs and is right exactly as often as the pair does. */
  lemma {:induction false} BackTestCounts(m: Matchers, rows: seq<FilingRow>, key: Key)
    ensures Report(m, FilingDraft(key), HistoryOf(rows)) ==
            ShadowReport(FromDomain(rows, key.domain), |Having(FilingKey, rows, key)|)
  {
    if rows != [] {
      var init, row := rows[..|rows| - 1], rows[|rows| - 1];
      BackTestCounts(m, init, key);
      hide FilingDraft;
      hide Report;
      hide Evaluate;
      hide EffectAgrees;
      assert FilingKey(row) == Some(key) <==> row.senderDomain == Some(key.domain) && row.chosenFolder == key.value;
      if row.senderDomain.Some? {
        OneMoreExample(m, FilingDraft(key), HistoryOf(init), ExampleOf(row));
        ReportOfRow(m, key, row);
        assert HistoryOf(rows) == HistoryOf(init) + [ExampleOf(row)];
      } else {
        assert HistoryOf(rows) == HistoryOf(init);
      }
    }
  }

  /** For a cluster that means: fires is the domain's rows, correct is the cluster's. */
  lemma ClusterReport(m: Matchers, rows: seq<FilingRow>, i: nat)
    requires i < |Cluster(FilingKey, rows)|
    ensures var group := Cluster(FilingKey, rows)[i];
            Report(m, FilingDraft(group.key), HistoryOf(rows)) ==
            ShadowReport(FromDomain(rows, group.key.domain), |group.rows|)
  {
    ClustersAreExact(FilingKey, rows);
    BackTestCounts(m, rows, Cluster(FilingKey, rows)[i].key);
  }

  // ---- the majority argument --------------------------------------------------------------

  /** Two folders of one domain share its rows. */
  lemma {:induction false} FoldersShareTheDomain(rows: seq<FilingRow>, a: Key, b: Key)
    requires a.domain == b.domain && a != b
    ensures |Having(FilingKey, rows, a)| + |Having(FilingKey, rows, b)| <= FromDomain(rows, a.domain)
  {
    if rows != [] {
      FoldersShareTheDomain(rows[..|rows| - 1], a, b);
    }
  }

  lemma MoreThanHalf(fires: nat, correct: nat, bar: real)
    requires fires > 0 && bar > 0.5 && correct as real / fires as real >= bar
    ensures 2 * correct > fires
  {
    var x, f, c := correct as real / fires as real, fires as real, correct as real;
    assert x * f == c;
    assert (x - 0.5) * f > 0.0;
    assert c > 0.5 * f;
  }

  predicate EligibleFiling(m: Matchers, rows: seq<FilingRow>, key: Key, bar: real, minSupport: nat) {
    Report(m, FilingDraft(key), HistoryOf(rows)).IsEligible(bar, minSupport)
  }

  /** Above one half, at most one folder per domain is eligible. */
  lemma OneFolderPerDomain(m: Matchers, rows: seq<FilingRow>, a: Key, b: Key, bar: real, minSupport: nat)
    requires bar > 0.5 && a.domain == b.domain
    requires EligibleFiling(m, rows, a, bar, minSupport) && EligibleFiling(m, rows, b, bar, minSupport)
    ensures a == b
  {
    BackTestCounts(m, rows, a);
    BackTestCounts(m, rows, b);
    var fires := FromDomain(rows, a.domain);
    MoreThanHalf(fires, |Having(FilingKey, rows, a)|, bar);
    MoreThanHalf(fires, |Having(FilingKey, rows, b)|, bar);
    if a != b {
      FoldersShareTheDomain(rows, a, b);
    }
  }

  /** Eligible filing rules never pull one message two ways: two that fire on the same message are
      the same rule, and in particular do not contradict each other. */
  lemma EligibleRulesAgree(
      m: Matchers, rows: seq<FilingRow>, a: Key, b: Key, bar: real, minSupport: nat, fields: Fields)
    requires bar > 0.5
    requires EligibleFiling(m, rows, a, bar, minSupport) && EligibleFiling(m, rows, b, bar, minSupport)
    requires Evaluate(m, FilingDraft(a).condition, fields) && Evaluate(m, FilingDraft(b).condition, fields)
    ensures a == b && !Contradicts(FilingDraft(a).effect, FilingDraft(b).effect)
  {
    DomainRuleMeans(m, a.domain, fields);
    DomainRuleMeans(m, b.domain, fields);
    OneFolderPerDomain(m, rows, a, b, bar, minSupport);
  }

  /** The rows followed by `n` more copies of one. */
  function Repeated(rows: seq<FilingRow>, row: FilingRow, n: nat): seq<FilingRow> {
    if n == 0 then rows else Repeated(rows, row, n - 1) + [row]
  }

  lemma {:induction false} CountsOfRepeated(rows: seq<FilingRow>, row: FilingRow, n: nat, key: Key)
    requires row.senderDomain == Some(key.domain)
    ensures FromDomain(Repeated(rows, row, n), key.domain) == FromDomain(rows, key.domain) + n
    ensures |Having(FilingKey, Repeated(rows, row, n), key)| ==
            |Having(FilingKey, rows, key)| + if row.chosenFolder == key.value then n else 0
  {
    if n > 0 {
      CountsOfRepeated(rows, row, n - 1, key);
      var all := Repeated(rows, row, n);
      assert all[..|all| - 1] == Repeated(rows, row, n - 1);
    }
  }

  lemma EvenSplit(m: Matchers, one: FilingRow, two: FilingRow, n: nat, key: Key, bar: real)
    requires one.senderDomain == two.senderDomain == Some(key.domain)
    requires one.chosenFolder != two.chosenFolder && key.value in {one.chosenFolder, two.chosenFolder}
    requires n > 0 && bar <= 0.5
    ensures EligibleFiling(m, Repeated(Repeated([], one, n), two, n), key, bar, n)
  {
    var rows := Repeated(Repeated([], one, n), two, n);
    EvenCounts(one, two, n, key);
    BackTestCounts(m, rows, key);
    EvenIsHalf(n);
    hide Report;
    hide Having;
    hide FromDomain;
    hide Repeated;
    hide HistoryOf;
  }

  /** One half is where it stops: at any bar up to it, and for any support, a domain filed evenly to
      two folders makes both of their contradictory rules eligible. */
  lemma HalfIsNotEnough(m: Matchers, bar: real, minSupport: nat)
    returns (rows: seq<FilingRow>, a: Key, b: Key)
    requires bar <= 0.5
    ensures EligibleFiling(m, rows, a, bar, minSupport) && EligibleFiling(m, rows, b, bar, minSupport)
    ensures a.domain == b.domain && Contradicts(FilingDraft(a).effect, FilingDraft(b).effect)
  {
    var one := FilingRow("r1", "m1", Some("x.org"), "A", Negative);
    var two := FilingRow("r2", "m2", Some("x.org"), "B", Negative);
    a, b := Key("x.org", "A"), Key("x.org", "B");
    var n := minSupport + 1;
    rows := Repeated(Repeated([], one, n), two, n);
    hide Repeated;
    hide HistoryOf;
    hide Report;
    EvenSplit(m, one, two, n, a, bar);
    EvenSplit(m, one, two, n, b, bar);
  }

  lemma EvenCounts(one: FilingRow, two: FilingRow, n: nat, key: Key)
    requires one.senderDomain == two.senderDomain == Some(key.domain)
    requires one.chosenFolder != two.chosenFolder && key.value in {one.chosenFolder, two.chosenFolder}
    ensures var rows := Repeated(Repeated([], one, n), two, n);
            FromDomain(rows, key.domain) == 2 * n && |Having(FilingKey, rows, key)| == n
  {
    CountsOfRepeated([], one, n, key);
    CountsOfRepeated(Repeated([], one, n), two, n, key);
  }

  lemma EvenIsHalf(n: nat)
    requires n > 0
    ensures n as real / (2 * n) as real == 0.5
  {
  }

  /** A filing rule is eligible exactly when its domain has the support asked for, and at least one row,
      and the pair has at least the bar's share of the domain's rows. */
  lemma EligibleIff(m: Matchers, rows: seq<FilingRow>, key: Key, bar: real, minSupport: nat)
    ensures EligibleFiling(m, rows, key, bar, minSupport) <==>
      && FromDomain(rows, key.domain) >= minSupport && FromDomain(rows, key.domain) > 0
      && |Having(FilingKey, rows, key)| as real >= bar * FromDomain(rows, key.domain) as real
  {
    hide Report;
    hide FromDomain;
    hide Having;
    hide HistoryOf;
    hide FilingDraft;
    BackTestCounts(m, rows, key);
    var fires, correct := FromDomain(rows, key.domain), |Having(FilingKey, rows, key)|;
    if fires > 0 {
      ShareIff(fires, correct, bar);
    }
  }

  lemma ShareIff(fires: nat, correct: nat, bar: real)
    requires fires > 0
    ensures correct as real / fires as real >= bar <==> correct as real >= bar * fires as real
  {
    var x, f, c := correct as real / fires as real, fires as real, correct as real;
    assert x * f == c;
    if x >= bar {
      assert (x - bar) * f >= 0.0;
    } else {
      assert (bar - x) * f > 0.0;
    }
  }

  /** Replayed over one decision, a draft fires when its condition holds, and is right when the decision
      moved the mail where the draft would, carries every label and every tag it would set, and
      marked junk as it would. */
  lemma ReportOfOne(m: Matchers, draft: RuleDraft, example: HistoricalExample)
    ensures var report := Report(m, draft, [example]);
            var would, was := draft.effect, example.actual;
            && report.fires == (if Evaluate(m, draft.condition, example.fields) then 1 else 0)
            && (report.correct == 1 <==>
                  && Evaluate(m, draft.condition, example.fields)
                  && (would.moveTo.Some? ==> was.moveTo == would.moveTo)
                  && (forall l :: l in would.setLabels ==> l in was.setLabels)
                  && (forall t :: t in would.tag ==> t in was.tag)
                  && (would.markJunk.Some? ==> was.markJunk == would.markJunk))
  {
    OneMoreExample(m, draft, [], example);
    assert [] + [example] == [example];
    assert Report(m, draft, []) == ShadowReport(0, 0);
    hide Report;
    hide Evaluate;
  }
}
