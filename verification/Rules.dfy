/** Rules as the learning loop sees them: conditions and what they mean, effects and when they
    contradict, and the structural comparison that conflict detection rests on. */
module Rules {
  import opened Common
  import opened Sorting

  datatype RuleKind = Classification | Action

  datatype RuleScope = Global | Account | Folder | Sender | Domain

  datatype RuleStatus = Draft | PendingHumanReview | ShadowMode | Active | Disabled | Retired | Rejected

  datatype RiskLevel = Low | Medium | High | Critical

  /** Whose word a rule is; the earlier ones outrank the later. */
  datatype HierarchyBand = SystemSafety | HumanHard | LearnedActive | AgentShadow | AiSuggestion | DefaultFallback {
    function Ordinal(): nat {
      match this
      case SystemSafety => 0
      case HumanHard => 1
      case LearnedActive => 2
      case AgentShadow => 3
      case AiSuggestion => 4
      case DefaultFallback => 5
    }
  }

  // ---- conditions -------------------------------------------------------------------------

  /** A field's value. */
  datatype FieldValue =
    | Null
    | Bool(flag: bool)
    | Int(n: int)
    | Float(value: real)
    | Text(text: string)
    | TextSet(texts: seq<string>)

  datatype Operator =
    | Eq | In | Contains | ContainsAny | ContainsAll | Gt | Gte | Lt | Lte | Before | After | Exists | MatchesRegex

  datatype Predicate = Predicate(field: string, op: Operator, value: FieldValue)

  datatype Condition =
    | All(all: seq<Condition>)
    | Any(any: seq<Condition>)
    | Not(not: Condition)
    | Leaf(test: Predicate)

  /** The library functions the evaluator calls: the instant a timestamp text stands for, and
      regular-expression search. Nothing is assumed of them. */
  datatype Matchers = Matchers(
    instant: string -> Option<int>,
    matches: (string, string) -> bool)

  type Fields = map<string, FieldValue>

  function AsNumber(v: FieldValue): Option<real> {
    match v
    case Int(n) => Some(n as real)
    case Float(x) => Some(x)
    case _ => None
  }

  function AsSet(v: FieldValue): Option<seq<string>> {
    match v
    case TextSet(texts) => Some(texts)
    case Text(text) => Some([text])
    case _ => None
  }

  predicate IsSubstring(needle: string, haystack: string) {
    needle <= haystack || (haystack != "" && IsSubstring(needle, haystack[1..]))
  }

  /** The tolerance of numeric equality: 2 to the power -52. */
  const EPSILON: real := 1.0 / 4503599627370496.0

  predicate NumbersRelate(op: Operator, a: FieldValue, b: FieldValue) {
    var x, y := AsNumber(a), AsNumber(b);
    x.Some? && y.Some? &&
    match op
    case Gt => x.value > y.value
    case Gte => x.value >= y.value
    case Lt => x.value < y.value
    case Lte => x.value <= y.value
    case _ => -EPSILON < x.value - y.value < EPSILON
  }

  predicate InstantsRelate(m: Matchers, op: Operator, a: FieldValue, b: FieldValue) {
    a.Text? && b.Text? &&
    var x, y := m.instant(a.text), m.instant(b.text);
    x.Some? && y.Some? && if op.Before? then x.value < y.value else x.value > y.value
  }

  predicate Holds(needle: string, field: FieldValue) {
    match field
    case TextSet(texts) => needle in texts
    case Text(text) => IsSubstring(needle, text)
    case _ => false
  }

  predicate ApplyOp(m: Matchers, op: Operator, field: FieldValue, value: FieldValue) {
    match op
    case Eq =>
      if AsNumber(field).Some? && AsNumber(value).Some? then NumbersRelate(Eq, field, value)
      else field == value
    case In => field.Text? && AsSet(value).Some? && field.text in AsSet(value).value
    case Contains => value.Text? && Holds(value.text, field)
    case ContainsAny => AsSet(value).Some? && exists needle | needle in AsSet(value).value :: Holds(needle, field)
    case ContainsAll => AsSet(value).Some? && forall needle | needle in AsSet(value).value :: Holds(needle, field)
    case Gt => NumbersRelate(op, field, value)
    case Gte => NumbersRelate(op, field, value)
    case Lt => NumbersRelate(op, field, value)
    case Lte => NumbersRelate(op, field, value)
    case Before => InstantsRelate(m, op, field, value)
    case After => InstantsRelate(m, op, field, value)
    case MatchesRegex => field.Text? && value.Text? && m.matches(value.text, field.text)
    case Exists => field != Null
  }

  /** A predicate over an absent or null field is false, whatever its operator. */
  predicate Satisfied(m: Matchers, p: Predicate, fields: Fields) {
    p.field in fields && fields[p.field] != Null && ApplyOp(m, p.op, fields[p.field], p.value)
  }

  predicate Evaluate(m: Matchers, c: Condition, fields: Fields)
    decreases c
  {
    match c
    case All(all) => EveryOne(m, all, fields)
    case Any(any) => SomeOne(m, any, fields)
    case Not(not) => !Evaluate(m, not, fields)
    case Leaf(test) => Satisfied(m, test, fields)
  }

  predicate EveryOne(m: Matchers, cs: seq<Condition>, fields: Fields)
    decreases cs
  {
    forall i | 0 <= i < |cs| :: Evaluate(m, cs[i], fields)
  }

  predicate SomeOne(m: Matchers, cs: seq<Condition>, fields: Fields)
    decreases cs
  {
    exists i | 0 <= i < |cs| :: Evaluate(m, cs[i], fields)
  }

  // ---- canonical form ---------------------------------------------------------------------

  /** The canonical form of a condition: the same tree, children of `all` and `any` sorted by the
      text of their own canonical forms. `text` is the JSON text of a form. */
  function Canonical(text: Condition -> string, c: Condition): Condition
    decreases c
  {
    match c
    case All(all) => All(SortByText(text, Canonicals(text, all)))
    case Any(any) => Any(SortByText(text, Canonicals(text, any)))
    case Not(not) => Not(Canonical(text, not))
    case Leaf(_) => c
  }

  function Canonicals(text: Condition -> string, cs: seq<Condition>): (r: seq<Condition>)
    ensures |r| == |cs|
    ensures forall i :: 0 <= i < |cs| ==> r[i] == Canonical(text, cs[i])
    decreases cs
  {
    if cs == [] then [] else [Canonical(text, cs[0])] + Canonicals(text, cs[1..])
  }

  /** The order of the text of forms. */
  function ByText(text: Condition -> string): (Condition, Condition) -> bool {
    (a, b) => Less(text(a), text(b))
  }

  function SortByText(text: Condition -> string, cs: seq<Condition>): (r: seq<Condition>)
    ensures multiset(r) == multiset(cs)
  {
    Sort(ByText(text), cs)
  }

  predicate ConditionsEquivalent(text: Condition -> string, a: Condition, b: Condition) {
    Canonical(text, a) == Canonical(text, b)
  }

  lemma SameMembers(a: seq<Condition>, b: seq<Condition>)
    requires multiset(a) == multiset(b)
    ensures forall i :: 0 <= i < |a| ==> a[i] in b
    ensures forall i :: 0 <= i < |b| ==> b[i] in a
  {
    forall i | 0 <= i < |a|
      ensures a[i] in b
    {
      assert a[i] in multiset(b);
    }
    forall i | 0 <= i < |b|
      ensures b[i] in a
    {
      assert b[i] in multiset(a);
    }
  }

  /** The order of the children is of no consequence. */
  lemma OrderDoesNotMatter(m: Matchers, a: seq<Condition>, b: seq<Condition>, fields: Fields)
    requires multiset(a) == multiset(b)
    ensures EveryOne(m, a, fields) == EveryOne(m, b, fields) && SomeOne(m, a, fields) == SomeOne(m, b, fields)
  {
    hide Evaluate;
    SameMembers(a, b);
  }

  /** Canonicalization preserves meaning, in every environment. */
  lemma {:induction false} CanonicalMeansTheSame(text: Condition -> string, m: Matchers, c: Condition, fields: Fields)
    ensures Evaluate(m, Canonical(text, c), fields) == Evaluate(m, c, fields)
    decreases c
  {
    match c {
      case All(all) =>
        ChildrenMeanTheSame(text, m, all, fields);
        OrderDoesNotMatter(m, SortByText(text, Canonicals(text, all)), Canonicals(text, all), fields);
      case Any(any) =>
        ChildrenMeanTheSame(text, m, any, fields);
        OrderDoesNotMatter(m, SortByText(text, Canonicals(text, any)), Canonicals(text, any), fields);
      case Not(not) => CanonicalMeansTheSame(text, m, not, fields);
      case Leaf(_) =>
    }
  }

  lemma {:induction false} ChildrenMeanTheSame(
      text: Condition -> string, m: Matchers, cs: seq<Condition>, fields: Fields)
    ensures EveryOne(m, Canonicals(text, cs), fields) == EveryOne(m, cs, fields)
    ensures SomeOne(m, Canonicals(text, cs), fields) == SomeOne(m, cs, fields)
    decreases cs
  {
    var forms := Canonicals(text, cs);
    forall i | 0 <= i < |cs|
      ensures Evaluate(m, forms[i], fields) == Evaluate(m, cs[i], fields)
    {
      CanonicalMeansTheSame(text, m, cs[i], fields);
    }
    hide Evaluate;
    hide Canonicals;
    hide Canonical;
  }

  /** Equivalent conditions hold of exactly the same messages. */
  lemma EquivalentMeansTheSame(text: Condition -> string, m: Matchers, a: Condition, b: Condition, fields: Fields)
    requires ConditionsEquivalent(text, a, b)
    ensures Evaluate(m, a, fields) == Evaluate(m, b, fields)
  {
    CanonicalMeansTheSame(text, m, a, fields);
    CanonicalMeansTheSame(text, m, b, fields);
  }

  // ---- what equivalence compares ----------------------------------------------------------

  /** The same tree, up to the order of children under `all` and `any`, at every depth. */
  ghost predicate SameUpToOrder(a: Condition, b: Condition)
    decreases a
  {
    match a
    case All(all) => b.All? && Reordered(all, b.all)
    case Any(any) => b.Any? && Reordered(any, b.any)
    case Not(not) => b.Not? && SameUpToOrder(not, b.not)
    case Leaf(_) => a == b
  }

  ghost predicate Reordered(a: seq<Condition>, b: seq<Condition>)
    decreases a
  {
    && |a| == |b|
    && exists p: seq<nat> ::
         IsPermutation(p, |a|) && forall i :: 0 <= i < |a| ==> SameUpToOrder(a[i], b[p[i]])
  }

  ghost predicate IsPermutation(p: seq<nat>, n: nat) {
    |p| == n && (forall i :: 0 <= i < n ==> p[i] < n) && Distinct(p)
  }

  /** A list without one of its elements. */
  function Without<T>(s: seq<T>, k: nat): (r: seq<T>)
    requires k < |s|
    ensures |r| == |s| - 1
    ensures forall j :: 0 <= j < |s| && j != k ==> r[Closed(j, k)] == s[j]
  {
    s[..k] + s[k + 1..]
  }

  /** Where an index other than `k` goes when the element at `k` is taken out, and back. */
  function Closed(j: nat, k: nat): nat {
    if j <= k then j else j - 1
  }

  function Opened(j: nat, k: nat): nat {
    if j < k then j else j + 1
  }

  lemma WithoutOne<T>(s: seq<T>, k: nat)
    requires k < |s|
    ensures multiset(s) == multiset(Without(s, k)) + multiset{s[k]}
  {
    assert s == s[..k] + [s[k]] + s[k + 1..];
  }

  lemma {:induction false} PermutationKeepsMembers<T>(a: seq<T>, b: seq<T>, p: seq<nat>)
    requires |a| == |b| && IsPermutation(p, |a|)
    requires forall i :: 0 <= i < |a| ==> a[i] == b[p[i]]
    ensures multiset(a) == multiset(b)
  {
    if a != [] {
      var n := |a| - 1;
      var k := p[n];
      var q: seq<nat> := seq(n, i requires 0 <= i < n => Closed(p[i], k));
      PermutationKeepsMembers(a[..n], Without(b, k), q);
      WithoutOne(b, k);
      assert a == a[..n] + [a[n]];
    }
  }

  lemma {:induction false} MembersGivePermutation<T>(a: seq<T>, b: seq<T>) returns (p: seq<nat>)
    requires multiset(a) == multiset(b)
    ensures |a| == |b| && IsPermutation(p, |a|)
    ensures forall i :: 0 <= i < |a| ==> a[i] == b[p[i]]
  {
    assert |a| == |multiset(a)| == |multiset(b)| == |b|;
    if a == [] {
      p := [];
    } else {
      var n := |a| - 1;
      assert a[n] in multiset(b);
      var k :| 0 <= k < |b| && b[k] == a[n];
      WithoutOne(b, k);
      WithoutOne(a, n);
      assert Without(a, n) == a[..n];
      Cancel(multiset(a[..n]), multiset(Without(b, k)), a[n]);
      var q := MembersGivePermutation(a[..n], Without(b, k));
      p := OneMoreMatched(a, b, k, q);
    }
  }

  /** Matching the last element with `b[k]` extends a matching of the others. */
  lemma OneMoreMatched<T>(a: seq<T>, b: seq<T>, k: nat, q: seq<nat>) returns (p: seq<nat>)
    requires a != [] && |b| == |a| && k < |b| && a[|a| - 1] == b[k]
    requires IsPermutation(q, |a| - 1)
    requires forall i :: 0 <= i < |a| - 1 ==> a[..|a| - 1][i] == Without(b, k)[q[i]]
    ensures IsPermutation(p, |a|) && forall i :: 0 <= i < |a| ==> a[i] == b[p[i]]
  {
    var n := |a| - 1;
    p := seq(n, i requires 0 <= i < n => Opened(q[i], k)) + [k];
    forall i | 0 <= i < n
      ensures p[i] < |b| && p[i] != k && a[i] == b[p[i]]
    {
      assert Closed(p[i], k) == q[i] && a[..n][i] == a[i];
    }
  }

  lemma ByTextIsWeakOrder(text: Condition -> string)
    ensures WeakOrder(ByText(text))
  {
    var less := ByText(text);
    forall a, b | less(a, b)
      ensures !less(b, a)
    {
      NotBelowItself(text(a), text(b));
    }
    forall a, b, c | less(a, b) && !less(c, b)
      ensures less(a, c)
    {
      BelowBelow(text(a), text(b), text(c));
    }
  }

  lemma NotBelowItself(a: string, b: string)
    requires Less(a, b)
    ensures !Less(b, a)
  {
    LessIrreflexive(a);
    if Less(b, a) {
      LessTransitive(a, b, a);
    }
  }

  /** What is below a text is below everything not below that text. */
  lemma BelowBelow(a: string, b: string, c: string)
    requires Less(a, b) && !Less(c, b)
    ensures Less(a, c)
  {
    LessTotal(b, c);
    if b != c {
      LessTransitive(a, b, c);
    }
  }

  /** Forms tie when their texts are the same. */
  lemma TieIffSameText(text: Condition -> string, a: Condition, b: Condition)
    ensures Tie(ByText(text), a, b) <==> text(a) == text(b)
  {
    LessTotal(text(a), text(b));
    LessIrreflexive(text(a));
  }

  /** Different forms have different texts. */
  ghost predicate TextsDiffer(text: Condition -> string, forms: seq<Condition>) {
    forall i, j :: 0 <= i < |forms| && 0 <= j < |forms| && text(forms[i]) == text(forms[j]) ==> forms[i] == forms[j]
  }

  /** At every `all` and `any`, the text tells different canonical children apart. */
  ghost predicate SiblingsDiffer(text: Condition -> string, c: Condition)
    decreases c
  {
    match c
    case All(all) => AllDiffer(text, all)
    case Any(any) => AllDiffer(text, any)
    case Not(not) => SiblingsDiffer(text, not)
    case Leaf(_) => true
  }

  ghost predicate AllDiffer(text: Condition -> string, cs: seq<Condition>)
    decreases cs
  {
    TextsDiffer(text, Canonicals(text, cs)) && forall i | 0 <= i < |cs| :: SiblingsDiffer(text, cs[i])
  }

  lemma SortsAgreeIff(text: Condition -> string, x: seq<Condition>, y: seq<Condition>)
    requires TextsDiffer(text, x)
    ensures SortByText(text, x) == SortByText(text, y) <==> multiset(x) == multiset(y)
  {
    if multiset(x) == multiset(y) {
      var a, b := SortByText(text, x), SortByText(text, y);
      ByTextIsWeakOrder(text);
      SortIsSorted(ByText(text), x);
      SortIsSorted(ByText(text), y);
      forall c, d | c in a && d in a && Tie(ByText(text), c, d)
        ensures c == d
      {
        TieIffSameText(text, c, d);
        SameMembers(a, x);
      }
      SortedIsUnique(ByText(text), a, b);
    }
  }

  /** Conditions that compare as equivalent are the same tree up to the order of children under
      `all` and `any`, at every depth, whatever the text. */
  lemma {:induction false} EquivalentIsReordered(text: Condition -> string, a: Condition, b: Condition)
    requires ConditionsEquivalent(text, a, b)
    ensures SameUpToOrder(a, b)
    decreases a
  {
    match a {
      case All(all) => ChildrenAreReordered(text, all, b.all);
      case Any(any) => ChildrenAreReordered(text, any, b.any);
      case Not(not) => EquivalentIsReordered(text, not, b.not);
      case Leaf(_) =>
    }
  }

  lemma {:induction false} ChildrenAreReordered(text: Condition -> string, a: seq<Condition>, b: seq<Condition>)
    requires SortByText(text, Canonicals(text, a)) == SortByText(text, Canonicals(text, b))
    ensures Reordered(a, b)
    decreases a
  {
    var x, y := Canonicals(text, a), Canonicals(text, b);
    assert multiset(x) == multiset(SortByText(text, x)) == multiset(SortByText(text, y)) == multiset(y);
    var p := MembersGivePermutation(x, y);
    forall i | 0 <= i < |a|
      ensures SameUpToOrder(a[i], b[p[i]])
    {
      EquivalentIsReordered(text, a[i], b[p[i]]);
    }
  }

  /** And such trees compare as equivalent where the text tells siblings apart. */
  lemma {:induction false} ReorderedIsEquivalent(text: Condition -> string, a: Condition, b: Condition)
    requires SiblingsDiffer(text, a) && SameUpToOrder(a, b)
    ensures ConditionsEquivalent(text, a, b)
    decreases a
  {
    match a {
      case All(all) => ReorderedSortAlike(text, all, b.all);
      case Any(any) => ReorderedSortAlike(text, any, b.any);
      case Not(not) => ReorderedIsEquivalent(text, not, b.not);
      case Leaf(_) =>
    }
  }

  lemma {:induction false} ReorderedSortAlike(text: Condition -> string, a: seq<Condition>, b: seq<Condition>)
    requires AllDiffer(text, a) && Reordered(a, b)
    ensures SortByText(text, Canonicals(text, a)) == SortByText(text, Canonicals(text, b))
    decreases a
  {
    var x, y := Canonicals(text, a), Canonicals(text, b);
    var p: seq<nat> :| IsPermutation(p, |a|) && forall i :: 0 <= i < |a| ==> SameUpToOrder(a[i], b[p[i]]);
    forall i | 0 <= i < |a|
      ensures x[i] == y[p[i]]
    {
      ReorderedIsEquivalent(text, a[i], b[p[i]]);
    }
    PermutationKeepsMembers(x, y, p);
    SortsAgreeIff(text, x, y);
  }

  lemma {:induction false} SameAsItself(c: Condition)
    ensures SameUpToOrder(c, c)
    decreases c
  {
    match c {
      case All(all) => ReorderedAsItself(all);
      case Any(any) => ReorderedAsItself(any);
      case Not(not) => SameAsItself(not);
      case Leaf(_) =>
    }
  }

  lemma {:induction false} ReorderedAsItself(cs: seq<Condition>)
    ensures Reordered(cs, cs)
    decreases cs
  {
    forall i | 0 <= i < |cs|
      ensures SameUpToOrder(cs[i], cs[i])
    {
      SameAsItself(cs[i]);
    }
    var p: seq<nat> := seq(|cs|, i => i);
    assert IsPermutation(p, |cs|);
    assert forall i :: 0 <= i < |cs| ==> SameUpToOrder(cs[i], cs[p[i]]);
  }

  /** Which element comes to stand at an index when the one at `k` is moved to the front. */
  function Unfronted(i: nat, k: nat): nat {
    if i == 0 then k else if i <= k then i - 1 else i
  }

  /** The list with one element moved to the front. */
  function Fronted<T>(s: seq<T>, k: nat): (r: seq<T>)
    requires k < |s|
    ensures |r| == |s|
    ensures forall i :: 0 <= i < |s| ==> Unfronted(i, k) < |s| && r[i] == s[Unfronted(i, k)]
  {
    seq(|s|, i requires 0 <= i < |s| => s[Unfronted(i, k)])
  }

  /** Where an index goes when the element at `k` is moved to the front. */
  function FrontedIndex(i: nat, k: nat): nat {
    if i == k then 0 else if i < k then i + 1 else i
  }

  lemma FrontedIndicesPermute(n: nat, k: nat) returns (p: seq<nat>)
    requires k < n
    ensures IsPermutation(p, n) && forall i :: 0 <= i < n ==> p[i] == FrontedIndex(i, k)
  {
    p := seq(n, i requires 0 <= i < n => FrontedIndex(i, k));
  }

  lemma ReorderedBy(a: seq<Condition>, b: seq<Condition>, p: seq<nat>)
    requires |a| == |b| && IsPermutation(p, |a|)
    requires forall i :: 0 <= i < |a| ==> SameUpToOrder(a[i], b[p[i]])
    ensures Reordered(a, b)
  {
    hide SameUpToOrder;
  }

  lemma FrontedAt<T>(s: seq<T>, k: nat, i: nat)
    requires k < |s| && i < |s|
    ensures Fronted(s, k)[FrontedIndex(i, k)] == s[i]
  {
  }

  lemma FrontingReorders(cs: seq<Condition>, k: nat)
    requires k < |cs|
    ensures Reordered(cs, Fronted(cs, k))
  {
    hide SameUpToOrder;
    var p := FrontedIndicesPermute(|cs|, k);
    forall i | 0 <= i < |cs|
      ensures SameUpToOrder(cs[i], Fronted(cs, k)[p[i]])
    {
      SameAsItself(cs[i]);
      FrontedAt(cs, k, i);
    }
    hide FrontedIndex;
    hide Reordered;
    hide IsPermutation;
    ReorderedBy(cs, Fronted(cs, k), p);
  }

  /** Of two different forms with one text, one moved to the front shows in the sorted list. */
  lemma FrontingShows(text: Condition -> string, forms: seq<Condition>, i: nat, j: nat)
    requires i < |forms| && j < |forms| && text(forms[i]) == text(forms[j]) && forms[i] != forms[j]
    ensures SortByText(text, Fronted(forms, i)) != SortByText(text, forms)
         || SortByText(text, Fronted(forms, j)) != SortByText(text, forms)
  {
    var less, x := ByText(text), forms[i];
    ByTextIsWeakOrder(text);
    TieIffSameText(text, x, forms[i]);
    TieIffSameText(text, x, forms[j]);
    SortIsStable(less, x, Fronted(forms, i));
    SortIsStable(less, x, Fronted(forms, j));
    assert Ties(less, x, Fronted(forms, i))[0] == forms[i];
    assert Ties(less, x, Fronted(forms, j))[0] == forms[j];
  }

  lemma CanonicalsOfFronted(text: Condition -> string, cs: seq<Condition>, k: nat)
    requires k < |cs|
    ensures Canonicals(text, Fronted(cs, k)) == Fronted(Canonicals(text, cs), k)
  {
    hide Canonical;
    hide Canonicals;
    hide Fronted;
    hide Unfronted;
  }

  /** Children whose order matters: some reordering of them sorts differently. */
  lemma {:induction false} SomeOrderShows(text: Condition -> string, cs: seq<Condition>) returns (other: seq<Condition>)
    requires !AllDiffer(text, cs)
    ensures Reordered(cs, other)
    ensures SortByText(text, Canonicals(text, cs)) != SortByText(text, Canonicals(text, other))
    decreases cs
  {
    var forms := Canonicals(text, cs);
    if TextsDiffer(text, forms) {
      var k :| 0 <= k < |cs| && !SiblingsDiffer(text, cs[k]);
      var c := SomeTreeShows(text, cs[k]);
      other := cs[k := c];
      OneChildShows(text, cs, k, c);
    } else {
      var i, j :| 0 <= i < |forms| && 0 <= j < |forms| && text(forms[i]) == text(forms[j]) && forms[i] != forms[j];
      FrontingShows(text, forms, i, j);
      FrontingReorders(cs, i);
      FrontingReorders(cs, j);
      CanonicalsOfFronted(text, cs, i);
      CanonicalsOfFronted(text, cs, j);
      other := if SortByText(text, Fronted(forms, i)) != SortByText(text, forms)
               then Fronted(cs, i) else Fronted(cs, j);
    }
  }

  lemma ReplacementShows<T>(x: seq<T>, y: seq<T>, k: nat)
    requires k < |x| && |y| == |x| && x[k] != y[k]
    requires forall i :: 0 <= i < |x| && i != k ==> x[i] == y[i]
    ensures multiset(x) != multiset(y)
  {
    WithoutOne(x, k);
    WithoutOne(y, k);
    assert Without(x, k) == Without(y, k);
    assert (multiset(Without(x, k)) + multiset{x[k]})[x[k]] != (multiset(Without(y, k)) + multiset{y[k]})[x[k]];
  }

  /** A child that compares differently makes the whole compare differently. */
  lemma OneChildShows(text: Condition -> string, cs: seq<Condition>, k: nat, c: Condition)
    requires k < |cs| && SameUpToOrder(cs[k], c) && !ConditionsEquivalent(text, cs[k], c)
    ensures Reordered(cs, cs[k := c])
    ensures SortByText(text, Canonicals(text, cs)) != SortByText(text, Canonicals(text, cs[k := c]))
  {
    var other := cs[k := c];
    OneChildReordered(cs, k, c);
    var x, y := Canonicals(text, cs), Canonicals(text, other);
    ReplacementShows(x, y, k);
    assert multiset(SortByText(text, x)) == multiset(x) && multiset(SortByText(text, y)) == multiset(y);
  }

  lemma OneChildReordered(cs: seq<Condition>, k: nat, c: Condition)
    requires k < |cs| && SameUpToOrder(cs[k], c)
    ensures Reordered(cs, cs[k := c])
  {
    hide SameUpToOrder;
    var other := cs[k := c];
    var p: seq<nat> := seq(|cs|, i => i);
    assert IsPermutation(p, |cs|);
    forall i | 0 <= i < |cs|
      ensures SameUpToOrder(cs[i], other[p[i]])
    {
      SameAsItself(cs[i]);
    }
  }

  lemma {:induction false} SomeTreeShows(text: Condition -> string, a: Condition) returns (b: Condition)
    requires !SiblingsDiffer(text, a)
    ensures SameUpToOrder(a, b) && !ConditionsEquivalent(text, a, b)
    decreases a
  {
    match a {
      case All(all) =>
        var other := SomeOrderShows(text, all);
        b := All(other);
      case Any(any) =>
        var other := SomeOrderShows(text, any);
        b := Any(other);
      case Not(not) =>
        var other := SomeTreeShows(text, not);
        b := Not(other);
      case Leaf(_) =>
        assert false;
        b := a;
    }
  }

  /** The comparison is exactly sameness up to the order of children, for a condition against all
      others, if and only if the text tells its siblings apart. */
  lemma EquivalentIff(text: Condition -> string, a: Condition)
    ensures (forall b :: ConditionsEquivalent(text, a, b) <==> SameUpToOrder(a, b)) <==> SiblingsDiffer(text, a)
  {
    if SiblingsDiffer(text, a) {
      forall b
        ensures ConditionsEquivalent(text, a, b) <==> SameUpToOrder(a, b)
      {
        if SameUpToOrder(a, b) {
          ReorderedIsEquivalent(text, a, b);
        }
        if ConditionsEquivalent(text, a, b) {
          EquivalentIsReordered(text, a, b);
        }
      }
    } else {
      var b := SomeTreeShows(text, a);
    }
  }

  // ---- effects ----------------------------------------------------------------------------

  datatype RuleEffect = RuleEffect(
    tag: seq<string>, moveTo: Option<string>, markJunk: Option<bool>,
    requireReviewFor: seq<string>, setLabels: seq<string>, priority: Option<string>)

  const NO_EFFECT: RuleEffect := RuleEffect([], None, None, [], [], None)

  /** Two moves to different folders, or opposite junk states. */
  predicate Contradicts(a: RuleEffect, b: RuleEffect) {
    (a.moveTo.Some? && b.moveTo.Some? && a.moveTo != b.moveTo)
    || (a.markJunk.Some? && b.markJunk.Some? && a.markJunk != b.markJunk)
  }

  datatype RuleDraft = RuleDraft(kind: RuleKind, scope: RuleScope, condition: Condition, effect: RuleEffect)

  // ---- evaluation of rules ----------------------------------------------------------------

  /** A rule ready for evaluation. */
  datatype Rule = Rule(
    id: string, kind: RuleKind, scope: RuleScope, band: HierarchyBand, status: RuleStatus,
    condition: Condition, effect: RuleEffect)

  /** Every match, ranked by band and then id; the active ones, ranked by band; the shadow ones, in
      the engine's order. */
  datatype Evaluation = Evaluation(matched: seq<Rule>, applied: seq<Rule>, shadows: seq<Rule>)

  predicate Outranks(a: Rule, b: Rule) {
    a.band.Ordinal() < b.band.Ordinal()
  }

  predicate OutranksOrPrecedes(a: Rule, b: Rule) {
    Outranks(a, b) || (a.band.Ordinal() == b.band.Ordinal() && Less(a.id, b.id))
  }

  /** System safety outranks human rules, those learned rules, and so on down to the fallback. */
  lemma BandsRank(a: Rule, b: Rule)
    ensures Outranks(a, b) <==>
      match a.band
      case SystemSafety => !b.band.SystemSafety?
      case HumanHard => b.band.LearnedActive? || b.band.AgentShadow? || b.band.AiSuggestion? || b.band.DefaultFallback?
      case LearnedActive => b.band.AgentShadow? || b.band.AiSuggestion? || b.band.DefaultFallback?
      case AgentShadow => b.band.AiSuggestion? || b.band.DefaultFallback?
      case AiSuggestion => b.band.DefaultFallback?
      case DefaultFallback => false
  {
  }

  /** The list of matches: by band, and within a band by id. */
  lemma MatchesAreListed(s: seq<Rule>)
    ensures Sorted(OutranksOrPrecedes, s) <==>
      forall i, j :: 0 <= i < j < |s| ==>
        !Outranks(s[j], s[i]) && (s[i].band == s[j].band ==> !Less(s[j].id, s[i].id))
  {
    forall i, j | 0 <= i < j < |s|
      ensures s[i].band.Ordinal() == s[j].band.Ordinal() <==> s[i].band == s[j].band
    {
    }
  }

  lemma RanksAreWeakOrders()
    ensures WeakOrder(Outranks) && WeakOrder(OutranksOrPrecedes)
  {
    forall a: Rule, b: Rule | OutranksOrPrecedes(a, b)
      ensures !OutranksOrPrecedes(b, a)
    {
      if Less(a.id, b.id) {
        NotBelowItself(a.id, b.id);
      }
    }
    forall a: Rule, b: Rule, c: Rule | OutranksOrPrecedes(a, b) && !OutranksOrPrecedes(c, b)
      ensures OutranksOrPrecedes(a, c)
    {
      if Less(a.id, b.id) && !Less(c.id, b.id) {
        BelowBelow(a.id, b.id, c.id);
      }
    }
  }

  predicate Fires(m: Matchers, rule: Rule, fields: Fields) {
    rule.status in {Active, ShadowMode} && Evaluate(m, rule.condition, fields)
  }

  /** The rules of one status that fire, in the engine's order. */
  function Firing(m: Matchers, rules: seq<Rule>, status: RuleStatus, fields: Fields): (r: seq<Rule>)
    ensures forall rule :: rule in r <==> rule in rules && rule.status == status && Fires(m, rule, fields)
  {
    if rules == [] then []
    else
      var last := rules[|rules| - 1];
      Firing(m, rules[..|rules| - 1], status, fields)
      + if last.status == status && Fires(m, last, fields) then [last] else []
  }

  /** The rules that match, active or in shadow, in the engine's order. */
  function Matching(m: Matchers, rules: seq<Rule>, fields: Fields): (r: seq<Rule>)
    ensures forall rule :: rule in r <==> rule in rules && Fires(m, rule, fields)
  {
    if rules == [] then []
    else
      var last := rules[|rules| - 1];
      Matching(m, rules[..|rules| - 1], fields) + if Fires(m, last, fields) then [last] else []
  }

  lemma SameRules(a: seq<Rule>, b: seq<Rule>)
    requires multiset(a) == multiset(b)
    ensures forall rule :: rule in a <==> rule in b
  {
    assert forall rule :: rule in a <==> rule in multiset(a);
    assert forall rule :: rule in b <==> rule in multiset(b);
  }

  /** Evaluates every rule: active matches apply, those of the higher band first and otherwise in
      the engine's order; shadow matches are only recorded; rules of any other status do
      neither. */
  method EvaluateRules(m: Matchers, rules: seq<Rule>, fields: Fields) returns (r: Evaluation)
    ensures multiset(r.applied) == multiset(Firing(m, rules, Active, fields)) && Sorted(Outranks, r.applied)
    ensures forall rule :: Ties(Outranks, rule, r.applied) == Ties(Outranks, rule, Firing(m, rules, Active, fields))
    ensures r.shadows == Firing(m, rules, ShadowMode, fields)
    ensures forall rule :: rule in r.applied <==>
              rule in rules && rule.status == Active && Evaluate(m, rule.condition, fields)
    ensures forall rule :: rule in r.shadows <==>
              rule in rules && rule.status == ShadowMode && Evaluate(m, rule.condition, fields)
    ensures multiset(r.matched) == multiset(Matching(m, rules, fields)) && Sorted(OutranksOrPrecedes, r.matched)
    ensures forall rule ::
      Ties(OutranksOrPrecedes, rule, r.matched) == Ties(OutranksOrPrecedes, rule, Matching(m, rules, fields))
  {
    var matched, applied, shadows := [], [], [];
    for k := 0 to |rules|
      invariant matched == Matching(m, rules[..k], fields)
      invariant applied == Firing(m, rules[..k], Active, fields)
      invariant shadows == Firing(m, rules[..k], ShadowMode, fields)
    {
      assert rules[..k + 1][..k] == rules[..k];
      if rules[k].status !in {Active, ShadowMode} {
        continue;
      }
      if !Evaluate(m, rules[k].condition, fields) {
        continue;
      }
      matched := matched + [rules[k]];
      if rules[k].status == Active {
        applied := applied + [rules[k]];
      } else {
        shadows := shadows + [rules[k]];
      }
    }
    assert rules[..|rules|] == rules;
    RanksAreWeakOrders();
    SortIsSorted(Outranks, applied);
    SortIsSorted(OutranksOrPrecedes, matched);
    forall rule
      ensures Ties(Outranks, rule, Sort(Outranks, applied)) == Ties(Outranks, rule, applied)
    {
      SortIsStable(Outranks, rule, applied);
    }
    forall rule
      ensures Ties(OutranksOrPrecedes, rule, Sort(OutranksOrPrecedes, matched))
           == Ties(OutranksOrPrecedes, rule, matched)
    {
      SortIsStable(OutranksOrPrecedes, rule, matched);
    }
    SameRules(applied, Sort(Outranks, applied));
    r := Evaluation(Sort(OutranksOrPrecedes, matched), Sort(Outranks, applied), shadows);
  }

  /** The effect that leads is that of a rule no firing active rule outranks, the first of those in
      the engine's order. */
  lemma TheFirstOfTheHighestBandLeads(active: seq<Rule>, applied: seq<Rule>) returns (k: nat)
    requires multiset(applied) == multiset(active) && Sorted(Outranks, applied)
    requires forall rule :: Ties(Outranks, rule, applied) == Ties(Outranks, rule, active)
    requires applied != []
    ensures k < |active| && active[k] == applied[0]
    ensures forall i :: 0 <= i < |active| ==> !Outranks(active[i], active[k])
    ensures forall i :: 0 <= i < k ==> Outranks(active[k], active[i])
  {
    var top := applied[0];
    assert Ties(Outranks, top, applied)[0] == top;
    forall i | 0 <= i < |active|
      ensures !Outranks(active[i], top)
    {
      assert active[i] in multiset(applied);
      var j :| 0 <= j < |applied| && applied[j] == active[i];
    }
    k := FirstTie(Outranks, top, active);
  }

  /** Conflicts of a candidate with existing rules of its kind and scope. */
  predicate ConflictsWith(text: Condition -> string, draft: RuleDraft, rule: Rule) {
    rule.kind == draft.kind && rule.scope == draft.scope
    && ConditionsEquivalent(text, draft.condition, rule.condition) && Contradicts(draft.effect, rule.effect)
  }

  function Conflicting(text: Condition -> string, draft: RuleDraft, existing: seq<Rule>): (r: seq<Rule>)
    ensures forall rule :: rule in r <==> rule in existing && ConflictsWith(text, draft, rule)
  {
    if existing == [] then []
    else
      var last := existing[|existing| - 1];
      Conflicting(text, draft, existing[..|existing| - 1]) + if ConflictsWith(text, draft, last) then [last] else []
  }

  /** The existing rules a candidate conflicts with, in order. */
  method DetectConflicts(text: Condition -> string, draft: RuleDraft, existing: seq<Rule>) returns (r: seq<Rule>)
    ensures r == Conflicting(text, draft, existing)
    ensures forall rule :: rule in r <==>
              && rule in existing && rule.kind == draft.kind && rule.scope == draft.scope
              && ConditionsEquivalent(text, draft.condition, rule.condition) && Contradicts(draft.effect, rule.effect)
  {
    hide Contradicts;
    hide ConditionsEquivalent;
    r := [];
    for k := 0 to |existing|
      invariant r == Conflicting(text, draft, existing[..k])
    {
      assert existing[..k + 1][..k] == existing[..k];
      var rule := existing[k];
      if rule.kind != draft.kind || rule.scope != draft.scope {
        continue;
      }
      if !ConditionsEquivalent(text, draft.condition, rule.condition) {
        continue;
      }
      if Contradicts(draft.effect, rule.effect) {
        r := r + [rule];
      }
    }
    assert existing[..|existing|] == existing;
  }
}
