/** What conditions mean: the laws of the connectives, and each operator on values of its own
    type and of others. */
module ConditionLaws {
  import opened Common
  import opened Rules

  // ---- connectives ------------------------------------------------------------------------

  /** `all` holds when no member fails, `any` when some member holds, `not` when its child fails. */
  lemma ConnectivesMean(m: Matchers, cs: seq<Condition>, c: Condition, fields: Fields)
    ensures Evaluate(m, All(cs), fields) <==> forall i :: 0 <= i < |cs| ==> Evaluate(m, cs[i], fields)
    ensures Evaluate(m, Any(cs), fields) <==> exists i :: 0 <= i < |cs| && Evaluate(m, cs[i], fields)
    ensures Evaluate(m, Not(c), fields) <==> !Evaluate(m, c, fields)
  {
  }

  /** Nothing is asked of no members, and nothing offered by none. */
  lemma EmptyConnectives(m: Matchers, fields: Fields)
    ensures Evaluate(m, All([]), fields) && !Evaluate(m, Any([]), fields)
  {
  }

  /** Lists of members put together. */
  lemma ConnectivesOfConcat(m: Matchers, a: seq<Condition>, b: seq<Condition>, fields: Fields)
    ensures Evaluate(m, All(a + b), fields) <==> Evaluate(m, All(a), fields) && Evaluate(m, All(b), fields)
    ensures Evaluate(m, Any(a + b), fields) <==> Evaluate(m, Any(a), fields) || Evaluate(m, Any(b), fields)
  {
    ConnectivesMean(m, a + b, Any([]), fields);
    ConnectivesMean(m, a, Any([]), fields);
    ConnectivesMean(m, b, Any([]), fields);
    hide Evaluate;
    assert forall i :: 0 <= i < |a| ==> (a + b)[i] == a[i];
    assert forall i :: 0 <= i < |b| ==> (a + b)[|a| + i] == b[i];
  }

  function Negated(cs: seq<Condition>): seq<Condition> {
    seq(|cs|, i requires 0 <= i < |cs| => Not(cs[i]))
  }

  /** De Morgan's laws. */
  lemma DeMorgan(m: Matchers, cs: seq<Condition>, fields: Fields)
    ensures Evaluate(m, Not(All(cs)), fields) <==> Evaluate(m, Any(Negated(cs)), fields)
    ensures Evaluate(m, Not(Any(cs)), fields) <==> Evaluate(m, All(Negated(cs)), fields)
  {
    ConnectivesMean(m, cs, All(cs), fields);
    ConnectivesMean(m, cs, Any(cs), fields);
    ConnectivesMean(m, Negated(cs), All(cs), fields);
    forall i | 0 <= i < |cs|
      ensures Evaluate(m, Negated(cs)[i], fields) <==> !Evaluate(m, cs[i], fields)
    {
      ConnectivesMean(m, [], cs[i], fields);
    }
    hide Evaluate;
  }

  /** A more demanding `all` holds of fewer messages, a more generous `any` of more. */
  lemma ConnectivesAreMonotone(m: Matchers, a: seq<Condition>, b: seq<Condition>, fields: Fields)
    requires forall i :: 0 <= i < |a| ==> a[i] in b
    ensures Evaluate(m, All(b), fields) ==> Evaluate(m, All(a), fields)
    ensures Evaluate(m, Any(a), fields) ==> Evaluate(m, Any(b), fields)
  {
    ConnectivesMean(m, a, Any([]), fields);
    ConnectivesMean(m, b, Any([]), fields);
    hide Evaluate;
  }

  /** An active rule on `all` of several conditions is applied to exactly the messages to which it would
      be applied on each of them alone; one on `any`, to those to which it would on some. */
  lemma AppliedOnAllIff(m: Matchers, rule: Rule, rules: seq<Rule>, cs: seq<Condition>, fields: Fields)
    requires rule in rules && rule.status == Active
    ensures rule.condition == All(cs) ==>
      (rule in Firing(m, rules, Active, fields) <==>
       forall i :: 0 <= i < |cs| ==>
         var alone := rule.(condition := cs[i]); alone in Firing(m, [alone], Active, fields))
    ensures rule.condition == Any(cs) ==>
      (rule in Firing(m, rules, Active, fields) <==>
       exists i :: 0 <= i < |cs| &&
         var alone := rule.(condition := cs[i]); alone in Firing(m, [alone], Active, fields))
  {
    ConnectivesMean(m, cs, All(cs), fields);
    forall i | 0 <= i < |cs|
      ensures var alone := rule.(condition := cs[i]);
              alone in Firing(m, [alone], Active, fields) <==> Evaluate(m, cs[i], fields)
    {
      var alone := rule.(condition := cs[i]);
      hide Evaluate;
      assert alone in [alone];
    }
    hide Evaluate;
  }

  // ---- operators ----------------------------------------------------------------------------

  /** The test of one field. */
  function Test(field: string, op: Operator, value: FieldValue): Condition {
    Leaf(Predicate(field, op, value))
  }

  /** A field that is absent or null passes no test. */
  lemma AbsentFails(m: Matchers, field: string, op: Operator, value: FieldValue, fields: Fields)
    requires field !in fields || fields[field] == Null
    ensures !Evaluate(m, Test(field, op, value), fields)
  {
  }

  /** Any other passes the test that it exists. */
  lemma PresentExists(m: Matchers, field: string, value: FieldValue, fields: Fields)
    requires field in fields && fields[field] != Null
    ensures Evaluate(m, Test(field, Exists, value), fields)
  {
  }

  predicate IsNumber(v: FieldValue, x: real) {
    v == Float(x) || (v.Int? && v.n as real == x)
  }

  /** Numbers, whole or not, are compared as numbers; equality allows for 2 to the power -52. */
  lemma NumbersCompare(m: Matchers, field: string, value: FieldValue, fields: Fields, x: real, y: real)
    requires field in fields && IsNumber(fields[field], x) && IsNumber(value, y)
    ensures Evaluate(m, Test(field, Gt, value), fields) <==> x > y
    ensures Evaluate(m, Test(field, Gte, value), fields) <==> x >= y
    ensures Evaluate(m, Test(field, Lt, value), fields) <==> x < y
    ensures Evaluate(m, Test(field, Lte, value), fields) <==> x <= y
    ensures Evaluate(m, Test(field, Eq, value), fields) <==>
            -1.0 / 4503599627370496.0 < x - y < 1.0 / 4503599627370496.0
  {
  }

  /** Whole numbers are equal only when they are the same. */
  lemma IntegersAreEqual(m: Matchers, field: string, a: int, b: int, fields: Fields)
    requires field in fields && fields[field] == Int(a)
    ensures Evaluate(m, Test(field, Eq, Int(b)), fields) <==> a == b
  {
    assert a != b ==> a as real - b as real >= 1.0 || b as real - a as real >= 1.0;
  }

  predicate Numeric(v: FieldValue) {
    v.Int? || v.Float?
  }

  /** Everything else is equal only to itself, and has no order. */
  lemma OthersCompare(m: Matchers, field: string, value: FieldValue, fields: Fields)
    requires field in fields && fields[field] != Null && !(Numeric(fields[field]) && Numeric(value))
    ensures Evaluate(m, Test(field, Eq, value), fields) <==> fields[field] == value
    ensures !Evaluate(m, Test(field, Gt, value), fields) && !Evaluate(m, Test(field, Gte, value), fields)
    ensures !Evaluate(m, Test(field, Lt, value), fields) && !Evaluate(m, Test(field, Lte, value), fields)
  {
  }

  /** A text is in a list when it is one of its texts, in a text when it is that text, and nothing
      else is in anything. */
  lemma MembershipMeans(m: Matchers, field: string, value: FieldValue, fields: Fields)
    requires field in fields && fields[field] != Null
    ensures Evaluate(m, Test(field, In, value), fields) <==>
      fields[field].Text?
      && ((value.TextSet? && fields[field].text in value.texts) || (value.Text? && fields[field].text == value.text))
  {
  }

  /** The needle stands somewhere in the text. */
  ghost predicate OccursIn(needle: string, text: string) {
    exists before: string, after: string :: text == before + needle + after
  }

  lemma {:induction false} SubstringIff(needle: string, text: string)
    ensures IsSubstring(needle, text) <==> OccursIn(needle, text)
  {
    if needle <= text {
      assert text == "" + needle + text[|needle|..];
    } else if text != "" {
      SubstringIff(needle, text[1..]);
      if before: string, after: string :| text[1..] == before + needle + after {
        assert text == [text[0]] + before + needle + after;
      }
      if before: string, after: string :| text == before + needle + after {
        AfterTheFirst(needle, text, before, after);
      }
    }
  }

  lemma AfterTheFirst(needle: string, text: string, before: string, after: string)
    requires text != "" && !(needle <= text) && text == before + needle + after
    ensures OccursIn(needle, text[1..])
  {
    assert "" + needle + after == needle + after;
    assert text[1..] == before[1..] + needle + after;
  }

  /** The needle is one of the field's texts, or stands in its text. */
  ghost predicate Has(field: FieldValue, needle: string) {
    (field.TextSet? && needle in field.texts) || (field.Text? && OccursIn(needle, field.text))
  }

  /** The needles a value asks for. */
  ghost predicate AsksFor(value: FieldValue, needle: string) {
    (value.TextSet? && needle in value.texts) || (value.Text? && needle == value.text)
  }

  /** Containment: of the one text asked for; of some of those asked for; of all of them. */
  lemma ContainmentMeans(m: Matchers, field: string, value: FieldValue, fields: Fields)
    requires field in fields && fields[field] != Null
    ensures Evaluate(m, Test(field, Contains, value), fields) <==> value.Text? && Has(fields[field], value.text)
    ensures Evaluate(m, Test(field, ContainsAny, value), fields) <==>
            exists needle :: AsksFor(value, needle) && Has(fields[field], needle)
    ensures Evaluate(m, Test(field, ContainsAll, value), fields) <==>
            (value.TextSet? || value.Text?) && forall needle :: AsksFor(value, needle) ==> Has(fields[field], needle)
  {
    forall needle
      ensures Holds(needle, fields[field]) <==> Has(fields[field], needle)
    {
      HoldsIff(needle, fields[field]);
    }
    hide Holds;
    hide Has;
  }

  lemma HoldsIff(needle: string, field: FieldValue)
    ensures Holds(needle, field) <==> Has(field, needle)
  {
    if field.Text? {
      SubstringIff(needle, field.text);
    }
  }

  /** Timestamps, given as texts that can be read as such, are compared as instants; a regular
      expression is searched in a text; everything else fails. */
  lemma TextsCompare(m: Matchers, field: string, value: FieldValue, fields: Fields)
    requires field in fields && fields[field] != Null
    ensures var f := fields[field];
            var dated := f.Text? && value.Text? && m.instant(f.text).Some? && m.instant(value.text).Some?;
            && (Evaluate(m, Test(field, Before, value), fields) <==>
                  dated && m.instant(f.text).value < m.instant(value.text).value)
            && (Evaluate(m, Test(field, After, value), fields) <==>
                  dated && m.instant(f.text).value > m.instant(value.text).value)
            && (Evaluate(m, Test(field, MatchesRegex, value), fields) <==>
                  f.Text? && value.Text? && m.matches(value.text, f.text))
  {
  }
}
