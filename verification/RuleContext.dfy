/** From a message to the fields its rules are matched on: the features of a message, the rule
    context built from them, and what a learned rule makes of its own mail. */
module RuleContext {
  import opened Common
  import LogisticRegression
  import opened SenderDomain
  import opened Evidence
  import opened Rules
  import opened Shadow
  import Proposals

  type Features = map<string, LogisticRegression.FeatureValue>

  datatype Message = Message(
    from: string, subject: string, folder: string, to: seq<string>, attachments: nat, threaded: bool)

  predicate IsReplyOrForward(subject: string) {
    var s := Lower(TrimStart(subject));
    "re:" <= s || "fw:" <= s || "fwd:" <= s
  }

  /** The features of a message. */
  function Extract(message: Message): Features {
    map["subject_len" := LogisticRegression.Number(|message.subject| as real),
        "subject_is_reply" := LogisticRegression.Bool(IsReplyOrForward(message.subject)),
        "sender_domain" := LogisticRegression.Text(ExtractedDomain(message.from)),
        "has_attachments" := LogisticRegression.Bool(message.attachments > 0),
        "attachment_count" := LogisticRegression.Number(message.attachments as real),
        "recipient_count" := LogisticRegression.Number(|message.to| as real),
        "is_threaded" := LogisticRegression.Bool(message.threaded)]
  }

  function FeatureToField(value: LogisticRegression.FeatureValue): Option<FieldValue> {
    match value
    case Bool(b) => Some(FieldValue.Bool(b))
    case Number(n) => Some(Float(n))
    case Text(s) => Some(FieldValue.Text(s))
    case Json => None
  }

  /** What a field of the context holds: the header's value, or else the feature's. */
  function FieldOf(message: Message, features: Features, name: string): Option<FieldValue> {
    if name == "from" then Some(FieldValue.Text(message.from))
    else if name == "subject" then Some(FieldValue.Text(message.subject))
    else if name == "folder" then Some(FieldValue.Text(message.folder))
    else if name == "has_attachments" then Some(FieldValue.Bool(message.attachments > 0))
    else if name == DOMAIN_FIELD && ContextDomain(message.from).Some? then
      Some(FieldValue.Text(ContextDomain(message.from).value))
    else if name in features then FeatureToField(features[name])
    else None
  }

  /** The fields are exactly what each name is said to hold. */
  ghost predicate IsContext(message: Message, features: Features, fields: Fields) {
    forall name ::
      (name in fields <==> FieldOf(message, features, name).Some?)
      && (name in fields ==> fields[name] == FieldOf(message, features, name).value)
  }

  /** The context: every scalar feature, then the header fields over them. */
  method BaseFields(message: Message, features: Features) returns (fields: Fields)
    ensures IsContext(message, features, fields)
  {
    fields := map[];
    var names := features.Keys;
    while names != {}
      invariant names <= features.Keys
      invariant forall name ::
        (name in fields <==> name in features && name !in names && FeatureToField(features[name]).Some?)
        && (name in fields ==> fields[name] == FeatureToField(features[name]).value)
    {
      var name :| name in names;
      match FeatureToField(features[name]) {
        case Some(field) => fields := fields[name := field];
        case None =>
      }
      names := names - {name};
    }
    fields := fields["from" := FieldValue.Text(message.from)];
    match ContextDomain(message.from) {
      case Some(domain) => fields := fields["sender_domain" := FieldValue.Text(domain)];
      case None =>
    }
    fields := fields["subject" := FieldValue.Text(message.subject)];
    fields := fields["folder" := FieldValue.Text(message.folder)];
    fields := fields["has_attachments" := FieldValue.Bool(message.attachments > 0)];
  }

  /** A rule on a domain holds of a message exactly when the domain is the context's, or, for a
      message without one, the feature's. */
  lemma DomainRuleOnMessage(m: Matchers, domain: string, message: Message, fields: Fields)
    requires IsContext(message, Extract(message), fields)
    ensures Evaluate(m, SenderDomainEq(domain), fields) <==>
            domain == match ContextDomain(message.from)
                      case Some(d) => d
                      case None => ExtractedDomain(message.from)
  {
    hide ContextDomain;
    hide ExtractedDomain;
    DomainRuleMeans(m, domain, fields);
    assert DOMAIN_FIELD in Extract(message);
    assert DOMAIN_FIELD in fields <==> FieldOf(message, Extract(message), DOMAIN_FIELD).Some?;
  }

  /** A rule drafted from corrections of a sender's mail fires on that mail if and only if the
      parsers agree on the sender, or the context reads no domain at all. */
  lemma LearnedRuleFiresIff(
      m: Matchers, rows: seq<ClassificationRow>, i: nat, row: ClassificationRow, message: Message, fields: Fields)
    requires i < |Cluster(ClassificationKey, rows)| && row in Cluster(ClassificationKey, rows)[i].rows
    requires row.salientFeatures == Extract(message) && IsContext(message, Extract(message), fields)
    ensures var draft := Proposals.ClassificationDraft(Cluster(ClassificationKey, rows)[i].key);
            Evaluate(m, draft.condition, fields) <==> ContextDomain(message.from).None? || OneDomain(message.from)
  {
    hide ContextDomain;
    hide ExtractedDomain;
    hide OneDomain;
    hide Evaluate;
    ClustersAreExact(ClassificationKey, rows);
    var group := Cluster(ClassificationKey, rows)[i];
    assert ClassificationKey(row) == Some(group.key);
    assert group.key.domain == ExtractedDomain(message.from);
    DomainRuleOnMessage(m, group.key.domain, message, fields);
    ParsersAgreeIff(message.from);
  }

  lemma HeldField(message: Message, features: Features, fields: Fields, name: string)
    requires IsContext(message, features, fields)
    ensures name in fields <==> FieldOf(message, features, name).Some?
    ensures name in fields ==> fields[name] == FieldOf(message, features, name).value
  {
    hide FieldOf;
  }

  lemma FeatureField(message: Message, fields: Fields, name: string)
    requires IsContext(message, Extract(message), fields)
    requires name !in {"from", "subject", "folder", "has_attachments", "sender_domain"}
    ensures name in fields <==> name in Extract(message) && FeatureToField(Extract(message)[name]).Some?
    ensures name in fields ==> fields[name] == FeatureToField(Extract(message)[name]).value
  {
    HeldField(message, Extract(message), fields, name);
    hide Extract;
    hide IsContext;
    hide FeatureToField;
  }

  /** What a message's rules can be matched on besides its sender. */
  lemma WhatContextsHold(message: Message, fields: Fields)
    requires IsContext(message, Extract(message), fields)
    ensures "from" in fields && fields["from"] == FieldValue.Text(message.from)
    ensures "subject" in fields && fields["subject"] == FieldValue.Text(message.subject)
    ensures "folder" in fields && fields["folder"] == FieldValue.Text(message.folder)
    ensures "has_attachments" in fields
            && fields["has_attachments"] == FieldValue.Bool(message.attachments != 0)
    ensures "attachment_count" in fields && fields["attachment_count"] == Float(message.attachments as real)
    ensures "subject_len" in fields && fields["subject_len"] == Float(|message.subject| as real)
    ensures "recipient_count" in fields && fields["recipient_count"] == Float(|message.to| as real)
    ensures "is_threaded" in fields && fields["is_threaded"] == FieldValue.Bool(message.threaded)
    ensures "subject_is_reply" in fields
            && fields["subject_is_reply"] == FieldValue.Bool(IsReplyOrForward(message.subject))
  {
    HeaderFields(message, fields);
    hide ExtractedDomain;
    hide IsReplyOrForward;
    FeatureField(message, fields, "attachment_count");
    FeatureField(message, fields, "subject_len");
    FeatureField(message, fields, "recipient_count");
    FeatureField(message, fields, "is_threaded");
    FeatureField(message, fields, "subject_is_reply");
    hide IsContext;
  }

  lemma HeaderFields(message: Message, fields: Fields)
    requires IsContext(message, Extract(message), fields)
    ensures "from" in fields && fields["from"] == FieldValue.Text(message.from)
    ensures "subject" in fields && fields["subject"] == FieldValue.Text(message.subject)
    ensures "folder" in fields && fields["folder"] == FieldValue.Text(message.folder)
    ensures "has_attachments" in fields
            && fields["has_attachments"] == FieldValue.Bool(message.attachments != 0)
  {
    var features := Extract(message);
    hide Extract;
    HeldField(message, features, fields, "from");
    HeldField(message, features, fields, "subject");
    HeldField(message, features, fields, "folder");
    HeldField(message, features, fields, "has_attachments");
    hide IsContext;
  }

  /** The features are exactly these, the sender's domain among them. */
  lemma WhatIsExtracted(message: Message)
    ensures Extract(message).Keys == {"subject_len", "subject_is_reply", "sender_domain", "has_attachments",
                                      "attachment_count", "recipient_count", "is_threaded"}
    ensures Extract(message)["has_attachments"] == LogisticRegression.Bool(message.attachments != 0)
    ensures Extract(message)["sender_domain"] == LogisticRegression.Text(ExtractedDomain(message.from))
  {
    hide ExtractedDomain;
    hide IsReplyOrForward;
  }

  /** A subject that, after white space, begins with one of three marks, in any letter case. */
  ghost predicate Marked(subject: string, mark: string) {
    exists head: string, rest: string :: TrimStart(subject) == head + rest && SpelledAlike(head, mark)
  }

  lemma ReplyIff(subject: string)
    ensures IsReplyOrForward(subject) <==>
            Marked(subject, "re:") || Marked(subject, "fw:") || Marked(subject, "fwd:")
  {
    hide TrimStart;
    MarkedIff(subject, "re:");
    MarkedIff(subject, "fw:");
    MarkedIff(subject, "fwd:");
    hide Marked;
    hide Lower;
  }

  lemma MarkedIff(subject: string, mark: string)
    requires forall k :: 0 <= k < |mark| ==> LowerChar(mark[k]) == mark[k]
    ensures Marked(subject, mark) <==> mark <= Lower(TrimStart(subject))
  {
    var s := TrimStart(subject);
    hide TrimStart;
    if mark <= Lower(s) {
      assert s == s[..|mark|] + s[|mark|..];
      forall k | 0 <= k < |mark|
        ensures LowerChar(s[..|mark|][k]) == LowerChar(mark[k])
      {
        assert Lower(s)[k] == mark[k];
      }
      assert SpelledAlike(s[..|mark|], mark);
    }
    if head: string, rest: string :| s == head + rest && SpelledAlike(head, mark) {
      forall k | 0 <= k < |mark|
        ensures Lower(s)[k] == mark[k]
      {
        assert s[k] == head[k];
      }
    }
  }
}
