/** Desktop notifications: which host events become one, and the bounded memory that keeps
    an item from being shown twice in a row. */
module Notifications {
  import opened Common

  const SEEN_CAP: nat := 200
  const TARGET_CAP: nat := 200

  /** The payload fields the notification layer reads, as text; absent fields are None. */
  datatype Payload = Payload(
    riskLevel: Option<string>, title: Option<string>, proposalId: Option<string>,
    subject: Option<string>, workflowInstanceId: Option<string>, stepIndex: string, reason: Option<string>)

  datatype Tab = Proposals | Followups

  datatype Spec = Spec(title: string, message: string, tab: Tab, dedupKey: Option<string>)

  /** A text that is present and not empty. */
  predicate Truthy(s: Option<string>) {
    s.Some? && s.value != ""
  }

  function Or(s: Option<string>, otherwise: string): string {
    if Truthy(s) then s.value else otherwise
  }

  /** The notification for a host event, or None for events that are not shown. */
  function NotificationSpec(kind: string, p: Payload): (r: Option<Spec>)
    ensures r.Some? && r.value.dedupKey.Some? ==> r.value.dedupKey.value != ""
  {
    if kind == "proposal_ready" then
      Some(Spec("MailMate — new rule to approve",
                Or(p.title, "A learned rule")
                + (if Truthy(p.riskLevel) then " (" + p.riskLevel.value + " risk)" else "")
                + ". Open Proposals to review.",
                Proposals,
                if Truthy(p.proposalId) then Some("prop:" + p.proposalId.value) else None))
    else if kind == "followup_draft_ready" then
      Some(Spec("MailMate — follow-up draft ready",
                "Review the draft for “" + Or(p.subject, "a tracked deal")
                + "” — MailMate never sends it for you.",
                Followups,
                if p.workflowInstanceId.Some?
                then Some("fu:" + p.workflowInstanceId.value + ":" + p.stepIndex) else None))
    else if kind == "followup_needs_attention" then
      Some(Spec("MailMate — follow-up needs attention",
                "A tracked deal went stale (" + Or(p.reason, "no recent activity") + "). Decide what's next.",
                Followups,
                if p.workflowInstanceId.Some? then Some("att:" + p.workflowInstanceId.value) else None))
    else None
  }

  /** One event from the host. */
  datatype HostEvent = HostEvent(kind: string, payload: Payload)

  /** The key under which an event is deduplicated, if any. */
  function KeyOf(e: HostEvent): Option<string> {
    match NotificationSpec(e.kind, e.payload)
    case None => None
    case Some(spec) => spec.dedupKey
  }

  /** The keys remembered, oldest first: the insertion order of the seen set. */
  function SeenAfter(seen: seq<string>, e: HostEvent): seq<string> {
    match KeyOf(e)
    case None => seen
    case Some(key) =>
      if key in seen then seen
      else if |seen| + 1 > SEEN_CAP then (seen + [key])[1..]
      else seen + [key]
  }

  /** Whether the event is shown. */
  predicate Shown(seen: seq<string>, e: HostEvent) {
    NotificationSpec(e.kind, e.payload).Some? && (KeyOf(e).Some? ==> KeyOf(e).value !in seen)
  }

  /** What the layer holds: the keys remembered, the tabs of the creations the platform has
      not answered yet, and the notification ids with the tab each opens, oldest first. */
  datatype Layer = Layer(seen: seq<string>, pending: seq<Tab>, target: seq<(string, Tab)>)

  const FRESH: Layer := Layer([], [], [])

  function Ids(target: seq<(string, Tab)>): seq<string> {
    seq(|target|, i requires 0 <= i < |target| => target[i].0)
  }

  /** Keys and ids are kept once each, at most two hundred of either. */
  ghost predicate Bounded(s: Layer) {
    && Distinct(s.seen) && |s.seen| <= 200
    && Distinct(Ids(s.target)) && |s.target| <= 200
  }

  /** The tab a click on a notification opens. */
  function TabOf(target: seq<(string, Tab)>, id: string): Option<Tab> {
    if target == [] then None
    else if target[0].0 == id then Some(target[0].1)
    else TabOf(target[1..], id)
  }

  /** A map entry set in place, or added last. */
  function Put(target: seq<(string, Tab)>, id: string, tab: Tab): seq<(string, Tab)> {
    if target == [] then [(id, tab)]
    else if target[0].0 == id then [(id, tab)] + target[1..]
    else [target[0]] + Put(target[1..], id, tab)
  }

  function Drop(target: seq<(string, Tab)>, id: string): seq<(string, Tab)> {
    if target == [] then []
    else if target[0].0 == id then target[1..]
    else [target[0]] + Drop(target[1..], id)
  }

  function Targets(target: seq<(string, Tab)>, id: string, tab: Tab): seq<(string, Tab)> {
    var more := Put(target, id, tab);
    if |more| > TARGET_CAP then more[1..] else more
  }

  function Without(pending: seq<Tab>, nth: nat): seq<Tab>
    requires nth < |pending|
  {
    pending[..nth] + pending[nth + 1..]
  }

  /** What happens to the layer: the host pushes an event, the platform answers a creation,
      any one of those outstanding, or a notification is clicked, dismissed or expires. */
  datatype Event =
    | Pushed(e: HostEvent)
    | Created(nth: nat, id: string)
    | Refused(nth: nat)
    | Gone(id: string)

  function Step(s: Layer, event: Event): Layer {
    match event
    case Pushed(e) =>
      Layer(SeenAfter(s.seen, e),
            if Shown(s.seen, e) then s.pending + [NotificationSpec(e.kind, e.payload).value.tab] else s.pending,
            s.target)
    case Created(nth, id) =>
      if nth >= |s.pending| then s
      else Layer(s.seen, Without(s.pending, nth), Targets(s.target, id, s.pending[nth]))
    case Refused(nth) =>
      if nth >= |s.pending| then s else s.(pending := Without(s.pending, nth))
    case Gone(id) => s.(target := Drop(s.target, id))
  }

  lemma IdsOfCons(target: seq<(string, Tab)>)
    requires target != []
    ensures Ids(target) == [target[0].0] + Ids(target[1..])
  {
  }

  lemma {:induction false} PutFacts(target: seq<(string, Tab)>, id: string, tab: Tab)
    ensures id in Ids(target) ==> Ids(Put(target, id, tab)) == Ids(target)
    ensures id !in Ids(target) ==> Ids(Put(target, id, tab)) == Ids(target) + [id]
    ensures TabOf(Put(target, id, tab), id) == Some(tab)
    ensures forall other :: other != id ==> TabOf(Put(target, id, tab), other) == TabOf(target, other)
  {
    if target == [] {
      IdsOfCons([(id, tab)]);
    } else {
      IdsOfCons(target);
      IdsOfCons(Put(target, id, tab));
      hide Ids;
      if target[0].0 == id {
        assert Put(target, id, tab)[1..] == target[1..];
      } else {
        PutFacts(target[1..], id, tab);
        assert Put(target, id, tab)[1..] == Put(target[1..], id, tab);
      }
    }
  }

  /** An id is stored exactly when a click on it opens a tab. */
  lemma {:induction false} StoredIffOpens(target: seq<(string, Tab)>, id: string)
    ensures id in Ids(target) <==> TabOf(target, id).Some?
  {
    if target != [] {
      assert Ids(target) == [target[0].0] + Ids(target[1..]);
      StoredIffOpens(target[1..], id);
    }
  }

  lemma HeadOccursOnce(target: seq<(string, Tab)>)
    requires target != [] && Distinct(Ids(target))
    ensures target[0].0 !in Ids(target[1..])
  {
    forall i | 0 <= i < |target| - 1
      ensures Ids(target[1..])[i] != target[0].0
    {
      assert Ids(target)[0] != Ids(target)[i + 1];
    }
  }

  /** Removing an entry takes its id out and leaves every other tab as it is. */
  lemma {:induction false} DropFacts(target: seq<(string, Tab)>, id: string)
    requires Distinct(Ids(target))
    ensures TabOf(Drop(target, id), id) == None
    ensures forall other :: other != id ==> TabOf(Drop(target, id), other) == TabOf(target, other)
    ensures id !in Ids(target) ==> Drop(target, id) == target
  {
    hide Distinct;
    if target != [] {
      assert Ids(target) == [target[0].0] + Ids(target[1..]);
      if target[0].0 == id {
        HeadOccursOnce(target);
        StoredIffOpens(target[1..], id);
      } else {
        TailStaysDistinct(target);
        DropFacts(target[1..], id);
      }
    }
  }

  /** What is left keeps its order. */
  lemma {:induction false} DropAt(target: seq<(string, Tab)>, i: nat)
    requires i < |target| && Distinct(Ids(target))
    ensures Drop(target, Ids(target)[i]) == target[..i] + target[i + 1..]
  {
    if i == 0 {
      assert target[..0] + target[1..] == target[1..];
    } else {
      assert Ids(target)[0] != Ids(target)[i];
      var rest := target[1..];
      TailStaysDistinct(target);
      DropAt(rest, i - 1);
      DropConses(target, i);
    }
  }

  lemma DropConses(target: seq<(string, Tab)>, i: nat)
    requires 0 < i < |target|
    ensures [target[0]] + (target[1..][..i - 1] + target[1..][i..]) == target[..i] + target[i + 1..]
  {
  }

  lemma TailStaysDistinct(target: seq<(string, Tab)>)
    requires target != [] && Distinct(Ids(target))
    ensures Distinct(Ids(target[1..]))
  {
    assert forall i :: 0 <= i < |target| - 1 ==> Ids(target[1..])[i] == Ids(target)[i + 1];
  }

  lemma DropStaysDistinct(target: seq<(string, Tab)>, id: string)
    requires Distinct(Ids(target))
    ensures Distinct(Ids(Drop(target, id))) && |Drop(target, id)| <= |target|
  {
    DropFacts(target, id);
    if id in Ids(target) {
      var i :| 0 <= i < |target| && Ids(target)[i] == id;
      var less := Drop(target, id);
      DropAt(target, i);
      assert forall k :: 0 <= k < |less| ==> Ids(less)[k] == Ids(target)[if k < i then k else k + 1];
    }
  }

  lemma TargetsStayDistinct(target: seq<(string, Tab)>, id: string, tab: Tab)
    requires Distinct(Ids(target)) && |target| <= TARGET_CAP
    ensures Distinct(Ids(Targets(target, id, tab))) && |Targets(target, id, tab)| <= TARGET_CAP
  {
    PutFacts(target, id, tab);
    var more := Put(target, id, tab);
    assert |Ids(more)| == |more|;
    if |more| > TARGET_CAP {
      TailStaysDistinct(more);
    }
  }

  lemma SeenStaysDistinct(seen: seq<string>, e: HostEvent)
    requires Distinct(seen) && |seen| <= SEEN_CAP
    ensures Distinct(SeenAfter(seen, e)) && |SeenAfter(seen, e)| <= SEEN_CAP
  {
    hide KeyOf;
  }

  lemma StepStaysBounded(s: Layer, event: Event)
    requires Bounded(s)
    ensures Bounded(Step(s, event))
  {
    hide Distinct;
    hide Targets;
    hide Drop;
    hide Shown;
    hide SeenAfter;
    match event
    case Pushed(e) => SeenStaysDistinct(s.seen, e);
    case Created(nth, id) =>
      if nth < |s.pending| {
        TargetsStayDistinct(s.target, id, s.pending[nth]);
      }
    case Refused(_) =>
    case Gone(id) => DropStaysDistinct(s.target, id);
  }

  class NotificationLayer {
    var seen: seq<string>
    /** The tabs of the creations under way: what each continuation will store. */
    var pending: seq<Tab>
    var target: seq<(string, Tab)>

    ghost function State(): Layer
      reads this
    {
      Layer(seen, pending, target)
    }

    constructor ()
      ensures State() == FRESH && Bounded(State())
    {
      seen, pending, target := [], [], [];
    }

    /** Asks the platform for the event's notification, if it is one and was not just shown. */
    method ShowDesktopNotification(e: HostEvent) returns (shown: Option<Spec>)
      requires Bounded(State())
      modifies this
      ensures State() == Step(old(State()), Pushed(e)) && Bounded(State())
      ensures shown.Some? <==> Shown(old(seen), e)
      ensures shown.Some? ==> shown == NotificationSpec(e.kind, e.payload)
    {
      StepStaysBounded(State(), Pushed(e));
      var spec := NotificationSpec(e.kind, e.payload);
      if spec.None? {
        return None;
      }
      if spec.value.dedupKey.Some? {
        var key := spec.value.dedupKey.value;
        if key in seen {
          return None;
        }
        seen := seen + [key];
        if |seen| > SEEN_CAP {
          seen := seen[1..];
        }
      }
      pending := pending + [spec.value.tab];
      return spec;
    }

    /** The platform answers a creation, with an id or, when it cannot create it, with None. */
    method CreationAnswered(nth: nat, answer: Option<string>)
      requires Bounded(State()) && nth < |pending|
      modifies this
      ensures State() == Step(old(State()), if answer.Some? then Created(nth, answer.value) else Refused(nth))
      ensures Bounded(State())
      ensures answer.Some? ==> TabOf(target, answer.value) == Some(old(pending)[nth])
    {
      ghost var before := State();
      var tab := pending[nth];
      pending := pending[..nth] + pending[nth + 1..];
      if answer.Some? {
        StepStaysBounded(before, Created(nth, answer.value));
        StoredLast(target, answer.value, tab);
        target := Put(target, answer.value, tab);
        if |target| > TARGET_CAP {
          target := target[1..];
        }
      }
    }

    /** The tab map without the id: no entry of it is left and the others stay in order. */
    method Forget(id: string)
      requires Bounded(State())
      modifies this
      ensures State() == Step(old(State()), Gone(id)) && Bounded(State())
      ensures TabOf(target, id) == None
      ensures forall other :: other != id ==> TabOf(target, other) == TabOf(old(target), other)
      ensures forall i :: 0 <= i < |old(target)| && Ids(old(target))[i] == id ==>
        target == old(target)[..i] + old(target)[i + 1..]
    {
      StepStaysBounded(State(), Gone(id));
      DropFacts(target, id);
      forall i | 0 <= i < |target| && Ids(target)[i] == id
        ensures Drop(target, id) == target[..i] + target[i + 1..]
      {
        DropAt(target, i);
      }
      target := Drop(target, id);
    }

    /** A click reads the notification's tab and forgets it. */
    method Click(id: string) returns (tab: Option<Tab>)
      requires Bounded(State())
      modifies this
      ensures tab == TabOf(old(target), id)
      ensures State() == Step(old(State()), Gone(id)) && Bounded(State()) && TabOf(target, id) == None
    {
      tab := TabOf(target, id);
      Forget(id);
    }
  }

  /** The entry stored last is never the one evicted. */
  lemma StoredLast(target: seq<(string, Tab)>, id: string, tab: Tab)
    requires Distinct(Ids(target)) && |target| <= TARGET_CAP
    ensures TabOf(Targets(target, id, tab), id) == Some(tab)
  {
    PutFacts(target, id, tab);
    var more := Put(target, id, tab);
    assert |Ids(more)| == |more|;
    if |more| > TARGET_CAP {
      assert Ids(more)[0] == Ids(target)[0] && Ids(target)[0] in Ids(target);
      assert more[0].0 != id;
    }
  }

  // ---- runs -------------------------------------------------------------------------------

  /** The seen set after a run of events. */
  function Seen(events: seq<HostEvent>): seq<string> {
    if events == [] then [] else SeenAfter(Seen(events[..|events| - 1]), events[|events| - 1])
  }

  /** The keys shown in a run, in order. */
  function ShownKeys(events: seq<HostEvent>): seq<string> {
    if events == [] then []
    else
      var init, e := events[..|events| - 1], events[|events| - 1];
      ShownKeys(init) + if KeyOf(e).Some? && Shown(Seen(init), e) then [KeyOf(e).value] else []
  }

  /** The newest keys of a log, as many as the seen set holds. */
  function Recent(log: seq<string>): seq<string> {
    if |log| <= 200 then log else log[|log| - 200..]
  }

  /** No key comes back within the window. */
  ghost predicate Spaced(log: seq<string>) {
    forall i, j :: 0 <= i < j < |log| && j - i <= SEEN_CAP ==> log[i] != log[j]
  }

  lemma FreshKeyKeepsSpacing(log: seq<string>, key: string)
    requires Spaced(log) && key !in Recent(log)
    ensures Spaced(log + [key])
  {
    forall i | 0 <= i < |log| && |log| - i <= SEEN_CAP
      ensures log[i] != key
    {
      var recent := Recent(log);
      assert recent[|recent| - (|log| - i)] == log[i];
    }
  }

  /** One more event: a key is shown exactly when it is not among the remembered ones. */
  lemma OneMoreEvent(init: seq<HostEvent>, e: HostEvent)
    ensures Seen(init + [e]) == SeenAfter(Seen(init), e)
    ensures KeyOf(e).None? || KeyOf(e).value in Seen(init) ==> ShownKeys(init + [e]) == ShownKeys(init)
    ensures KeyOf(e).Some? && KeyOf(e).value !in Seen(init) ==>
      ShownKeys(init + [e]) == ShownKeys(init) + [KeyOf(e).value]
  {
    hide NotificationSpec;
    var events := init + [e];
    assert events[..|events| - 1] == init && events[|events| - 1] == e;
  }

  /** Remembering one more key of a log keeps exactly the log's newest keys. */
  lemma RecentSlides(log: seq<string>, e: HostEvent)
    requires KeyOf(e).Some? && KeyOf(e).value !in Recent(log)
    ensures SeenAfter(Recent(log), e) == Recent(log + [KeyOf(e).value])
  {
    hide KeyOf;
  }

  lemma WindowStep(init: seq<HostEvent>, e: HostEvent)
    requires Seen(init) == Recent(ShownKeys(init)) && Spaced(ShownKeys(init))
    ensures Seen(init + [e]) == Recent(ShownKeys(init + [e]))
    ensures Spaced(ShownKeys(init + [e]))
  {
    OneMoreEvent(init, e);
    hide Spaced;
    hide Recent;
    hide KeyOf;
    hide Seen;
    hide ShownKeys;
    if KeyOf(e).Some? && KeyOf(e).value !in Seen(init) {
      FreshKeyKeepsSpacing(ShownKeys(init), KeyOf(e).value);
      RecentSlides(ShownKeys(init), e);
    } else {
      assert SeenAfter(Seen(init), e) == Seen(init);
    }
  }

  /** The seen set is exactly the newest keys shown, at most two hundred, and no key comes back
      within that window. */
  lemma {:induction false} SeenIsTheRecentWindow(events: seq<HostEvent>)
    ensures Seen(events) == Recent(ShownKeys(events))
    ensures Spaced(ShownKeys(events))
  {
    hide NotificationSpec;
    hide KeyOf;
    hide Spaced;
    hide Recent;
    hide Seen;
    hide ShownKeys;
    if events == [] {
      NothingSeenYet();
    } else {
      var init, e := events[..|events| - 1], events[|events| - 1];
      SeenIsTheRecentWindow(init);
      WindowStep(init, e);
      assert events == init + [e];
    }
  }

  lemma NothingSeenYet()
    ensures Seen([]) == Recent(ShownKeys([])) && Spaced(ShownKeys([]))
  {
    assert Seen([]) == ShownKeys([]) == [];
  }

  /** A key shown twice was kept apart by at least two hundred distinct other keys shown in
      between. */
  lemma RepeatsAreFarApart(events: seq<HostEvent>, i: nat, j: nat)
    requires i < j < |ShownKeys(events)| && ShownKeys(events)[i] == ShownKeys(events)[j]
    ensures var log := ShownKeys(events);
            |(set k | i < k < j :: log[k]) - {log[i]}| >= 200
  {
    SeenIsTheRecentWindow(events);
    var log := ShownKeys(events);
    var window := log[i + 1..i + 1 + SEEN_CAP];
    assert forall a :: 0 <= a < |window| ==> window[a] == log[i + 1 + a];
    assert Distinct(window);
    DistinctHasAsManyMembers(window);
    var members := set k | 0 <= k < |window| :: window[k];
    var others := (set k | i < k < j :: log[k]) - {log[i]};
    forall x | x in members
      ensures x in others
    {
      var k :| 0 <= k < |window| && window[k] == x;
      assert log[i + 1 + k] == x;
    }
    SubsetHasNoMore(members, others);
  }

  lemma {:induction false} DistinctHasAsManyMembers(s: seq<string>)
    requires Distinct(s)
    ensures |set k | 0 <= k < |s| :: s[k]| == |s|
  {
    var members := set k | 0 <= k < |s| :: s[k];
    if s != [] {
      var n := |s| - 1;
      var init := s[..n];
      var rest := set k | 0 <= k < |init| :: init[k];
      DistinctHasAsManyMembers(init);
      forall x | x in members
        ensures x in rest + {s[n]}
      {
        var k :| 0 <= k < |s| && s[k] == x;
        if k < n {
          assert init[k] == x;
        }
      }
      forall x | x in rest
        ensures x in members && x != s[n]
      {
        var k :| 0 <= k < |init| && init[k] == x;
        assert s[k] == x;
      }
      assert members == rest + {s[n]};
    }
  }

  lemma {:induction false} SubsetHasNoMore(a: set<string>, b: set<string>)
    requires a <= b
    ensures |a| <= |b|
  {
    assert b == a + (b - a);
  }

  // ---- the whole layer over a run -----------------------------------------------------------

  function Run(events: seq<Event>): Layer {
    if events == [] then FRESH else Step(Run(events[..|events| - 1]), events[|events| - 1])
  }

  /** The pushes of a run, in order. */
  function Pushes(events: seq<Event>): seq<HostEvent> {
    if events == [] then []
    else
      var last := events[|events| - 1];
      Pushes(events[..|events| - 1]) + if last.Pushed? then [last.e] else []
  }

  /** Over any run of pushes, answers and dismissals both memories stay distinct and bounded,
      and what is remembered of the pushes does not depend on the rest. */
  lemma {:induction false} TargetsStayBounded(events: seq<Event>)
    ensures Bounded(Run(events))
    ensures Run(events).seen == Seen(Pushes(events))
  {
    if events != [] {
      var init, last := events[..|events| - 1], events[|events| - 1];
      TargetsStayBounded(init);
      StepStaysBounded(Run(init), last);
      if last.Pushed? {
        OneMoreEvent(Pushes(init), last.e);
      } else {
        assert Pushes(init) + [] == Pushes(init);
      }
    }
  }

  /** The tab a run leaves an id with: that of its last creation, unless it is gone since. */
  function Wanted(events: seq<Event>, id: string): Option<Tab> {
    if events == [] then None
    else
      var init, last := events[..|events| - 1], events[|events| - 1];
      var pending := Run(init).pending;
      if last.Created? && last.id == id && last.nth < |pending| then Some(pending[last.nth])
      else if last == Gone(id) then None
      else Wanted(init, id)
  }

  /** The ids a run leaves on the screen. */
  function OnScreen(events: seq<Event>): set<string> {
    if events == [] then {}
    else
      var init, last := events[..|events| - 1], events[|events| - 1];
      if last.Created? && last.nth < |Run(init).pending| then OnScreen(init) + {last.id}
      else if last.Gone? then OnScreen(init) - {last.id}
      else OnScreen(init)
  }

  lemma {:induction false} OnScreenIffWanted(events: seq<Event>, id: string)
    ensures id in OnScreen(events) <==> Wanted(events, id).Some?
  {
    hide Run;
    if events != [] {
      OnScreenIffWanted(events[..|events| - 1], id);
    }
  }

  lemma EvictionOnlyForgets(target: seq<(string, Tab)>, id: string)
    requires target != [] && Distinct(Ids(target))
    ensures TabOf(target[1..], id) == None || TabOf(target[1..], id) == TabOf(target, id)
  {
    if target[0].0 == id {
      HeadOccursOnce(target);
      StoredIffOpens(target[1..], id);
    }
  }

  /** A creation gives its own id its tab and can only take tabs from others. */
  lemma CreatedTabs(target: seq<(string, Tab)>, id: string, tab: Tab, other: string)
    requires Distinct(Ids(target)) && |target| <= TARGET_CAP
    ensures TabOf(Targets(target, id, tab), id) == Some(tab)
    ensures other != id ==>
      TabOf(Targets(target, id, tab), other) == None
      || TabOf(Targets(target, id, tab), other) == TabOf(target, other)
  {
    StoredLast(target, id, tab);
    PutFacts(target, id, tab);
    var more := Put(target, id, tab);
    if |more| > TARGET_CAP {
      EvictionOnlyForgets(more, other);
    }
  }

  /** A click opens the tab of the notification clicked, the one its last creation stored, or
      none: it never opens another's. */
  lemma {:induction false} ClickNeverMisleads(events: seq<Event>, id: string)
    ensures TabOf(Run(events).target, id) == None || TabOf(Run(events).target, id) == Wanted(events, id)
  {
    if events != [] {
      var init, last := events[..|events| - 1], events[|events| - 1];
      var before := Run(init);
      ClickNeverMisleads(init, id);
      TargetsStayBounded(init);
      assert Distinct(Ids(before.target)) && |before.target| <= TARGET_CAP;
      hide Bounded;
      hide Targets;
      hide Drop;
      match last
      case Created(nth, new_) =>
        if nth < |before.pending| {
          CreatedTabs(before.target, new_, before.pending[nth], id);
        }
      case Gone(gone) => DropFacts(before.target, gone);
      case _ =>
    }
  }

  /** Every id on the screen still opens its tab, and no other id opens one. */
  ghost predicate NothingForgotten(events: seq<Event>) {
    forall id :: TabOf(Run(events).target, id) == Wanted(events, id)
  }

  ghost predicate Few(events: seq<Event>) {
    |OnScreen(events)| <= 200
  }

  /** Distinct ids number as many as the entries that carry them. */
  lemma AsManyIdsAsEntries(target: seq<(string, Tab)>) returns (stored: set<string>)
    requires Distinct(Ids(target))
    ensures |stored| == |target| && forall id :: id in stored <==> TabOf(target, id).Some?
  {
    stored := set k | 0 <= k < |Ids(target)| :: Ids(target)[k];
    DistinctHasAsManyMembers(Ids(target));
    forall id
      ensures id in stored <==> TabOf(target, id).Some?
    {
      StoredIffOpens(target, id);
    }
  }

  /** While the ids on the screen fit, a creation evicts nothing. */
  lemma CreationFits(target: seq<(string, Tab)>, screen: set<string>, id: string, tab: Tab)
    requires Distinct(Ids(target)) && |target| <= TARGET_CAP
    requires forall other :: other in screen <==> TabOf(target, other).Some?
    requires |screen + {id}| <= TARGET_CAP
    ensures Targets(target, id, tab) == Put(target, id, tab)
  {
    PutFacts(target, id, tab);
    assert |Ids(Put(target, id, tab))| == |Put(target, id, tab)|;
    if id !in Ids(target) {
      StoredIffOpens(target, id);
      var stored := AsManyIdsAsEntries(target);
      assert stored == screen;
    }
  }

  lemma {:induction false} FewAreAllKept(events: seq<Event>)
    requires forall k :: 0 <= k <= |events| ==> Few(events[..k])
    ensures NothingForgotten(events)
  {
    if events != [] {
      var n := |events| - 1;
      var init, last := events[..n], events[n];
      assert events[..|events|] == events;
      forall k | 0 <= k <= n
        ensures Few(init[..k])
      {
        assert init[..k] == events[..k];
      }
      FewAreAllKept(init);
      OneMoreKept(init, last);
      assert init + [last] == events;
    }
  }

  lemma OneMoreKept(init: seq<Event>, last: Event)
    requires NothingForgotten(init) && Few(init + [last])
    ensures NothingForgotten(init + [last])
  {
    var events, before := init + [last], Run(init);
    assert events[..|events| - 1] == init;
    TargetsStayBounded(init);
    forall id
      ensures TabOf(Run(events).target, id) == Wanted(events, id)
    {
      assert TabOf(before.target, id) == Wanted(init, id);
      match last
      case Created(nth, new_) =>
        if nth < |before.pending| {
          forall other
            ensures other in OnScreen(init) <==> TabOf(before.target, other).Some?
          {
            OnScreenIffWanted(init, other);
          }
          CreationFits(before.target, OnScreen(init), new_, before.pending[nth]);
          PutFacts(before.target, new_, before.pending[nth]);
        }
      case Gone(gone) => DropFacts(before.target, gone);
      case _ =>
    }
  }

  lemma TooManyLosesOne(events: seq<Event>)
    requires !Few(events)
    ensures !NothingForgotten(events)
  {
    TargetsStayBounded(events);
    var stored := AsManyIdsAsEntries(Run(events).target);
    if NothingForgotten(events) {
      forall id | id in OnScreen(events)
        ensures id in stored
      {
        OnScreenIffWanted(events, id);
      }
      SubsetHasNoMore(OnScreen(events), stored);
    }
  }

  /** Throughout a run every notification on the screen opens its own tab, if and only if
      there are never more than two hundred of them at once. */
  lemma NothingForgottenIff(events: seq<Event>)
    ensures (forall k :: 0 <= k <= |events| ==> NothingForgotten(events[..k]))
       <==> (forall k :: 0 <= k <= |events| ==> Few(events[..k]))
  {
    hide NothingForgotten;
    hide Few;
    if forall k :: 0 <= k <= |events| ==> Few(events[..k]) {
      forall k | 0 <= k <= |events|
        ensures NothingForgotten(events[..k])
      {
        forall j | 0 <= j <= k
          ensures Few(events[..k][..j])
        {
          assert events[..k][..j] == events[..j];
        }
        FewAreAllKept(events[..k]);
      }
    } else {
      var k :| 0 <= k <= |events| && !Few(events[..k]);
      TooManyLosesOne(events[..k]);
    }
  }

  // ---- what is shown --------------------------------------------------------------------------

  /** A learned rule leads to the proposals, a follow-up to the follow-ups, and no other event is
      shown. */
  lemma WhereEventsLead(s: Layer, kind: string, p: Payload)
    ensures var after := Step(s, Pushed(HostEvent(kind, p)));
            && (after.pending != s.pending ==>
                  kind in {"proposal_ready", "followup_draft_ready", "followup_needs_attention"}
                  && after.pending == s.pending + [if kind == "proposal_ready" then Proposals else Followups])
            && (kind !in {"proposal_ready", "followup_draft_ready", "followup_needs_attention"} ==> after == s)
  {
  }

  /** Events are told apart by their proposal, by the workflow and its step, or by the workflow; one
      that names none is shown every time. */
  lemma WhatIsRemembered(kind: string, p: Payload)
    ensures KeyOf(HostEvent(kind, p)) ==
      if kind == "proposal_ready" && p.proposalId.Some? && p.proposalId.value != "" then
        Some("prop:" + p.proposalId.value)
      else if kind == "followup_draft_ready" && p.workflowInstanceId.Some? then
        Some("fu:" + p.workflowInstanceId.value + ":" + p.stepIndex)
      else if kind == "followup_needs_attention" && p.workflowInstanceId.Some? then
        Some("att:" + p.workflowInstanceId.value)
      else None
  {
  }

  /** An event that is a notification is shown unless its key is among those remembered. */
  lemma ShownUnlessRemembered(seen: seq<string>, e: HostEvent)
    ensures Shown(seen, e) <==>
      && e.kind in {"proposal_ready", "followup_draft_ready", "followup_needs_attention"}
      && !(KeyOf(e).Some? && KeyOf(e).value in seen)
  {
  }

  /** What the notification says; an absent or empty text is stood in for. */
  lemma WhatItSays(p: Payload)
    ensures NotificationSpec("proposal_ready", p).value.title == "MailMate — new rule to approve"
    ensures NotificationSpec("proposal_ready", p).value.message ==
      (if p.title == None || p.title == Some("") then "A learned rule" else p.title.value)
      + (if p.riskLevel == None || p.riskLevel == Some("") then "" else " (" + p.riskLevel.value + " risk)")
      + ". Open Proposals to review."
    ensures NotificationSpec("followup_draft_ready", p).value.title == "MailMate — follow-up draft ready"
    ensures NotificationSpec("followup_draft_ready", p).value.message ==
      "Review the draft for “"
      + (if p.subject == None || p.subject == Some("") then "a tracked deal" else p.subject.value)
      + "” — MailMate never sends it for you."
    ensures NotificationSpec("followup_needs_attention", p).value.title == "MailMate — follow-up needs attention"
    ensures NotificationSpec("followup_needs_attention", p).value.message ==
      "A tracked deal went stale ("
      + (if p.reason == None || p.reason == Some("") then "no recent activity" else p.reason.value)
      + "). Decide what's next."
  {
  }

  /** A creation is answered once: answered or refused, it is no longer awaited, and the others are, in
      their order. */
  lemma AnsweredOnce(s: Layer, nth: nat, id: string)
    requires nth < |s.pending|
    ensures var left := Step(s, Created(nth, id)).pending;
            && left == Step(s, Refused(nth)).pending && |left| == |s.pending| - 1
            && forall k :: 0 <= k < |left| ==> left[k] == s.pending[if k < nth then k else k + 1]
  {
    hide Targets;
  }
}
