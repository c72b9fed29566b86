# MailMate: a verified model

This project models the parts of MailMate that carry its promises and proves those promises, or says
exactly when they hold. It follows the structure of the program, one module per component:

- **The native-messaging protocol.** `Protocol`, `NativeStdio` and `Dispatch` are the length-prefixed
  codec and the host's read-dispatch-emit loop over arbitrary bytes and over an output that may fail
  after any number of bytes. `FrameWriterLock` is the single-writer guard under any number of threads.
  `NativeHost` and `NativeSessions` are the extension's client: request ids, the pending map, and whole
  sessions of any number of clients, ports, answers, disconnects and reconnects in any interleaving;
  `PingSessions` puts the host's dispatcher behind those ports.
- **The learning loop.** `Rules` (over the library's stable sort, `Sorting`) is the condition language,
  the comparison of conditions and rule evaluation; `RuleContext` builds the fields rules are matched on; `Evidence` clusters feedback; `Shadow` is the back-test gate; `Proposals` and
  `LearningEngine` make and save proposals; `Curator` and `ConflictScan` are the curator; `Stores` is
  the database with its constraints, where every call may fail; `Review` is the human decision;
  `LearningRuns`, `ReviewEffects` and `ReviewOutcomes` are what holds over all runs and all reviews, and
  `ConditionLaws` what conditions mean.
- **The rest.** `CoreIsolation` (the dependency guard), `LogisticRegression` (the online classifier),
  `Hashing` (FNV-1a), `Timestamps` (RFC 3339 text in `TEXT` columns), `ReviewQueue` and
  `Notifications` (the bounded buffers of the extension), `SenderDomain` (the two parsers of a `From`
  value).

Procedures that update state are methods, proved equal to functions on the old state; the properties
are lemmas about those functions. What the program takes from its surroundings is a parameter about
which nothing is assumed unless a contract says so: JSON text (`Protocol.Codec`), the JSON text
of a condition, regular expressions and timestamps (`Rules.Matchers`), the sigmoid, fresh ids, the
point at which a store or an output fails.

## Where the code and its documentation part

The model follows the code.

- A stream that ends one to three bytes into a length prefix is a clean end of stream
  (`native_stdio.rs:42-46`); the comment above says I/O error (line 36). `Dispatch.LoopEndsWellIff`.
- A panic or I/O error in the middle of a write does corrupt the next frame, contrary to
  `native_stdio.rs:111-114`, for every frame and every cut.
  `FrameWriterLock.CutWriteCorruptsTheNextFrame`; `ReaderSeesWholeFramesIff` is the exact condition.
- The replacement for an oversize frame carries the request's id, and is oversize itself when the id is
  long enough; the loop then ends. `Dispatch.LongIdDefeatsTheGuard`.
- The separator of `stable_hash_hex` keeps lists apart only among lists whose parts do not contain it;
  a list of two or more parts has the bytes of one whose part does. `Hashing.TwinIff`.
- The two `sender_domain` parsers differ, for example, on white space after the closing bracket.
  `SenderDomain.ParsersAgreeIff` is the exact condition.
- Buffered decisions can be lost: by two handlers that overlap, and by one handler whose read fails,
  which replaces the whole queue by its own decision. `ReviewQueue.NothingIsLostIff` says which
  schedules lose nothing, `LostIff` which decisions a write loses.
- An acceptance interrupted after its rule was saved and before its proposal is closed can never be
  completed, because the rule's name is unique; the rule stays without an accepted proposal for good.
  `LearningRuns.RuleIffAccepted` is the exact condition over runs.
- A rule learned from a sender's mail may not fire on that very mail. `RuleContext.LearnedRuleFiresIff`.
- With more than two hundred notifications on the screen some of them open no tab when clicked.
  `Notifications.NothingForgottenIff`.
- Review never activates a rule, but accepting a refinement changes a live rule at once.
  `ReviewEffects.ContentChangesIffRefined`.

## Model

| member | source | states |
|---|---|---|
| NativeStdio.LengthRoundTrip | crates/mailmate-native-host/src/native_stdio.rs:48-79 | A length printed as four bytes is read back, in either byte order |
| NativeStdio.DeclaredRoundTrip | crates/mailmate-native-host/src/native_stdio.rs:41-48 | Any four bytes are the print of the length they declare |
| NativeStdio.SplitKeepsBytes | crates/mailmate-native-host/src/native_stdio.rs:40-61 | Cutting a stream into chunks and a tail loses and moves no byte, and the tail starts no chunk |
| NativeStdio.SplitIsUnique | crates/mailmate-native-host/src/native_stdio.rs:40-61 | There is no other way to cut it: any readable chunks followed by bytes that start none are the split |
| NativeStdio.ByteReader.ReadExact | crates/mailmate-native-host/src/native_stdio.rs:42-56 | Fills the buffer, or consumes what is left and reports the end or the failure of the stream |
| NativeStdio.ReadFrame | crates/mailmate-native-host/src/native_stdio.rs:40-61 | What one read yields and consumes: a complete chunk is consumed whatever its body holds; an over-long declared length leaves the body unread |
| NativeStdio.WriteFrame | crates/mailmate-native-host/src/native_stdio.rs:72-89 | The two writes and the flush amount to appending the whole frame, a prefix of it on failure, or nothing when it is refused |
| NativeStdio.WriteIsAllOrRefused | crates/mailmate-native-host/src/native_stdio.rs:63-89 | A write is refused without a trace exactly when the frame does not serialize within 1 MiB; otherwise the wire grows by a prefix of the frame, all of it on success |
| NativeStdio.LimitsInBytes | crates/mailmate-native-host/src/native_stdio.rs:14-89 | A frame of more than 1048576 bytes is refused on writing, a declared length of more than 16777216 on reading, each with its size |
| NativeStdio.NothingAfterACut | crates/mailmate-native-host/src/native_stdio.rs:72-89 | A write cut off leaves exactly the part there was room for, and nothing more goes out |
| NativeStdio.WriteEachAppends | crates/mailmate-native-host/src/native_stdio.rs:72-89 | Frames that fit, on an output that does not fail, are appended whole and in order |
| NativeStdio.ReadOfPacked | crates/mailmate-native-host/src/native_stdio.rs:40-61 | Reading packed frames yields those frames and then the end of the stream |
| NativeStdio.ReadOfWrite | crates/mailmate-native-host/src/native_stdio.rs:40-89 | Written frames that fit are read back exactly, in order, and then the stream ends |
| Dispatch.AnswersInKind | crates/mailmate-native-host/src/dispatch.rs:25-119 | Every inbound frame is answered by a response with its own id; the answer is a success exactly for a ping of version 1.0, and echoes its nonce |
| Dispatch.UnsupportedVersion | crates/mailmate-native-host/src/dispatch.rs:66-83 | The whole refusal of a version other than 1.0 |
| Dispatch.UnknownType | crates/mailmate-native-host/src/dispatch.rs:101-118 | The whole refusal of a type other than ping |
| Dispatch.NotARequest | crates/mailmate-native-host/src/dispatch.rs:84-97 | The whole refusal of a response or a notification |
| Dispatch.MalformedBody | crates/mailmate-native-host/src/dispatch.rs:164-181 | The whole answer to a body that is no frame |
| Dispatch.OversizeSays | crates/mailmate-native-host/src/dispatch.rs:137-153 | The whole replacement of an answer that is too large |
| Dispatch.SentKeepsId | crates/mailmate-native-host/src/dispatch.rs:137-153 | The frame that goes out has the id of the one it stands for; a replacement is a frame_too_large response for a frame over the limit |
| Dispatch.EmitOutcome | crates/mailmate-native-host/src/dispatch.rs:121-135 | An emission succeeds exactly for a frame the guard can get across on an output with room for it; one it cannot leaves no byte behind |
| Dispatch.LongIdDefeatsTheGuard | crates/mailmate-native-host/src/dispatch.rs:121-153 | When an encoding is at least as long as the id it carries, an id over the limit makes the replacement too large as well: nothing is sent and the loop gets FrameTooLarge |
| Dispatch.FrameWriter.Write | crates/mailmate-native-host/src/native_stdio.rs:118-121 | One call is one whole-frame write |
| Dispatch.Emit | crates/mailmate-native-host/src/dispatch.rs:129-135 | The method does what the specification of emission says |
| Dispatch.OutcomeOfChunk | crates/mailmate-native-host/src/dispatch.rs:164-181 | Serving an input is answering its first chunk and serving what follows, or stopping at its error |
| Dispatch.RunLoop | crates/mailmate-native-host/src/dispatch.rs:155-181 | On every byte stream the loop terminates with the output and result of answering the chunks in order |
| Dispatch.ServesEveryChunk | crates/mailmate-native-host/src/dispatch.rs:155-181 | An output that takes every answer gets one whole frame per chunk, in order |
| Dispatch.EndsWellOnlyIf | crates/mailmate-native-host/src/dispatch.rs:155-181 | The loop ends well in no other case |
| Dispatch.LoopEndsWellIff | crates/mailmate-native-host/src/dispatch.rs:155-181 | The loop ends well if and only if at most three bytes are left over at a clean end and every answer got across; otherwise, with every answer across, it reports the over-long length or an I/O error |
| Dispatch.WholeAnswersThenAtMostOnePart | crates/mailmate-native-host/src/dispatch.rs:164-181 | Whatever fails, the wire holds whole answers to a first part of the chunks, in order, then at most one cut-off answer, left by the I/O error that ended the loop |
| Dispatch.PeerReadsItsAnswers | crates/mailmate-native-host/src/dispatch.rs:155-181 | Reading the output back gives one response per chunk, in order, with the id of its request, or the empty id for a body that was no frame |
| FrameWriterLock.WireStep | crates/mailmate-native-host/src/native_stdio.rs:111-121 | Every step keeps the wire equal to what the finished turns left, in lock order, followed by the bytes of the lock holder alone |
| FrameWriterLock.OrderStepOf | crates/mailmate-native-host/src/native_stdio.rs:111-121 | Every step keeps a thread's finished turns and its call underway equal to its calls in order |
| FrameWriterLock.EveryRun | crates/mailmate-native-host/src/native_stdio.rs:91-121 | Both hold in every reachable state, for any number of threads and any failures |
| FrameWriterLock.ReaderSeesWholeFramesIff | crates/mailmate-native-host/src/native_stdio.rs:91-121 | With the lock free, a reader gets exactly the frames that went out whole and nothing over, if and only if no write was ever cut off partway |
| FrameWriterLock.WithoutFailures | crates/mailmate-native-host/src/native_stdio.rs:91-121 | Without failures every finished turn is a refusal or an acknowledged whole frame, and the wire is whole frames and then a prefix of the holder's |
| FrameWriterLock.ReaderIsNeverMisled | crates/mailmate-native-host/src/native_stdio.rs:91-96 | Without failures, at every moment a reader finds exactly the whole frames, and the rest is the part of the holder's frame written so far |
| FrameWriterLock.CutWriteCorruptsTheNextFrame | crates/mailmate-native-host/src/native_stdio.rs:111-121 | From any state with the lock free, for every codec, any two frames that fit and any cut of the first: a run in which the second goes out whole and acknowledged right behind the cut, and a reader no longer finds the whole frames |
| FrameWriterLock.CutAfterThePrefix | crates/mailmate-native-host/src/native_stdio.rs:111-121 | A write cut off after its length prefix makes the reader take the next, acknowledged frame's bytes, prefix first, for the missing body, or wait for more when they are too few |
| NativeHost.RequestIdsDiffer | extension/native.js:33-38 | Request ids determine kind and number, whatever the kinds are spelled like |
| NativeHost.Session.NextRequestId | extension/native.js:34-38 | The counter goes up by one and is the number in the id |
| NativeHost.NativeHost.constructor | extension/native.js:60-92 | Construction opens a port and sends the handshake over it |
| NativeHost.NativeHost.Request | extension/native.js:247-266 | The promise is pending under a new id, or rejected at once when posting throws; the frame posted carries that id |
| NativeHost.NativeHost.NotifyHost | extension/native.js:268-278 | An id is used up and nothing is awaited |
| NativeHost.NativeHost.Receive | extension/native.js:187-207 | A response to a pending request forgets it and settles it: a success resolves it with the payload, an empty object standing in for an absent or falsy one, a failure rejects it with the error's code and message; no other promise changes, and any other message changes nothing |
| NativeHost.NativeHost.RejectAll | extension/native.js:165-168 | Every pending request is rejected once, no other call changes, nothing stays pending |
| NativeHost.NativeHost.OnDisconnect | extension/native.js:173-185 | A disconnect rejects everything pending with its reason |
| NativeHost.NativeHost.Reconnect | extension/native.js:159-171 | A reconnect rejects everything pending and then sends a handshake over the new port |
| NativeSessions.SameIdSameCall | extension/native.js:33-38 | Ids are never reused in a session, across clients |
| NativeSessions.EverySession | extension/native.js:159-278 | In every reachable state the pending map is exactly the client's unsettled requests; nothing is settled twice; a request resolves only with the payload of a success sent, for its id, by the host that read it |
| NativeSessions.ChannelsAreFifo | extension/native.js:85-92 | Each port carries its owner's requests in the order they were made, and what is on its way back is the end of what its host sent |
| NativeSessions.OnlyFreshAnswersCount | extension/native.js:187-201 | A delivery changes a promise or a pending map if and only if it is a response to an unsettled request of the port's client; stale and duplicate ones change nothing |
| NativeSessions.DeliverySettles | extension/native.js:187-201 | In every reachable state, delivering a response to an unsettled request of the port's client settles it as the response says and no other, and forgets its id |
| NativeSessions.NothingSurvivesALostPort | extension/native.js:159-185 | A disconnect or a reconnect rejects every pending request of the client, with its reason, and changes no other call |
| NativeSessions.SettledForGood | extension/native.js:159-278 | A settled promise keeps its outcome through any continuation |
| NativeSessions.StepKeepsGood | extension/native.js:159-278 | Every step of every kind keeps the invariant these rest on |
| PingSessions.EveryHonestRun | crates/mailmate-native-host/src/dispatch.rs:67-119 | When hosts answer what they read by dispatching it, every success on any port is the dispatched answer to a request its host read |
| PingSessions.ResolvedPingsEchoTheirOwnNonce | crates/mailmate-native-host/src/dispatch.rs:103-113 | In such sessions a promise resolves only for a ping, and with the nonce of that very ping, through any interleaving, disconnects and reconnects |
| PingSessions.DeliveredPingResolves | crates/mailmate-native-host/src/dispatch.rs:103-113 | A dispatched ping delivered while it is pending resolves its promise with the pong and its nonce |
| PingSessions.PingRoundTrip | extension/native.js:187-266 | From any state of a session with the client's port idle, sending a ping, reading, answering and delivering it is a run that resolves its promise so |
| Rules.CanonicalMeansTheSame | crates/mailmate-rules/src/conflict.rs:48-64 | Sorting the children of a condition at every depth changes its value on no message |
| Rules.EquivalentMeansTheSame | crates/mailmate-rules/src/conflict.rs:41-46 | Conditions that compare as equivalent hold of exactly the same messages |
| Rules.EquivalentIsReordered | crates/mailmate-rules/src/conflict.rs:41-64 | Conditions that compare as equivalent are the same tree up to the order of children under all and any, at every depth, whatever the text sorted by |
| Rules.EquivalentIff | crates/mailmate-rules/src/conflict.rs:41-64 | The comparison of a condition with every other is exactly sameness up to that order, if and only if the text tells different canonical siblings apart |
| Sorting.SortIsStable | crates/mailmate-rules/src/conflict.rs:60-64 | Sorting keeps elements that tie in their order |
| Sorting.SortedIsUnique | crates/mailmate-rules/src/conflict.rs:60-64 | When only equal elements tie, the sorted list depends on the elements only, not on their order |
| Rules.EvaluateRules | crates/mailmate-rules/src/lib.rs:66-119 | Active matches apply, ranked by band and otherwise in the engine's order; shadow matches are only recorded; rules of another status do neither; all matches are listed by band and id |
| ConditionLaws.ConnectivesMean | crates/mailmate-rules/src/evaluator.rs:13-20 | all holds when every member does, any when some does, not when its child does not |
| ConditionLaws.ConnectivesOfConcat | crates/mailmate-rules/src/evaluator.rs:13-20 | all and any of two lists put together are both and either of the lists' |
| ConditionLaws.DeMorgan | crates/mailmate-rules/src/evaluator.rs:13-20 | De Morgan's laws, over all conditions and messages |
| ConditionLaws.EmptyConnectives | crates/mailmate-rules/src/evaluator.rs:13-20 | all of nothing holds, any of nothing does not |
| ConditionLaws.ConnectivesAreMonotone | crates/mailmate-rules/src/evaluator.rs:13-20 | More members make all hold of fewer messages and any of more |
| ConditionLaws.AbsentFails | crates/mailmate-rules/src/evaluator.rs:22-35 | An absent or null field passes no test |
| ConditionLaws.PresentExists | crates/mailmate-rules/src/evaluator.rs:22-35 | Any other field exists |
| ConditionLaws.AppliedOnAllIff | crates/mailmate-rules/src/lib.rs:66-107 | An active rule on all of several conditions is applied exactly where it would be on each alone, one on any exactly where it would be on some |
| ConditionLaws.NumbersCompare | crates/mailmate-rules/src/evaluator.rs:55-61 | Whole and other numbers compare as numbers, equality within the machine epsilon |
| ConditionLaws.IntegersAreEqual | crates/mailmate-rules/src/evaluator.rs:55-61 | Whole numbers are equal only when the same |
| ConditionLaws.OthersCompare | crates/mailmate-rules/src/evaluator.rs:55-61 | Any other value is equal only to itself and has no order |
| ConditionLaws.MembershipMeans | crates/mailmate-rules/src/evaluator.rs:64-69 | Only a text is in a list, when it is one of its texts, or in a text, when it is that text |
| ConditionLaws.SubstringIff | crates/mailmate-rules/src/evaluator.rs:72-81 | Containment in a text means the needle stands somewhere in it |
| ConditionLaws.ContainmentMeans | crates/mailmate-rules/src/evaluator.rs:72-105 | Containment of the one text asked for, of some, and of all of those asked for |
| ConditionLaws.TextsCompare | crates/mailmate-rules/src/evaluator.rs:114-142 | Before and after compare readable timestamps as instants, a regular expression is searched in a text, everything else fails |
| Rules.BandsRank | crates/mailmate-common/src/rules/rule.rs:209-221 | System safety outranks human rules, those learned rules, and so on down to the fallback |
| Rules.MatchesAreListed | crates/mailmate-rules/src/lib.rs:109-110 | The list of matches is by band, and within a band by id |
| Rules.TheFirstOfTheHighestBandLeads | crates/mailmate-rules/src/lib.rs:109-111 | The effect that leads is that of the first rule, in the engine's order, that no firing active rule outranks |
| Rules.DetectConflicts | crates/mailmate-rules/src/conflict.rs:17-39 | Exactly the existing rules of the same kind and scope with an equivalent condition and a contradicting effect, in order |
| Evidence.ClusterFiling | crates/mailmate-learning/src/evidence.rs:103-124 | The loop over rows computes the clustering by domain and folder, skipping rows without a domain |
| Evidence.ClusterClassification | crates/mailmate-learning/src/evidence.rs:137-161 | The loop computes the clustering by domain and label, over corrections with a textual domain only |
| Evidence.PushRows | crates/mailmate-learning/src/evidence.rs:108-115 | Adding a row to the ordered map extends the rows of its key at the end and changes no other key's |
| Evidence.ClustersAreExact | crates/mailmate-learning/src/evidence.rs:103-161 | Clusters come in strictly ascending key order, hold exactly the rows of their key in input order, are never empty, and cover every row that has a key |
| Evidence.ClusteringIsUnique | crates/mailmate-learning/src/evidence.rs:103-161 | Nothing else is a clustering of the rows |
| Evidence.ClustersIgnoreOrder | crates/mailmate-learning/src/evidence.rs:103-161 | Reordered rows give the same keys in the same order, with the same rows up to order |
| Evidence.ClustersPartition | crates/mailmate-learning/src/evidence.rs:103-161 | Each row is in the one cluster of its key as often as in the input, and in no other |
| Shadow.CandidateFires | crates/mailmate-learning/src/shadow.rs:101-118 | A lifted candidate never applies and is recorded exactly when its condition holds |
| Shadow.BackTest | crates/mailmate-learning/src/shadow.rs:120-148 | The counts are the past decisions the candidate fires on and those of them it agrees with |
| Shadow.AgreementIsNoContradiction | crates/mailmate-learning/src/shadow.rs:85-99 | An effect never agrees with one it contradicts |
| Shadow.DomainRuleMeans | crates/mailmate-learning/src/proposals.rs:22-29 | A drafted domain rule holds of exactly the messages whose sender_domain is the domain |
| Shadow.BackTestCounts | crates/mailmate-learning/src/shadow.rs:120-148 | Over the history of all filing rows with a domain, a (domain, folder) draft fires as often as the domain occurs and is right as often as the pair does |
| Shadow.ClusterReport | crates/mailmate-learning/src/shadow.rs:120-148 | For a cluster that is: fires on the domain's rows, correct on its own |
| Shadow.FoldersShareTheDomain | crates/mailmate-learning/src/evidence.rs:103-124 | The rows of two folders of a domain are at most the domain's |
| Shadow.OneFolderPerDomain | crates/mailmate-learning/src/shadow.rs:63-83 | At any precision bar above one half at most one folder per domain is eligible |
| Shadow.EligibleRulesAgree | crates/mailmate-learning/src/shadow.rs:63-83 | Two eligible filing rules that fire on one message are the same rule and do not contradict |
| Shadow.EligibleIff | crates/mailmate-learning/src/shadow.rs:63-83 | A filing rule is eligible exactly when its domain has the support and the pair at least the bar's share of its rows |
| Shadow.ReportOfOne | crates/mailmate-learning/src/shadow.rs:85-99 | A draft is right about a decision exactly when it fires and the decision moved the mail there, set those labels and tags, and marked junk so |
| Shadow.HalfIsNotEnough | crates/mailmate-learning/src/shadow.rs:63-83 | At every bar up to one half, for every support, some history makes two contradicting rules eligible |
| Proposals.EvidenceRows | crates/mailmate-learning/src/proposals.rs:31-67 | The two vectors list exactly the rows, in order |
| LearningEngine.QualifyingIsExact | crates/mailmate-learning/src/engine.rs:143-176 | The clusters that pass are exactly the keys with the threshold of rows and at least one, in ascending order |
| LearningEngine.ProposeFiling | crates/mailmate-learning/src/engine.rs:149-161 | The filing half performs exactly the saves and audits of the qualifying clusters, up to the first failing call |
| LearningEngine.ProposeClassification | crates/mailmate-learning/src/engine.rs:163-176 | Likewise the classification half |
| LearningEngine.ProposeCandidates | crates/mailmate-learning/src/engine.rs:143-179 | A pass performs exactly its calls in order and, when all succeed, returns exactly the proposals it saved |
| LearningEngine.WhatAPassDoes | crates/mailmate-learning/src/engine.rs:143-179 | Which sources a pass covers, what it reads, saves and audits for each, in which order and under which ids |
| LearningEngine.FilingPassIsExact | crates/mailmate-learning/src/proposals.rs:69-122 | One low-risk shadow-mode rule per (domain, folder) that meets the threshold, none twice, moving that domain to that folder and citing exactly its rows in order |
| LearningEngine.ClassificationPassIsExact | crates/mailmate-learning/src/proposals.rs:124-178 | One medium-risk shadow-mode rule per (domain, label) that meets the threshold, counting corrections only and citing exactly them |
| LearningEngine.CollectEvidence | crates/mailmate-learning/src/engine.rs:110-141 | Reading each wanted table under the limit and truncating gives exactly the first so many items of everything the query asks for |
| LearningEngine.WhatIsCollected | crates/mailmate-learning/src/engine.rs:110-141 | What there is to collect: the judgements and filings of the sources and the message asked for; confirmations reinforce, changes override |
| LearningEngine.LimitKeepsTheFirst | crates/mailmate-learning/src/engine.rs:110-141 | A limit keeps the first so many |
| Curator.CuratedIsSafe | crates/mailmate-learning/src/curator.rs:139-190 | A saved proposal never recommends active, and goes to a human when it is high or critical risk or its draft conflicts with a rule |
| Curator.CuratedSays | crates/mailmate-learning/src/curator.rs:139-190 | The whole proposal made of what the model said; the rationale names the number of conflicting rules when there are any |
| Curator.WhatIsKept | crates/mailmate-learning/src/curator.rs:370-374 | Which proposals of the model are kept, by the operations asked for |
| Curator.WhenTheModelIsAsked | crates/mailmate-learning/src/curator.rs:317-336 | The model is asked unless the scan alone is requested; an empty list requests everything |
| Curator.KeptOneByOne | crates/mailmate-learning/src/curator.rs:370-374 | Kept proposals come in the order of the response and take new ids in that order |
| Curator.PassSucceedsIff | crates/mailmate-learning/src/curator.rs:316-406 | A pass succeeds exactly when the model, if asked, answered, the new ids are unused and the store allows so many calls, counted out |
| Curator.PersistProposal | crates/mailmate-learning/src/curator.rs:141-190 | The method saves and audits exactly that proposal, or fails leaving at most the save |
| Curator.PersistKept | crates/mailmate-learning/src/curator.rs:370-374 | The proposals the request wants are saved in order, up to the first failing call |
| Curator.Curate | crates/mailmate-learning/src/curator.rs:316-406 | What a pass answers and leaves in the database under any budget of calls: after failed reads, a failed provider, a save that failed, a scan that failed partway, and success |
| Curator.SuccessfulPass | crates/mailmate-learning/src/curator.rs:316-406 | A pass that succeeds has saved exactly the proposals it reports and then recorded exactly the clashes it reports |
| Curator.PassKeepsRules | crates/mailmate-learning/src/curator.rs:316-406 | Wherever a pass stops, no rule has changed |
| ConflictScan.ScanRow | crates/mailmate-learning/src/curator.rs:202-230 | One rule against every later one: exactly the clashes are recorded and audited, or a first part of them when the store fails |
| ConflictScan.ScanPairs | crates/mailmate-learning/src/curator.rs:202-231 | All pairs of one kind and scope |
| ConflictScan.ScanScopes | crates/mailmate-learning/src/curator.rs:200-232 | All five scopes of one kind |
| ConflictScan.ScanConflicts | crates/mailmate-learning/src/curator.rs:192-235 | All kinds: exactly the clashes are returned, recorded and audited, and it succeeds exactly when the store allows the calls that takes |
| ConflictScan.ScanIsExact | crates/mailmate-learning/src/curator.rs:192-235 | The scan finds each pair of active rules of one kind and scope with equivalent conditions and contradicting effects once, and nothing else |
| ConflictScan.ReportedPairsCollide | crates/mailmate-learning/src/curator.rs:192-209 | A reported pair fires on exactly the same messages and contradicts in effect |
| ConflictScan.ReportedByLastVersions | crates/mailmate-learning/src/curator.rs:202-209 | Two rules are reported exactly when active, of one kind and scope, with equivalent conditions and contradicting moves or junk marks in their last versions |
| Stores.PerformAppend | crates/mailmate-learning/src/review.rs:278-308 | A list of calls is its first part and then the rest, or stops with the first part |
| Stores.ConstraintsMean | migrations/common/0002_rule_versions.sql:17-40 | Which calls break a constraint |
| Review.Materialize | crates/mailmate-learning/src/review.rs:64-219 | Carrying out each kind of proposal performs exactly its calls, up to the first failing one |
| Review.ReviewProposal | crates/mailmate-learning/src/review.rs:267-316 | A review has exactly the specified outcome: its error, or the calls of the decision up to the first failing one |
| ReviewOutcomes.AcceptedRuleIsItsDraft | crates/mailmate-learning/src/review.rs:74-106 | Accepting a new rule, when it goes through, leaves exactly one more: of the draft's kind and scope, in the recommended status, its one version with the draft's condition and effect and the proposal's risk; the whole new database and the answer |
| ReviewOutcomes.AcceptedRefinementIsItsDraft | crates/mailmate-learning/src/review.rs:107-136 | Accepting a refinement gives the target one more version with the draft's condition and effect and the proposal's risk, and changes no other rule |
| ReviewOutcomes.AcceptedRetirementRetires | crates/mailmate-learning/src/review.rs:137-151 | Accepting a retirement leaves the target retired and no other rule changed |
| ReviewOutcomes.AcceptedWorkflowIsItsDraft | crates/mailmate-learning/src/review.rs:155-180 | Accepting a new workflow leaves exactly one more, in the recommended status, with the drafted version |
| ReviewOutcomes.AcceptedWorkflowChange | crates/mailmate-learning/src/review.rs:181-213 | Accepting a refinement or retirement of a workflow adds the drafted version to it or retires it |
| ReviewOutcomes.OtherReviewsOnlyClose | crates/mailmate-learning/src/review.rs:284-308 | Rejections, manual restructurings, enrolments and changes without a target only close the proposal and record the decision |
| ReviewOutcomes.RefusedReview | crates/mailmate-learning/src/review.rs:267-283 | Exactly when a review is refused, for which reason, and that it then changes nothing |
| LearningRuns.QuietSteps | crates/mailmate-learning/src/engine.rs:73-89 | Passes, scans and workflow proposals only add pending proposals that do not recommend active, records and audit entries, wherever they fail |
| LearningRuns.BuildingCalls | crates/mailmate-learning/src/review.rs:64-219 | Carrying out a proposal keeps the invariant wherever it is cut short and leaves proposals and feedback alone |
| LearningRuns.ClosingKeepsSound | crates/mailmate-learning/src/review.rs:285-308 | So does recording the decision |
| LearningRuns.EveryRun | crates/mailmate-learning/src/review.rs:4-9 | In every state of every run no proposal recommends active; a proposal has at most one feedback row, matching its terminal status, and no more reviewed-audits than rows; every rule belongs to a new-rule proposal, at most one each, and one for each accepted one |
| LearningRuns.OnlyByHand | crates/mailmate-learning/src/review.rs:4-9 | No step but a human's hand on a status makes a rule or a workflow active |
| LearningRuns.ActiveWasActivated | crates/mailmate-learning/src/review.rs:4-9 | In every run a rule that is active was set to active by hand before |
| LearningRuns.TerminalIsFinal | crates/mailmate-learning/src/review.rs:273-275 | No step changes a terminal proposal, nor anything but the status of an open one, nor removes a rule |
| LearningRuns.DecisionStrandsIff | crates/mailmate-learning/src/review.rs:278-308 | A decision leaves a rule whose proposal is not accepted if and only if it accepts a new rule whose draft, name and id allow it and gets two to four store calls |
| LearningRuns.StrandedStays | crates/mailmate-learning/src/review.rs:79-102 | Such a rule stays so: no later step accepts its proposal or removes it |
| LearningRuns.RuleIffAccepted | crates/mailmate-learning/src/review.rs:278-308 | At any point of any run every new-rule proposal has its rule exactly when it is accepted, if and only if no acceptance so far was cut short in that way |
| LearningRuns.AnyDraftCanBeStranded | crates/mailmate-learning/src/review.rs:79-106 | It happens: any rule the model drafts is left behind by the run in which its proposal is saved and its acceptance gets two to four calls |
| LearningRuns.AcceptanceSucceedsIff | crates/mailmate-learning/src/review.rs:74-106 | Accepting a new rule goes through if and only if it has a draft, its name and the new id are free, and seven store calls succeed |
| LearningRuns.InterruptedAcceptanceIsStuck | crates/mailmate-learning/src/review.rs:79-102 | Once the rule is saved and the acceptance was cut short, every further acceptance fails and changes nothing |
| ReviewEffects.ReviewNeverActivates | crates/mailmate-learning/src/review.rs:4-9 | On any database, reviewing a proposal that does not recommend active activates no rule and no workflow |
| ReviewEffects.ContentChangesIffRefined | crates/mailmate-learning/src/review.rs:107-136 | A review changes what an existing rule says if and only if it accepts a refinement of it, live or not, and then by exactly one version |
| CoreIsolation.ClosedSetHoldsReachable | crates/mailmate-arch-test/src/lib.rs:121-143 | A set closed under runtime edges holds everything reachable |
| CoreIsolation.EdgeIff | crates/mailmate-arch-test/src/lib.rs:129-136 | An edge counts exactly when one of its declarations is normal or for the build |
| CoreIsolation.LastNameWins | crates/mailmate-arch-test/src/lib.rs:113-117 | Of several packages of one id the last names it |
| CoreIsolation.LastNodeWins | crates/mailmate-arch-test/src/lib.rs:118-119 | Of several nodes of one id the last has its edges |
| CoreIsolation.Visit | crates/mailmate-arch-test/src/lib.rs:128-142 | Looking at one package records exactly its unseen runtime successors |
| CoreIsolation.PopAndVisit | crates/mailmate-arch-test/src/lib.rs:124-142 | One round keeps the frontier invariant and the measure falls |
| CoreIsolation.Walk | crates/mailmate-arch-test/src/lib.rs:121-143 | On every graph, cycles included, the walk ends having listed each package reachable over runtime edges once, and nothing else |
| CoreIsolation.ExtractCore | crates/mailmate-arch-test/src/lib.rs:93-153 | What is read off the metadata, or why not |
| CoreIsolation.CheckCoreIsolation | crates/mailmate-arch-test/src/lib.rs:53-87 | Exactly the entries that break a clause of the law are reported |
| CoreIsolation.GuardCore | crates/mailmate-arch-test/src/lib.rs:49-153 | Extraction and check together report exactly: each dependency of mailmate-core, other than for development, on a workspace crate that is neither mailmate-ports nor mailmate-common; each backend name reachable from it; each backend name it declares |
| LogisticRegression.Featurize | crates/mailmate-ml/src/logreg.rs:61-74 | The loop yields the inputs of the features in order |
| LogisticRegression.LogisticRegressionClassifier.Probability | crates/mailmate-ml/src/logreg.rs:51-58 | The sigmoid of the logit |
| LogisticRegression.LogisticRegressionClassifier.Learn | crates/mailmate-ml/src/logreg.rs:111-114 | Each key's weight moves by the rate times the sum of that key's inputs, however often the key occurs |
| LogisticRegression.LogisticRegressionClassifier.Predict | crates/mailmate-ml/src/logreg.rs:82-93 | The two labels' scores |
| LogisticRegression.LogisticRegressionClassifier.Update | crates/mailmate-ml/src/logreg.rs:95-117 | One gradient step towards the taught label, or an error and no change for a foreign label |
| LogisticRegression.StepMovesLogit | crates/mailmate-ml/src/logreg.rs:108-115 | An update changes the logit of its own example by minus 0.2 times the error times one plus the sum over keys of squared input sums, keys colliding or not |
| LogisticRegression.FeatureMovesLogit | crates/mailmate-ml/src/logreg.rs:51-74 | One more feature moves the logit by the weight of its name if it is a flag that is set, that many times if it is a number, by the weight of name=value if it is a text, and otherwise not at all |
| LogisticRegression.NoFeatures | crates/mailmate-ml/src/logreg.rs:51-58 | Without features the logit is the bias |
| LogisticRegression.StepInNumbers | crates/mailmate-ml/src/logreg.rs:24-24 | The learning rate is 0.2 |
| LogisticRegression.TeachingRaisesProbability | crates/mailmate-ml/src/logreg.rs:95-117 | Under any number of repeated updates the probability of the taught label strictly increases and stays inside (0, 1) |
| LogisticRegression.StepBelowBound | crates/mailmate-ml/src/logreg.rs:108-115 | Until the taught logit passes a bound each update adds at least a fixed amount |
| LogisticRegression.TeachingPassesEveryBound | crates/mailmate-ml/src/logreg.rs:95-117 | So teaching often enough carries it past every bound |
| Hashing.StepIsBijective | crates/mailmate-common/src/hashing.rs:19-22 | Every fold step is a bijection on 64-bit words, undone with the inverse of the prime |
| Hashing.StepSeparatesBytes | crates/mailmate-common/src/hashing.rs:19-22 | Two bytes folded into one word give two words |
| Hashing.FoldSeparatesWords | crates/mailmate-common/src/hashing.rs:17-24 | Distinct words stay distinct under the same bytes |
| Hashing.OneByteChangesDigest | crates/mailmate-common/src/hashing.rs:15-24 | Changing exactly one byte always changes the digest |
| Hashing.Fnv1a64 | crates/mailmate-common/src/hashing.rs:17-24 | The loop computes the fold |
| Hashing.KnownDigests | crates/mailmate-common/src/hashing.rs:60-64 | The reference digests of the empty text and of "a" |
| Hashing.HexDigits | crates/mailmate-common/src/hashing.rs:41 | The sixteen digits are 0 to 9 and a to f |
| Hashing.FlattenInjective | crates/mailmate-common/src/hashing.rs:26-29 | Among lists whose parts hold no separator, the bytes folded determine the list |
| Hashing.SplitPart | crates/mailmate-common/src/hashing.rs:26-29 | A part that holds the separator collides with the two it splits into |
| Hashing.LongerTwinNeedsSeparator | crates/mailmate-common/src/hashing.rs:26-29 | A longer list has the same bytes if and only if some part holds the separator |
| Hashing.TwinIff | crates/mailmate-common/src/hashing.rs:26-29 | Another list, longer or shorter, has the same bytes if and only if there are two or more parts or some part holds the separator |
| Hashing.HexInjective | crates/mailmate-common/src/hashing.rs:41 | Fixed-width hex determines the number |
| Hashing.StableHashHex | crates/mailmate-common/src/hashing.rs:31-42 | The nested loops compute the 16-digit hex of the digest of the parts each followed by 0x1f |
| Hashing.OneByteChangesHexDigest | crates/mailmate-common/src/hashing.rs:31-42 | Changing one byte of one part always changes the hex digest |
| Timestamps.CalendarOrder | crates/mailmate-common/src/time.rs:25-34 | Dates in calendar order have day numbers in that order |
| Timestamps.MonthLengths | crates/mailmate-common/src/time.rs:25-34 | Which numbers are a Gregorian date, month by month, leap years written out |
| Timestamps.NextDay | crates/mailmate-common/src/time.rs:25-58 | The day after is the next of the month, the first of the next month, or the first of January |
| Timestamps.FirstDay | crates/mailmate-common/src/time.rs:25-34 | Days count from 1 January of year 0 |
| Timestamps.DateIsUnique | crates/mailmate-common/src/time.rs:25-42 | The date of a date's day number is that date |
| Timestamps.StampOrder | crates/mailmate-common/src/time.rs:25-34 | Whole seconds print in their order |
| Timestamps.TextOrder | crates/mailmate-common/src/time.rs:60-66 | The texts of two instants in one order are in that order if and only if not both in one second with the earlier's printed fraction beginning the later's |
| Timestamps.WholeSecondTextOrder | crates/mailmate-common/src/time.rs:60-74 | Whole-second instants compare as text exactly as they compare as instants |
| Timestamps.DueComparisonIsExact | crates/mailmate-storage/src/repositories/workflows.rs:389-440 | With both sides floored, the text comparison finds a due time if and only if it is due |
| Timestamps.UnflooredComparisonFails | crates/mailmate-common/src/time.rs:60-66 | Without flooring, a whole second that is due within its own second is not found |
| Timestamps.ParseOfPrint | crates/mailmate-common/src/time.rs:25-42 | Printing then parsing gives the instant back |
| Timestamps.TextOfDateAndTime | crates/mailmate-common/src/time.rs:30-34 | The text of a date and a time of day is its numbers, zero-padded, in the places of RFC 3339 |
| Timestamps.KnownText | crates/mailmate-common/src/time.rs:30-34 | One instant and its text, with every digit in it |
| Timestamps.PrintOfParse | crates/mailmate-common/src/time.rs:25-42 | Parsing a whole-second text then printing gives the text back |
| Timestamps.AddDaysThenCount | crates/mailmate-common/src/time.rs:44-58 | Counting whole days undoes adding them |
| Timestamps.StalenessIsADeadline | crates/mailmate-common/src/time.rs:53-58 | The staleness guard on whole days, rounded toward zero, is a deadline on instants |
| ReviewQueue.SessionStore.BufferReview | extension/background.js:503-511 | Buffering replaces a decision of the same id, appends, and keeps the newest fifty; a decision with nothing to act on changes nothing |
| ReviewQueue.BufferedIffWork | extension/background.js:503-510 | A decision with an action to review or one to undo is buffered last; any other changes nothing |
| ReviewQueue.SessionStore.ResolveReview | extension/background.js:514-519 | Resolving removes exactly the decision |
| ReviewQueue.SessionStore.Filter | extension/background.js:508-518 | The loop keeps the items of another id |
| ReviewQueue.EveryInterleavingIsSafe | extension/background.js:474-522 | After any interleaving of reads and writes, failures included, ids are distinct and at most fifty |
| ReviewQueue.LostIff | extension/background.js:503-522 | A write loses a decision of another id if and only if its handler had not read it, or read it as the oldest of a full queue that a new decision joins |
| ReviewQueue.FailedReadWipesTheQueue | extension/background.js:478-511 | A handler whose read fails replaces any queue by its own decision, with no other handler under way |
| ReviewQueue.InterleavingIsSequential | extension/background.js:503-522 | When no write fails and every write finds the queue as its handler read it, the queue is that of the operations one after another |
| ReviewQueue.NothingIsLostIff | extension/background.js:474-522 | A schedule leaves, whatever its handlers do, the queue of the operations one after another, if and only if no write in it fails, none comes between another handler's read and write, and no read fails after a write |
| ReviewQueue.OverlappingWritesLoseADecision | extension/background.js:478-511 | In any schedule where a write that goes through comes between a handler's read and write, or before a write whose read failed, any two decisions can be buffered so that the earlier is lost |
| ReviewQueue.QueueIsSuffixOfLog | extension/background.js:495-522 | The capped queue is always a suffix of the deduplicated log that never evicts |
| ReviewQueue.CapCommutes | extension/background.js:508-510 | Capping before buffering or only after gives the same queue |
| ReviewQueue.QueueIsNewestOfLog | extension/background.js:495-511 | With nothing resolved, the queue is exactly the newest fifty of the log |
| Notifications.NotificationLayer.ShowDesktopNotification | extension/notifications.js:30-49 | Exactly the events that are a notification and not remembered are shown; the key is remembered and a creation is under way |
| Notifications.WhereEventsLead | extension/notifications.js:60-92 | A learned rule leads to the proposals, the two follow-up events to the follow-ups; no other event is shown |
| Notifications.WhatIsRemembered | extension/notifications.js:60-89 | Events are told apart by proposal, by workflow and step, or by workflow |
| Notifications.ShownUnlessRemembered | extension/notifications.js:32-42 | A notification is shown unless its key is remembered |
| Notifications.WhatItSays | extension/notifications.js:60-89 | Titles and messages, with what stands in for absent texts |
| Notifications.AnsweredOnce | extension/notifications.js:50-56 | A creation is answered once, and the others stay awaited |
| Notifications.NotificationLayer.CreationAnswered | extension/notifications.js:50-56 | When the platform answers, in any order, the new id opens the tab it was created for; a refusal stores nothing |
| Notifications.NotificationLayer.Forget | extension/notifications.js:121-125 | The id opens no tab any more, every other id opens the tab it did, and the other entries stay in order |
| Notifications.NotificationLayer.Click | extension/notifications.js:97-119 | A click gives the id's tab and then forgets it |
| Notifications.TargetsStayBounded | extension/notifications.js:22-56 | Over any run of pushes, answers, refusals, clicks and dismissals ids and keys are distinct and at most two hundred each, and the keys depend on the pushes alone |
| Notifications.ClickNeverMisleads | extension/notifications.js:50-119 | After any run a click opens the tab of the id's last creation, or none |
| Notifications.NothingForgottenIff | extension/notifications.js:22-56 | Throughout a run every notification on the screen opens its own tab, if and only if there are never more than two hundred of them |
| Notifications.SeenIsTheRecentWindow | extension/notifications.js:26-42 | After any events the seen set is exactly the newest two hundred shown keys, and no key repeats within that window |
| Notifications.RepeatsAreFarApart | extension/notifications.js:26-42 | A key is shown again only after at least two hundred distinct other keys |
| SenderDomain.ParsersAgreeIff | crates/mailmate-ml/src/features.rs:32-44 | The two parsers read the same domain if and only if the value has one of four shapes a caller can check |
| SenderDomain.NamedAddressAgrees | crates/mailmate-planner/src/context.rs:28-33 | A display name and one bracketed address that ends the value: both read the address's domain |
| SenderDomain.BareAddressAgrees | crates/mailmate-planner/src/context.rs:28-33 | A bare address: both read its domain |
| SenderDomain.DomainIgnoresCase | crates/mailmate-ml/src/features.rs:38-44 | Both parsers read one domain whatever the letter case and the white space around it |
| SenderDomain.LowerCase | crates/mailmate-ml/src/features.rs:40-43 | Every letter of a domain is in lower case and nothing else changes |
| SenderDomain.TrimIs | crates/mailmate-ml/src/features.rs:40-43 | Trimming takes exactly the white space at both ends |
| SenderDomain.WhatIsSpace | crates/mailmate-ml/src/features.rs:40-43 | Which characters are white space |
| SenderDomain.TrailingSpaceDisagrees | crates/mailmate-planner/src/context.rs:28-33 | White space after the closing bracket parts them |
| RuleContext.BaseFields | crates/mailmate-planner/src/context.rs:35-64 | The loop and the inserts give each field the header's value, or else the feature's; the sender's domain is the context's own wherever it reads one |
| RuleContext.WhatContextsHold | crates/mailmate-ml/src/features.rs:53-98 | What a message's context holds under each name besides the sender's |
| RuleContext.WhatIsExtracted | crates/mailmate-ml/src/features.rs:53-98 | The features are exactly seven, by name |
| RuleContext.ReplyIff | crates/mailmate-ml/src/features.rs:46-50 | A subject is a reply or forward exactly when it begins, after white space, with one of three marks in any letter case |
| RuleContext.DomainRuleOnMessage | crates/mailmate-planner/src/context.rs:28-64 | A rule on a domain holds of a message if and only if the domain is the one the context reads, or, when it reads none, the one the extractor reads |
| RuleContext.LearnedRuleFiresIff | crates/mailmate-learning/src/evidence.rs:82-161 | A rule drafted from corrections of a sender's mail fires on that mail if and only if the two parsers agree on it or the context reads no domain |

## Left out

- JSON text, TOML, SQLite and HTTP: the codec's encoder and parser are parameters, and round trips are stated for the frames that parse back; a response whose payload is JSON null does not.
- Floating point: field values, precision, weights and the sigmoid are over reals, the sigmoid any strictly increasing function into (0, 1); `exp`, rounding, signed zero and NaN are not modelled.
- Clocks, UUIDs and timestamps on rows: fresh ids are parameters, and a colliding id is a constraint error of the store.
- The text of I/O and storage errors. A store call that fails has no effect, and reviews run one after another; two reviews of one proposal at the same time are not modelled.
- LearningRuns.EveryRun: runs start with empty stores; rules written or imported by hand, which no proposal made, are not in them.
- Timestamps.ParseOfPrint: years 0 to 9999 in UTC with `Z`; other offsets, lower-case `t` and `z`, and leap seconds are not parsed. That a fraction prints without trailing zeros is the time library's behaviour.
- SenderDomain.ParsersAgreeIff: ASCII values; Unicode lower-casing and white space differ between the two parsers as well.
- Dispatch.RunLoop: the ping-only loop of `dispatch.rs`; the full router of the shipped host is not modelled.
- NativeHost: connection phase, heartbeat, timeouts and notification handlers; a handshake is one more request.
- PingSessions: hosts dispatch as the ping-only loop does; a request the shipped router serves is a failure there.
- NativeSessions: a disconnect event and a late delivery may come from any port at any time, which allows more than the browser does.
- Rules.EvaluateRules: the record kept for explanations.
- Curator: prompts, summaries and threshold suggestions, and the order of rules of equal creation time.
- LearningEngine: follow-up evidence, and the ids, weights and dates of evidence items.
- Notifications: opening the space and the stored focus tab; quiet hours do not exist in the code.
- The workflow engine, the policy guard, the planner's cascade, AI tasks and all user interface.
- `stable_bucket`, label round trips and record builders: settled by reading one line.
