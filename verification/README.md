# Agentgrid, modelled and proved in Dafny

Agentgrid runs coding agents on a fleet of nodes. This project models the parts of it whose
correctness is hardest to see from the code, and proves what they promise, for every input, every
run and every interleaving:

- **Workflow graphs** (`WorkflowGraph.dfy`, `WorkflowSearch.dfy`, `PlanExpansion.dfy`). The explicit-stack
  three-colour search accepts exactly the graphs with a topological order, which are exactly the graphs
  on which no run can get stuck; a reported cycle is a real one; the number of iterations is exact; an
  expanded plan can always run to its end.
- **The ACP request router** (`Router.dfy`, `RouterRuns.dfy`, `RouterObject.dfy`, `Codec.dfy`). Client and
  server as one step machine under an arbitrary peer, for any number of calls. Each concurrent call behaves
  as if it were alone, until 2^64 calls later its id is used again, and everything else follows: it ends at most once, only with what belongs to it, no answer is lost, the
  client's drain leaves nothing behind - and what is registered after a close is never answered.
- **Framing** (`Lines.dfy`, `Framing.dfy`). Which frames the capped read loops hand to the decoder, and
  exactly when the server's drain of an oversized frame recovers.
- **Versions** (`SemVer.dfy`, `VersionReq.dfy`, `VersionRanges.dfy`, `VersionTexts.dfy`, `VersionMeanings.dfy`).
  Which texts are versions, precedence, what every comparator and every set of them accepts, the
  requirement forms as ranges, the pre-release gate, convexity, exactly which tags keep precedence
  transitive, and where validator and matcher agree.
- **Command policy** (`Policy.dfy`, `PolicyMeanings.dfy`). From tokenizer to verdict: the verdict on a command
  line by its words, and appended arguments make a verdict more
  permissive in exactly two cases, both due to open quotes or blank commands, and in no other.
- **Text** (`Compress.dfy`, `Truncate.dfy`, `Utf8.dfy`, `Decimal.dfy`). On exactly which texts run folding
  can be undone, is idempotent and saves bytes; every cut falls on a character of well-formed UTF-8, and
  exactly when the byte cap holds.
- **Streams, logs and positions** (`EventStream.dfy`, `ScriptText.dfy`, `UsagePaging.dfy`, `StateMachine.dfy`,
  `PatchLines.dfy`). Exactly-once resumption over any cuts, chunking, failed attempts and closes; paged sums;
  whole runs of the status machines; line numbers in the hunks of a patch text.

Code that loops and mutates is modelled by methods and classes, each proved against a function of its
inputs or of its old state; the lemmas then speak about those functions.

## Where code and comments differ

The model follows the code.

- `crates/common/src/version.rs:84-87` says a shorter pre-release list outranks a longer one; the code ranks it
  lower (`SemVer.PrefixIsBelow`). Comparing a number with a text as text departs from section 11.4.3 of Semantic
  Versioning 2.0.0 and is not transitive (`SemVer.MixedKindsCycle`): over a set of tags it is if and only if no text
  of the set stands between two numbers of it that are not in that order (`SemVer.TransitiveIffWedgeless`), and
  `SemVer.FullTransitive` says which three versions are affected.
- `crates/common/src/version.rs:115-116` reads `~1.2.3` as `>=1.2.3 <1.3.0`; with a tag, `~1.2.3-rc.2` also accepts
  the earlier 1.2.3-rc.1, and nothing else below it (`VersionReq.TildeBelow`, `VersionTexts.TildeAcceptsEarlier`).
- `crates/common/src/version.rs:113-118` lists exact versions among the forms; one whose tag holds an `x`, such as
  `1.0.0-next.1`, is taken for a wildcard, refused and matched by nothing (`VersionTexts.BarePinMatchesNothing`).
- `crates/common/src/version.rs:164-166` promises to accept the forms the matcher understands; an operator in front
  of a text with a wildcard character that is no trailing wildcard is understood and refused
  (`VersionReq.MatchedIsValid`): `^1.x.3` (`VersionTexts.BrokenWildcardStillMatches`) and `=1.0.0-next.1`
  (`VersionTexts.TaggedPinRefused`).
- `crates/common/src/compress.rs:44-46` promises a hard cap that never splits a line. The trailer comes on top of the
  kept prefix, so the cap holds only if there is room for it behind the last whole line (`Truncate.CapHoldsIffRoomy`),
  and a first line longer than the cap is split, at a character, and exceeds it (`Truncate.LongLineExceedsCap`).
- `crates/common/src/compress.rs:14-16` says the marker names how many repeats were folded. A text that already holds
  such a marker can be folded to the same result as another text (`Compress.DecodableIffUnmarked`).
- `crates/acp/src/client.rs:99` means to keep requests from hanging; a request registered after the drain does
  hang (`RouterRuns.UnansweredAfterClose`). The server fails none of its requests.
- `crates/acp/src/server.rs:174-178` drains an oversized frame up to the next newline; whole reads are dropped, so
  what follows the newline in the last read is lost too (`Framing.RecoversIffDrainExact`, `Framing.OneReadLosesAll`).
- `web/src/patch.ts:12-15` promises the line number in the file. A deleted line whose text starts with `--`, or an
  added one with `++`, is taken for a file header and not counted (`PatchLines.PatchNumbering`,
  `PatchLines.DeletedDashesMisnumber`).
- `web/src/patch.ts:35-40` strips `a/` and then `b/`, so `--- a/b/x` names x instead of b/x (`PatchLines.OldFileNamed`).
- `web/src/api.ts:650-651` says a dropped connection never loses events; this needs ascending ingest ids
  (`EventStream.SeamlessIffAscending`).

## Model

| member | source | states |
|---|---|---|
| `WorkflowGraph.CycleExcludesOrder` | crates/common/src/workflow.rs:573-595 | a closed walk along dependencies rules out every topological order |
| `WorkflowGraph.OrderNeverStuck` | crates/common/src/workflow.rs:448-455 | with a topological order, whatever steps have finished, some unfinished step is ready |
| `WorkflowGraph.StuckFreeHasOrder` | crates/common/src/workflow.rs:448-455 | a graph on which no run can get stuck has a topological order |
| `WorkflowGraph.WellFormedIsStuckFree` | crates/common/src/workflow.rs:551-554 | over unique ids and good references, acyclic and never deadlocking are the same |
| `WorkflowSearch.CheckIds` | crates/common/src/workflow.rs:555-560 | passes exactly on unique ids; otherwise names the first id that repeats |
| `WorkflowSearch.CheckRefs` | crates/common/src/workflow.rs:561-572 | passes exactly on good references; otherwise reports the first bad one in listing order: a self-dependency if the step names itself, an unknown one if no step has that id |
| `WorkflowSearch.GrayClosesCycle` | crates/common/src/workflow.rs:591-595 | a gray dependency closes a walk through the frames above it |
| `WorkflowSearch.InvPush` | crates/common/src/workflow.rs:588-598 | descending into a white dependency keeps gray = on the stack, black = finished after its dependencies, stack = dependency path |
| `WorkflowSearch.InvSkip` | crates/common/src/workflow.rs:588-598 | passing a finished dependency keeps the same invariant |
| `WorkflowSearch.InvPop` | crates/common/src/workflow.rs:599-602 | finishing a step keeps the same invariant and extends the topological order |
| `WorkflowSearch.Turn` | crates/common/src/workflow.rs:585-603 | one inner iteration keeps the search invariant at the cost of exactly one iteration, or exhibits a cycle |
| `WorkflowSearch.Visit` | crates/common/src/workflow.rs:588-598 | the next dependency by its colour: a gray one closes a cycle, a white one is pushed, a black one passed |
| `WorkflowSearch.Descend` | crates/common/src/workflow.rs:584-604 | one descent finishes its root and terminates within the steps and dependencies left, pushing no step twice |
| `WorkflowSearch.Search` | crates/common/src/workflow.rs:573-606 | passes exactly on an acyclic graph, after exactly steps + dependencies iterations; otherwise exhibits a cycle |
| `WorkflowSearch.ValidateDag` | crates/common/src/workflow.rs:554-607 | Ok exactly on well-formed graphs; the error category is the first violated, and the error names the first repeated id, the first bad reference with what is wrong with it, or an edge that closes a cycle; iteration bound; every step is pushed at most once |
| `WorkflowSearch.WorkCounts` | crates/common/src/workflow.rs:584-604 | that bound is the number of steps plus the number of dependencies listed |
| `PlanExpansion.Expand` | crates/common/src/workflow.rs:102-119 | every expanded step carries its plan step's fields in order, no base commit, and is not expandable |
| `PlanExpansion.ParsePlanSteps` | crates/common/src/workflow.rs:90-132 | accepts exactly non-blank, parsed, non-empty plans with a well-formed graph; the accepted steps never get stuck; each refusal has its own error, a bad graph the one that is true of it |
| `PlanExpansion.RunsComplete` | crates/common/src/workflow.rs:448-455 | a run that starts ready steps repeats none and either has started all or can start another |
| `Codec.IdRoundTrip` | crates/acp/src/codec.rs:23-31 | every id is read back from its JSON value |
| `Codec.ErrorRoundTrip` | crates/acp/src/codec.rs:51-57 | every error object is read back, with an explicit null as its data read as absent |
| `Codec.RoundTrip` | crates/acp/src/codec.rs:77-139 | decoding an encoded message gives it back exactly when its error data is not an explicit null |
| `Codec.DecodeIsStable` | crates/acp/src/codec.rs:114-148 | whatever is accepted survives encoding and decoding unchanged |
| `Codec.EncodeConforms` | crates/acp/src/codec.rs:77-105 | encoded messages have the object shapes of JSON-RPC 2.0, a notification being the one without an id |
| `Codec.ConformingAccepted` | crates/acp/src/codec.rs:114-139 | every object of those shapes is accepted, as the kind it is |
| `Codec.RequestReads` | crates/acp/src/codec.rs:114-127 | a request or notification is read by its method, its parameters, null if absent, and its id |
| `Codec.ResponseReads` | crates/acp/src/codec.rs:128-139 | anything else is a response: its error if there is one and it can be read, else its result, with the id it bears |
| `Codec.OthersRefused` | crates/acp/src/codec.rs:114-118 | what is no object or of another version is refused |
| `Codec.ErrorReads` | crates/acp/src/codec.rs:51-57 | an error object is read by code, message and data |
| `Codec.ErrorArrayReads` | crates/acp/src/codec.rs:51-57 | an error array is read by position |
| `Router.KeysCollideOnlyOnWrap` | crates/acp/src/client.rs:137-138 | two calls share an id exactly when their numbers agree modulo 2^64; only the call on which the counter wraps is numbered 0 |
| `Router.Isolation` | crates/acp/src/client.rs:59-164 | over every run, what a call sees of the shared map and slots is what it would see alone, but for calls given the same id |
| `Router.NoTwinsBelowWrap` | crates/acp/src/client.rs:137-138 | among the first 2^64 calls none can take another's place |
| `RouterRuns.IssuedSplit` | crates/acp/src/client.rs:137-155 | on a client a call is in the pending map exactly while registered, unreturned, unanswered and not cut off, and the map holds nothing else |
| `RouterRuns.ServerSplit` | crates/acp/src/server.rs:44-58 | the same on a server, save that a call whose send failed stays in the map |
| `RouterRuns.EndsAtMostOnce` | crates/acp/src/client.rs:145-164 | a returned call keeps its outcome and a filled slot its message through every later run |
| `RouterRuns.EndsWithItsOwn` | crates/acp/src/client.rs:86-109 | a call returns only with its own send error, the first response bearing its key after registration, the first close on a client, or cut off by a later call with the same id |
| `RouterRuns.NeverCutBelowWrap` | crates/acp/src/client.rs:137-140 | no call is cut off before 2^64 calls have been issued |
| `RouterRuns.ReusedIdCutsOff` | crates/acp/src/client.rs:137-156 | after that it happens: the call that reuses a waiting call's id takes its entry, and the waiting one returns empty-handed |
| `RouterRuns.AnswerReachesItsCall` | crates/acp/src/client.rs:87-91 | that first response or close does fill the slot of a call that was sent and not cut off |
| `RouterRuns.ClientDrainFailsAll` | crates/acp/src/client.rs:99-109 | after the drain no earlier-registered call is pending: each has ended, or has what ends it and waking it returns it |
| `RouterRuns.UnansweredAfterClose` | crates/acp/src/server.rs:240-248 | once the reader has stopped, a call with an empty slot is never answered, on either side |
| `RouterRuns.ReturnsWhatCame` | crates/acp/src/client.rs:156-163 | what `request` returns: a result or an error only from a response object with its number that came in, on a client also error -32000 "transport closed" after a close; otherwise its send error, or a lost sender after 2^64 calls |
| `RouterRuns.CloseFailsCall` | crates/acp/src/client.rs:99-108 | a call in the client's map at the close returns error -32000 "transport closed", unless its send had failed |
| `RouterRuns.ResultReturned` | crates/acp/src/client.rs:86-91 | a waiting call returns the result that came in first for it |
| `RouterRuns.AnswersExactly` | crates/acp/src/codec.rs:114-148 | the answers to a call are exactly the response objects with its number and a result or a readable error |
| `RouterRuns.PeerTrafficIsSeparate` | crates/acp/src/client.rs:92-96 | a peer's request or notification is handed on and touches no call, whatever its id |
| `RouterRuns.StrayResponseIgnored` | crates/acp/src/codec.rs:141-148 | a response whose id is not read as the number of an issued call changes nothing |
| `RouterRuns.OnlyWholeNumbersName` | crates/acp/src/codec.rs:141-148 | until 2^64 calls have been issued only a whole number in range names a call: a missing, null, textual, fractional or huge id names none |
| `RouterObject.RouterCell.constructor` | crates/acp/src/client.rs:55-57 | starts a run with nothing issued and nothing pending |
| `RouterObject.RouterCell.Take` | crates/acp/src/client.rs:138 | taking an id extends the object's run by an allocation; the state stays that of the run |
| `RouterObject.RouterCell.Enlist` | crates/acp/src/client.rs:139-140 | registering extends the run by a registration, replacing an entry under the same id, and the call is in the map |
| `RouterObject.RouterCell.Sent` | crates/acp/src/client.rs:145-155 | the end of a send extends the run by its success or failure, the client clearing the entry under its id |
| `RouterObject.RouterCell.Receive` | crates/acp/src/client.rs:82-97 | a frame extends the run by an inbound step; a response that names no issued call changes nothing |
| `RouterObject.RouterCell.DrainPending` | crates/acp/src/client.rs:100-108 | the loop over the map fails exactly the calls it takes out, until it is empty |
| `RouterObject.RouterCell.Stop` | crates/acp/src/client.rs:99-109 | stopping extends the run by a close: a client leaves no registered call waiting and empties the map, a server changes no call |
| `RouterObject.RouterCell.Poll` | crates/acp/src/client.rs:156-163 | what a poll yields is the first response bearing the call's key since its registration, or a client's first close; it fails only if another call was given the same id; while it yields nothing the call is still in the map |
| `RouterObject.RouterCell.ReturnsOnce` | crates/acp/src/client.rs:145-164 | whatever critical sections run in between, a call that has returned keeps its outcome |
| `RouterObject.DrainAnswersAll` | crates/acp/src/client.rs:99-109 | after a client's run and a close every registered call has returned or has its answer |
| `Framing.ReadUntil` | crates/acp/src/client.rs:67-74 | a capped read ends after the first newline, at the cap or at the end of input |
| `Framing.TrimEndExact` | crates/acp/src/client.rs:81 | trimming drops the line-end bytes at the end, all of them and nothing else |
| `Framing.StripCrExact` | crates/acp/src/server.rs:205-208 | one carriage return is dropped at the end, and nothing else |
| `Framing.ClientLoop` | crates/acp/src/client.rs:65-81 | the loop reads capped lines until the end of input or the first that does not fit |
| `Framing.ClientRead` | crates/acp/src/client.rs:65-81 | so it delivers the trimmed frames of the reference split of the whole stream |
| `Framing.DeliverableIsPrefix` | crates/acp/src/client.rs:75-79 | the client delivers the lines before the first oversized one, and an unterminated end only if all fit |
| `Framing.ClientExact` | crates/acp/src/client.rs:65-81 | on fitting, terminated lines the client delivers exactly those lines in order |
| `Framing.ClientStopsAtOversize` | crates/acp/src/client.rs:75-79 | an oversized line ends the stream after exactly the lines before it |
| `Framing.DrainLine` | crates/acp/src/server.rs:195-201 | the drain drops whole reads up to and including one with a newline |
| `Framing.ServerLoop` | crates/acp/src/server.rs:182-209 | the loop delivers the frames it takes, one carriage return stripped from each |
| `Framing.ServerRead` | crates/acp/src/server.rs:182-209 | with exact drains it delivers exactly the fitting lines |
| `Framing.ServerRecovers` | crates/acp/src/server.rs:192-204 | with exact drains only oversized lines and an unterminated end are lost |
| `Framing.RecoversIffDrainExact` | crates/acp/src/server.rs:195-201 | with one oversized line between fitting ones, the lines handed on are all the others if and only if some of the drain's reads add up to exactly the rest of that line, or to one byte more when that is the carriage return of an otherwise empty line |
| `Framing.DrainStops` | crates/acp/src/server.rs:195-201 | a drain stops where the first read ends that reaches the newline |
| `Framing.OneReadLosesAll` | crates/acp/src/server.rs:195-201 | when one read takes the rest of the stream, every line behind the oversized one is lost |
| `Framing.DrainTakes8192` | crates/acp/src/server.rs:195-201 | a read that is offered enough drops 8192 bytes and no more |
| `SemVer.ComparePre` | crates/common/src/version.rs:88-106 | the first differing pair decides, then the lengths |
| `SemVer.FullReflexive` | crates/common/src/version.rs:88-110 | every version compares equal to itself |
| `SemVer.FullSymmetric` | crates/common/src/version.rs:88-110 | swapping the operands flips the answer |
| `SemVer.FullTransitive` | crates/common/src/version.rs:88-110 | any three versions are ordered without contradiction exactly unless they differ in tags only and, where these first do not tie, a text stands between two numbers whose versions are not in that order |
| `SemVer.TwoNumbersOrdered` | crates/common/src/version.rs:95-98 | two numbers and a text are ordered exactly unless the text is wedged between the numbers the wrong way round |
| `SemVer.TransitiveIffWedgeless` | crates/common/src/version.rs:88-110 | for every set of tags, precedence is transitive over the versions that use them if and only if no text of the set is wedged between two numbers of it |
| `SemVer.UniformTransitive` | crates/common/src/version.rs:88-110 | in particular it is where, position by position, not exactly two of three identifiers are numbers |
| `SemVer.ReleaseIsTop` | crates/common/src/version.rs:89-92 | a release is above all its pre-releases |
| `SemVer.PrefixIsBelow` | crates/common/src/version.rs:94-103 | a proper prefix is below its extension |
| `SemVer.MixedKindsCycle` | crates/common/src/version.rs:95-98 | 1.0.0-9 < 1.0.0-10 < 1.0.0-1a < 1.0.0-9 |
| `SemVer.NumbersAmongText` | crates/common/src/version.rs:95-98 | two numbers are ordered consistently with every textual identifier exactly when they compare as text as they do as numbers |
| `VersionReq.WildcardParses` | crates/common/src/version.rs:301-324 | accepts exactly one or two numbers followed only by wildcards |
| `VersionReq.MatchComparatorSet` | crates/common/src/version.rs:382-408 | holds exactly when the set's pre-release gate and every part hold |
| `VersionReq.MatchedIsValid` | crates/common/src/version.rs:122-198 | a non-empty requirement some version satisfies is valid exactly unless an operator hides a broken wildcard |
| `VersionReq.AcceptsItself` | crates/common/src/version.rs:122-198 | a valid caret, tilde, equality, exact or wildcard requirement accepts its own body, exactly unless it is a wildcard with a signed number |
| `VersionReq.DashedWildcardMatchesNothing` | crates/common/src/version.rs:158-160 | a bare requirement with a dash and a wildcard character is refused and matched by no version |
| `VersionReq.TildeBelow` | crates/common/src/version.rs:226-246 | what `~r` accepts below r are exactly the earlier pre-releases of a tagged r |
| `VersionRanges.PrereleaseGate` | crates/common/src/version.rs:122-162 | on every route a pre-release is accepted only by `*`, no requirement, or one naming its triple with a tag |
| `VersionRanges.Convex` | crates/common/src/version.rs:122-162 | every requirement string accepts a convex set of releases |
| `VersionRanges.CmpRises` | crates/common/src/version.rs:108-110 | comparison with a bound never falls as a release rises |
| `VersionMeanings.ParseExactly` | crates/common/src/version.rs:29-82 | exactly which texts are versions and what is read: at most three parts, the first a 64-bit number, unreadable others 0; each part of the tag letters, digits and dashes |
| `VersionMeanings.PaddingIgnored` | crates/common/src/version.rs:29-36 | white space around versions and requirements does not matter |
| `VersionMeanings.FullMeans` | crates/common/src/version.rs:88-110 | precedence is the lexicographic order of the numbers, then tagged below untagged, then the tags |
| `VersionMeanings.IdentifierOrder` | crates/common/src/version.rs:95-98 | two numeric identifiers compare by value, others by their first different character |
| `VersionMeanings.ComparatorMeans` | crates/common/src/version.rs:122-162 | `>r`, `>=r`, `<r`, `<=r`, `=r` and r, as written, accept exactly the versions above, not below, below, not above or equal to r; a tagged version only if r has its numbers and a tag |
| `VersionMeanings.Trichotomy` | crates/common/src/version.rs:122-162 | exactly one of `<r`, `=r` and `>r` accepts a release |
| `VersionMeanings.SetMeans` | crates/common/src/version.rs:371-408 | a set of written comparators accepts exactly the versions that meet all of them; a tagged version only if one of them has its numbers and a tag |
| `VersionMeanings.CaretMeansAll` | crates/common/src/version.rs:207-224 | `^r` for tagged and untagged versions: not below r and the left-most number that is not 0 unchanged |
| `VersionMeanings.TildeMeansAll` | crates/common/src/version.rs:226-246 | `~r` likewise: numbers not below, major and, if a dot is written, minor unchanged |
| `VersionMeanings.AnyMeans` | crates/common/src/version.rs:123-126 | `*` and no requirement accept anything that is not blank; only `*` is valid |
| `VersionMeanings.UnreadableMatchesNothing` | crates/common/src/version.rs:127-130 | what cannot be read as a version meets no other requirement |
| `VersionMeanings.ValidSetIff` | crates/common/src/version.rs:176-187 | a set is valid exactly when every part of it can be read |
| `VersionMeanings.WrittenSetIsValid` | crates/common/src/version.rs:176-187 | every set of written comparators is valid |
| `VersionMeanings.UnreadableWordRefused` | crates/common/src/version.rs:382-426 | a set with an unreadable part is refused and matched by nothing |
| `VersionMeanings.ValidSingleIff` | crates/common/src/version.rs:188-198 | a single requirement without wildcard characters is valid exactly when what follows its operator can be read |
| `VersionTexts.ParseDotted` | crates/common/src/version.rs:29-82 | a written version is read back; an overflowing major is refused, an overflowing minor or patch read as 0 |
| `VersionTexts.ParseTagged` | crates/common/src/version.rs:29-82 | numbers, tag and build metadata, each of the last two or neither: tags are read in order, build metadata and a leading `v` are ignored, overflow as without them |
| `VersionTexts.RangeMeans` | crates/common/src/version.rs:382-408 | the text `>=a <b` accepts exactly the releases from a up to below b |
| `VersionTexts.CaretIsRange` | crates/common/src/version.rs:207-224 | `^r`, as written, accepts the same releases as `>=r <u`, with the 0.x and 0.0.x rules |
| `VersionTexts.CaretOverflows` | crates/common/src/version.rs:207-224 | when u does not fit 64 bits that range accepts nothing and `^r` still accepts r |
| `VersionTexts.TildeIsRange` | crates/common/src/version.rs:226-242 | `~r`, as written, accepts the same releases as `>=r <u` |
| `VersionTexts.TildeOverflows` | crates/common/src/version.rs:226-242 | the same overflow case for `~r` |
| `VersionTexts.WildcardIsRange` | crates/common/src/version.rs:259-299 | trailing wildcards accept the same releases as the range of the numbers before them |
| `VersionTexts.WildcardOverflows` | crates/common/src/version.rs:259-299 | when the upper bound does not fit 64 bits that range accepts nothing, and the wildcard still exactly what its numbers name |
| `VersionTexts.BrokenWildcardStillMatches` | crates/common/src/version.rs:152-154 | the family `^a.x.c`: accepts a.0.c although the validator refuses it |
| `VersionTexts.TaggedPinRefused` | crates/common/src/version.rs:169-198 | `=`, `^` or `~` in front of a version whose tag holds a wildcard character accepts that version and is refused |
| `VersionTexts.BarePinMatchesNothing` | crates/common/src/version.rs:158-160 | the same version as a bare requirement is refused and matched by no version |
| `VersionTexts.TildeAcceptsEarlier` | crates/common/src/version.rs:226-246 | `~` in front of a tagged version accepts the same triple with any earlier tag |
| `Policy.DecideMonotone` | crates/common/src/policy.rs:179-206 | a riskier class or a lower level is never decided more permissively |
| `Policy.Tokenize` | crates/common/src/policy.rs:248-284 | the loop computes the scanner's reference fold, refusing an open quote |
| `Text.WhitespaceIs` | crates/common/src/policy.rs:267 | the 25 characters that separate words |
| `Policy.TokensConcatenate` | crates/common/src/policy.rs:248-284 | two command lines joined by white space tokenize to the concatenation, or leave the second's quote open |
| `Policy.QuotingRoundTrip` | crates/common/src/policy.rs:248-284 | every argument vector can be quoted so that it tokenizes back to itself |
| `Policy.ClassifyMonotone` | crates/common/src/policy.rs:287-446 | extra arguments never lower the risk class |
| `Policy.ClassifyLocal` | crates/common/src/policy.rs:321-446 | short of destruction only the first two words matter |
| `Policy.ReadersOnlyRead` | crates/common/src/policy.rs:248-446 | a command that starts with a reading tool is classified as a read, unless it is destructive |
| `Policy.LevelMeanings` | crates/common/src/policy.rs:179-206 | what each autonomy level allows and denies, in terms of the words of the command |
| `Policy.EvaluateWith` | crates/common/src/policy.rs:223-244 | the verdict, which never allows what does not tokenize to a command |
| `Policy.AppendNeverPermits` | crates/common/src/policy.rs:223-244 | for every command and every appended text, the decision becomes more permissive exactly when a denied destructive command gets an open quote, or a blank or unfinished command gets words that the level allows |
| `Policy.AppendNeverLowersClass` | crates/common/src/policy.rs:223-244 | the reported class falls exactly when a blank or unfinished command gets words that are not destructive |
| `Policy.ClosingQuotePermits` | crates/common/src/policy.rs:223-284 | a command with an open quote is questioned; closing the quote adds a blank word and allows it exactly if the level does |
| `Policy.ListingWithQuote` | crates/common/src/policy.rs:223-284 | `ls '` is questioned at L1, `ls ' '` allowed |
| `Policy.StrayQuoteDowngradesDenial` | crates/common/src/policy.rs:229-232 | that exception, for every destructive command at the default level |
| `Policy.LessAutonomyIsStricter` | crates/common/src/policy.rs:178-206 | less autonomy never makes the verdict on a command more permissive |
| `PolicyMeanings.VerdictByWords` | crates/common/src/policy.rs:287-446 | the whole verdict on a command line from its words, with every word list written out |
| `PolicyMeanings.DestructionDenied` | crates/common/src/policy.rs:292-318 | exactly forced `rm`, the always destructive commands, writes to `/dev/` and recursive `chmod` and `chown` are destructive, and exactly these are denied, except at L4 |
| `PolicyMeanings.RmIsDenied` | crates/common/src/policy.rs:295-306 | `rm` with any of the six flags is denied at the default level |
| `PolicyMeanings.LevelTable` | crates/common/src/policy.rs:179-206 | the decision for every level and class |
| `Compress.RunLength` | crates/common/src/compress.rs:22-26 | the longest run of equal lines at the front |
| `Compress.CountRun` | crates/common/src/compress.rs:22-26 | the inner loop finds that run |
| `Compress.EmitRun` | crates/common/src/compress.rs:27-35 | writes the line and its marker, or both copies of a pair |
| `Compress.DedupLines` | crates/common/src/compress.rs:17-42 | the loops compute the fold of the runs, from which the text is recovered exactly if it is readable |
| `Compress.RunText` | crates/common/src/compress.rs:22-35 | a run of up to two lines stays; more become the line, a newline, the mark and the number of repeats in decimal |
| `Compress.RunByRun` | crates/common/src/compress.rs:19-40 | runs are folded one by one |
| `Compress.Lossless` | crates/common/src/compress.rs:14-42 | expanding the markers restores a text if and only if no run of one or two lines stands so that it looks like a line and its marker |
| `Compress.DecodableIffUnmarked` | crates/common/src/compress.rs:14-42 | for every set of lines, no two texts over it deduplicate alike if and only if it holds no marker of two or more repeats |
| `Compress.DedupIdempotent` | crates/common/src/compress.rs:17-42 | deduplicating twice is deduplicating once if and only if no run of n lines is followed by two or n copies of its own marker |
| `Compress.IdempotentIffUnmarked` | crates/common/src/compress.rs:17-42 | for every set of lines, deduplicating is idempotent over it if and only if it holds no such marker, or nothing else |
| `Compress.MarkedTextCollides` | crates/common/src/compress.rs:28-29 | a repeated line and its own folded form deduplicate alike, whatever the line |
| `Compress.MarkedTextFoldsTwice` | crates/common/src/compress.rs:28-29 | a run followed by two copies of its own marker is not settled |
| `Compress.SingleRunSize` | crates/common/src/compress.rs:28-35 | a run on its own does not grow exactly when its repeats weigh at least the marker |
| `Compress.NeverLengthens` | crates/common/src/compress.rs:17-42 | a text does not grow if and only if its runs together save bytes; in particular if each is worthwhile |
| `Compress.SizeChange` | crates/common/src/compress.rs:17-42 | the exact change in size: the repeats of each folded run less its marker, summed over the runs |
| `Compress.LongTriplesWorthwhile` | crates/common/src/compress.rs:28-35 | lines of three bytes or more always make worthwhile runs |
| `Compress.DedupValid` | crates/common/src/compress.rs:17-42 | well-formed UTF-8 stays well-formed |
| `Compress.Compress` | crates/common/src/compress.rs:84-96 | the cut of the deduplicated text, its length, the bytes saved, and well-formedness |
| `Truncate.SmartTruncate` | crates/common/src/compress.rs:47-72 | keeps the longest newline-ended prefix within the cap, else the longest whole-character one; kept and reported bytes add up; well-formed; within the cap exactly when there is room for the trailer |
| `Truncate.TrailerReads` | crates/common/src/compress.rs:69-71 | the trailer, byte by byte, with a numeral that reads back to the bytes dropped |
| `Truncate.CapHoldsIffRoomy` | crates/common/src/compress.rs:44-72 | the result is within the cap if and only if the text is, or the last whole line within the cap leaves room for the trailer |
| `Truncate.LongLineExceedsCap` | crates/common/src/compress.rs:60-71 | a first line longer than the cap is not kept whole and the cap exceeded by at least twenty bytes |
| `Truncate.TruncateDetail` | crates/control-plane/src/diff_scan.rs:103-116 | up to 200 bytes unchanged; else at most three bytes backed off to the longest whole-character prefix below 200, and an ellipsis; at most 202 bytes; well-formed |
| `Utf8.BoundarySplits` | crates/common/src/compress.rs:62-64 | cutting at a character boundary leaves well-formed text on both sides |
| `Utf8.SafeCutIsBoundary` | crates/common/src/compress.rs:62-64 | only boundaries do |
| `Utf8.BoundaryNear` | crates/control-plane/src/diff_scan.rs:110-113 | a boundary lies within three bytes of any position |
| `Utf8.EncodedIsValid` | crates/common/src/compress.rs:62-64 | the encodings of Unicode scalar values are well-formed |
| `Utf8.ValidIsEncoded` | crates/common/src/compress.rs:62-64 | and nothing else is: every well-formed text is the encoding of some |
| `EventStream.TaskStream.constructor` | web/src/api.ts:728-736 | starts at the given cursor with nothing delivered |
| `EventStream.TaskStream.Schedule` | web/src/api.ts:671-674 | the delay is handed out and the next one doubled, up to five seconds |
| `EventStream.TaskStream.Open` | web/src/api.ts:679-693 | an accepted connection starts with an empty buffer and the initial delay |
| `EventStream.DataLineCarries` | web/src/api.ts:741-746 | a data line carries exactly what its payload parses to |
| `EventStream.OtherLinesCarryNothing` | web/src/api.ts:741-744 | any other line carries nothing |
| `ScriptText.SpaceIs` | web/src/api.ts:700 | the 25 code units that are trimmed off a line |
| `EventStream.TaskStream.OnLine` | web/src/api.ts:741-752 | a data line that parses moves the cursor up and is delivered; any other line is ignored |
| `EventStream.TaskStream.Receive` | web/src/api.ts:697-703 | a chunk delivers the events of the lines it completes, in order, and buffers the rest |
| `EventStream.TaskStream.Pump` | web/src/api.ts:694-704 | what a connection delivers is that of its text up to the chunk during which it is closed, however it is chunked |
| `EventStream.FedAppend` | web/src/api.ts:694-704 | reading chunk by chunk or all at once leaves the same buffer, cursor and events |
| `EventStream.TaskStream.Run` | web/src/api.ts:676-713 | one attempt: it asks from the cursor; what it delivers; a failed or lost connection is retried, a close or an expired login is not; and the delay |
| `EventStream.Reconnect` | web/src/api.ts:671-713 | over any attempts: each asks for what follows the last event delivered; the k-th delay since the last opening is min(500 * 2^k, 5000), one per attempt that does not end the stream; what is delivered is what the connections made carried |
| `EventStream.PersistentAreMade` | web/src/api.ts:676-713 | as long as attempts only fail or connections are only lost, all are made |
| `EventStream.OthersAreLast` | web/src/api.ts:676-713 | a close or an expired login is the last one |
| `EventStream.FailuresThenOpen` | web/src/api.ts:671-713 | n failed attempts and then a connection deliver what it carries, after delays of min(500 * 2^k, 5000) |
| `EventStream.ClosedIsFinal` | web/src/api.ts:694-724 | after a close neither a later chunk of that connection nor any later attempt is read |
| `EventStream.CutIsPrefix` | web/src/api.ts:694-712 | cutting a connection anywhere cuts its events to a prefix |
| `EventStream.ResumeSplits` | web/src/api.ts:736-748 | resuming at the advanced cursor continues exactly where the delivered prefix stopped |
| `EventStream.SeamlessIffAscending` | web/src/api.ts:736-748 | resuming is seamless at every cut exactly when the ids served are ascending |
| `EventStream.ExactlyOnce` | web/src/api.ts:661-755 | over any number of cut and rechunked connections the events delivered are a prefix of the log after the starting cursor |
| `EventStream.NothingTwice` | web/src/api.ts:661-755 | their ids ascend strictly, above the starting cursor |
| `EventStream.Follow` | web/src/api.ts:661-755 | the stream over its whole life, through failed attempts and cut connections, delivers exactly that prefix and its cursor marks the rest |
| `EventStream.ServedFrom` | web/src/api.ts:736-738 | in a session each connection is served from that cursor |
| `UsagePaging.SumUsage` | crates/cli/src/eval.rs:371-390 | the loop sums the tokens, and the cents, of the metric events |
| `UsagePaging.SumsAre` | crates/cli/src/eval.rs:371-390 | those sums, event by event |
| `UsagePaging.HighestIsMax` | crates/cli/src/eval.rs:429 | the next cursor is the highest id of the page |
| `UsagePaging.PageAdvances` | crates/cli/src/eval.rs:429-434 | the next cursor leaves strictly less, and on a numbered log exactly what the page left |
| `UsagePaging.PagedUsage` | crates/cli/src/eval.rs:403-436 | terminates and sums the tokens and cents of exactly the events billed; on a numbered log without failure of the whole log |
| `UsagePaging.BilledOnce` | crates/cli/src/eval.rs:403-436 | on every log no event is billed twice; all are exactly when each page ends below what follows it; the pages before a failed request, or the first page of a log without ids |
| `UsagePaging.CoveredIsProduct` | crates/cli/src/eval.rs:417-421 | the events billed before a failed request are the full pages before it |
| `TaskMachine.ReadByTransition` | crates/common/src/state_machine.rs:43-74 | the table read by transition: each is accepted in its statuses only and always leads to the same one |
| `TaskMachine.RunBounded` | crates/common/src/state_machine.rs:43-74 | R retries allow at most 5R+4 transitions and R+1 assignments from queued; success is final |
| `TaskMachine.BoundsAreTight` | crates/common/src/state_machine.rs:43-74 | both bounds are reached for every R |
| `AttemptMachine.ReplaysAsTask` | crates/common/src/state_machine.rs:76-104 | an attempt run is accepted exactly when it is as a task run, ending where the attempt does with lost as failed |
| `AttemptMachine.RunBounded` | crates/common/src/state_machine.rs:76-104 | an attempt makes at most three transitions |
| `AttemptMachine.ReadByTransition` | crates/common/src/state_machine.rs:76-104 | the table read by transition |
| `AttemptMachine.EndsByLast` | crates/common/src/state_machine.rs:76-104 | a run ends where its last transition leads, so lost exactly if the node was lost last |
| `PatchLines.HeaderRoundTrip` | web/src/patch.ts:44-49 | a hunk header as written is read back to its two starts, whichever counts it carries |
| `PatchLines.ParseLine` | web/src/patch.ts:29-70 | one line's record, counters and file |
| `PatchLines.ParsePatchLines` | web/src/patch.ts:18-72 | one record per line, each determined by the lines up to it |
| `PatchLines.HunkNumbering` | web/src/patch.ts:44-66 | among any items, a line of a hunk is numbered with the hunk's start plus the earlier lines of the hunk on that side |
| `PatchLines.SignDecides` | web/src/patch.ts:30-69 | a hunk line is classified by its sign exactly when it does not look like a file header, and as one when it does |
| `PatchLines.HunkRecord` | web/src/patch.ts:18-72 | in any patch text, the record of any line of any hunk: a file header's if it looks like one, else numbered too low by exactly the lookalikes before it |
| `PatchLines.PatchNumbering` | web/src/patch.ts:18-72 | in any patch text, all lines of a hunk get the file named before it, their sign's kind, and the hunk's start plus the earlier lines of that sign, if and only if none starts with `---` or `+++` |
| `PatchLines.DeletedDashesMisnumber` | web/src/patch.ts:30-41 | a deleted line that starts with two dashes is read as a file header, and the next deleted line gets its number |
| `PatchLines.FileHeadersExactly` | web/src/patch.ts:30-33 | the lines that begin with one of thirteen texts, and no others, are file headers |
| `PatchLines.OtherLines` | web/src/patch.ts:44-69 | of the others `@@` makes a hunk header, and a line without a sign is neither added, deleted nor context |
| `PatchLines.OthersResetNothing` | web/src/patch.ts:44-51 | a line that does not begin as a hunk header resets nothing |
| `PatchLines.NewFileNamed` | web/src/patch.ts:37-40 | `+++ b/x` names x |
| `PatchLines.FileOfHunk` | web/src/patch.ts:34-40 | behind that header the lines belong to x |
| `PatchLines.OldFileNamed` | web/src/patch.ts:34-36 | `--- a/x` names x exactly unless x is in a directory `b`, which is dropped as well |
| `PatchLines.NoFileNamed` | web/src/patch.ts:34-40 | `/dev/null` names nothing |

## Left out

- PlanExpansion.ParsePlanSteps: starts from the result of the YAML or JSON reader, which is library code.
- Framing.ClientRead: hands over bytes; replacing malformed UTF-8 and parsing JSON text are library code.
- Policy.EvaluateWith: the verdict's reason text and matched-rule labels are not modelled.
- UsagePaging.PagedUsage: sums are unbounded, so overflow of the 64-bit totals is not modelled; transport and parse errors that abort the call are not either.
- EventStream.TaskStream.Pump: works on decoded text; the streaming decoder only withholds an incomplete character, which is a shorter prefix. The timer itself, the page reload on an expired login and the error callback are not modelled.
- PatchLines.ParsePatchLines: numbers in hunk headers are unbounded instead of doubles.
- Codec: the JSON text layer, and floats as 64-bit doubles (they are reals here).
- Control-plane store, scheduler, fencing, event ingest and leader election: not part of this model.
- Process spawning, sockets, async tasks, git and file access: plumbing around the steps modelled.
- Sealing of secrets (X25519, HKDF, AES-GCM): foreign primitives that would have to be assumed.
- Approval, deploy-environment, profile and budget tables, the external policy provider, secret-pattern rules: small tables or pattern lists that would only add easy members.
- Token and cost normalisation in the ACP methods: float rounding.
- User interface, command-line structures and SDK wrappers.
