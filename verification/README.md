# Collect-stream protocol, nftables walk and collector text: a verified model

System Explorer's collectors are small Go programs that read one request line
and write one NDJSON stream: `begin`, then per collection its `object` records
and a closing `commit` or `decline`, then `end`. A Python harness issues the
request, judges the stream (`check_stream`), compares two streams (`diff`),
mutates captured payloads to expose defects that a corpus cannot show, and
drives the daemon through one forced interleaving. This project models those
parts and proves what they promise each other.

* **Producer against judge** — `Wire`, `WireForms`, `Judge`, `JudgeValues`,
  `JudgeTheory`, `JudgeLimits`, `JudgeExamples`, `Producer`, `ProducerTheory`,
  `RunRecords`, `DockerRows`, `DockerRecords`, `Bazarr`, `BazarrRecords`, `Request`,
  `RequestForms`, `RequestTheory`, `BazarrReplay`, `Counterexamples`. The judge's loops
  are proved against one predicate of broken rules, that predicate
  against a declarative notion of a lawful stream, and the Go producer's runs
  against both: from the issued map, over the request line and the parser, to the
  verdict (`RequestTheory.Replay`, `BazarrReplay.Replay`).
* **Comparing streams** — `StreamDiff`, `DiffTheory`, `DiffMembers`.
* **nftables reachability and the differential guard** — `Document`, `NftWalk`,
  `NftPorts`, `NftSingle`, `NftMutations`, `NftOperators`, `NftMinting`,
  `NftExamples`, `NftCounterexamples`, and `Threads`, `ThreadsTheory`, `ThreadForms` for
  unbound's second thread. Each wrong port agrees with the correct walk exactly when
  its defect is not expressed; each operator expresses exactly that.
* **Documents and text** — `OrderedDict`, `JsonDecode`, `JsonText`, `JsonPrint`,
  `JsonNumbers`, `JsonTransit`, `Decimals`, `FloatRepr`, `FloatForms`, `Ports`,
  `PortLines`, `PortsCanonical`, `Sorting`, `TextOrder`, `OneLine`, `Scrub`,
  `ScrubTheory`, `Redaction`, `Reasons`, `ReasonWords`, `TextTables`,
  `TextCounterexamples`, `NameTokens`.
* **The concurrent fixture driver** — `Driver`, a transition system whose steps
  are the daemon's threads and the driver's own.

Code that computes by loops and assignments is a method, proved against a
function or predicate; what is promised is then proved about that function for
every input. I/O, clocks and library calls (the JSON tokenizer, the shortest
float digits, Python's `str`, `int` and `isdigit`, hashing, sockets) are parameters
or inputs. `Options` is the one type all modules share. What a rule or a table of the
source says is also said in its own literals, apart from the names the model gives it
(`JudgeValues`, `DiffMembers`, `PortLines`, `RunRecords`, `DockerRecords`,
`BazarrRecords`, `RequestForms`, `ThreadForms`, `TextTables`).

Where the code and its own words part, the code is modelled, the exact condition
proved, and one input given that fails it:

* `one_line` is not idempotent without conditions (`OneLine.TwiceIff`,
  `TextCounterexamples.BoundedTwice`);
* scrubbing keeps the part of a login before a question mark, unless a query open
  before it takes it whole (`ScrubTheory.ScrubForgetsIff`,
  `TextCounterexamples.LoginsApart`, `TextCounterexamples.LoginRemains`);
* the two languages write different reasons of a text that is not cut, exactly when
  one of four separators in it is not at the end of a word whose query run takes it
  (`ReasonWords.ReasonsAgreeIff`, `TextCounterexamples.ReasonsPart`);
* an accepted stream may carry objects of collections `begin` never named
  (`JudgeLimits.OrphanVerdict`, `Counterexamples.OrphanPasses`) and a commit that
  echoes 5.0 for 5 (`JudgeLimits.EchoVerdict`, `Counterexamples.EchoPasses`);
* `set` drops a null only at the top of a fact (`DockerRows.DockerRunVerdict`,
  `Counterexamples.NestedNullRefused`), and bazarr's row lifts truthy members with
  whatever is inside them (`Bazarr.BazarrRunVerdict`,
  `Counterexamples.LiftedNullRefused`);
* the second-caller operator does not ask whether its target is declared
  (`NftMinting.SecondCallerVerdict`, `NftCounterexamples.UndeclaredShowsNothing`);
* converting a jump writes over a goto of the same node, and then the correct walk
  may move (`NftOperators.CorrectWalkUnmovedIff`,
  `NftCounterexamples.OverwrittenGotoMoves`);
* a port list has one rendering unless two ports of it tie in the sort, spelled
  differently, as 0 and -0 do (`PortsCanonical.RenderedOnceIff`,
  `PortsCanonical.ZerosEitherWay`);
* the driver forces reverse acknowledgement only while the later batch ids differ
  (`Driver.ReversedIffDistinct`, `Driver.OneIdTwice`).

## Model

| member | source | states |
|---|---|---|
| `Wire.TypedEqualIsStructural` | harness/se_harness/corpus.py:782-802 | the judge's typed equality is structural equality on decoded JSON, NaN being the one value it denies |
| `Wire.TypedImpliesLoose` | harness/se_harness/corpus.py:782-802 | typed equality implies Python's own `==` |
| `WireForms.LooseIff` | harness/se_harness/replay.py:548-555 | Python's `==` holds exactly of values that are one when each bool and whole float is written as an int, at any depth, and hold no NaN |
| `Wire.NullPathsExact` | harness/se_harness/replay.py:374-398 | the reported null paths are exactly the paths that lead to a null, at any depth |
| `Wire.NullPathsEmptyIffNullFree` | harness/se_harness/replay.py:374-398 | no path is reported exactly when no null is inside |
| `Judge.CheckStream` | harness/se_harness/replay.py:401-713 | the reported problems are exactly the broken rules, and none is reported exactly when the stream is acceptable |
| `Judge.CheckHeader` | harness/se_harness/replay.py:421-491 | the begin and end record rules, neither missed nor invented |
| `Judge.CheckClosings` | harness/se_harness/replay.py:493-558 | repeated, unnamed, unissued and missing closings, exactly |
| `Judge.CheckDeclines` | harness/se_harness/replay.py:560-596 | records after a decline and absent declines without their empty commit, exactly |
| `Judge.CheckCommit` | harness/se_harness/replay.py:598-628 | one commit's count members against what the stream carried |
| `Judge.CheckRecord` | harness/se_harness/replay.py:630-687 | stamps, their order within a collection, and nulls in facts, record by record |
| `Judge.CheckEnd` | harness/se_harness/replay.py:689-713 | the cost members of end |
| `JudgeValues.BootIdVerdict` | harness/se_harness/replay.py:81-90 | the boot id is reported exactly when it is not 36 characters of hexadecimal in either case with dashes at 8, 13, 18 and 23, or all of it is zeros |
| `JudgeValues.DeclarationVerdict` | harness/se_harness/replay.py:454-465 | the declaration is reported exactly when it is not "sha256:" and something after it |
| `JudgeValues.EchoedVerdict` | harness/se_harness/replay.py:467-491 | request and batch are reported exactly when they are no text, or empty, on either side |
| `JudgeValues.StampVerdict` | harness/se_harness/replay.py:635-652 | a stamp is reported exactly when it is no int or finite float above zero and at most 1e9; a bool is neither |
| `JudgeValues.BackwardsVerdict` | harness/se_harness/replay.py:653-674 | a stamp is reported as backwards exactly when it is below the last lawful one of its collection before it |
| `JudgeValues.EndCostVerdict` | harness/se_harness/replay.py:689-703 | a cost of the end is reported exactly when it is stated and no int or finite float from zero up |
| `JudgeValues.CommitCostVerdict` | harness/se_harness/replay.py:622-628 | so is a commit's |
| `JudgeValues.WallCostVerdict` | harness/se_harness/replay.py:704-713 | a wall cost above zero is owed exactly beside objects |
| `JudgeValues.IndexVerdict` | harness/se_harness/replay.py:535-537 | a generation of begin is reported exactly when it is no whole number from zero up, bools being 0 and 1 |
| `JudgeValues.GenerationsVerdict` | harness/se_harness/replay.py:488-491 | the generations are reported exactly when they name no collection |
| `JudgeValues.CountVerdict` | harness/se_harness/replay.py:598-621 | a count of a commit is reported exactly when it is missing, or is not the int that counts the objects, assertions or unobservables of its collection |
| `JudgeValues.AbsentVerdict` | harness/se_harness/replay.py:575-587 | a decline as absent is reported exactly when no commit stands beside it, or one whose three counts are not 0 to Python |
| `JudgeExamples.Accepted` | harness/se_harness/replay.py:401-713 | one literal stream, hexadecimal of both cases in its boot id, a 71-character declaration, a collection for each ending and stamps at the bound, is accepted |
| `JudgeExamples.HeaderRefused` | harness/se_harness/replay.py:86-90 | the same stream with the nil boot id, or with a declaration of no digest, is refused for that |
| `JudgeExamples.EchoRefused` | harness/se_harness/replay.py:467-491 | with another request on its end, for that |
| `JudgeExamples.CostsRefused` | harness/se_harness/replay.py:689-713 | with a negative cost, or no wall cost, for that |
| `JudgeExamples.StampRefused` | harness/se_harness/replay.py:635-652 | with a stamp of 0, of 1000000001, a bool or none, for that |
| `JudgeExamples.BackwardsRefused` | harness/se_harness/replay.py:653-674 | with an object read before the one in front of it, for that |
| `JudgeExamples.NullRefused` | harness/se_harness/replay.py:675-687 | with a null inside a fact, for that null at its path |
| `JudgeExamples.CommitRefused` | harness/se_harness/replay.py:598-628 | with a commit of another generation, or of other counts, for that |
| `JudgeExamples.DeclineRefused` | harness/se_harness/replay.py:560-596 | with a decline as absent without its commit, or a commit beside another decline, for that |
| `JudgeTheory.AcceptsIffLawful` | harness/se_harness/replay.py:401-713 | acceptance is the declarative law: one begin and end that echo each other, the issued map, every named collection in exactly one of three endings with counts equal to what was carried, sorted stamps, no null fact |
| `JudgeTheory.CollectionForms` | harness/se_harness/replay.py:505-628 | no closing, decline or commit rule is broken exactly when every collection ends lawfully |
| `JudgeTheory.StampForms` | harness/se_harness/replay.py:635-674 | the newest-lawful-reading rule is sortedness of the whole stamp sequence |
| `JudgeLimits.AcceptedEndings` | harness/se_harness/replay.py:505-628 | in an accepted stream each named collection is served, declined or absent, and only one of these |
| `JudgeLimits.AcceptanceIgnoresInterleaving` | harness/se_harness/replay.py:401-713 | any reordering that keeps each collection's object order keeps the verdict |
| `JudgeLimits.OrphanVerdict` | harness/se_harness/replay.py:505-687 | an object of a collection begin never named leaves an accepted stream accepted exactly when its stamp is lawful and no older than that collection's last, its facts hold no null and the end states a wall cost |
| `Counterexamples.OrphanPasses` | harness/se_harness/replay.py:505-687 | one accepted stream of one such object |
| `JudgeLimits.EchoVerdict` | harness/se_harness/replay.py:548-558 | rewriting a commit's generation keeps acceptance exactly when the value is loosely equal to begin's: where that is an int, when it is the same number under any type |
| `Counterexamples.EchoPasses` | harness/se_harness/replay.py:548-558 | one accepted stream whose commit echoes 5.0 where 5 was issued |
| `Producer.Emitter.Emit` | go/cmd/se-collect-docker/collect.go:85-103 | what is handed on is logged; it reaches the writer only while nothing has failed |
| `Producer.CollectOne` | go/cmd/se-collect-docker/collect.go:181-232 | one collection's section, its exit status and the advanced object counter |
| `Producer.Collect` | go/cmd/se-collect-docker/collect.go:123-174 | the writer received the delivered part of the attempted stream; 0 is returned exactly when nothing is missing |
| `ProducerTheory.SectionEnds` | go/cmd/se-collect-docker/collect.go:181-232 | whatever the source answers, the section is one of the judge's three endings |
| `ProducerTheory.CompletedVerdict` | go/cmd/se-collect-docker/collect.go:123-232 | a completed run is accepted exactly when the readings it passed through are lawful |
| `ProducerTheory.TruncatedRefused` | go/cmd/se-collect-docker/collect.go:93-103 | every proper prefix of a run's stream, and every run that broke off, is refused |
| `ProducerTheory.CollectAndJudge` | go/cmd/se-collect-docker/collect.go:123-174 | with lawful readings, exit 0 and an empty problem list are one bit, for every request, source and write failure |
| `RunRecords.RowsTravel` | go/cmd/se-collect-docker/collect.go:213-231 | a completed run's objects of a collection are its rows in order, each under its own name, with its facts and the kind of the collection and no member more; the commit counts them |
| `RunRecords.RefusalTravels` | go/cmd/se-collect-docker/collect.go:148-202 | a refusal travels with its reason and detail, as absent beside a commit of nothing |
| `RunRecords.HeaderTravels` | go/cmd/se-collect-docker/collect.go:136-167 | begin is, member by member, the batch, the declaration, the boot, the time namespace, no instance and the generations; end the batch and the costs |
| `RunRecords.DeliveredIff` | go/cmd/se-collect-docker/collect.go:93-103 | the writer receives the stream up to the first line it does not take or that holds a float JSON cannot spell |
| `DockerRecords.EntriesTravel` | go/cmd/se-collect-docker/collect.go:203-222 | docker's objects are the entries of the document, in order, each under its Name; the facts are its members Driver, Mountpoint, Scope, Internal, the compose project of its Labels and the bridge, those missing or null left out |
| `DockerRecords.RowsState` | go/cmd/se-collect-docker/volumes.go:25-37 | a document has rows, one an entry, exactly when every entry has a name |
| `DockerRows.BuildRows` | go/cmd/se-collect-docker/volumes.go:13-38 | one row an entry in the daemon's order, or none at all where an entry has no name |
| `DockerRows.FactsCleanIff` | go/cmd/se-collect-docker/jsondoc.go:203-217 | a row is free of nulls exactly when no member passed through has one inside |
| `DockerRows.RowsCleanIff` | go/cmd/se-collect-docker/networks.go:15-42 | the same of all rows of a document |
| `DockerRows.DockerRunVerdict` | go/cmd/se-collect-docker/volumes.go:13-38 | of completed runs that ask for volumes, networks or collections not served, exactly those with lawful clocks and header over documents without nested nulls in passed members are accepted |
| `Counterexamples.NestedNullRefused` | go/cmd/se-collect-docker/jsondoc.go:203-217 | one completed run, containers served beside it, whose stream the judge refuses for a null inside a driver |
| `Bazarr.FoldStatus` | go/cmd/se-collect-bazarr/instance.go:52-71 | the truthy version members folded onto the row, or nothing where the document has no shape to fold from |
| `Bazarr.ReadHealth` | go/cmd/se-collect-bazarr/instance.go:84-123 | the app's sentences in order, bounded and scrubbed, or that the document cannot be iterated |
| `Bazarr.InstanceRow` | go/cmd/se-collect-bazarr/instance.go:137-167 | the derivation's arms give the published row |
| `Bazarr.RowArms` | go/cmd/se-collect-bazarr/instance.go:125-167 | an incomplete receipt publishes only what is missing; issue list and trouble exclude each other; no version fact is empty |
| `Bazarr.RowCleanIff` | go/cmd/se-collect-bazarr/facts.go:20-39 | a null reaches the row exactly through a lifted member that has one inside |
| `Bazarr.CleanReadingIff` | go/cmd/se-collect-bazarr/instance.go:64-70 | which is a condition on the status document |
| `BazarrRecords.FalsyIff` | go/cmd/se-collect-bazarr/jsondoc.go:90-106 | seven values are false: null, false, zero as int or float, and the empty text, list and object |
| `BazarrRecords.RowLifts` | go/cmd/se-collect-bazarr/instance.go:46-71 | the version facts are bazarr_version, sonarr_version and radarr_version of the status document, each under its own name, those missing or false left out |
| `BazarrRecords.SentenceOf` | go/cmd/se-collect-bazarr/instance.go:101-121 | a sentence is object and issue with ": " between them, or the one named, bounded at 400 and scrubbed |
| `BazarrRecords.IssuesListed` | go/cmd/se-collect-bazarr/instance.go:146-153 | the issue list is those sentences in order |
| `BazarrRecords.InstanceTravels` | go/cmd/se-collect-bazarr/instance.go:170-227 | a completed run writes one object under the name of the instance, with that row |
| `Bazarr.Collect` | go/cmd/se-collect-bazarr/collect.go:98-157 | the one-collection producer under docker's contract: 0 exactly when nothing of the attempted stream is missing |
| `Bazarr.BazarrRunVerdict` | go/cmd/se-collect-bazarr/collect.go:98-157 | a completed bazarr run is accepted exactly when its clocks and header are lawful and no lifted member has a null inside |
| `Counterexamples.LiftedNullRefused` | go/cmd/se-collect-bazarr/collect.go:98-157 | one completed run refused for a null inside a lifted version |
| `Request.ParseCollect` | go/cmd/se-collect-docker/main.go:143-172 | accepts exactly the readable token lists, giving their order and map; otherwise the first fault, with its reason |
| `Request.ReadsUnique` | go/cmd/se-collect-bazarr/main.go:140-169 | a token list stands for one order and one map |
| `Request.ParseGenerations` | harness/se_harness/emission.py:215-233 | Python's parser under any `isdigit` and `int`: the loosely readable lists and their map, last generation of a repeated name; otherwise the first fault, the ValueError that escapes told from the rest |
| `Request.GoAcceptsIff` | go/cmd/se-collect-bazarr/main.go:140-169 | Go accepts exactly what Python accepts with legal distinct names and 64-bit generations in ASCII digits, and then both read the same map |
| `RequestForms.LegalIff` | go/cmd/se-collect-docker/main.go:42-42 | a legal name is a lower-case letter and then lower-case letters, digits and dashes |
| `RequestForms.TokenCases` | go/cmd/se-collect-docker/main.go:147-163 | Go reads a token by what stands on either side of its last colon: malformed, not unsigned up to 18446744073709551615, an illegal name, or asked, in that order |
| `RequestForms.LooseCases` | harness/se_harness/emission.py:228-232 | Python the same without a bound or an illegal name |
| `RequestForms.NoColon` | harness/se_harness/emission.py:228-231 | a token without a colon is malformed to both |
| `RequestTheory.IssuanceDistinct` | harness/se_harness/replay.py:119-153 | every collection is issued a generation of its own, above 100 |
| `RequestForms.IssuedInSteps` | harness/se_harness/replay.py:152-153 | in the order of their names collections are issued a base of 103 to 99997 and steps of 17 |
| `RequestForms.IssuedLine` | harness/se_harness/replay.py:766-773 | for networks and volumes the line reads "collect networks:120 volumes:137" |
| `RequestTheory.LineSplits` | harness/se_harness/replay.py:766-773 | the rendered line splits back into the verb and the tokens |
| `RequestTheory.RequestBack` | go/cmd/se-collect-bazarr/main.go:140-169 | any non-empty map of legal names to 64-bit generations survives rendering, splitting and parsing, in name order |
| `RequestTheory.Replay` | harness/se_harness/replay.py:732-800 | issue, render, split, parse, run and judge: a bad exit is never accepted, a good one is judged on the readings alone |
| `BazarrReplay.Replay` | go/cmd/se-collect-bazarr/collect.go:98-157 | the same of bazarr's collector: after a good exit the verdict is on the clocks, the header and the nulls inside lifted members |
| `NameTokens.TwoPassesAreOne` | go/cmd/se-collect-bazarr/main.go:109-117 | the two replacement passes equal one left-to-right decoder on every string |
| `NameTokens.EncodingIsCharwise` | go/cmd/se-collect-docker/main.go:112-120 | percent first and space second encodes character by character |
| `NameTokens.TokenBack` | go/cmd/se-collect-bazarr/main.go:109-117 | decoding inverts encoding, no token holds a space, distinct names stay distinct |
| `TextTables.TokenText` | go/cmd/se-collect-bazarr/main.go:109-117 | "a b%c" travels as "a%20b%25c" |
| `StreamDiff.Diff` | harness/se_harness/replay.py:208-280 | the reported differences are exactly those between the two normalised streams |
| `StreamDiff.HashedIsLoose` | harness/se_harness/replay.py:170-205 | two scalars key one identity exactly when Python's `==` holds of them: 1, 1.0 and True do, facts by their text aside |
| `StreamDiff.CompareFacts` | harness/se_harness/replay.py:283-315 | the fact differences of one pair, moving facts compared by type only |
| `StreamDiff.IndexRecords` | harness/se_harness/replay.py:208-240 | the index holds each identity's records in stream order |
| `DiffTheory.EmptyDiffIffAgrees` | harness/se_harness/replay.py:208-315 | no difference is reported exactly when the streams agree identity by identity |
| `DiffTheory.AgreesReflexive` | harness/se_harness/replay.py:208-315 | a stream agrees with itself exactly when what is compared holds no NaN |
| `DiffTheory.AgreesSymmetric` | harness/se_harness/replay.py:208-315 | agreement is symmetric |
| `DiffTheory.AgreesTransitive` | harness/se_harness/replay.py:208-315 | agreement is transitive |
| `DiffTheory.AgreesMonotone` | harness/se_harness/replay.py:208-315 | more moving facts, no new difference |
| `DiffTheory.RunVaryingUnseen` | harness/se_harness/replay.py:52-57 | an edit confined to run-varying members that keeps begin's generation keys is not seen |
| `DiffMembers.OneMemberIff` | harness/se_harness/replay.py:52-57 | two records that differ in one member agree exactly when it is one of the twelve listed for its kind; of begin the collections asked for must be the same |
| `DiffMembers.SameIdentityIff` | harness/se_harness/replay.py:172-205 | two records are one identity exactly when record, collection, name, fact, type and the target's kind and name are equal to Python; of an assertion the facts too |
| `DiffMembers.OneFactIff` | harness/se_harness/replay.py:283-315 | two records that differ in one fact agree exactly when it is moving and of one type on both sides, and they are no assertions |
| `DiffMembers.StateSeen` | harness/se_harness/replay.py:208-280 | a container that runs and one that has exited are a difference, whenever read |
| `DiffTheory.EmptyDiffIsPermutation` | harness/se_harness/replay.py:208-315 | an empty diff means the normalised streams are permutations of each other, multiplicities included |
| `DiffTheory.PermutationIsEmptyDiff` | harness/se_harness/replay.py:208-315 | and where no identity repeats a permutation has an empty diff |
| `DiffTheory.OrderDifferences` | harness/se_harness/replay.py:318-361 | the collections whose object names, both by `str()`, come in another order, exactly |
| `DiffMembers.NamesAre` | harness/se_harness/replay.py:341-348 | the names compared are those of the collection's objects |
| `DiffTheory.OrderSeesWhatDiffCannot` | harness/se_harness/replay.py:318-361 | for streams without a difference, what order_differences can still report is an order of the same names |
| `DiffTheory.ExchangeSeen` | harness/se_harness/replay.py:156-315 | in any stream exchanging two different records of one identity is a difference, although the streams are permutations: diff is order-blind between identities only |
| `NftWalk.VerdictTargets` | conformance/fixtures/adversaries/a5_goto_blind.py:65-88 | the targets handed control anywhere in a tree, and only those |
| `NftWalk.MapReferences` | conformance/fixtures/adversaries/a5_goto_blind.py:91-107 | the named maps mentioned anywhere in a tree, and only those |
| `NftWalk.Chains` | conformance/fixtures/adversaries/a5_goto_blind.py:110-163 | the accumulate-then-join loop publishes exactly the rows of that relation |
| `NftPorts.GotoBlindIff` | conformance/fixtures/adversaries/a5_goto_blind.py:110-163 | goto-blind rows agree exactly when the jump-only reach equals the reach |
| `NftPorts.MapBlind` | conformance/fixtures/adversaries/a5_map_blind.py:84-128 | the walk without the map join publishes direct callers |
| `NftPorts.MapBlindIff` | conformance/fixtures/adversaries/a5_map_blind.py:84-128 | and agrees exactly when direct reach equals reach |
| `NftPorts.NameKeyed` | conformance/fixtures/adversaries/a5_name_keyed_reachability.py:101-156 | callers keyed by name alone: the union over all tables |
| `NftPorts.NameKeyedIff` | conformance/fixtures/adversaries/a5_name_keyed_reachability.py:101-156 | and agrees exactly when each chain's own callers equal that union |
| `NftPorts.OrderFree` | conformance/fixtures/adversaries/a5_goto_blind.py:110-163 | with unique keys, a chain's row does not depend on the order of the document's entries |
| `TextOrder.BelowIff` | conformance/fixtures/adversaries/a5_goto_blind.py:157-157 | a text comes before another exactly when it is a proper prefix of it or has the smaller character where they first differ |
| `TextOrder.SortedIs` | conformance/fixtures/adversaries/a5_goto_blind.py:157-157 | a list in that order is what sorting its elements gives |
| `NftExamples.CallersListed` | conformance/fixtures/adversaries/a5_goto_blind.py:157-161 | a chain's row lists its callers, each once, in that order |
| `NftExamples.CallersByName` | conformance/fixtures/adversaries/a5_goto_blind.py:112-161 | of one ruleset in which input and forward jump to x the row of x says forward, then input |
| `NftSingle.SingleCaller` | conformance/fixtures/adversaries/a7_replay_green_port.py:162-238 | the single-caller port's rows, one remembered caller a chain |
| `NftSingle.SingleCallerIff` | conformance/fixtures/adversaries/a7_replay_green_port.py:162-238 | agrees exactly when every chain is of a known family and has at most one caller |
| `NftExamples.KnownFamilies` | conformance/fixtures/adversaries/a7_replay_green_port.py:68-68 | of one chain that port publishes a row exactly in ip, ip6 and inet |
| `NftMutations.HandsIsRef` | harness/se_harness/differential.py:274-290 | the operators' reference list and the walk's relation are one reading of a tree |
| `NftMutations.SwapConverts` | harness/se_harness/differential.py:489-506 | the swap turns one jump reference to the target into a goto, drops those of a goto it writes over, and moves no other |
| `NftMutations.SwapMentions` | harness/se_harness/differential.py:489-506 | the map references that go are those of the goto written over, occurrence by occurrence |
| `NftMutations.SwapFinds` | harness/se_harness/differential.py:489-506 | it succeeds exactly when the tree holds such a jump |
| `NftOperators.JumpToGoto` | harness/se_harness/differential.py:509-539 | the least target that can be staged and its first rule with such a jump, and when there is none |
| `NftExamples.KeyBelowIff` | harness/se_harness/differential.py:527-527 | targets are tried in the order of family, then table, then name |
| `NftOperators.CorrectWalkUnmovedIff` | harness/se_harness/differential.py:509-539 | after it, the correct walk's rows are what they were exactly when every declared chain that a goto written over reached, by itself or through a map, is reached from the same chain by another rule, or oftener by the rule than by that goto: a condition on the document before |
| `NftOperators.CorrectWalkUnmoved` | harness/se_harness/differential.py:509-539 | so always where the converted node held no goto |
| `NftCounterexamples.OverwrittenGotoMoves` | harness/se_harness/differential.py:509-539 | one ruleset with both verbs in a node, whose correct rows move |
| `NftOperators.GotoBlindLosesTarget` | harness/se_harness/differential.py:509-539 | the goto-blind walk flips the target from jumped-from to unreferenced unless a map still reaches it, and of the others exactly those that only the goto written over reached by a jump |
| `NftMinting.MintedHandleFresh` | harness/se_harness/differential.py:258-271 | a minted handle exceeds every handle of the document |
| `NftExamples.HighestHandle` | harness/se_harness/differential.py:262-271 | the numbering goes on from the highest handle, from 0 where there is none |
| `NftExamples.SecondRuleWritten` | harness/se_harness/differential.py:468-478 | the second caller's rule is one jump under the next handle |
| `NftExamples.DispatchWritten` | harness/se_harness/differential.py:562-598 | the map, the chain and the rule, member by member, under the next three handles |
| `NftMinting.SecondCaller` | harness/se_harness/differential.py:448-486 | the least target with one caller and room for another, the least chain to be that other, and when there is none |
| `NftMinting.SecondCallerExposes` | harness/se_harness/differential.py:448-486 | of a declared target of a known family the correct walk has two callers or more while the single-caller port lists exactly the new one |
| `NftMinting.SecondCallerVerdict` | harness/se_harness/differential.py:448-486 | on a document that port reads correctly, it stays right exactly when the target is not declared and, its name being a map reference, no chain that map hands control to gets a second caller |
| `NftCounterexamples.UndeclaredShowsNothing` | harness/se_harness/differential.py:448-486 | one ruleset whose doubled target is not declared, on which the port stays right |
| `NftMinting.AddVerdictMap` | harness/se_harness/differential.py:542-599 | the document with the map, its landing chain and the dispatching rule |
| `NftMinting.VerdictMapExposes` | harness/se_harness/differential.py:542-599 | the landing chain is jumped-from to the correct walk and unreferenced to the map-blind one; no other row changes but the host's rule count |
| `Threads.SecondResolverThread` | harness/se_harness/differential.py:959-1012 | the rewriting loop under any reading of figures: the block where it goes, the raised totals, and the two refusals |
| `Threads.SecondThreadStatus` | harness/se_harness/differential.py:1014-1018 | the status document: the thread count rewritten, every other line kept |
| `Threads.ThreadShare` | conformance/fixtures/adversaries/a9_thread_share_blind.py:57-76 | every total with a thread 0 twin replaced by it |
| `ThreadForms.SummedIff` | harness/se_harness/differential.py:944-947 | averages, medians and marks are the records that are not summed |
| `ThreadForms.ShowIntIs` | harness/se_harness/differential.py:1007-1011 | a raised total is spelled in digits without leading zeros, with a minus before a negative |
| `ThreadForms.StatusLineIs` | harness/se_harness/differential.py:1014-1018 | the line that says threads before its colon becomes "threads: 2", and no other line changes |
| `ThreadsTheory.SecondThreadConserves` | harness/se_harness/differential.py:959-1012 | where `int()` reads back what `str()` writes, each summed total is afterwards thread 0 plus thread 1, and every other line is what it was |
| `ThreadForms.ThreadOneStates` | harness/se_harness/differential.py:992-1006 | thread 1 states, under each of thread 0's tails and no other, the minted figure or thread 0's |
| `ThreadForms.TotalsRise` | harness/se_harness/differential.py:1007-1011 | a total with a thread 0 twin becomes the sum of both threads unless it is an average, a median or a mark; every other line is kept |
| `ThreadsTheory.PlainReadsBack` | harness/se_harness/differential.py:959-1012 | which holds of a reader of plain decimal figures |
| `ThreadsTheory.ShareTwice` | conformance/fixtures/adversaries/a9_thread_share_blind.py:57-76 | the thread-blind reading is idempotent |
| `ThreadsTheory.ShareIsIdentityIff` | conformance/fixtures/adversaries/a9_thread_share_blind.py:57-76 | and is the identity exactly when every total equals its twin |
| `ThreadsTheory.ShareUndoesSecondThread` | conformance/fixtures/adversaries/a9_thread_share_blind.py:57-76 | on the widened document it gives back the original, the new block aside |
| `ThreadsTheory.ShareSeesIff` | harness/se_harness/differential.py:959-1012 | it differs from the correct reading exactly when some summed figure of the new thread is not zero or some raised total was not spelled as `str()` would |
| `OrderedDict.FirstPositionLastValue` | go/cmd/se-collect-bazarr/jsondoc.go:49-59 | assignments leave distinct keys, each at its first position with its last value |
| `OrderedDict.MemberList.Set` | go/cmd/se-collect-bazarr/jsondoc.go:51-59 | the list rewritten in place is the assignment |
| `OrderedDict.KeyedStore.Set` | go/cmd/se-collect-docker/jsondoc.go:55-60 | so is the order beside a map, here and in the fact row |
| `JsonDecode.Decoder.DecodeDocument` | go/cmd/se-collect-bazarr/jsondoc.go:129-145 | the decoder's loops compute the token grammar, trailing content refused |
| `JsonDecode.DecodedWellFormed` | go/cmd/se-collect-bazarr/jsondoc.go:155-204 | every decoded value has distinct keys at every depth |
| `JsonDecode.DecodeBack` | go/cmd/se-collect-docker/jsondoc.go:79-132 | decoding a document's tokens gives it back, literals and order intact |
| `JsonText.AppendQuoted` | go/cmd/se-collect-bazarr/jsondoc.go:254-292 | both string encoders' append loops |
| `JsonText.PairBack` | go/cmd/se-collect-bazarr/jsondoc.go:276-279 | above the basic plane the surrogate pair reads back as the character |
| `JsonText.QuoteBack` | go/cmd/se-collect-docker/jsondoc.go:266-289 | RFC 8259 unescaping inverts either encoder on every string |
| `JsonText.QuotedIsPlain` | go/cmd/se-collect-bazarr/jsondoc.go:254-286 | no control character survives, and bazarr's spelling is printable ASCII |
| `TextTables.EscapedForms` | go/cmd/se-collect-docker/jsondoc.go:266-289 | which characters are written as themselves, and the short escapes |
| `TextTables.EscapedWide` | go/cmd/se-collect-bazarr/jsondoc.go:274-292 | outside ASCII a character is four lower-case hexadecimal digits |
| `JsonPrint.AppendJson` | go/cmd/se-collect-bazarr/jsondoc.go:208-244 | the printers' loops |
| `JsonPrint.ValueBack` | go/cmd/se-collect-docker/jsondoc.go:223-259 | compact RFC 8259 reading of the printed text gives the document back, whatever follows |
| `JsonPrint.PrintInjective` | go/cmd/se-collect-bazarr/jsondoc.go:208-244 | the whole text is read, and no two documents share one, in either spelling |
| `JsonNumbers.NumberLiteralIff` | go/cmd/se-collect-docker/jsondoc.go:79-132 | a number literal is a sign, a whole number without leading zeros, a fraction and an exponent |
| `JsonTransit.DecodedPrintsBack` | go/cmd/se-collect-bazarr/jsondoc.go:129-244 | whatever a collector decodes from tokens with valid number literals and prints is read as the document it decoded, which decodes to itself |
| `JsonPrint.EncodeRow` | go/cmd/se-collect-bazarr/facts.go:59-70 | a row of printed tokens travels as the object of its facts |
| `JsonPrint.PrintIsOneLine` | go/cmd/se-collect-bazarr/jsondoc.go:208-244 | a printed document never breaks the line its record travels on |
| `FloatRepr.ReprKeepsValue` | go/cmd/se-collect-bazarr/python.go:148-202 | the text's decimal value is that of the sign, digits and exponent, in all four layouts |
| `FloatRepr.ReprShape` | go/cmd/se-collect-bazarr/python.go:176-191 | never an integer literal, and fixed notation exactly when the point lies in (-4, 16] |
| `FloatForms.IntegerIff` | go/cmd/se-collect-bazarr/jsondoc.go:108-110 | an integer literal is one without a point, an e or an E |
| `TextTables.ExponentForm` | go/cmd/se-collect-bazarr/python.go:193-202 | an exponent is a sign and at least two digits, padded only to two |
| `FloatForms.ValidIff` | go/cmd/se-collect-bazarr/python.go:157-165 | the digits are decimal and only a lone zero starts with zero |
| `FloatForms.FixedIff` | go/cmd/se-collect-bazarr/python.go:172-191 | fixed notation is for exponents from -4 to 15, and for zero |
| `FloatForms.ReprValue` | go/cmd/se-collect-bazarr/python.go:148-191 | the text is worth its digits, the point after the first, times ten to the exponent |
| `TextTables.ZeroText` | go/cmd/se-collect-bazarr/python.go:172-175 | zero is "0.0" whatever exponent it came with |
| `Ports.PortMappings` | go/cmd/se-collect-docker/containers.go:247-324 | the first fault, or each kept claim and each offered port once, keys in numeric order, published first |
| `Ports.RenderPublished` | go/cmd/se-collect-docker/containers.go:311-319 | every claim but a "::" one with a 0.0.0.0 twin, once and in order |
| `PortLines.PublishedLine` | go/cmd/se-collect-docker/containers.go:256-317 | an entry with both ports is one line: its IP, bracketed where it holds a colon, its PublicPort, its PrivatePort and its Type, 0.0.0.0 and tcp standing in |
| `PortLines.ExposedLine` | go/cmd/se-collect-docker/containers.go:270-277 | without a PublicPort it is its PrivatePort and Type, marked as exposed |
| `PortLines.NoLine` | go/cmd/se-collect-docker/containers.go:261-264 | without a PrivatePort it is no line |
| `PortLines.LineOfEntry` | go/cmd/se-collect-docker/containers.go:256-322 | in any list every line is one entry's |
| `PortLines.EntryHasLine` | go/cmd/se-collect-docker/containers.go:256-322 | and every entry has its line, but for an IPv6 wildcard |
| `PortLines.TwinDropped` | go/cmd/se-collect-docker/containers.go:311-314 | which beside the wildcard of IPv4 is no line of its own |
| `PortLines.PublishedInOrder` | go/cmd/se-collect-docker/containers.go:298-300 | published lines come by container port, protocol, host port and address |
| `PortLines.OffersByPort` | go/cmd/se-collect-docker/containers.go:301-309 | exposed ones by port and protocol |
| `PortLines.RefusedIff` | go/cmd/se-collect-docker/containers.go:341-353 | a list is refused exactly when a stated port of it is no whole number of 64 bits |
| `PortLines.ParseIntIff` | go/cmd/se-collect-docker/containers.go:348-351 | that is an optional sign and decimal digits from -9223372036854775808 to 9223372036854775807 |
| `PortsCanonical.CanonicalForm` | go/cmd/se-collect-docker/containers.go:247-324 | with whole-number tokens other than "-0" the lines depend only on the figures claimed |
| `PortsCanonical.OrderAndRepetitionUnseen` | go/cmd/se-collect-docker/containers.go:243-246 | so permuting or repeating entries changes nothing |
| `PortsCanonical.OneSpelling` | go/cmd/se-collect-docker/containers.go:341-353 | away from "-0" a figure has one spelling |
| `PortLines.PlainIff` | go/cmd/se-collect-docker/containers.go:341-353 | such a token is a figure as it is usually spelled |
| `PortsCanonical.RenderedOnceIff` | go/cmd/se-collect-docker/containers.go:298-324 | a list of ports has one rendering exactly when no two of its offers, and no two of its kept claims, tie in the sort under different spellings |
| `PortsCanonical.ZerosEitherWay` | go/cmd/se-collect-docker/containers.go:301-309 | one list of two entries with two renderings |
| `Sorting.SortSlice` | go/cmd/se-collect-docker/containers.go:298-309 | some list in order, nothing promised between elements the order cannot tell apart |
| `Sorting.SortSet` | go/cmd/se-collect-docker/containers.go:355-362 | the one ascending list of a set |
| `OneLine.FlatAgreesIff` | src/system_explorer/text.py:44-44 | Go and Python collapse a text alike exactly when it holds none of the four separators only Python splits at |
| `OneLine.OneLineAgrees` | go/cmd/se-collect-bazarr/python.go:213-230 | then the two bounding functions are one |
| `OneLine.HeadsAgree` | src/system_explorer/text.py:44-48 | partition at the last space and cut at its index keep the same head |
| `OneLine.BoundedShape` | src/system_explorer/text.py:38-48 | at most the limit plus 14; unless unchanged, flat text cut at a word boundary, trimmed and marked |
| `OneLine.TwiceIff` | src/system_explorer/text.py:38-48 | when bounding a bounded text changes nothing, exactly |
| `TextTables.SpaceIff` | src/system_explorer/text.py:44-44 | the characters either language splits at |
| `TextTables.DanglingIff` | src/system_explorer/text.py:35-35 | the characters trimmed before the marker |
| `TextTables.CutMarked` | src/system_explorer/text.py:38-48 | one text with its marker |
| `TextCounterexamples.BoundedTwice` | src/system_explorer/text.py:38-48 | one text that is marked a second time |
| `Scrub.StripQueryStrings` | go/cmd/se-collect-bazarr/python.go:250-271 | the scan equals the leftmost-greedy substitution |
| `Scrub.StripUserinfo` | go/cmd/se-collect-bazarr/python.go:283-305 | so does the scan from "://" to "://", lookbehind included |
| `TextTables.StopIff` | go/cmd/se-collect-bazarr/python.go:273-313 | the characters that end a query string or a login, in either language |
| `TextTables.AddressScrubbed` | src/system_explorer/text.py:91-100 | one address with a login and a query string, each gone for its word |
| `ScrubTheory.QueryForgets` | src/system_explorer/text.py:71-71 | one query string or another, the output is the same |
| `ScrubTheory.UserForgets` | src/system_explorer/text.py:77-77 | one userinfo or another, the output of its pass is the same |
| `ScrubTheory.ScrubForgets` | src/system_explorer/text.py:99-100 | scrubbing forgets a userinfo without a question mark, wherever it stands |
| `ScrubTheory.ScrubForgetsIff` | src/system_explorer/text.py:99-100 | a login, in any text, is forgotten exactly when a query open before it takes it whole or it holds no question mark |
| `TextCounterexamples.LoginsApart` | src/system_explorer/text.py:99-100 | two logins, one with a question mark, that are told apart |
| `TextCounterexamples.LoginRemains` | src/system_explorer/text.py:99-100 | whose part before the question mark is kept |
| `ScrubTheory.ScrubTwice` | go/cmd/se-collect-bazarr/python.go:242-244 | scrubbing a scrubbed text changes nothing, nor does either pass alone |
| `Redaction.ScrubRedacts` | src/system_explorer/text.py:71-100 | whatever either pattern still matches in a scrubbed text is the word put there |
| `Reasons.QueryAgreesIff` | go/cmd/se-collect-bazarr/python.go:273-279 | the two languages' query passes agree exactly when no query run holds whitespace only Python knows |
| `Reasons.GoScrub` | go/cmd/se-collect-bazarr/python.go:242-244 | the two scans in turn |
| `Reasons.ReasonSettles` | go/cmd/se-collect-bazarr/python.go:315-320 | whatever the text and limit, a reason has no whitespace but plain spaces, no query string and no login but the words, and nothing left to scrub |
| `Reasons.ReasonText` | go/cmd/se-collect-bazarr/python.go:318-320 | the method gives that reason, fit to be shown |
| `Reasons.ReasonsAgree` | src/system_explorer/agent/envelope.py:92-99 | because bounding comes first, the two languages' reasons agree on every text without the four separators |
| `ReasonWords.ReasonsAgreeIff` | src/system_explorer/agent/envelope.py:92-99 | and of any text that is not cut exactly when every separator ends a word of Go's and is taken by that word's query run |
| `TextCounterexamples.ReasonsPart` | src/system_explorer/agent/envelope.py:92-99 | one text whose two reasons differ |
| `TextCounterexamples.ReasonsMeet` | src/system_explorer/agent/envelope.py:92-99 | one text with a separator and one reason |
| `Driver.GenerationsInOrder` | harness/collator/driver.py:1159-1206 | in every interleaving generations are issued in stream order |
| `Driver.BatchesInReverse` | harness/collator/driver.py:1159-1206 | with later batch ids distinct, batches are acknowledged last first in every interleaving |
| `Driver.ReversedIffDistinct` | harness/collator/driver.py:1185-1206 | the schedule forces that order exactly when no id after the first stream's repeats |
| `Driver.OneIdTwice` | harness/collator/driver.py:1185-1206 | three streams of two ids, and a run that acknowledges them in another order |
| `Driver.MeasureDecreases` | harness/collator/driver.py:560-594 | every step of every run uses one of finitely many |
| `Driver.NeverStuck` | harness/collator/driver.py:560-594 | in every unfinished state that keeps the invariants some thread can move |
| `Driver.RunNeverStuck` | harness/collator/driver.py:560-594 | so every unfinished run can go on, whatever ids repeat |
| `Driver.FinishedIsComplete` | harness/collator/driver.py:1185-1206 | a finished run acknowledged every batch |

## Left out

- Judge.Collection: a collection that is not a string is keyed by its value, not by its `str()`; two values with one spelling are kept apart.
- StreamDiff.KeyOf: a record whose identity holds a list or an object, or whose facts or target is neither an object nor missing, crashes the original and is compared here; two NaN are one key here and two there.
- StreamDiff.Requested: the sorted list of begin's generation keys is modelled as their set.
- Producer.DockerAnswer: the row builder is any function; the containers builder (timestamps, the exit-code pattern) is not modelled beyond its port mappings.
- Producer.Delivered: a writer that fails takes whole records or none; a record cut in the middle of its line is not modelled.
- DockerRows.BridgeInterface: the twelve-byte cut is taken in characters; docker ids are ASCII.
- NftMutations.Swap: the nested tree is rewritten as a value; the original pops and assigns in place.
- NftSingle.SingleRows: the original's iteration over a set leaves the order of joins open; every outcome it allows is covered.
- NftMinting.AddVerdictMap: the minted names are parameters, required to be unused.
- Threads.Line: keys and values are split beforehand; a trailing newline is kept by the caller.
- RequestTheory.Replay: takes maps a request can carry; a map that is empty or names an illegal collection is refused by the parser, as `Request.ParseCollect` says, and no run follows.
- Reasons.ReasonsAgree: one direction only, for text that is cut: the two languages then keep different words, and a separator may have gone with the rest; `ReasonWords.ReasonsAgreeIff` is exact where nothing is cut.
- Driver.FinishedIsComplete: asks that no batch id repeats, the first stream's included; otherwise the driver may stop waiting early.
- Request.ParseCollect: the request's byte bound is not modelled.
- JsonDecode.More: the tokenizer's own refusals (commas, colons, mismatched brackets) happen before these tokens are delivered.
- JsonPrint.ReadValue: reads the compact form the printers write; optional whitespace is not accepted.
- FloatRepr.Layout: the shortest digits and the exponent are inputs; NaN and the infinities have words of their own.
- Driver.Start: one round per collector; time limits, sockets and error lists are not modelled.
- The wording and order of problem and difference messages.
- Reasons.PyScrub: the substitution of secrets from the environment.
- The Go collator, store and hub; SQLite, HTTP, sockets and temporary directories.
- Bazarr.Sentence: Python's `str()` of a value is a parameter; facts are kept as values, their printed tokens being `JsonPrint.EncodeRow`'s.
- The Python reference emitter's record building, anchor validation and corpus coverage.
- a5's table rows, a7's pool rows and the other adversary fixtures: payload rewriters around a reference that is not part of this model.
- Regular expression engines, `strconv` digit search and JSON lexing are libraries; the patterns are specified as greedy runs.
