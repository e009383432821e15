# The EMES event pipeline in Dafny

Kaysentinel turns the hooks of a running Ethereum client into certificates about account state. A
tracer collects hooks into an EMES event stream; Gate 1 checks the stream's structure; the bridge
drops what reverted call frames did and emits canonical semantic events (CSE); the builder groups
those events by transaction and by state cell, reduces each cell's history, resolves account
generations and assembles certificates; Gate 2 replays the same events independently and compares.
Certificates are committed to with domain-separated hashes, Merkle folds and fixed SSZ layouts.

This project models each stage as the source writes it (loops and objects as methods and classes,
proved equal to functions) and proves what the stages promise each other. The main results:

* Gate 1 accepts exactly the streams of a declarative grammar; a fresh tracer produces such a stream,
  with an empty error log, exactly when its hooks are well nested, and then tags a mutation with the
  sentinel exactly if no frame is open.
* A stream Gate 1 accepts, whose mutations name their innermost frame and whose frames fit in 32
  bits, is always translated, and the translation is the events no reverted frame encloses, in order.
  For any stream it is decided when the bridge keeps the input order: exactly if no frameless mutation
  follows a surviving framed one inside a root frame, and likewise cell by cell.
* The bridge agrees with execution under a journal that undoes reverted frames in reverse order, so
  the reduced table of every transaction of a block takes the state before it to the state after it,
  also when mutations outside transactions move the state in between; and with a source of pre-states
  every certificate is the account's post-state.
* Gate 2's fold and the builder's reduction are compared exactly, on any stream: the builder reduces it,
  with persistent cells written after their account's first event starting from zero, exactly if the
  fold is silent and the transient and refund timelines it does not read have no gaps. Gate 2's whole
  verdict on the builder's own certificates is decided, storage roots included, for any hash function;
  the two disagree on accounts written in transient storage only.
* The two certificate builders agree in value and in error; canonicalization is idempotent, and the
  inputs on which it does not depend on their order are characterised exactly; exchanging neighbouring
  events of different cells leaves a bucket as it is; trace contexts never reach a certificate.
* Every stage's contents and errors are tied to its input alone: the collector's events hook by hook,
  self-destructs included; each emitted event's fields, frame, block and transaction; the generation a
  certificate carries; collisions and schema faults; the first error of Gate 1, the bridge, the
  validator, the partition, the reduction and the builders; and every iteration order, byte by byte.
* Encoders and decoders are mutual inverses with exact decoding conditions; the level-by-level Merkle
  fold is the perfect tree's root; two folds of any sizes with one root meet at the level as wide as
  the shallower one, or exhibit a hash collision, so among inputs of one tree depth a root determines
  them up to trailing zeros, and a batch commitment determines the certificate map, whatever the two
  numbers of certificates, unless a collision or an input hashing to the zero word is exhibited.

## Reading order

| file | content |
|---|---|
| `Primitives`, `Ordered` | bytes, words, addresses; maps iterated in key order |
| `Emes`, `FrameTree`, `Gate1`, `Tracer` | raw events, frame trees, the recogniser, the collector |
| `Reading`, `Faults`, `Account` | what a stream or a list of hooks says by itself, Gate 1's errors, the collector's contents |
| `Cse`, `Bridge`, `BridgeLaws`, `Lanes`, `Journal` | canonical events and their validator, the translation, its meaning, rollback |
| `Origins`, `Lifespans`, `StreamFaults` | where the bridge's events come from, its creations and destructions, errors on streams |
| `Timeline`, `Keys`, `Partition`, `ReduceIr` | per-cell histories, buckets, reduction |
| `Lifecycle`, `Sorting`, `Canonicalize` | generations, stable sort and dedup, the canonicalization pass |
| `Certificates`, `Commitments`, `Merkle`, `StorageRoots` | both certificate builders, hashing, folds, storage roots |
| `Ssz`, `Chunks`, `CertificateCodec` | wire formats, chunking, batch commitments |
| `Iteration`, `Diagnoses`, `Identities`, `Reports` | iteration orders, diagnostics, identities in certificates, Gate 2's report |
| `Gate2`, `Gate2Laws`, `Pipeline`, `Passes`, `EndToEnd`, `Isolation` | replay, its agreement with the builder, the composed pipeline |

Modelling conventions. A `BTreeMap` is a `map` whose iteration order is the increasing list of its
keys. Addresses and words are byte strings of length 20 and 32. The hash function is an arbitrary
function from byte strings to words; nothing is assumed about it, and binding statements return the
two clashing inputs, which are among the inputs the two computations hashed. Snapshot sources are
pure functions. A reduced value's variant is implied by its key. Provenances are compared in all their
coordinates, where the source's equality (`runtime/builder/src/ir/timeline.rs:24-29`) looks at the trace
ordinal only, so statements that two results are equal say more here. For the exact condition under
which canonicalization forgets its input order this makes the "only if" half say less: results that
differ in frame coordinates only, which the source calls equal, count as different.

Where the code and its documentation differ the code is followed: the validation and buffering notes
under `docs/emes` call the T1 root-frame rule and the bridge unimplemented, but
`validation/gate1.go:119-124` and `runtime/bridge/src/translate.rs:76-213` implement them.

## Model

| member | source | states |
|---|---|---|
| Gate1.VerifyGate1Invariants | validation/gate1.go:40-166 | The one-pass recogniser returns no error exactly on streams of the grammar, and otherwise the error and index of the step-by-step specification |
| Gate1.VerdictDecides | validation/gate1.go:40-166 | Acceptance is the grammar: sequences strictly increasing from 0, BlockStart, loose mutations and complete transactions, BlockCommit; in each transaction balanced frames, at most one root, correct parents, and TransactionEnd.Reverted equal to the root's flag |
| Gate1.VerdictIsFollow | validation/gate1.go:44-158 | Gate 1 is the sequence check together with a finite-control stack automaton on event bodies |
| Gate1.FollowDecides | validation/gate1.go:79-158 | That automaton accepts exactly the words that unfold a structure of the grammar |
| Gate1.FinalCheckUnreachable | validation/gate1.go:161-165 | On a stream that ends with BlockCommit the loop, run from any index and state, never ends inside a transaction, so the check after it cannot fire and the verdict is the loop's |
| Faults.VerdictNames | validation/gate1.go:40-166 | The error is that of the first event that breaks a rule, judged by the events before it alone, and names the first rule in precedence it breaks; before that, a stream that does not run from a BlockStart numbered 0 to a BlockCommit |
| Gate1.TagsAgree | validation/gate1.go:79-158 | Naming the innermost open frame can be read off the stream or off its structure, with the same result |
| FrameTree.ParseDecides | validation/gate1.go:127-157 | A stream has at most one frame structure and parsing finds it exactly when there is one |
| Tracer.Tracer.constructor | tracer/kaysentinel_tracer.go:71-79 | A new collector is in the fresh state |
| Tracer.Tracer.LogError | tracer/kaysentinel_tracer.go:92-99 | Logging appends one record with the current sequence and changes nothing else |
| Tracer.Tracer.EmitEvent | tracer/kaysentinel_tracer.go:105-113 | Emitting stamps the counter, appends, and aborts when the 64-bit counter wraps |
| Tracer.Tracer.OnBlockStart | tracer/kaysentinel_tracer.go:127-137 | Clears events and log, not the counter, and emits BlockStart |
| Tracer.Tracer.OnBlockEnd | tracer/kaysentinel_tracer.go:139-146 | Emits BlockCommit |
| Tracer.Tracer.OnTxStart | tracer/kaysentinel_tracer.go:148-168 | Restarts frame ids, clears the frame stack and emits TransactionStart |
| Tracer.Tracer.OnTxEnd | tracer/kaysentinel_tracer.go:170-181 | Emits TransactionEnd with the revert status, logs unclosed frames, clears stack and pending self-destructs |
| Tracer.Tracer.OnEnter | tracer/kaysentinel_tracer.go:183-204 | Pushes a frame with the next id under the current frame and emits FrameEnter |
| Tracer.Tracer.OnExit | tracer/kaysentinel_tracer.go:206-217 | Pops the innermost frame and emits its FrameExit, or logs an exit without a frame |
| Tracer.Tracer.OnBalanceChange | tracer/kaysentinel_tracer.go:221-238 | Emits the mutation tagged with the innermost frame, then the self-destruct pending for that frame if the reason asks for it |
| Tracer.Tracer.OnNonceChangeV2 | tracer/kaysentinel_tracer.go:240-243 | Emits the tagged nonce mutation |
| Tracer.Tracer.OnCodeChangeV2 | tracer/kaysentinel_tracer.go:245-253 | Emits the tagged code mutation and remembers a self-destructed address for its frame |
| Tracer.Tracer.OnStorageChange | tracer/kaysentinel_tracer.go:255-258 | Emits the tagged storage mutation |
| Tracer.HookStep | tracer/kaysentinel_tracer.go:105-258 | Every hook keeps the invariant that ties the collector's stack, counter and log to Gate 1's automaton state |
| Tracer.RunKeeps | tracer/kaysentinel_tracer.go:105-258 | The invariant holds after every run of hooks |
| Tracer.FreshRunDecides | tracer/kaysentinel_tracer.go:105-258 | A fresh collector's stream passes Gate 1 with an empty log exactly if the hooks form one well-nested block with at most one root frame per transaction and a matching revert status; then every mutation carries the innermost open frame, and the sentinel exactly if none is open |
| Tracer.SentinelMeansNoFrame | tracer/kaysentinel_tracer.go:115-120 | However a fresh collector is driven, the tag it would give is the sentinel exactly if it has no open frame |
| Tracer.RunSmall | tracer/kaysentinel_tracer.go:183-204 | The frames of a well-nested run fit in 32 bits exactly if no transaction opens more than 2^32 frames and every depth fits |
| Tracer.FewHooksSmall | tracer/kaysentinel_tracer.go:183-204 | In particular if there are at most 2^32 hooks and their depths lie between 0 and 2^32 - 1 |
| Account.RunTold | tracer/kaysentinel_tracer.go:105-258 | After any hooks, a fresh collector has recorded, hook by hook, the events that hook reports with its own address, slot, Before and After, the frame open there and consecutive numbers; its log and open frames are told from the hooks, too |
| Account.WaitingMeans | tracer/kaysentinel_tracer.go:228-253 | A balance hook is followed by a SelfDestruct of the account named by the latest self-destructing code hook of its frame, unless a self-destructing balance hook of that frame or a transaction end has come in between |
| Account.OverflowTold | tracer/kaysentinel_tracer.go:92-113 | A collector aborts exactly on the hook whose events can no longer be numbered in 64 bits, logging the overflow with the frame open there |
| Tracer.SecondBlockRejected | tracer/kaysentinel_tracer.go:127-137 | A collector that has emitted anything never produces another block Gate 1 accepts, because the counter is not reset |
| Tracer.PanicNeedsFullCounter | tracer/kaysentinel_tracer.go:105-113 | The overflow abort needs a counter within two per hook of its maximum |
| Cse.CseValidator.constructor | runtime/cse/src/validator.rs:11-16 | A new validator expects sequence 0 outside a transaction |
| Cse.CseValidator.ValidateAndAdvance | runtime/cse/src/validator.rs:18-53 | Payload, sequence and envelope checks in this order; the state advances on success and is unchanged on failure |
| Cse.CseValidator.Reset | runtime/cse/src/validator.rs:55-58 | Back to the initial state |
| Bridge.AppendMutation | runtime/bridge/src/translate.rs:216-263 | Where a mutation goes (transaction output, top frame buffer) and with which trace, or which error it raises |
| Bridge.Translate | runtime/bridge/src/translate.rs:76-214 | The loop over events with frame buffers and in-place renumbering returns what the step function returns |
| Bridge.RunForest | runtime/bridge/src/translate.rs:122-149 | Reading a balanced run of frames has the recursive meaning of its tree, in any machine state, or fails exactly when a mutation cannot be stamped |
| Bridge.TranslateDecides | runtime/bridge/src/translate.rs:76-214 | Translation succeeds exactly on well-nested streams whose tagged mutations sit in frames with 32-bit coordinates, and then yields the tree meaning, renumbered |
| Origins.TranslateComes | runtime/bridge/src/translate.rs:97-263 | Every event of a translation comes from one event of the stream: it reports that event's own fields, in the frame open there, the latest block number, and the latest transaction's hash and index modulo 2^32 |
| Origins.TranslateFaults | runtime/bridge/src/translate.rs:97-263 | Translation fails exactly with the first fault of the stream, each judged by the events before it alone |
| BridgeLaws.OrderKeptExactly | runtime/bridge/src/translate.rs:122-149 | A transaction's output is the input-order sequence of its survivors unless a frameless mutation follows a surviving framed one inside a root frame; and if no frame carries the coordinates that mark frameless events, exactly then |
| BridgeLaws.BlockOrderKeptExactly | runtime/bridge/src/translate.rs:97-149 | The same exact condition for whole blocks |
| BridgeLaws.OutputSameEvents | runtime/bridge/src/translate.rs:122-149 | Whatever the order, the output holds the survivors as a multiset |
| Lanes.LaneKeptExactly | runtime/bridge/src/translate.rs:122-149 | The exact order condition for one cell, lifecycle address, log address or the gas refund alone |
| Lanes.HarmlessOvertaking | runtime/builder/src/partition.rs:38-110 | If no frameless mutation overtakes a framed one recorded in the same place, the output is recorded in the same bucket as the survivors in input order |
| BridgeLaws.FramelessOvertakes | runtime/bridge/src/translate.rs:253-256 | A smallest stream of the failing family: a frameless mutation overtakes its frame's buffer |
| BridgeLaws.TranslateIsSurvival | runtime/bridge/src/translate.rs:97-149 | Every successful translation of a block is its output, renumbered; it is the transactions' survivors between Begin and End exactly if no frameless mutation overtakes a framed one (frames being distinguishable from frameless events) |
| BridgeLaws.Gate1LeavesOnlyStamping | runtime/bridge/src/translate.rs:97-148 | On accepted streams translation can only fail on a mutation that cannot be stamped |
| BridgeLaws.Gate1MakesBridgeTotal | runtime/bridge/src/translate.rs:97-148 | Gate 1, truthful tags and 32-bit frames make the bridge succeed, in input order |
| BridgeLaws.ValidatorAcceptsEnvelopes | runtime/cse/src/validator.rs:18-53 | A densely numbered, enveloped stream passes the validator exactly if each payload is valid alone |
| StreamFaults.ValidatorNames | runtime/cse/src/validator.rs:18-53 | A reset validator rejects a stream exactly with its first faulty event's error: the payload's before the number's before the place's |
| BridgeLaws.TranslateWellFormed | runtime/bridge/src/translate.rs:206-212 | A successful translation is numbered 0 to n-1, lies inside Begin/End envelopes, and passes a reset validator exactly if no payload is a no-op or null deployment |
| Journal.UndoRestores | runtime/bridge/src/translate.rs:139-148 | Undoing in reverse what a run of frames left in the journal restores the state it started from |
| Journal.PlayForest | runtime/bridge/src/translate.rs:122-149 | Journaled execution with rollback computes the meaning in which a reverted frame leaves no effect, and stops exactly where that does |
| Journal.SurvivorsReplay | runtime/bridge/src/translate.rs:129-149 | At any depth, the survivors of a run of frames take the state to the rolled-back outcome |
| Journal.ReplayDecides | runtime/builder/src/ir/timeline.rs:105-130 | A stream can be applied to a state exactly if every cell's history is continuous and starts from that cell's content, whatever the order between cells |
| Journal.OutputReplays | runtime/bridge/src/translate.rs:129-149 | Applying a transaction's output in order ends in the state of the rolled-back execution, if no frameless write sits in a reverted frame or overtakes a framed one to its own cell |
| Journal.HistoryBridges | runtime/builder/src/ir/timeline.rs:105-130 | Every cell's history in a replayable stream is continuous from its first content to its last |
| Journal.ReplayableReduces | runtime/builder/src/reduce.rs:7-36 | A replayable stream's bucket reduces; a cell is listed exactly if written, from its content before to its content after |
| Journal.RollbackRefinement | runtime/bridge/src/translate.rs:122-149 | For a transaction executed correctly by a journaled machine that reads the raw changes, translation, partition and reduction lose nothing: terminal values are the machine's final state and unlisted cells are unchanged |
| Lifespans.OutputTells | runtime/bridge/src/translate.rs:185-203 | A transaction's lifecycle observations at an address are its surviving AccountCreated and SelfDestruct changes there, with their creators and beneficiaries, in input order unless a frameless one overtakes a framed one |
| Timeline.ReduceTimeline | runtime/builder/src/ir/timeline.rs:105-130 | The reduction loop returns what the recursive reduction returns |
| Timeline.ReduceMeans | runtime/builder/src/ir/timeline.rs:105-130 | A reduction is the first Before, last After and all event ids of a continuous timeline, or names the two events around the first break, or rejects an empty timeline |
| Timeline.ReduceComposes | runtime/builder/src/ir/timeline.rs:105-130 | Reducing a concatenation composes the reductions, or reports the break between or inside them |
| Keys.KeyOrder | runtime/builder/src/ir/timeline.rs:55-62 | Canonical keys are strictly and totally ordered by variant, address and slot |
| Iteration.TableKeysInOrder | runtime/builder/src/ir/timeline.rs:55-62 | State cells are visited by variant (balances, nonces, code, storage, transient), then address, then slot, byte by byte, each once |
| Iteration.AddressesInOrder | runtime/builder/src/lifecycle/hydration.rs:89-90 | Addresses are visited in byte order, each once |
| Partition.Process | runtime/builder/src/partition.rs:6-125 | The partitioning loop returns the recursive partition, error cases included |
| Partition.BucketHolds | runtime/builder/src/partition.rs:38-110 | A bucket's tables list exactly the keys, addresses and logs with a non-empty history, and that history in stream order |
| Partition.InterleavingInvariance | runtime/builder/src/partition.rs:38-110 | Streams with the same events in the same order per cell, lifecycle address, log address and gas refund give the same bucket, however they interleave |
| Partition.SwapKeepsLanes | runtime/builder/src/partition.rs:38-110 | One such exchange keeps the order within every cell, lifecycle address, log address and the gas refund |
| Partition.ExchangesKeepBucket | runtime/builder/src/partition.rs:38-110 | Any number of exchanges of neighbouring events that are not recorded in one place leaves the bucket as it is |
| Partition.PartsTransaction | runtime/builder/src/partition.rs:13-36 | A complete transaction at the head of a stream is one bucket with that transaction's histories |
| Partition.PartsDecides | runtime/builder/src/partition.rs:13-36 | Partitioning succeeds exactly on enveloped streams, with one bucket per Begin |
| StreamFaults.PartsFails | runtime/builder/src/partition.rs:13-36 | Partitioning fails exactly with the first misplaced event's error, or with an unexpected boundary if the stream ends inside a transaction |
| StreamFaults.ObservationsMean | runtime/builder/src/partition.rs:83-135 | An address's lifecycle observations are the creations and destructions of the stream, each with its event's number, transaction index and frame coordinates |
| ReduceIr.ProcessTable | runtime/builder/src/reduce.rs:10-24 | Reduces every timeline in key order and fails with the first failing key's error |
| ReduceIr.ProcessBucket | runtime/builder/src/reduce.rs:9-34 | Reduces the tables and the gas refund of one bucket |
| ReduceIr.Process | runtime/builder/src/reduce.rs:7-36 | Reduces every bucket in order and stops at the first failure |
| ReduceIr.ReduceTableDecides | runtime/builder/src/reduce.rs:10-24 | A table reduces exactly if all its timelines are non-empty and continuous, keeping its keys |
| Iteration.TableFails | runtime/builder/src/reduce.rs:10-24 | A table fails to reduce exactly with the error of its first cell, in order, whose timeline does not |
| Iteration.BucketFails | runtime/builder/src/reduce.rs:9-34 | A bucket fails with that error, else with its gas refund's |
| Iteration.BucketCarries | runtime/builder/src/reduce.rs:26-33 | Reduction carries metadata, lifecycle observations and logs over unchanged |
| Iteration.ReduceAllMeans | runtime/builder/src/reduce.rs:7-36 | The buckets' reductions come in order, or the first failing bucket's error |
| Lifecycle.ResolveAddress | runtime/builder/src/lifecycle/resolve.rs:36-82 | The loop over one address's observations yields the recursive generations and collision diagnostics |
| Lifecycle.ResolveTable | runtime/builder/src/lifecycle/resolve.rs:15-95 | All addresses in order: pre-states, generations and diagnostics |
| Diagnoses.ResolveMeans | runtime/builder/src/lifecycle/resolve.rs:15-95 | One pre-state (a, 0) per address in byte order, flagged exactly if the address existed before; the diagnostics are a collision for each creation before the first destruction of such an address, in order |
| Diagnoses.ResolveReports | runtime/builder/src/lifecycle/resolve.rs:38-60 | A diagnostic is reported exactly if it is Collision(a, 0) at a creation of an address that existed before and that no destruction precedes |
| Diagnoses.GenerationsByPosition | runtime/builder/src/lifecycle/resolve.rs:28-82 | An address's generations position by position: the n-th destruction ends generation n, which began at the observation before it; after a creation one more is open |
| Lifecycle.PairedMeans | runtime/builder/src/lifecycle/resolve.rs:36-82 | The recursive pairing condition says that every destruction directly follows a creation |
| Lifecycle.AddressIntervals | runtime/builder/src/lifecycle/resolve.rs:36-82 | One address's intervals are valid exactly if every destruction directly follows a creation |
| Sorting.SortSorts | runtime/builder/src/lifecycle/canonicalize.rs:23-40 | The sort puts every pair in order |
| Sorting.SortPermutes | runtime/builder/src/lifecycle/canonicalize.rs:23-40 | The sort keeps the multiset of elements |
| Sorting.SortIsStable | runtime/builder/src/lifecycle/canonicalize.rs:23-40 | Elements the order does not distinguish keep their relative order |
| Sorting.SortIsUnique | runtime/builder/src/lifecycle/canonicalize.rs:23-40 | Any sorted rearrangement that keeps the order of tied elements is this one, so the standard library's algorithm does not matter |
| Sorting.CanonicalIdempotent | runtime/builder/src/lifecycle/canonicalize.rs:23-40 | Sort then dedup is a projection onto sorted, neighbour-free sequences |
| Sorting.CanonicalForgetsOrder | runtime/builder/src/lifecycle/canonicalize.rs:23-40 | Sort then dedup gives one result for every rearrangement of a list exactly if different elements the order ties are all dropped, because they directly follow elements with their key |
| Canonicalize.VerifyBalances | runtime/builder/src/lifecycle/canonicalize.rs:101-112 | Balance facts that refer to no generation |
| Canonicalize.VerifyPairs | runtime/builder/src/lifecycle/canonicalize.rs:115-152 | Ordering and disjointness of neighbouring generations |
| Canonicalize.VerifyGlobalSchema | runtime/builder/src/lifecycle/canonicalize.rs:63-155 | The report says exactly whether keys are unique, references resolve, order is deterministic and intervals are valid; diagnostics come in the source's order |
| Diagnoses.DiagnosticsMean | runtime/builder/src/lifecycle/canonicalize.rs:63-155 | When each violation is listed and where: a repeated key, an interval that ends no later than it begins, a balance without a generation, a neighbour out of order or overlapping |
| Diagnoses.FlagsMean | runtime/builder/src/lifecycle/canonicalize.rs:63-155 | What each of the report's four flags says |
| Diagnoses.SilentReport | runtime/builder/src/lifecycle/canonicalize.rs:63-155 | Nothing is listed exactly if all four flags are set |
| Canonicalize.Process | runtime/builder/src/lifecycle/canonicalize.rs:18-55 | Sort, dedup, verify |
| Diagnoses.CanonicalInOrder | runtime/builder/src/lifecycle/canonicalize.rs:23-40 | Pre-states and balance facts come by address and number, generations by address, begin and number |
| Canonicalize.ProcessIdempotent | runtime/builder/src/lifecycle/canonicalize.rs:18-55 | Processing a processed result changes neither value, diagnostics nor report |
| Canonicalize.ProcessForgetsOrder | runtime/builder/src/lifecycle/canonicalize.rs:18-55 | The input order does not matter exactly if facts with one key agree and different generations with one key and begin all follow generations with that key |
| Canonicalize.UniqueKeysDetermined | runtime/builder/src/lifecycle/canonicalize.rs:18-55 | Generations with unique keys meet that condition |
| Canonicalize.DuplicatesRememberOrder | runtime/builder/src/lifecycle/canonicalize.rs:18-55 | Two generations of the family on which it does matter |
| Canonicalize.AdjacentImpliesGlobal | runtime/builder/src/lifecycle/canonicalize.rs:115-152 | If order and intervals are reported valid, a closed generation ends before every later generation of its address begins, not just the next |
| Canonicalize.LifecycleDecides | runtime/builder/src/lifecycle/canonicalize.rs:63-155 | Resolving then canonicalizing: generations unchanged, keys unique and order deterministic always, intervals valid exactly if every destruction directly follows a creation |
| Canonicalize.IdsConsecutive | runtime/builder/src/lifecycle/resolve.rs:36-82 | Generation ids count from 0 in chronological order |
| Certificates.TerminalGeneration | runtime/builder/src/lifecycle/certificate.rs:51-76 | On resolved generations the identity is absent exactly for addresses without lifecycle entry, never ambiguous, and otherwise the chronologically last |
| Certificates.FillFields | runtime/builder/src/lifecycle/certificate.rs:192-219 | Written fields win, the snapshot fills the rest, and the insufficient-information branch cannot be reached |
| Certificates.GatherByAddress | runtime/builder/src/lifecycle/hydration.rs:43-84 | The two-map first loop of hydration: first identity failure in key order, else every touched account's fields and generation |
| Certificates.GatherBuilders | runtime/builder/src/lifecycle/certificate.rs:153-190 | The builder-map first loop of the direct path, against the same meaning |
| Certificates.HydrateAccounts | runtime/builder/src/lifecycle/hydration.rs:43-128 | Hydration returns every touched account or the first failure in the source's order |
| Certificates.AssembleCertificates | runtime/builder/src/lifecycle/hydration.rs:133-159 | Assembly collects certificates or the first key mismatch in address order |
| Certificates.BuildCanonicalCertificates | runtime/builder/src/lifecycle/certificate.rs:153-234 | The direct path returns every certificate or the first failure in the source's order |
| Certificates.BuildDecides | runtime/builder/src/lifecycle/certificate.rs:153-234 | Certificates exist exactly if every written account has an identity and, unless all its fields were written, a snapshot |
| Identities.CertificateIdentity | runtime/builder/src/lifecycle/certificate.rs:153-190 | A certificate carries the account's last generation of the transaction, numbered by its destructions, if it was created or destroyed in it, whatever the source says; otherwise the source's answer |
| Identities.BuildFails | runtime/builder/src/lifecycle/certificate.rs:153-234 | Building fails with the identity error of the first written cell, in order, whose account has none, else with the snapshot error of the first written account that needs one and has none |
| Certificates.BuildersAgree | runtime/builder/src/lifecycle/hydration.rs:43-159 | Hydrate then assemble equals the direct build, errors included; assembly never fails on this path |
| Identities.AssemblyFails | runtime/builder/src/lifecycle/hydration.rs:133-159 | Assembly fails exactly on the first entry, in byte order, filed under another address than its own, naming both |
| Commitments.TagsDiffer | runtime/hash/src/lib.rs:93-101 | Any two domain tags differ inside their common length |
| Commitments.TagBytes | runtime/hash/src/lib.rs:93-101 | The five published tags, byte for byte |
| Commitments.DomainSeparation | runtime/hash/src/lib.rs:93-112 | Domain and bytes are recovered from the hashed input |
| Merkle.WidthIsLeast | runtime/ssz/src/lib.rs:145-151 | The padded width is the least power of two that fits, below twice the number of leaves |
| Merkle.PaddedWidth | runtime/ssz/src/lib.rs:145-148 | The doubling loop terminates at that width |
| Merkle.LevelKeepsRoot | runtime/ssz/src/lib.rs:153-159 | Joining one level of neighbours keeps the perfect tree's root |
| Merkle.JoinPairs | runtime/ssz/src/lib.rs:154-157 | The inner loop joins neighbours pairwise |
| Merkle.Fold | runtime/ssz/src/lib.rs:142-161 | The level-by-level fold computes the root of the recursive perfect tree over the padded leaves |
| Merkle.RootBinds | runtime/ssz/src/lib.rs:133-138 | Equally shaped trees with one root are equal or exhibit a collision among the inputs hashed |
| Merkle.TreeRootBinds | runtime/ssz/src/lib.rs:142-161 | Two folds of any sizes with one root: the padded leaves of the shallower are the level of the deeper that is as wide, or a collision is exhibited |
| Merkle.FacingLayersMeet | runtime/ssz/src/lib.rs:142-161 | And conversely, such leaves have one root |
| Merkle.EqualDepthBinds | runtime/ssz/src/lib.rs:142-161 | Among leaves of one tree depth a root determines them up to trailing zero leaves, or a collision is exhibited |
| Merkle.RoomyTreesBind | runtime/ssz/src/lib.rs:142-161 | Where the shallower tree has a leaf to spare, a root determines the leaves up to trailing zero leaves whatever the two depths, or a collision is exhibited, or, between different depths, an input hashing to the zero word |
| Merkle.PaddingIsInvisible | runtime/ssz/src/lib.rs:149-151 | Any number of zero leaves in the spare room keeps the root, so the trailing zeros cannot be excluded |
| Merkle.SamePadding | runtime/ssz/src/lib.rs:149-151 | Leaves of one depth pad alike exactly if the longer are the shorter and zero leaves |
| StorageRoots.Derive | runtime/builder/src/lifecycle/storage_root.rs:58-97 | The deriver is the same fold over its own leaf and branch hashes, leaves in slot order |
| Iteration.DerivedInSlotOrder | runtime/builder/src/lifecycle/storage_root.rs:58-97 | A storage root is the fold of the hashes of leaf tag, slot and value, smallest slot first |
| StorageRoots.GatherSlots | runtime/builder/src/lifecycle/storage_root.rs:116-122 | Per address, exactly the terminal values of its storage slots; transient slots are left out |
| StorageRoots.ResolveStorageRoots | runtime/builder/src/lifecycle/storage_root.rs:111-131 | Every certificate gets its derived root and is otherwise unchanged |
| StorageRoots.ItemRootBinds | runtime/builder/src/lifecycle/storage_root.rs:63-96 | Trees of any two shapes with one root are one tree, or two inputs hashed clash, or one hashes to the padding word |
| StorageRoots.DeriveBinds | runtime/builder/src/lifecycle/storage_root.rs:58-97 | A storage root determines the slot map, whatever the two sizes, up to such evidence |
| Ssz.FromLeOfToLe | runtime/ssz/src/decode.rs:39-45 | Reading back a little-endian integer of sufficient width |
| Ssz.ToLeOfFromLe | runtime/ssz/src/decode.rs:39-45 | Writing back the integer read, and its range |
| Ssz.SummaryRoundTrip | runtime/ssz/src/decode.rs:49-66 | Decoding inverts encoding for event summaries |
| Ssz.SummaryDecodes | runtime/ssz/src/decode.rs:49-66 | Exactly the 68-byte strings decode, and encode back |
| Ssz.EncodeSnapshotBytes | runtime/ssz/src/lib.rs:72-89 | The growing buffer holds header and elements; more than 16384 elements are refused |
| Ssz.DecodeSnapshotBytes | runtime/ssz/src/decode.rs:76-101 | The decoder's checks in order and its element loop |
| Ssz.SnapshotRoundTrip | runtime/ssz/src/decode.rs:76-101 | Decoding inverts encoding on every encodable snapshot |
| Ssz.SnapshotDecodes | runtime/ssz/src/decode.rs:76-101 | Bytes decode exactly if their length is 12 plus 68 k with k at most 16384 and the offset field is 12, and then encode back |
| Ssz.SnapshotRejects | runtime/ssz/src/decode.rs:76-101 | Why bytes are not a snapshot: too short, an offset other than 12, a part of a summary, or too many summaries, whichever comes first |
| Ssz.SnapshotDecodingInjective | runtime/ssz/src/decode.rs:27-30 | Two byte strings never decode to one snapshot |
| Chunks.Chunkify | runtime/ssz/src/lib.rs:117-131 | The chunking loop yields the recursive chunks |
| Chunks.ChunkCount | runtime/ssz/src/lib.rs:117-131 | max(1, ceil(n/32)) of them |
| Chunks.ChunksHoldBytes | runtime/ssz/src/lib.rs:117-131 | The chunks are the bytes followed by zeros only |
| Chunks.ChunksBind | runtime/ssz/src/lib.rs:117-131 | Two byte strings chunk alike exactly if the chunk counts agree and one is the other with zeros appended |
| Chunks.ChunksExtend | runtime/ssz/src/lib.rs:117-131 | The longer string chunks to the shorter one's chunks and zero words exactly if it is the shorter one and zeros |
| Chunks.Merkleize | runtime/ssz/src/lib.rs:142-161 | The fold under the SSR tag |
| Chunks.ComputeSsrRoot | runtime/ssz/src/lib.rs:165-167 | Chunk, then fold |
| Chunks.SsrRootBinds | runtime/ssz/src/lib.rs:165-167 | Byte strings of one tree depth with one root differ in trailing zeros only, or exhibit a collision |
| Chunks.SsrRootForgetsZeros | runtime/ssz/src/lib.rs:165-167 | And conversely: zeros appended to the bytes are invisible while the depth stays |
| CertificateCodec.CopyFrom | runtime/ssz/src/certificate.rs:56-78 | One field copied at the running offset, earlier bytes kept |
| CertificateCodec.EncodeBytes | runtime/ssz/src/certificate.rs:47-82 | The array writes produce the eight fields in order; an unresolved storage root is refused |
| CertificateCodec.CertificateRoundTrip | runtime/ssz/src/decode.rs:111-145 | Decoding inverts encoding on every resolved certificate; only unresolved ones are refused |
| CertificateCodec.CertificateDecodes | runtime/ssz/src/decode.rs:111-145 | Exactly the 180-byte strings decode, and encode back |
| CertificateCodec.CertificateDecodingInjective | runtime/ssz/src/decode.rs:27-30 | Two byte strings never decode to one certificate |
| CertificateCodec.CommitCertificateBatch | runtime/ssz/src/certificate.rs:98-109 | The batch root over all chunks in address order, or refusal when some root is unresolved |
| CertificateCodec.BatchBinds | runtime/ssz/src/certificate.rs:98-109 | Resolved batches of any sizes with one root differ in trailing all-zero certificates only and have one tree depth, or exhibit a collision, or, between different depths, an input hashing to the zero word |
| CertificateCodec.BatchForgetsBlanks | runtime/ssz/src/certificate.rs:98-109 | And conversely: all-zero certificates appended to a batch are invisible while the depth stays |
| CertificateCodec.CommittedMapsBind | runtime/ssz/src/certificate.rs:98-109 | Certificate maps of any sizes with one root are equal, or exhibit such evidence against the hash: an all-zero certificate can only come first |
| CertificateCodec.CommitRootBinds | runtime/ssz/src/certificate.rs:84-87 | A certificate's own commitment determines it or the two inputs clash |
| Gate2.ReplayStep | runtime/verify/src/lib.rs:102-167 | One payload: the account update and the inconsistency it raises, payload kind by payload kind |
| Gate2.ReplayTraces | runtime/verify/src/lib.rs:99-168 | The trace loop computes the state and all inconsistencies in order |
| Gate2.ReportAddresses | runtime/verify/src/lib.rs:174-186 | Missing then untouched certificates, each in address order |
| Gate2.CompareCertificate | runtime/verify/src/lib.rs:192-222 | Field comparison against the derived account, storage root re-derived |
| Gate2.ReplayAndVerify | runtime/verify/src/lib.rs:98-230 | Ok exactly if the report is empty, otherwise the report |
| Gate2Laws.Tracks | runtime/verify/src/lib.rs:102-148 | The fold's cells hold each history's last content, zero before the first write |
| Gate2Laws.TraceDecides | runtime/verify/src/lib.rs:102-172 | No inconsistency exactly if every persistent cell's history is continuous and starts from zero unless its first write opens the account |
| Gate2Laws.TraceAgreesWithReduction | runtime/verify/src/lib.rs:98-172 | On any stream: the builder reduces the bucket and later-written persistent cells start from zero, exactly if the fold is silent and the transient and gas-refund histories are continuous |
| Gate2Laws.TouchedExactly | runtime/verify/src/lib.rs:174-186 | The touched accounts are those with a persistent write, a creation or a destruction |
| Gate2Laws.DerivedStorage | runtime/verify/src/lib.rs:137-148 | The fold's storage is the slot map the builder derives the root from |
| Gate2Laws.ReportMeans | runtime/verify/src/lib.rs:174-229 | On a consistent trace, exactly which errors a report contains, and which field mismatches each mismatch entry lists |
| Gate2Laws.InconsistenciesMean | runtime/verify/src/lib.rs:102-172 | The trace errors are exactly the writes to accounts touched before whose Before is not what was last written to the cell, or zero, each naming that cell |
| Reports.InconsistentReportMeans | runtime/verify/src/lib.rs:170-172 | On an inconsistent trace the report lists those and nothing else |
| Reports.ReportInOrder | runtime/verify/src/lib.rs:174-229 | On a consistent one: missing certificates in byte order, then untouched ones in byte order, then the certificates' own errors in batch order |
| Reports.MismatchesInOrder | runtime/verify/src/lib.rs:192-218 | A mismatch entry lists the disagreeing fields as nonce, balance, code hash, storage root |
| Gate2Laws.AcceptanceMeans | runtime/verify/src/lib.rs:98-230 | Any certificates are accepted exactly if the trace is consistent, the certified accounts are the touched ones, and every certificate has the replayed nonce, balance, code hash and derived storage root |
| Gate2Laws.Gate2Accepts | runtime/verify/src/lib.rs:98-230 | On any stream that reduces, the exact condition for Gate 2 to accept the builder's certificates after storage roots are resolved, for any hash: zero starts, certified accounts exactly the settled ones, a snapshot source that is zero where it was used |
| Gate2Laws.TransientOnlyRejected | runtime/builder/src/lifecycle/certificate.rs:160-189 | An account written in transient storage only gets a certificate, and Gate 2 reports it as untouched |
| Gate2Laws.TransientWriteRejected | runtime/verify/src/lib.rs:155-158 | The smallest such transaction: one transient write |
| Gate2Laws.TransientGapUnseen | runtime/builder/src/reduce.rs:10-24 | Two transient writes with a gap between them, which the builder rejects and the fold does not see |
| Pipeline.BlockParts | runtime/builder/src/partition.rs:6-36 | Partitioning a translated block yields one bucket per transaction, holding exactly its output |
| Pipeline.BlockTakes | runtime/builder/src/reduce.rs:7-36 | All buckets of an executed block reduce, and the tables carry the state from transaction to transaction, mutations outside transactions moving it in between |
| Pipeline.PipelineRefinesExecution | runtime/bridge/src/translate.rs:76-214 | From an accepted stream to tables: translation, partition and reduction succeed and each table is its transaction's state change, with or without mutations outside transactions |
| Pipeline.BlockChronological | runtime/builder/src/partition.rs:127-135 | Every lifecycle table the pipeline builds is in strictly increasing trace order |
| Passes.ProcessLifecycles | runtime/builder/src/lifecycle/mod.rs:25-64 | One pass per bucket, in order: each is the resolution of that bucket's lifecycle table, canonicalized |
| Passes.PassesDecide | runtime/builder/src/lifecycle/mod.rs:25-64 | Each pass keeps the generations as resolved, with unique keys, in order; intervals are valid exactly if every destruction directly follows a creation; every collision is among its diagnostics |
| Diagnoses.PassReports | runtime/builder/src/lifecycle/mod.rs:52-62 | A pass reports the faults of its schema first and then the collisions, in address order |
| Diagnoses.PassPreStates | runtime/builder/src/lifecycle/mod.rs:33-60 | A pass keeps the pre-states as resolved |
| Diagnoses.PassIsValid | runtime/builder/src/lifecycle/diagnostics.rs:43-48 | A transaction's pass reports nothing exactly if every destruction directly follows a creation and no address created or destroyed existed before |
| Passes.PassIdentifies | runtime/builder/src/lifecycle/mod.rs:25-64 | On a pass's generations an address is absent exactly if never created or destroyed, and otherwise has its last generation |
| EndToEnd.CertificatesArePostStates | runtime/builder/src/lifecycle/certificate.rs:153-234 | Certified accounts are exactly those with a surviving write; nonce, balance, code hash and slots are the post-state |
| EndToEnd.Gate2OnExecution | runtime/verify/src/lib.rs:98-230 | Gate 2's exact verdict on a correctly executed transaction in terms of the state before it |
| EndToEnd.EstablishedAccountRejected | runtime/verify/src/lib.rs:115-125 | A correct execution Gate 2 rejects: a non-zero nonce on an account whose balance changes first |
| EndToEnd.TracedBlockRefines | tracer/kaysentinel_tracer.go:105-258 | From well-nested hooks with 32-bit frames to tables: accepted, translated, partitioned and reduced to the execution's state changes |
| EndToEnd.ResolvedBatchCommits | runtime/ssz/src/certificate.rs:98-109 | After storage roots are resolved every batch has a commitment |
| Isolation.SameTables | runtime/builder/src/partition.rs:38-135 | Streams that differ in trace contexts only have the same tables, and lifecycle observations that differ in frame coordinates only |
| Sorting.CanonicalMap | runtime/builder/src/lifecycle/canonicalize.rs:23-40 | Sort then dedup commutes with any change of the elements that neither comparison sees |
| Isolation.TraceContextIsInert | runtime/builder/src/partition.rs:127-135 | Such streams, numbered in any way, reduce alike and get equal certificates, or the same error |

## Left out

- `harness`, `scripts`, `multiplexer`, `raw`, `validation/engine.go`, `validation/normalizer.go`: file handling, command lines, fan-out of hooks and field-by-field comparison.
- JSON and serde: the model starts at typed events. Event fields no stage reads (timestamps, gas, value, sender and receiver, frame types, state root) are not part of the datatypes.
- The version check of a semantic event (`runtime/cse/src/event.rs:42-47`): it cannot fail, because `V1` is the only variant of the version type and equals the ABI version, so versions are not part of the datatypes either.
- BLAKE3 itself, digest printing and `verify_envelope_integrity`: the hash is an arbitrary function.
- Event identifiers, list positions and `usize` are unbounded natural numbers; generation ids are too, so the wrap of a 32-bit id after four billion destructions of one address in one transaction is not modelled.
- CertificateCodec.CertificateRoundTrip: assumes the generation id fits in 32 bits, which the source's type guarantees.
- The block hash in an event's context: the bridge always writes zeros.
- Diagnostic severities and explanation texts; replay inconsistencies name the cell instead of carrying a message.
- `verify_already_canonical`: a public name for the schema check that is modelled.
- The storage deriver repeats the fold of `merkleize` in its own code; one method with the node tag as a parameter models both, so a later divergence of the two copies would not show here.
- The second loops of the two certificate builders repeat the same filling of fields (`runtime/builder/src/lifecycle/certificate.rs:192-219`, `runtime/builder/src/lifecycle/hydration.rs:89-113`); one method, `FillFields`, models both. The first loops, which differ, are modelled separately.
- `AccountCreated`, log, gas-refund, transient-storage and access-list events are consumed by the builder and the replay here, but no tracer hook emits them.
- Certificates for a whole block are per transaction: the source has no cross-transaction certificate merge.
