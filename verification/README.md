# Federated meetup: verified model

The repository is a federated group ledger. A group is a replicated state machine; *stewards* sign
*transitions*, each naming the state root it builds on, and any host that holds the log can check and
replay them. Around the ledger stand hybrid logical clocks, mirrors that page through and then follow a
host's log, a per-steward rate limiter, and the expansion of recurring events.

This project models that logic in Dafny and proves what it keeps over whole runs. Code that changes state
step by step (`State.Apply`, branches, the equivocation log, in-place sorting and filtering, hosts,
broadcaster, limiter, bootstrap, the recurrence loops) is written as classes and methods with loops, each
proved against a specification function; the long-run theorems are lemmas about those functions.

| file | source | subject |
|---|---|---|
| `Basics.dfy`, `Bytes.dfy` | Go strings and byte slices | options; bytes, big-endian integers, byte order, `%x`, `%d` |
| `Snapshot.dfy` | `internal/types/types.go` | canonical snapshot encoding, in-place sort |
| `KeyValue.dfy` | `internal/group/group.go` | `appendOrUpdate`, sequence numbers, size caps |
| `Multisig.dfy` | `internal/crypto/crypto.go` | sign-bytes, greedy multisig, signer attribution |
| `Equivocation.dfy` | `internal/group/equivocation.go` | FIFO-bounded equivocation log |
| `Transitions.dfy`, `Ledger.dfy` | `internal/group/group.go`, `gates.go` | one branch's state machine as a function |
| `Authority.dfy`, `Admission.dfy`, `Commitment.dfy`, `Growth.dfy`, `Replay.dfy`, `Deadlock.dfy`, `Toy.dfy`, `Counterexamples.dfy` | same | which transitions are applied and what they leave, theorems over all runs of a branch, and concrete runs where a promise fails |
| `Forest.dfy`, `ForestRuns.dfy`, `NewBranches.dfy` | `internal/group/group.go`, `branch.go` | `State.Apply` with its branch swap, restart |
| `Hlc.dfy`, `Hosts.dfy` | `internal/hlc/hlc.go`, `sim/host.go` | hybrid logical clocks and the hosts that drive them |
| `Broadcast.dfy`, `Mirror.dfy`, `MirrorRuns.dfy` | `internal/group/broadcaster.go`, `internal/host/service.go`, `internal/federation/syncer.go` | live fan-out, log pages, bootstrap |
| `RateLimit.dfy` | `internal/ratelimit/ratelimit.go` | token buckets |
| `Calendar.dfy`, `Recurrence.dfy`, `Rrule.dfy` | `internal/product/recurrence.go`, `internal/web/handlers.go` | recurring events and RRULE text |

## How the parts fit

`Ledger.Step` is one call of Apply on one branch: screening (clock size, prior root, limiter,
equivocation), signatures, the gate of the transition type, key/value edits, and the commit of snapshot,
histories and capped log under the new root. `Forest.State.Apply` is the code: it swaps a branch's data
into the fields of `State`, runs the stages as methods on those fields, writes back on success only and
restores genesis. It is proved equal to `Forest.ForestStep`, a map of independent `Ledger.Step` ledgers,
so every lemma about runs of `Step` is a statement about that object.

The run theorems are about `Authority.GenesisRun`: any submissions to a fresh genesis branch, refused or
accepted, before or after the founding, of which those that advance the state name their prior state. The
one that founds the group may omit it while no initial stewards are on record. They are on record exactly
when an earlier CREATE_GROUP got through its signatures and was refused afterwards
(`Authority.UnclaimedExactly`), and then the founding itself goes wrong (`Authority.FoundingExactly`).

## Where the code and its promises part

- Start-up replays the durable log with the current clock and calls that always safe. A MIGRATE whose
  deadline has passed since is refused, and the restart fails. `Replay.ReplayRebuilds` and
  `ForestRuns.RestartRecovers` show that this is the only way it fails (under their stated conditions);
  `Counterexamples.DeadlineStopsRestart` is a concrete group that cannot be reopened.
- The root is meant to commit to the steward set. CREATE_GROUP writes the raw key bytes but records the
  keys cut or padded to 32 bytes: `Commitment.FoundingIsCommitted` gives the exact condition,
  `Counterexamples.ShortKeyIsNotCommitted` an accepted founding that fails it. A later CREATE_GROUP keeps
  the commitment exactly when its names agree with the set it restores (`Commitment.HeadCommitted`).
- A group whose last steward is removed is open to anyone: whatever CREATE_GROUP names its head and is
  signed by the stewards it declares itself is applied and puts them in force
  (`Authority.AnyoneRefounds`, exactly; `Counterexamples.AnyoneTakesOver` is such a run). The quorum of
  `Authority.AuthorityOverRuns` holds exactly while there are stewards.
- A CREATE_GROUP refused for its contents after its signatures were checked has already installed its
  stewards. A founding that names no prior state is then checked against them and records them, whatever
  it declares: `Authority.FoundingExactly` gives the exact condition, `Counterexamples.LeftoverFounds` a run.
- Any transition without a prior state makes the tail of Apply amend not the authority in force but what is
  recorded under the root it has just reached, or else the initial set, and the initial threshold:
  `Authority.UnnamedPriorFallsBack`, exactly; in `Counterexamples.UnnamedForgetsThreshold` a raised
  threshold is lost.
- A branch is meant to inherit its parent's stewards. For a transition that names its prior state they are
  not there: a new branch is open to exactly any self-signed CREATE_GROUP (`Authority.AnyoneFoundsBranch`,
  `NewBranches.NewBranchIsOpen`), and in `NewBranches.BranchIsTakenOver` an outsider governs it. Only a
  first transition without a prior state puts the inherited authority in force
  (`Authority.UnnamedStartsBranch`).
- CHANGE_THRESHOLD refuses a threshold above the number of stewards because it could never be undone
  (`Admission.ThresholdWithinStewards`). REMOVE_STEWARD, repeated keys and a restored initial set reach one all the same:
  `Deadlock.NextQuorumExactly` says when, `Deadlock.DeadlockIsFinal` that it is for ever, and
  `Counterexamples.RemovalDeadlocks` is such a run.
- MaxKVBytes is documented to cap the total byte size of a branch's entries. Like the entry cap it is applied to
  new keys only, but an update can make a value longer: `KeyValue.UpdateEscapesCap` is such an update,
  `KeyValue.ByteCapExactly` says exactly when an edit keeps the cap, `Growth.ByteCapOverRuns` when a run does.
- Members are removed by a tombstone so that no old root comes back and a signature there is not taken for
  equivocation. Stewards are removed outright: adding one and removing it again restores the root
  (`Deadlock.AddThenRemove`), and a group of one steward can then not name it in anything new
  (`Deadlock.AddRemoveLocks`; `Counterexamples.AddRemoveLocksAlice` is such a run).
- The greedy multisig is exact when a signature verifies under at most one key
  (`Multisig.AcceptsExactly`), and can miss a quorum otherwise (`Multisig.GreedyCanMissQuorum`).
- The equivocation log forgets: `Equivocation.RefinesExactly` says for which keys it still answers as an
  unbounded table would, `Equivocation.EvictionForgets` shows a conflict lost.
- `Observe` copies a remote value without looking at its reserved bytes; `Hlc.ObserveAdvances` says
  exactly when the result is still later. `hlc.go` describes a 16-byte wall; the code writes eight bytes
  and keeps eight reserved. At the top of the range the wall wraps and the order is lost: `Hlc.WallWraps`
  and `Hlc.ObserveWraps` say exactly when.
- `ExpandInstances` says that the start is always the first instance: `Recurrence.StartComesFirst` gives
  the exact condition for every BYDAY list. The order of the list matters: `Recurrence.FridayBeforeMonday`
  starts a series with a later day and then goes back, and `Recurrence.OrderExactly` and
  `Recurrence.ExpansionOrderExactly` say for which lists the instants are in order. An end date chosen in
  the form ends the series at that day's midnight (`Rrule.EndDateEndsAtMidnight`). Week start (Sunday) and
  clamping to the end of the month differ from section 3.3.10 of RFC 5545 by design.
- Bootstrap means to skip transitions it has applied before, told by the mismatch of their prior state, but
  looks for words that error does not contain; such a transition ends it (`Mirror.StalePriorStops`). What it
  can skip is a peer the mesh registry already knows, and that transition is then missing from the mirror's
  log (`Mirror.LogGrowsByApplied`).
- The snapshot root is one flat hash over sorted entries, although a comment mentions RFC 6962.
- Subscribe is documented to stream only transitions with an index greater than `since_index`. It replays
  from `since_index` itself and does not filter live events; without one it replays nothing, but may stream
  the transition that was being broadcast at registration. `Broadcast.StreamStartsAt` and
  `Broadcast.CaughtUpExactly` say exactly which transitions are streamed, for every `since_index`;
  `Broadcast.ZeroSinceStreamsPending` is a run with the early one.

## Parameters of the model

`Multisig.Platform` holds SHA-256, Ed25519 verification and UTF-8 validity as arbitrary total functions.
No theorem assumes SHA-256 injective in general: the commitment theorems ask that the snapshots visited do
not collide. A transition carries its marshalled canonical bytes; payload bodies are opaque. Clock
readings, the verdicts of the rate limiter and of the mesh registry, and the success of a durable write
are arguments of each call. Rate-limiter arithmetic is over real numbers.

## Model

| member | source | states |
|---|---|---|
| Snapshot.SortInPlace | internal/types/types.go:171-178 | in-place insertion sort ends in the stable sorted arrangement of the array |
| Snapshot.SinkEntry | internal/types/types.go:173-177 | the inner loop sinks one entry into the sorted prefix by adjacent swaps and touches nothing after it |
| Snapshot.SortedPermutes | internal/types/types.go:171-178 | the sorted list is a permutation of the entries |
| Snapshot.SortedIsOrdered | internal/types/types.go:171-178 | no key precedes an earlier one: the shorter of two is first when it begins the other, else the one with the smaller byte at the first difference |
| ByteStrings.LessExactly | internal/types/types.go:171-178 | the byte order of keys is Go's order of strings: at the first position where they differ, or where one ends |
| Snapshot.SortedIsStable | internal/types/types.go:171-178 | entries of one key keep their order |
| Snapshot.SortedAgree | internal/types/types.go:171-178 | two lists sort to the same list exactly when they agree, in order, under every key: the arrangement is unique |
| Snapshot.DecodeInvertsEncode | internal/types/types.go:63-77 | the length-prefixed encoding of a snapshot is uniquely decodable |
| Snapshot.EntryLayout | internal/types/types.go:63-77 | an entry is hashed as length, key, length, value and sequence number, the three numbers big-endian in eight bytes |
| Snapshot.PreimageDecides | internal/types/types.go:63-97 | two snapshots hash the same bytes exactly when they agree per key, which is when Equal holds |
| Snapshot.PreimageIsEntrySet | internal/types/types.go:63-77 | with unique keys the hashed bytes determine, and are determined by, the set of entries |
| Snapshot.UniqueKeysSortAlike | internal/types/types.go:63-77 | with unique keys the canonical order does not depend on entry order |
| Snapshot.Equal | internal/types/types.go:80-97 | copy, sort and compare returns whether both lists sort alike |
| Snapshot.WritePreimage | internal/types/types.go:63-77 | the bytes fed to the hasher are the encoding of the sorted entries |
| KeyValue.DropKeyInPlace | internal/group/group.go:1367-1372 | the in-place filter leaves exactly the other keys' entries, in order |
| KeyValue.AppendOrUpdateUnchecked | internal/group/group.go:1356-1382 | loop and filter compute the edit |
| KeyValue.AppendOrUpdate | internal/group/group.go:1308-1352 | refused exactly when a size cap stops the write, and then the entries are unchanged |
| KeyValue.PutIsMapUpdate | internal/group/group.go:1356-1382 | an edit is a map update: the key gets the value and its count plus one, a removal drops both, every other key keeps value and count |
| KeyValue.PutUnique | internal/group/group.go:1356-1382 | keys stay unique |
| KeyValue.SeqCountsWrites | internal/group/group.go:1356-1382 | after any edits from nothing a key holds its last value and its seq counts the writes since it was last removed, modulo 2^64 |
| KeyValue.PutGrowsSum | internal/group/group.go:1356-1382 | a write that removes nothing adds exactly one to the sum of sequence numbers |
| KeyValue.SumSeqSorted | internal/types/types.go:171-178 | that sum does not depend on entry order |
| KeyValue.AllowedKeepsCount | internal/group/group.go:1308-1352 | an allowed edit keeps the entry count within the cap |
| KeyValue.EncodeLength | internal/types/types.go:63-77 | the bytes hashed are those of all keys and values and 24 for each entry |
| KeyValue.CapsExactly | internal/group/group.go:1308-1352 | a write is allowed exactly for a value of at most 1 MiB whose key is there, or is new, the entries being fewer than their cap and, with this one, within the byte cap; a removal always |
| KeyValue.ByteCapExactly | internal/group/group.go:1314-1336 | an allowed edit keeps the bytes within the cap if and only if it removes, has a new key, or is an update that fits |
| KeyValue.UpdateEscapesCap | internal/group/group.go:1333-1335 | an allowed update goes past the cap |
| Multisig.SignBytesInjective | internal/crypto/crypto.go:88-99 | one signed message is never the message of another group, kind or payload |
| Multisig.SignBytesLayout | internal/crypto/crypto.go:88-99 | the signed bytes are the digest of the domain string, the group key, the kind, the payload's length in eight bytes and the payload |
| Multisig.VerifyMultisig | internal/crypto/crypto.go:150-185 | the nested loops accept exactly when enough distinct stewards are credited greedily |
| Multisig.CreditOne | internal/crypto/crypto.go:171-179 | one signature credits the first fitting steward not yet credited |
| Multisig.AcceptsImpliesQuorum | internal/crypto/crypto.go:150-185 | acceptance gives an injective assignment of threshold-many stewards to valid signatures |
| Multisig.AcceptsExactly | internal/crypto/crypto.go:150-185 | if each signature verifies under at most one key, it accepts exactly when the threshold is positive and at least that many distinct stewards have a valid signature |
| Multisig.AcceptsIgnoresOrder | internal/crypto/crypto.go:150-185 | then order and repetition in either list do not matter |
| Multisig.GreedyCanMissQuorum | internal/crypto/crypto.go:150-185 | without that assumption a list holding a quorum can be refused |
| Multisig.FindSigningSteward | internal/group/equivocation.go:441-462 | returns the first steward under whom the first verifying signature verifies |
| Multisig.AttributedExactly | internal/group/equivocation.go:441-462 | a steward is attributed exactly as the first that verifies the first signature verified by any |
| Equivocation.EquivocationLog.EvictOldest | internal/group/equivocation.go:167-182 | the loop drops the oldest keys down to the cap and counts each |
| Equivocation.EquivocationLog.Check | internal/group/equivocation.go:202-234 | reports a conflict exactly for a different (HLC, hash) under a held key, and records new keys |
| Equivocation.RecordShape | internal/group/equivocation.go:202-234 | a new key goes to the back and pushes out at most the front key; a known one changes nothing |
| Equivocation.RecordCoherent | internal/group/equivocation.go:63-73 | insertionOrder lists the keys of seen exactly once each, within the cap |
| Equivocation.InsertsAreHeldOrEvicted | internal/group/equivocation.go:167-190 | inserts equal keys held plus keys evicted, over any run |
| Equivocation.ConflictIsReal | internal/group/equivocation.go:202-234 | a reported conflict means two different presentations of that key |
| Equivocation.HeldWithinWindow | internal/group/equivocation.go:167-234 | a key keeps its first presentation until maxEntries further keys came |
| Equivocation.BoundedRefinesUnbounded | internal/group/equivocation.go:202-234 | within that window from its first presentation on the answer is that of an unbounded first-seen table |
| Equivocation.HeldExactly | internal/group/equivocation.go:167-234 | a key is held exactly within the window since its last insertion, with what was presented then |
| Equivocation.VerdictExactly | internal/group/equivocation.go:202-234 | a conflict is reported if and only if the last insertion is within the window and something else was presented then |
| Equivocation.RefinesExactly | internal/group/equivocation.go:202-234 | every later presentation of a key is answered as by the unbounded table if and only if the key is new, or its last insertion is within the window and held the same as its first presentation |
| Equivocation.PresentedOnce | internal/group/equivocation.go:202-234 | for a key presented once the window is counted from that step |
| Equivocation.EvictionForgets | internal/group/equivocation.go:167-182 | beyond it a real conflict goes unreported |
| Transitions.OtherKeysAreSeparate | internal/group/group.go:678-1154 | only steward transitions touch steward entries and only CHANGE_THRESHOLD the threshold entry, whatever identifiers appear in the other keys |
| Ledger.RejectionKeepsCore | internal/group/group.go:459-1191 | a rejection other than a failed durable write leaves snapshot, both histories and the log as they were |
| Authority.AdvancedShape | internal/group/group.go:572-1191 | an advancing step passed every stage and is the commit of the gated edits |
| Authority.GovernsStep | internal/group/group.go:623-671 | an advancing step was signed by a quorum of the authority in force, or without stewards by its own, and amends it |
| Authority.GovernsRejected | internal/group/group.go:459-1191 | a refused submission leaves the authority in force |
| Authority.FoundingGoverns | internal/group/group.go:623-664 | whatever advances the state first, if it names its prior state or no initial stewards are on record, is a CREATE_GROUP, and its own set and positive threshold are in force after it |
| Authority.FoundingExactly | internal/group/group.go:623-664 | the first transition to advance the state is a CREATE_GROUP signed by its own stewards and governed by them if and only if it names its prior state, or no initial stewards are on record, or it declares exactly those that are |
| Authority.UnclaimedExactly | internal/group/group.go:656-664 | before the founding, initial stewards are on record exactly when some refused submission got through its signatures |
| Authority.LeftoverGoverns | internal/group/group.go:623-664 | otherwise the signatures of the stewards on record are asked for, and a CREATE_GROUP records their set and threshold |
| Authority.TailAmends | internal/group/group.go:1198-1268 | computeCurrentStewards and computeCurrentThreshold compute the fold though the snapshot is already replaced |
| Authority.AuthorityOverRuns | internal/group/group.go:399-455 | over every run, whatever advances the state has a quorum of T distinct keys of S, where S and T fold the transitions applied before it, exactly when S is not empty; without stewards it is a CREATE_GROUP signed by its own; T is never 0, and a slashed key is not among the signers |
| Authority.AnyoneRefounds | internal/group/group.go:623-664 | without stewards a transition naming the head is applied exactly when it is a CREATE_GROUP signed by its own stewards that passes gate and caps, and they are then in force under the old threshold |
| Authority.UnnamedPriorFallsBack | internal/group/group.go:1198-1268 | without a named prior state, at a new root or a revisited one, the recorded authority amends the fallback, and the fold survives exactly when both amend alike |
| Authority.UnnamedRefounding | internal/group/group.go:1198-1268 | on a group without stewards it records its own set and threshold, which is the fold exactly when the threshold is the old one |
| Authority.AnyoneFoundsBranch | internal/group/group.go:1112-1115 | on a branch that has only inherited, a prior-naming transition is applied exactly when it is a CREATE_GROUP naming the empty snapshot, signed by its own stewards, that passes gate and caps; and they govern |
| Authority.UnnamedStartsBranch | internal/group/group.go:1198-1268 | a first transition without a prior state needs the inherited quorum and puts the inherited authority, amended, in force |
| Admission.GateExactly | internal/group/group.go:673-1154 | the gate passes exactly what is written out for each transition type: text lengths, the threshold within the stewards, the steward cap on distinct keys, the deadline, custody and slashing |
| Admission.AdvancesExactly | internal/group/group.go:459-1191 | with stewards in force, a transition that names its prior state is applied if and only if its clock value has 18 bytes, it names the head, its signer is within the rate limit and has nothing else on record there, its signatures meet the threshold, its type admits it, and each edit is within the caps |
| Admission.RefusedInOrder | internal/group/group.go:572-671 | else the first of clock, head, rate limit, equivocation and signatures that fails gives the error; what was presented is recorded exactly once the first three pass, applied or not |
| Admission.EditsPassExactly | internal/group/group.go:1308-1352 | the edits pass, all together, exactly when each is allowed on top of those before it |
| Admission.VerifiesExactly | internal/group/group.go:1426-1431 | a signature counts exactly when it verifies over the domain digest, group, kind 1, length and canonical bytes |
| Admission.ThresholdWithinStewards | internal/group/group.go:757-776 | over every run with a founding, an applied CHANGE_THRESHOLD asks for at least one and at most as many signatures as the authority in force has stewards |
| Admission.AddWithinCap | internal/group/group.go:730-747 | after an applied ADD_STEWARD there are at most MaxStewards distinct stewards |
| Admission.AppliedIsReflected | internal/group/group.go:673-1154 | after any applied transition the snapshot shows, under the key written out for its type, the value it carries: one for additions, zero for removed members and withdrawn answers, nothing for removed stewards |
| Commitment.FoundingCommitsExactly | internal/group/group.go:691-703 | the founding snapshot names exactly the recorded stewards if and only if every declared key has 32 bytes |
| Commitment.FoundingIsCommitted | internal/group/group.go:691-703 | after an accepted founding the root reached commits to its stewards if and only if every declared key has 32 bytes |
| Commitment.HeadCommitted | internal/group/group.go:691-703 | an advancing step commits its new root if and only if it is no CREATE_GROUP, or, without stewards, declares 32-byte keys, or, with stewards, the names in force and declared add up to the initial set |
| Commitment.EditsFollowAmend | internal/group/group.go:730-756 | the entry edits and the steward fold move the same set |
| Commitment.EditsFollowThreshold | internal/group/group.go:757-776 | the threshold entry follows the threshold fold |
| Commitment.CommitStep | internal/group/group.go:1156-1160 | one step keeps every visited snapshot committed, also when an old root is reached again |
| Commitment.RootsCommit | internal/group/group.go:1156-1160 | over every founded run whose CREATE_GROUPs have such names, if the snapshots visited since do not collide, at every visited root the recorded stewards are the keys with a steward entry in that snapshot, and the threshold is its threshold entry or the founding one |
| Commitment.HostsAgree | internal/group/group.go:691-703 | two hosts at one root, with digests not colliding on what they visited, agree on the steward set whatever runs led there, and on the threshold if they share the CREATE_GROUP |
| Commitment.RunKeepsUniqueKeys | internal/group/group.go:1356-1382 | no run creates a duplicate key |
| Growth.SequenceNumbersCountWrites | internal/group/group.go:1356-1382 | in a run without removals the sequence numbers add up to the writes made |
| Growth.SnapshotsNeverRecur | internal/group/group.go:793-801 | in such a run no hashed snapshot ever comes back |
| Growth.LogIsNewest | internal/group/group.go:1161-1169 | in every run the log is the newest MaxLogSize transitions applied, in order |
| Growth.ByteCapOverRuns | internal/group/group.go:1314-1336 | the byte cap holds over every run in which no update outgrows it |
| Deadlock.AddThenRemove | internal/group/group.go:730-756 | on the ledger, an accepted ADD_STEWARD and REMOVE_STEWARD of a new key restore the entries |
| Deadlock.HeldSignerIsRefused | internal/group/group.go:592-620 | a steward on record at the head is refused with EquivocationDetected for anything else |
| Deadlock.AddRemoveLocks | internal/group/group.go:793-801 | after both, a group of one steward is advanced by nothing that names its head but the very transition it signed there, while that is on record |
| Deadlock.QuorumExists | internal/crypto/crypto.go:150-185 | if every steward can sign and signatures are not shared, an accepted list exists exactly when the threshold is positive and at most the number of distinct keys |
| Deadlock.NextQuorumExactly | internal/group/group.go:757-773 | after an accepted transition the threshold is within the distinct keys unless it removes a steward when all were needed, raises the threshold past them, or restores too small an initial set; SLASH_STEWARD never breaks it |
| Deadlock.DeadlockIsFinal | internal/group/group.go:762-767 | with the threshold out of reach nothing that names its prior state ever advances the group again |
| Growth.EntryCountBounded | internal/group/group.go:1308-1352 | the entry count never exceeds MaxKVSize in any run |
| Replay.StepMirrors | internal/group/group.go:287-310 | replaying one accepted step on a mirrored ledger is refused exactly when a deadline has passed |
| Replay.RejectionMirrors | internal/group/group.go:459-1191 | a refused submission changes nothing that replay depends on |
| Replay.SubLogRecord | internal/group/equivocation.go:202-234 | what the original equivocation log let pass, the log of the replay lets pass |
| Replay.ReplayRebuilds | internal/group/group.go:287-310 | for every run, also with refusals before the founding, with self-contained transitions and no evicted equivocation entry: applying only the accepted transitions to a fresh branch accepts all of them if and only if no MIGRATE deadline has passed, and then gives the same snapshot, histories and log |
| Replay.RebuiltShowsTheSame | internal/group/group.go:329-387 | such a ledger has the same root, and the same stewards and threshold exactly unless the group was never founded and a refused CREATE_GROUP left its set on record |
| Counterexamples.DeadlineStopsRestart | internal/group/group.go:280-286 | a founded and moved group is rebuilt before its deadline and refused after it, under any digest |
| Counterexamples.AnyoneTakesOver | internal/group/group.go:623-664 | founded by one key that then removes itself, a group is re-founded and governed by another that no steward ever signed for |
| Counterexamples.LeftoverFounds | internal/group/group.go:656-664 | after a refused CREATE_GROUP of one key, one declaring another is refused with the other's signature, and with the first key's signature puts the first key in force |
| Counterexamples.ShortKeyIsNotCommitted | internal/group/group.go:691-703 | an accepted CREATE_GROUP with a one-byte key leaves a snapshot that does not name its steward |
| Counterexamples.UnnamedForgetsThreshold | internal/group/group.go:1248-1268 | after an accepted raise to two an unnamed transition signed by both leaves a threshold of one on record |
| Counterexamples.RemovalDeadlocks | internal/group/group.go:748-756 | two stewards who must both sign remove one of them, accepted; nothing later is ever applied |
| Counterexamples.AddRemoveLocksAlice | internal/group/group.go:793-801 | Alice adds and removes Bob, all accepted; the founding snapshot is back, and nothing at another tick of the clock advances the group |
| Forest.ProspectiveStewardsAfterAdd | internal/group/group.go:1397-1412 | the loop builds the current set without repeats plus the key |
| Forest.ComputeCurrentStewards | internal/group/group.go:1198-1246 | the loops compute the next steward set |
| Forest.ApplyWrites | internal/group/group.go:673-1154 | the edits in order, stopping at the first refused one |
| Forest.State.CheckEquivocation | internal/group/equivocation.go:260-298 | creates the log on first use and records the presentation |
| Forest.State.ScreenHead | internal/group/group.go:572-621 | clock size, prior root, limiter and equivocation, with the error and the new fields |
| Forest.State.AuthorizeHead | internal/group/group.go:623-671 | the signature stage, including the initial set a CREATE_GROUP installs |
| Forest.VerifySlashSteward | internal/group/gates.go:100-135 | the loops over stewards and signatures give each verdict of the slash gate exactly in its case |
| Forest.VerifyDeclareCustody | internal/group/gates.go:81-94 | the loop over stewards accepts exactly a set tier of a current steward |
| Forest.State.CommitHead | internal/group/group.go:1156-1169 | the new snapshot, both histories under its root, the capped log |
| Forest.State.AllocateBranch | internal/group/branch.go:221-231 | the next ID maps to a fresh empty branch with the creator's stewards and threshold |
| Forest.State.PerformHead | internal/group/group.go:1156-1191 | edits, tail and durable write; a failed write leaves the state advanced |
| Forest.State.StepBranch | internal/group/group.go:508-570 | swapping a branch in and out is that branch's own step; genesis fields are restored in every case |
| Forest.State.WriteBack | internal/group/group.go:541-555 | everything is written back on success; after an error only the history maps, shared by reference, show |
| Forest.State.Apply | internal/group/group.go:459-1191 | the object after Apply, and the error, are those of the forest of independent ledgers |
| ForestRuns.ApplyIsOneBranchStep | internal/group/group.go:463-570 | a step changes only the branch it is routed to, BRANCH_CREATE acting on genesis |
| ForestRuns.NewBranchInherits | internal/group/group.go:1102-1115 | a new branch is empty and holds the creator's stewards and threshold as its initial ones |
| NewBranches.NewBranchIsOpen | internal/group/group.go:1102-1115 | on the forest, such a branch is open to exactly any self-signed CREATE_GROUP among prior-naming transitions |
| NewBranches.BranchIsTakenOver | internal/group/group.go:1102-1115 | Alice's accepted BRANCH_CREATE makes a branch that Bob, no steward, founds and governs |
| ForestRuns.RejectionTouchesNoBranch | internal/group/group.go:539-570 | a rejection other than a failed durable write changes no snapshot, history or log on any branch |
| ForestRuns.BranchesAreIndependent | internal/group/group.go:508-570 | after any run each branch is where its own submissions alone lead it |
| ForestRuns.GenesisIsItsOwnRun | internal/group/group.go:508-570 | the genesis fields after any run are those of the genesis submissions alone |
| ForestRuns.BranchesWithinCap | internal/group/group.go:485-494 | over every run the branches, genesis among them, are at most MaxBranches |
| ForestRuns.NewStateWithPersister | internal/group/group.go:287-310 | replays the stored log or stops at the first refused transition |
| ForestRuns.RestoreIsRebuild | internal/group/group.go:287-310 | start-up on a genesis log is the rebuild of the replay theorem |
| ForestRuns.DurableLogIsAccepted | internal/group/group.go:1176-1188 | the durable log holds exactly the accepted transitions, in order |
| ForestRuns.RestartRecovers | internal/group/group.go:287-310 | a restart succeeds if and only if no MIGRATE deadline has passed, and then shows the same root, histories and log, and the same stewards and threshold exactly unless the group was never founded and a refused CREATE_GROUP left its set on record |
| Hlc.CompareIsLexicographic | internal/hlc/hlc.go:106-108 | byte comparison is the lexicographic order of wall, reserved bytes and counter |
| Hlc.ComparePositions | internal/hlc/hlc.go:106-108 | values with zero reserved bytes compare as their (wall, counter) position, which determines them |
| Hlc.TickPosition | internal/hlc/hlc.go:147-220 | Tick gives the next position when the wall is not behind now; else the position at now, its counter going on from last when the lag is at most a minute and the counter is not zero |
| Hlc.TickAdvances | internal/hlc/hlc.go:147-220 | Tick exceeds last, is not behind either wall, and moves at most one position past the later of last and now, unless the counter overflows into a wall at its maximum |
| Hlc.ObserveAdvances | internal/hlc/hlc.go:233-318 | unless one of the two is the last value there is, Observe exceeds last and is not behind any wall; it exceeds remote exactly when the wall moved past the remote one or its reserved bytes are zero |
| Hlc.WallWraps | internal/hlc/hlc.go:147-220 | Tick fails to exceed last exactly when the counter overflows into a wall at its maximum, and then it starts from zero |
| Hlc.ObserveWraps | internal/hlc/hlc.go:233-318 | Observe fails to exceed last exactly when last or remote is the last value there is, and then it exceeds neither |
| Hosts.Host.SubmitTransition | sim/host.go:114-159 | ticks the cursor, applies, and sends the stamp only for a known group and an accepted transition |
| Hosts.Host.Deliver | sim/host.go:187-253 | succeeds exactly if applying does and the stamp is absent or has 18 bytes and a wall at most the limit ahead, 60 seconds unless set, walls from 2^63 on counting as past; observes into the cursor, counts drops and applications |
| Hosts.DeliveryMoves | sim/host.go:187-253 | a delivery moves the cursor, strictly forward and to no wall behind its own clock or the stamp, exactly when the stamp is in reach |
| Hosts.DriftBound | sim/host.go:208-236 | after n updates the wall is at most M + D + 1 + n/65536, whatever the network delivers |
| Hosts.CursorStep | sim/host.go:114-253 | a cursor never falls and strictly rises when it moves, past an observed remote value too |
| Hosts.Causality | sim/host.go:114-253 | a step that happened before another has the smaller clock, under skew, backward clocks, loss, repetition and reordering |
| Hosts.StampsFollowCausality | sim/host.go:114-159 | a submission that happened before another carries the smaller HLC |
| Broadcast.Broadcaster.Subscribe | internal/group/broadcaster.go:61-79 | a fresh ID with an empty channel, others untouched |
| Broadcast.Broadcaster.Unsubscribe | internal/group/broadcaster.go:68-78 | removes that channel only |
| Broadcast.Broadcaster.Broadcast | internal/group/broadcaster.go:83-104 | every subscriber gets the event, each full buffer loses its oldest one, and dropped counts those buffers |
| Broadcast.OfferEach | internal/group/broadcaster.go:86-103 | the loop over subscribers, in any order, gives that result |
| Broadcast.OfferAllKeepsNewest | internal/group/broadcaster.go:83-104 | without receives a channel is the newest at most 64 events |
| Broadcast.RunKeeps | internal/host/service.go:605-656 | the invariant of log, sender, channel and stream over every interleaving and every since_index |
| Broadcast.SubscribeLeavesNoGap | internal/host/service.go:605-656 | for every since_index, every genesis transition from the start of the stream on is streamed, queued, in flight or was lost to overflow, and none before it is streamed |
| Broadcast.CaughtUpExactly | internal/host/service.go:605-656 | a subscriber without overflow that has caught up has been streamed exactly the genesis transitions from that start on |
| Broadcast.StreamStartsAt | internal/host/service.go:605-640 | the start is since_index, unless there is none or the channel is offered an earlier transition: the next one at registration, or the one whose broadcast was still to come |
| Broadcast.OverflowKeepsNewest | internal/group/broadcaster.go:83-104 | for every subscriber the queue is the contiguous newest stretch of at most 64 and the event being sent is not lost |
| Broadcast.ZeroSinceStreamsPending | internal/host/service.go:605-656 | a run without since_index that streams a transition applied before registration and broadcast after it |
| Mirror.GetLog | internal/host/service.go:409-464 | from the cursor, or the end if that is earlier, the transitions asked for, 0 asking for 100 and more than 1000 for 1000, or all that are left; the next cursor, 0 exactly at the end; and the length of the log |
| Mirror.PagesCoverTheLog | internal/host/service.go:409-464 | the pages concatenate to the log from the cursor without gap or overlap, in ceiling-many requests |
| Mirror.RoundsAreCeiling | internal/federation/syncer.go:128-180 | the number of rounds is max(1, ceil(rest/100)) |
| Mirror.Bootstrap | internal/federation/syncer.go:128-180 | for every server log and whatever Apply answers, the mirror, the count and the error are those of working through the missing transitions one by one, in max(1, ceil(missing/100)) requests or up to the page of the refused one |
| Mirror.AcceptedLogIsMirrored | internal/federation/syncer.go:128-180 | from a log the mirror accepts exactly the missing transitions are applied, the logs then agree, and nothing is missing for a second bootstrap |
| MirrorRuns.MirrorConverges | internal/federation/syncer.go:128-180 | from a log that any run of the server left, a mirror that has applied any prefix applies exactly the rest, if no MIGRATE deadline has passed, and shows the server's root, histories, stewards and threshold |
| Mirror.LogGrowsByApplied | internal/federation/syncer.go:149-170 | the mirror's log grows by exactly the transitions applied, so a skipped one is missing |
| Mirror.StalePriorStops | internal/federation/syncer.go:295-305 | a transition with another prior state than the head ends the bootstrap and is never skipped |
| RateLimit.Bucket.Allow | internal/ratelimit/ratelimit.go:64-81 | refills by elapsed time up to the burst, then takes a token if there is one |
| RateLimit.Limiter.Allow | internal/ratelimit/ratelimit.go:143-162 | changes only the bucket of its key, creating it full, and gives the wait estimate on refusal |
| RateLimit.RetryAfter | internal/ratelimit/ratelimit.go:168-178 | the estimate, whose reading of the tokens refills the bucket |
| RateLimit.KeysAreIndependent | internal/ratelimit/ratelimit.go:143-162 | bucket and grants of a key are those of a limiter that saw only its requests |
| RateLimit.GrantsAreBounded | internal/ratelimit/ratelimit.go:64-81 | grants never exceed the burst plus what the time between earliest and latest reading earns, even if the clock steps back, and tokens stay in [0, burst] |
| RateLimit.GrantedExactly | internal/ratelimit/ratelimit.go:64-81 | while the clock does not step back, a request is granted if and only if the burst is at least one and, counted from each earlier request of its key, the grants since and one more are within the burst plus what the time since earns |
| RateLimit.BurstIsGranted | internal/ratelimit/ratelimit.go:64-81 | the first requests of a key, as many as the burst, are granted at whatever times they come |
| RateLimit.WaitSuffices | internal/ratelimit/ratelimit.go:168-178 | after the estimated wait a token is there, exactly when the burst is at least one |
| RateLimit.WaitExactly | internal/ratelimit/ratelimit.go:168-178 | and there is none before: a token is there exactly from the end of the wait on |
| Calendar.CivilIsDate | internal/product/recurrence.go:267-281 | every day has a valid date whose day number it is |
| Calendar.CivilOfDate | internal/product/recurrence.go:267-281 | a date is read back from its day number |
| Calendar.Rebuilt | internal/product/recurrence.go:187-190 | rebuilding an instant from its fields loses exactly the fraction of a second |
| Calendar.EpochIsDayZero | internal/product/recurrence.go:184-190 | the first 86,400 seconds are 1 January 1970, a Thursday |
| Recurrence.RepeatDays | internal/product/recurrence.go:166-179 | DAILY, and WEEKLY without days: the instants start, start + step, … up to end, COUNT and 1000, none skipped |
| Recurrence.SeriesExactly | internal/product/recurrence.go:154-179 | of an increasing sequence it holds exactly the first ones not after the end, in order |
| Recurrence.LastDayOfMonth | internal/product/recurrence.go:288-292 | day 0 of the next month is the length of the month |
| Recurrence.NextMonth | internal/product/recurrence.go:267-279 | the year-carrying loop reaches the right month, clamped to its length |
| Recurrence.RepeatMonths | internal/product/recurrence.go:251-281 | the i-th instance is the start month plus i*INTERVAL |
| Recurrence.MonthsNeverDrift | internal/product/recurrence.go:251-281 | its day is the start's day clamped to that month, whatever months came between |
| Recurrence.MonthsIncrease | internal/product/recurrence.go:251-281 | the instants strictly increase |
| Recurrence.RepeatWeekdays | internal/product/recurrence.go:182-233 | the loop returns the weekly enumeration over 501 weeks cut at COUNT and 1000, in spite of its early exits |
| Recurrence.KeptExactly | internal/product/recurrence.go:182-233 | that enumeration holds exactly the instants of [start, end] at the start's clock, on a listed day, in an on-interval Sunday week |
| Recurrence.KeptIncreases | internal/product/recurrence.go:182-233 | with days in SU..SA order it strictly increases |
| Recurrence.OrderExactly | internal/product/recurrence.go:196-216 | the enumeration of a day list strictly increases for every start and end if and only if the list is in SU..SA order without repeats |
| Recurrence.ExpansionOrderExactly | internal/product/recurrence.go:182-233 | all expansions of a pattern with days strictly increase if and only if the days are in that order or COUNT is 1 |
| Recurrence.ExpandInstances | internal/product/recurrence.go:142-285 | DAILY: exactly the instants start + k*INTERVAL days with k below COUNT and 1000, not after either end; WEEKLY without days the same with 7*INTERVAL; MONTHLY exactly the instants k*INTERVAL months later on the start's day or the last of the month; with days those on the schedule in range, all unless COUNT or 1000 cuts them, and then the first if the days are in order; no other frequency gives any |
| Recurrence.DayIndexIsPosition | internal/product/recurrence.go:111-119 | the day codes stand in the order of the week from Sunday |
| Recurrence.ExpansionIsOrdered | internal/product/recurrence.go:142-285 | every expansion is within [start, end] and within the limit, and strictly increasing unless days are given out of week order |
| Recurrence.StartComesFirst | internal/product/recurrence.go:137-142 | the start is the first instance if and only if it is not after the end and, with days in any order, it is a whole second and the first listed code whose date in its week lies in [start, end] is its weekday |
| Recurrence.SortedDaysLead | internal/product/recurrence.go:196-216 | with days in week order the start need only be on one of them |
| Recurrence.FridayBeforeMonday | internal/product/recurrence.go:196-216 | BYDAY=FR,MO from a Monday starts with the Friday and goes back to the Monday |
| Rrule.ParseRRULE | internal/product/recurrence.go:25-86 | parts are read from the left, the first error stops, FREQ is required |
| Rrule.ParsedIsUsable | internal/product/recurrence.go:25-86 | an accepted pattern has one of the three frequencies and only known day codes |
| Rrule.AtoiOfItoa | internal/product/recurrence.go:53-58 | a count up to the 64-bit maximum is read back from its text |
| Rrule.CompactRoundTrip | internal/web/handlers.go:862-865 | a date of a four-digit year is read back from the form UNTIL uses |
| Rrule.BuildRRULE | internal/web/handlers.go:831-869 | the parts appended step by step are those of the rule, joined |
| Rrule.DayCode | internal/web/handlers.go:872-890 | the code of a weekday, which the expansion reads back as that weekday |
| Rrule.RuleRoundTrip | internal/web/handlers.go:831-869 | the built rule parses back to FREQ, COUNT or else UNTIL, the start's weekday exactly for weekly, and INTERVAL 1; an unsupported type gives the refused empty rule |
| Rrule.PatternRoundTrip | internal/product/recurrence.go:25-109 | every pattern of a known frequency and known codes, in machine integers, its end a whole second of a four-digit year, is the reading of its RFC 5545 text: FREQ, INTERVAL, COUNT, UNTIL to the second and a BYDAY list, together |
| Rrule.StampRoundTrip | internal/product/recurrence.go:90-109 | an instant is read back from YYYYMMDDTHHMMSSZ |
| Rrule.ReadDayList | internal/product/recurrence.go:67-73 | a comma-separated list of codes is appended to the days, in order |
| Rrule.NumbersExactly | internal/product/recurrence.go:53-79 | COUNT and INTERVAL are accepted exactly for digits, after a plus sign or not, of a value from 1 to 2^63 - 1, and refused with the text otherwise |
| Rrule.WeeklyFormStartsAtStart | internal/web/handlers.go:938-957 | the weekly series of a form starts with the start if and only if that is a whole second not after the end, and stays on its weekday and clock |
| Rrule.EndDateEndsAtMidnight | internal/web/handlers.go:859-866 | with an end date no instance is later than that day's midnight |

## Left out

- Ed25519, SHA-256, protobuf marshalling and UTF-8 validation: parameters, see above.
- SQLite, HTTP, ConnectRPC, SMTP, Stripe, MCP, ActivityPub, templates and WireGuard: I/O and foreign libraries.
- Mesh registry, custody table, stored evidence and host certificates outside the key/value entries: their verdict enters Apply as an argument; their own contents, and their atomicity when a later check fails, are not modelled.
- Forest.State.Apply: the rate limiter's verdict and the broadcast are not part of the object (the broadcaster is modelled on its own); the keySeq map, which nothing reads, and genesisHLC are absent; the uint32 branch counter does not wrap.
- Forest.ApplyWrites: the edits of a payload are listed first and applied together, so when a later field check and a size cap would both refuse a transition, the model reports the field check.
- Ledger.RejectionKeepsCore: a failed durable write counts as an advanced state, because the fields have already been replaced when it is reported.
- Forest.State.AuthorizeHead: signatures are byte strings as compared by the verifier; the truncation of a count of more than 2^32 signatures is not modelled.
- Replay.ReplayRebuilds: asks for self-contained transitions (no mesh or branch payloads) and no evicted equivocation entry, since mesh and branch allocation read tables outside the ledger.
- Commitment.HostsAgree: collision-freeness of the digest is asked for the snapshots visited, not for all byte strings.
- The genesis Branch object's own snapshot and counters, which the source does not update, and the listing of branches (`branchRegistry.list`) that shows them.
- Mirror.Bootstrap: the server log is fixed and every page arrives; the texts of errors are not modelled, so whether one speaks of a duplicate is given with each application. `Verify` and the reconnecting loop of `Live` are not modelled.
- Broadcast.SubscribeLeavesNoGap: one subscriber with the log below its cap; cancellation of the stream ends the run, and the state root an event carries (for replayed events the current one) is absent.
- Hosts.Host.Deliver: routing of the payload to a group is not modelled (the source decodes it with a zero group ID); only its clock, its counters and the verdict of applying are.
- RateLimit.WaitSuffices: durations are real seconds; floating-point rounding and the truncation of the estimate to whole nanoseconds are not modelled.
- Recurrence.ExpandInstances: integers are unbounded, so an INTERVAL near the 64-bit limit does not overflow as `7*interval` and `month+interval` would.
- Rrule.ParseRRULE: white space and letter case are those of ASCII; other Unicode spaces and case mappings are not modelled.
- Rrule.BuildRRULE: the start is an instant in UTC, as the form parses it.
- Product store, seat counts and orders: the source records no quantity, so conservation would need restrictions of our own.
- Cross-host uniqueness of clock values: they carry no host identity, so equal stamps of concurrent steps are possible.
