/** Concrete runs, under any digest, in which a promise of the source does not hold. */
module Counterexamples {
  import opened Basics
  import opened ByteStrings
  import opened Snapshot
  import opened KeyValue
  import opened Multisig
  import opened Equivocation
  import opened Transitions
  import opened Ledger
  import opened Authority
  import opened Commitment
  import opened Deadlock
  import opened Replay
  import opened Toy

  // ----- Restart after a deadline -----

  /** Alice founds the group and moves it. */
  function Moved(digest: Bytes -> Bytes32): seq<Submission>
  {
    FOUNDED + [Submit(ByAlice(0 as char, Head(Lab(digest), FOUNDED), MOVE))]
  }

  /** The source calls replay of the durable log always safe. It is not once a MIGRATE deadline has
      passed: this group can be rebuilt before the deadline but not after. */
  lemma DeadlineStopsRestart(digest: Bytes -> Bytes32)
    ensures var e, subs := Lab(digest), Moved(digest);
            var ts := Applied(e, FRESH, subs);
            && GenesisRun(e, subs) && Durable(subs) && ts == [subs[0].t, subs[1].t]
            && Rebuild(e, ts, [0, 0]).Some? && Rebuild(e, ts, [0, AFTER_DEADLINE]).None?
  {
    assert AFTER_DEADLINE == 20_000_000_000;
    hide *;
    var e, subs := Lab(digest), Moved(digest);
    MoveIsApplied(digest);
    var ts := Applied(e, FRESH, subs);
    ReplayRebuilds(e, subs, [0, 0]);
    ReplayRebuilds(e, subs, [0, AFTER_DEADLINE]);
    RebuiltInTime(e, ts, [0, 0], After(e, FRESH, subs));
    RebuiltInTime(e, ts, [0, AFTER_DEADLINE], After(e, FRESH, subs));
  }

  lemma MoveIsApplied(digest: Bytes -> Bytes32)
    ensures var e, subs := Lab(digest), Moved(digest);
            && |subs| == 2 && GenesisRun(e, subs) && Durable(subs) && Applied(e, FRESH, subs) == [subs[0].t, subs[1].t]
            && subs[0].t.payload.CreateGroup? && subs[1].t.payload == MOVE
            && AllSelfContained(Applied(e, FRESH, subs)) && EqLogOf(e, After(e, FRESH, subs)).evictions == 0
  {
    hide Step, Governs, Root, Lab, GenesisRun, After, Applied, EqLogOf;
    var e, subs := Lab(digest), Moved(digest);
    FoundedByAlice(digest);
    ActsNext(digest, MOVE);
  }

  lemma ActsNext(digest: Bytes -> Bytes32, payload: Payload)
    requires payload == MOVE || payload == RemoveSteward(ALICE)
    ensures var e := Lab(digest);
            var l, t := After(e, FRESH, FOUNDED), ByAlice(0 as char, Head(e, FOUNDED), payload);
            var subs := FOUNDED + [Submit(t)];
            && GenesisRun(e, subs) && Applied(e, FRESH, subs) == [FOUNDED[0].t, t]
            && After(e, FRESH, subs) == Step(e, l, t, AT_START).ledger && Advanced(Step(e, l, t, AT_START))
            && Unbounded(e, After(e, FRESH, subs))
            && NamesPrior(t) && Governs(e.platform, l, Authority([ALICE], 1, [ALICE]))
  {
    hide Step, Governs, Root, Lab, GenesisRun, After, Applied, EqLogOf, NotOnRecord, Unbounded;
    var e := Lab(digest);
    var t := ByAlice(0 as char, Head(e, FOUNDED), payload);
    FoundedByAlice(digest);
    AliceActs(digest, After(e, FRESH, FOUNDED), 0 as char, payload, Authority([ALICE], 1, [ALICE]));
    RunSnoc(e, FOUNDED, Submit(t));
    assert [FOUNDED[0].t] + [t] == [FOUNDED[0].t, t];
  }

  lemma RebuiltInTime(e: Env, ts: seq<Transition>, nows: seq<int>, l: Ledger)
    requires |ts| == 2 == |nows| && ReplaysTo(e, ts, nows, l)
    requires ts[0].payload.CreateGroup? && ts[1].payload == MOVE
    ensures Rebuild(e, ts, nows).Some? <==> nows[1] <= 10 * 1_000_000_000
  {
    hide Rebuild, Resembles;
    assert DeadlinesHold(ts, nows) <==> DeadlineHolds(ts[1], nows[1]);
  }

  // ----- A group without stewards -----

  /** Alice founds the group and removes herself. */
  function Abandoned(digest: Bytes -> Bytes32): seq<Submission>
  {
    FOUNDED + [Submit(ByAlice(0 as char, Head(Lab(digest), FOUNDED), RemoveSteward(ALICE)))]
  }

  /** Then Bob founds it again. */
  function TakenOver(digest: Bytes -> Bytes32): seq<Submission>
  {
    Abandoned(digest) + [Submit(Create(Head(Lab(digest), Abandoned(digest)), "g", [BOB], 1, [BOB]))]
  }

  /** Removing the last steward opens the group: a CREATE_GROUP that only Bob signed, whom nobody ever
      made a steward, is applied, and Bob governs the group from then on. */
  lemma AnyoneTakesOver(digest: Bytes -> Bytes32)
    ensures var e, subs := Lab(digest), TakenOver(digest);
            && GenesisRun(e, subs) && Applied(e, FRESH, subs) == [subs[0].t, subs[1].t, subs[2].t]
            && Governs(e.platform, After(e, FRESH, subs), Authority([BOB], 1, [BOB]))
            && !SignedBy(TransitionVerifier(e.platform, subs[2].t), ALICE, Signatures(subs[2].t))
  {
    hide Step, Governs, Root, GenesisRun, After, Applied, Amend, Fix32;
    var e, subs := Lab(digest), TakenOver(digest);
    var l := After(e, FRESH, FOUNDED);
    ActsNext(digest, RemoveSteward(ALICE));
    RemovedHerself(e, l, Head(e, FOUNDED));
    BobRefounds(digest, After(e, FRESH, Abandoned(digest)));
    RunSnoc(e, Abandoned(digest), subs[2]);
    assert subs[..2] == Abandoned(digest);
    assert [subs[0].t, subs[1].t] + [subs[2].t] == [subs[0].t, subs[1].t, subs[2].t];
    assert BOB[31] != ALICE[31];
  }

  lemma RemovedHerself(e: Env, l: Ledger, prior: Bytes32)
    requires Governs(e.platform, l, Authority([ALICE], 1, [ALICE]))
    requires Advanced(Step(e, l, ByAlice(0 as char, prior, RemoveSteward(ALICE)), AT_START))
    ensures Governs(e.platform, Step(e, l, ByAlice(0 as char, prior, RemoveSteward(ALICE)), AT_START).ledger,
                    Authority([], 1, [ALICE]))
  {
    hide Step, Governs;
    NoneLeft();
    GovernsStep(e, l, ByAlice(0 as char, prior, RemoveSteward(ALICE)), AT_START, Authority([ALICE], 1, [ALICE]));
  }

  lemma NoneLeft()
    ensures Without([ALICE], ALICE) == []
  {
    assert [ALICE][..0] == [] && Without([], ALICE) == [];
  }

  lemma BobRefounds(digest: Bytes -> Bytes32, l: Ledger)
    requires Governs(Lab(digest).platform, l, Authority([], 1, [ALICE]))
    ensures var e := Lab(digest);
            var o := Step(e, l, Create(Root(e.platform, l.entries), "g", [BOB], 1, [BOB]), AT_START);
            Advanced(o) && Governs(e.platform, o.ledger, Authority([BOB], 1, [BOB]))
  {
    var e := Lab(digest);
    var t := Create(Root(e.platform, l.entries), "g", [BOB], 1, [BOB]);
    OneKey(BOB);
    OneSigner(TransitionVerifier(e.platform, t), BOB, BOB);
    CreateExecutes(digest, l, t.prior, "g", [BOB], 1, [BOB]);
    ExecuteAdvances(e, l, t, AT_START);
    hide Step, Root, PadKeys, Accepts, Execute, Edits, ApplyEdits, Gate;
    AnyoneRefounds(e, l, t, AT_START, Authority([], 1, [ALICE]));
  }

  // ----- A refused CREATE_GROUP stays on record -----

  /** Alice's CREATE_GROUP is refused for its empty name; then one comes in that declares Bob. */
  function Claimed(signer: PublicKey): seq<Submission>
  {
    [Submit(Create([], "", [ALICE], 1, [ALICE])), Submit(Create([], "g", [BOB], 1, [signer]))]
  }

  /** A refused CREATE_GROUP whose signatures were good has installed its stewards. The next one, if it
      names no prior state, is checked against them and records them: signed by Bob, whom it declares, it
      is refused; signed by Alice it founds the group, and not Bob but Alice governs it. */
  lemma LeftoverFounds(digest: Bytes -> Bytes32)
    ensures var e := Lab(digest);
            && Applied(e, FRESH, Claimed(BOB)) == []
            && Applied(e, FRESH, Claimed(ALICE)) == [Claimed(ALICE)[1].t]
            && Governs(e.platform, After(e, FRESH, Claimed(ALICE)), Authority([ALICE], 1, [ALICE]))
  {
    var e, l := Lab(digest), FRESH.(initialStewards := [ALICE], initialThreshold := 1);
    FirstIsRefused(digest);
    SecondIsCheckedAgainst(digest, BOB);
    SecondIsCheckedAgainst(digest, ALICE);
    assert BOB[31] != ALICE[31];
    hide Step, Governs, Root;
    TwoSubmissions(e, Claimed(BOB)[0], Claimed(BOB)[1]);
    TwoSubmissions(e, Claimed(ALICE)[0], Claimed(ALICE)[1]);
  }

  lemma TwoSubmissions(e: Env, a: Submission, b: Submission)
    ensures var o := Step(e, FRESH, a.t, a.call);
            var q := Step(e, o.ledger, b.t, b.call);
            && After(e, FRESH, [a, b]) == q.ledger
            && Applied(e, FRESH, [a, b]) == (if Advanced(o) then [a.t] else []) + (if Advanced(q) then [b.t] else [])
  {
    hide Step;
    assert [a, b][..1] == [a] && [a][..0] == [];
    assert After(e, FRESH, []) == FRESH && Applied(e, FRESH, []) == [];
    assert After(e, FRESH, [a]) == Step(e, FRESH, a.t, a.call).ledger;
    assert Applied(e, FRESH, [a]) == [] + if Advanced(Step(e, FRESH, a.t, a.call)) then [a.t] else [];
  }

  lemma FirstIsRefused(digest: Bytes -> Bytes32)
    ensures Step(Lab(digest), FRESH, Create([], "", [ALICE], 1, [ALICE]), AT_START)
         == Rejected(BadField, FRESH.(initialStewards := [ALICE], initialThreshold := 1))
  {
    var e, t := Lab(digest), Create([], "", [ALICE], 1, [ALICE]);
    OneKey(ALICE);
    OneSigner(TransitionVerifier(e.platform, t), ALICE, ALICE);
    CreateExecutes(digest, FRESH.(initialStewards := [ALICE], initialThreshold := 1), [], "", [ALICE], 1, [ALICE]);
    hide PadKeys, Accepts, Root, Execute;
  }

  lemma SecondIsCheckedAgainst(digest: Bytes -> Bytes32, signer: PublicKey)
    ensures var e, l := Lab(digest), FRESH.(initialStewards := [ALICE], initialThreshold := 1);
            var o := Step(e, l, Create([], "g", [BOB], 1, [signer]), AT_START);
            && (Advanced(o) <==> signer == ALICE)
            && (Advanced(o) ==> Governs(e.platform, o.ledger, Authority([ALICE], 1, [ALICE])))
  {
    var e, l := Lab(digest), FRESH.(initialStewards := [ALICE], initialThreshold := 1);
    var t := Create([], "g", [BOB], 1, [signer]);
    OneSigner(TransitionVerifier(e.platform, t), ALICE, signer);
    CreateExecutes(digest, l, [], "g", [BOB], 1, [signer]);
    hide PadKeys, Accepts, Root, Execute;
    assert Screen(e, l, t, AT_START) == Go(l);
    assert Authorize(e.platform, l, t) == if signer == ALICE then Go(l) else Stop(BadSignatures, l);
    hide Screen, Authorize;
    if signer == ALICE {
      LeftoverGoverns(e, l, t, AT_START);
      hide Step;
      GovernsWhat(e.platform, Step(e, l, t, AT_START).ledger, Authority([ALICE], 1, [ALICE]));
    }
  }

  // ----- A root already signed -----

  /** Alice adds Bob. */
  function WithBob(digest: Bytes -> Bytes32): seq<Submission>
  {
    FOUNDED + [Submit(ByAlice(1 as char, Head(Lab(digest), FOUNDED), AddSteward(BOB)))]
  }

  /** And removes him again. */
  function WithoutBob(digest: Bytes -> Bytes32): seq<Submission>
  {
    WithBob(digest) + [Submit(ByAlice(2 as char, Head(Lab(digest), WithBob(digest)), RemoveSteward(BOB)))]
  }

  /** Adding a steward and removing it again locks a group of one, as long as the digest tells the two
      snapshots apart. Everything so far was applied, the snapshot is that of the founding, and nothing that
      names it advances the group any more, except at the tick of the ADD. */
  lemma AddRemoveLocksAlice(digest: Bytes -> Bytes32, t: Transition, call: Call)
    requires Head(Lab(digest), FOUNDED) != Head(Lab(digest), WithBob(digest))
    requires NamesPrior(t) && t.hlc != Zeros(17) + [1 as char]
    ensures var e, subs := Lab(digest), WithoutBob(digest);
            && GenesisRun(e, subs) && Applied(e, FRESH, subs) == [subs[0].t, subs[1].t, subs[2].t]
            && After(e, FRESH, subs).entries == After(e, FRESH, FOUNDED).entries
            && !Advanced(Step(e, After(e, FRESH, subs), t, call))
  {
    hide Step, Governs, Root, Lab, GenesisRun, After, Applied, EqLogOf, NotOnRecord, Unbounded, Fix32, HasKey;
    hide StewardEntry, Coherent, Stamp;
    var e, a := Lab(digest), Authority([ALICE], 1, [ALICE]);
    BobAdded(digest);
    BobRemoved(digest);
    var l, add, remove := After(e, FRESH, FOUNDED), WithBob(digest)[1].t, WithoutBob(digest)[2].t;
    NoBobYet(digest);
    BobIsNotAlice();
    AddThenRemove(e, l, add, AT_START, remove, AT_START);
    if Advanced(Step(e, After(e, FRESH, WithoutBob(digest)), t, call)) {
      AddRemoveLocks(e, l, add, AT_START, remove, AT_START, t, call, a, ALICE);
      StampsDiffer(e.platform, t, add);
    }
  }

  lemma StampsDiffer(p: Platform, t: Transition, u: Transition)
    requires Stamp(p, t) == Stamp(p, u)
    ensures t.hlc == u.hlc
  {
  }

  lemma BobIsNotAlice()
    ensures ALICE != BOB && Fix32(BOB) == BOB && ALICE != ZERO_KEY
  {
    assert ALICE[31] != BOB[31] && ALICE[31] != ZERO_KEY[31];
  }

  lemma BobAdded(digest: Bytes -> Bytes32)
    ensures var e, subs := Lab(digest), WithBob(digest);
            var l, t := After(e, FRESH, FOUNDED), subs[1].t;
            && |subs| == 2 && GenesisRun(e, subs) && Applied(e, FRESH, subs) == [subs[0].t, t]
            && After(e, FRESH, subs) == Step(e, l, t, AT_START).ledger && Advanced(Step(e, l, t, AT_START))
            && NamesPrior(t) && Unbounded(e, After(e, FRESH, subs)) && Coherent(EqLogOf(e, l))
            && Governs(e.platform, l, Authority([ALICE], 1, [ALICE]))
            && Governs(e.platform, After(e, FRESH, subs), Authority([ALICE, BOB], 1, [ALICE]))
            && t.payload == AddSteward(BOB)
  {
    hide Step, Governs, Root, Lab, GenesisRun, After, Applied, NotOnRecord, Unbounded, Amend;
    var e, a := Lab(digest), Authority([ALICE], 1, [ALICE]);
    var l, t := After(e, FRESH, FOUNDED), WithBob(digest)[1].t;
    FoundedByAlice(digest);
    assert Coherent(EmptyLog(0));
    AliceActs(digest, l, 1 as char, AddSteward(BOB), a);
    RunSnoc(e, FOUNDED, Submit(t));
    assert [FOUNDED[0].t] + [t] == [FOUNDED[0].t, t];
    GovernsStep(e, l, t, AT_START, a);
    AddedBob();
  }

  lemma AddedBob()
    ensures Amend(Authority([ALICE], 1, [ALICE]), AddSteward(BOB)) == Authority([ALICE, BOB], 1, [ALICE])
    ensures Amend(Authority([ALICE, BOB], 1, [ALICE]), RemoveSteward(BOB)) == Authority([ALICE], 1, [ALICE])
  {
    BobIsNotAlice();
    assert [ALICE] + [BOB] == [ALICE, BOB] && [ALICE, BOB][..1] == [ALICE] && [ALICE][..0] == [];
    assert Without([], BOB) == [] && Without([ALICE], BOB) == [ALICE] && Without([ALICE, BOB], BOB) == [ALICE];
  }

  lemma BobRemoved(digest: Bytes -> Bytes32)
    requires Head(Lab(digest), FOUNDED) != Head(Lab(digest), WithBob(digest))
    ensures var e, subs := Lab(digest), WithoutBob(digest);
            var l, t := After(e, FRESH, WithBob(digest)), subs[2].t;
            && |subs| == 3 && GenesisRun(e, subs) && Applied(e, FRESH, subs) == [subs[0].t, subs[1].t, t]
            && After(e, FRESH, subs) == Step(e, l, t, AT_START).ledger && Advanced(Step(e, l, t, AT_START))
            && NamesPrior(t) && t.payload == RemoveSteward(BOB)
            && EqKey(ALICE, Head(e, FOUNDED)) in EqLogOf(e, After(e, FRESH, subs)).seen
  {
    hide Step, Governs, Root, Lab, GenesisRun, After, Applied, Unbounded, Amend, EqLogOf, Record;
    var e, a := Lab(digest), Authority([ALICE, BOB], 1, [ALICE]);
    var l, t := After(e, FRESH, WithBob(digest)), WithoutBob(digest)[2].t;
    BobAdded(digest);
    OnlyAddOnRecord(digest);
    hide NotOnRecord;
    AliceActs(digest, l, 2 as char, RemoveSteward(BOB), a);
    RunSnoc(e, WithBob(digest), Submit(t));
    assert [WithBob(digest)[0].t, WithBob(digest)[1].t] + [t] == [WithBob(digest)[0].t, WithBob(digest)[1].t, t];
    StaysOnRecord(e, l, t, AT_START, EqKey(ALICE, Head(e, FOUNDED)));
  }

  /** After the ADD, Alice's signature is on record at the founding root and nowhere else. */
  lemma OnlyAddOnRecord(digest: Bytes -> Bytes32)
    requires Head(Lab(digest), FOUNDED) != Head(Lab(digest), WithBob(digest))
    ensures var e := Lab(digest);
            var l := After(e, FRESH, WithBob(digest));
            && NotOnRecord(e, l, ALICE) && EqKey(ALICE, Head(e, FOUNDED)) in EqLogOf(e, l).seen
            && Coherent(EqLogOf(e, l))
  {
    hide Step, Governs, Root, Lab, GenesisRun, After, Applied, Amend, Fix32;
    var e := Lab(digest);
    var l, t := After(e, FRESH, FOUNDED), WithBob(digest)[1].t;
    FoundedByAlice(digest);
    BobAdded(digest);
    BobIsNotAlice();
    OneStewardRecorded(e, l, t, AT_START, Authority([ALICE], 1, [ALICE]), ALICE);
    LogAfter(e, l, t, AT_START);
    RecordShape(EmptyLog(0), PresentationOf(e.platform, SigningKey(e.platform, l, t), t));
    PriorIsHead(e, t);
    hide SigningKey;
  }

  lemma PriorIsHead(e: Env, t: Transition)
    requires |t.prior| == 32
    ensures Fix32(t.prior) == t.prior
  {
  }

  lemma StaysOnRecord(e: Env, l: Ledger, t: Transition, call: Call, q: EqKey)
    requires NamesPrior(t) && Advanced(Step(e, l, t, call)) && q in EqLogOf(e, l).seen
    requires Coherent(EqLogOf(e, l)) && Unbounded(e, l)
    ensures q in EqLogOf(e, Step(e, l, t, call).ledger).seen
  {
    LogAfter(e, l, t, call);
    RecordShape(EqLogOf(e, l), PresentationOf(e.platform, SigningKey(e.platform, l, t), t));
    hide Step, SigningKey, Record;
  }

  lemma NoBobYet(digest: Bytes -> Bytes32)
    ensures !HasKey(After(Lab(digest), FRESH, FOUNDED).entries, StewardEntry(BOB))
  {
    var e, t := Lab(digest), FOUNDED[0].t;
    var l := After(e, FRESH, FOUNDED);
    FoundedByAlice(digest);
    BobIsNotAlice();
    FreshIsUnfounded();
    FoundingIsCommitted(e, FRESH, t, AT_START);
    hide Step, Root, Lab, GenesisRun, After, Applied, Fix32;
    CommittedWhat(e.platform, l, l.entries, Authority([ALICE], 1, [ALICE]), 1);
    NotNamed(l.entries);
  }

  lemma NotNamed(s: Entries)
    requires StewardKeys(s) == StewardNames([ALICE]) && ALICE != BOB
    ensures !HasKey(s, StewardEntry(BOB))
  {
    if HasKey(s, StewardEntry(BOB)) {
      assert StewardEntry(BOB) in StewardKeys(s);
      StewardEntryInjective(ALICE, BOB);
    }
  }

  // ----- Two stewards -----

  /** Alice and Bob found a group, both signing. */
  function Pair(threshold: uint32): seq<Submission>
  {
    [Submit(Create([], "g", [ALICE, BOB], threshold, [ALICE, BOB]))]
  }

  lemma BothSign(v: Verifier, threshold: nat)
    requires 1 <= threshold <= 2 && forall k, s :: v(k, s) <==> s == k
    ensures Accepts(v, [ALICE, BOB], threshold, [ALICE, BOB])
    ensures SigningSteward(v, [ALICE, BOB], [ALICE, BOB]) == ALICE
  {
    BobIsNotAlice();
    var both: seq<PublicKey>, sigs: seq<Signature> := [ALICE, BOB], [ALICE, BOB];
    AcceptsExactly(v, both, threshold, sigs);
    assert Signers(v, both, sigs) == {ALICE, BOB} by {
      assert sigs[0] in sigs && sigs[1] in sigs;
    }
    assert ALICE in both && v(ALICE, sigs[0]);
    hide Accepts;
  }

  lemma PairFounds(digest: Bytes -> Bytes32, threshold: uint32)
    requires 1 <= threshold <= 2
    ensures var e, subs := Lab(digest), Pair(threshold);
            var l := After(e, FRESH, subs);
            && GenesisRun(e, subs) && Applied(e, FRESH, subs) == [subs[0].t]
            && Governs(e.platform, l, Authority([ALICE, BOB], threshold, [ALICE, BOB]))
            && l.initialThreshold == threshold
            && EqLogOf(e, l) == EmptyLog(0) && NotOnRecord(e, l, ALICE)
  {
    var e, t := Lab(digest), Pair(threshold)[0].t;
    TwoKeysPadded();
    BothSign(TransitionVerifier(e.platform, t), threshold);
    hide Step, Governs, Root, PadKeys, Accepts, GenesisRun, After, Applied;
    Founded(digest, [ALICE, BOB], threshold, [ALICE, BOB]);
    FoundingRecords(e, t, AT_START);
  }

  lemma TwoKeysPadded()
    ensures PadKeys([ALICE, BOB]) == [ALICE, BOB]
  {
    assert [ALICE, BOB][..1] == [ALICE];
    OneKey(ALICE);
    assert [ALICE] + [BOB] == [ALICE, BOB];
  }

  /** The founding's threshold stays on record as the initial one. */
  lemma FoundingRecords(e: Env, t: Transition, call: Call)
    requires Advanced(Step(e, FRESH, t, call)) && t.payload.CreateGroup?
    ensures Step(e, FRESH, t, call).ledger.initialThreshold == t.payload.threshold
  {
    AdvancedShape(e, FRESH, t, call);
    var l1 := Screen(e, FRESH, t, call).ledger;
    FoundingAuthorized(e.platform, l1, t);
    hide Step, Screen, Gate, ApplyEdits, Edits, Root, Authorize, Found;
  }

  // ----- A threshold out of reach -----

  /** A group of two that asks for both signatures removes one of the two. */
  function Halved(digest: Bytes -> Bytes32): seq<Submission>
  {
    Pair(2) + [Submit(Signed(1 as char, Head(Lab(digest), Pair(2)), RemoveSteward(BOB), [ALICE, BOB]))]
  }

  /** Both sign the removal, it is applied, and nothing that names its prior state advances the group ever
      again: CHANGE_THRESHOLD refuses such a threshold, REMOVE_STEWARD does not. */
  lemma RemovalDeadlocks(digest: Bytes -> Bytes32, later: seq<Submission>)
    requires forall i :: 0 <= i < |later| ==> NamesPrior(later[i].t)
    ensures var e, subs := Lab(digest), Halved(digest);
            && GenesisRun(e, subs) && Applied(e, FRESH, subs) == [subs[0].t, subs[1].t]
            && Governs(e.platform, After(e, FRESH, subs), Authority([ALICE], 2, [ALICE, BOB]))
            && Applied(e, After(e, FRESH, subs), later) == []
  {
    hide *;
    HalfIsApplied(digest);
    OneKeyAtMost();
    DeadlockIsFinal(Lab(digest), After(Lab(digest), FRESH, Halved(digest)), later, Authority([ALICE], 2, [ALICE, BOB]));
  }

  lemma OneKeyAtMost()
    ensures |KeySet([ALICE])| < 2
  {
    KeysAtMost([ALICE]);
  }

  lemma HalfIsApplied(digest: Bytes -> Bytes32)
    ensures var e, subs := Lab(digest), Halved(digest);
            && |subs| == 2 && GenesisRun(e, subs) && Applied(e, FRESH, subs) == [subs[0].t, subs[1].t]
            && Governs(e.platform, After(e, FRESH, subs), Authority([ALICE], 2, [ALICE, BOB]))
  {
    hide Step, Governs, Root, GenesisRun, After, Applied, NotOnRecord, Unbounded, Amend, Accepts, Gate, Edits;
    hide Lab, Fix32;
    var e, a := Lab(digest), Authority([ALICE, BOB], 2, [ALICE, BOB]);
    var l, t := After(e, FRESH, Pair(2)), Halved(digest)[1].t;
    PairFounds(digest, 2);
    BothAct(digest, l, t, a);
    RunSnoc(e, Pair(2), Submit(t));
    assert [Pair(2)[0].t] + [t] == [Pair(2)[0].t, t];
    GovernsStep(e, l, t, AT_START, a);
    HalvedAuthority();
  }

  lemma HalvedAuthority()
    ensures Amend(Authority([ALICE, BOB], 2, [ALICE, BOB]), RemoveSteward(BOB)) == Authority([ALICE], 2, [ALICE, BOB])
  {
    AddedBob();
  }

  /** Alice and Bob, the stewards, have a transition applied that both signed. */
  lemma BothAct(digest: Bytes -> Bytes32, l: Ledger, t: Transition, a: Authority)
    requires var e := Lab(digest);
             && Governs(e.platform, l, a) && a.stewards == [ALICE, BOB] && 1 <= a.threshold <= 2
             && NotOnRecord(e, l, ALICE)
             && t.prior == Root(e.platform, l.entries) && t.signatures == Some([ALICE, BOB])
             && |t.hlc| == HLC_SIZE && t.branch == 0 && Easy(t.payload)
    ensures var o := Step(Lab(digest), l, t, AT_START);
            o.Accepted? && Unbounded(Lab(digest), o.ledger)
  {
    var e := Lab(digest);
    BothSign(TransitionVerifier(e.platform, t), a.threshold);
    forall m ensures Gate(e, m, t, AT_START).None? {
      EasyPasses(digest, m, t);
    }
    EasyPasses(digest, l, t);
    hide Root, Accepts, SigningSteward, Governs, Gate, Edits, SmallValues, NotOnRecord, Unbounded, Step;
    Acts(digest, l, t, a);
  }

  // ----- The initial threshold back in force -----

  /** A group of two that asks for one signature decides to ask for both. */
  function Raised(digest: Bytes -> Bytes32): seq<Submission>
  {
    Pair(1) + [Submit(Signed(1 as char, Head(Lab(digest), Pair(1)), ChangeThreshold(2), [ALICE, BOB]))]
  }

  /** Then both sign a transition that has nothing to do with it and names no prior state: it is applied,
      and one signature is enough again. */
  lemma UnnamedForgetsThreshold(digest: Bytes -> Bytes32)
    ensures var e, subs, t := Lab(digest), Raised(digest), Signed(2 as char, [], AddMember(BOB), [ALICE, BOB]);
            var l, a := After(e, FRESH, subs), Authority([ALICE, BOB], 2, [ALICE, BOB]);
            var l' := Step(e, l, t, AT_START).ledger;
            && GenesisRun(e, subs) && Applied(e, FRESH, subs) == [subs[0].t, subs[1].t] && Governs(e.platform, l, a)
            && Step(e, l, t, AT_START).Accepted? && Amend(a, t.payload) == a
            && Root(e.platform, l'.entries) in l'.thresholdHistory
            && l'.thresholdHistory[Root(e.platform, l'.entries)] == 1
            && !Governs(e.platform, l', a)
  {
    hide Step, Governs, Root, GenesisRun, After, Applied, NotOnRecord, Unbounded;
    var e, a := Lab(digest), Authority([ALICE, BOB], 2, [ALICE, BOB]);
    var t := Signed(2 as char, [], AddMember(BOB), [ALICE, BOB]);
    RaiseIsApplied(digest);
    var l := After(e, FRESH, Raised(digest));
    UnnamedIsApplied(digest, l, t, a);
    UnnamedPriorFallsBack(e, l, t, AT_START, a);
  }

  lemma RaiseIsApplied(digest: Bytes -> Bytes32)
    ensures var e, subs := Lab(digest), Raised(digest);
            var l := After(e, FRESH, subs);
            && GenesisRun(e, subs) && Applied(e, FRESH, subs) == [subs[0].t, subs[1].t]
            && Governs(e.platform, l, Authority([ALICE, BOB], 2, [ALICE, BOB])) && l.initialThreshold == 1
  {
    hide Step, Governs, Root, GenesisRun, After, Applied, NotOnRecord, Unbounded, Accepts, Gate;
    var e, a := Lab(digest), Authority([ALICE, BOB], 1, [ALICE, BOB]);
    var l, t := After(e, FRESH, Pair(1)), Raised(digest)[1].t;
    PairFounds(digest, 1);
    BothSign(TransitionVerifier(e.platform, t), 1);
    forall m | SameCore(l, m) ensures Gate(e, m, t, AT_START).None? {
      RaisePasses(digest, l, m, t, a);
    }
    assert SmallValues(Edits(t, 1)) by {
      assert |BigEndian(2, 4)| == 4;
    }
    hide Edits, SmallValues, SigningSteward;
    Acts(digest, l, t, a);
    RunSnoc(e, Pair(1), Submit(t));
    assert [Pair(1)[0].t] + [t] == [Pair(1)[0].t, t];
    GovernsStep(e, l, t, AT_START, a);
    InitialStays(e, l, t, AT_START, a);
  }

  lemma RaisePasses(digest: Bytes -> Bytes32, l: Ledger, m: Ledger, t: Transition, a: Authority)
    requires var e := Lab(digest);
             Governs(e.platform, l, a) && |a.stewards| == 2 && SameCore(l, m) && t.prior == Root(e.platform, l.entries)
    requires t.payload == ChangeThreshold(2)
    ensures Gate(Lab(digest), m, t, AT_START).None?
  {
    assert StewardsAt(Lab(digest).platform, m, t.prior) == a.stewards;
    hide StewardsAt, Root;
  }

  lemma InitialStays(e: Env, l: Ledger, t: Transition, call: Call, a: Authority)
    requires Governs(e.platform, l, a) && a.stewards != [] && NamesPrior(t) && Advanced(Step(e, l, t, call))
    ensures Step(e, l, t, call).ledger.initialThreshold == l.initialThreshold
  {
    AdvancedShape(e, l, t, call);
    var l1 := Screen(e, l, t, call).ledger;
    AuthorizeUnder(e.platform, l1, t, a);
    hide Step, Screen, Gate, ApplyEdits, Edits, Root, Authorize, Governs;
  }

  lemma UnnamedIsApplied(digest: Bytes -> Bytes32, l: Ledger, t: Transition, a: Authority)
    requires Governs(Lab(digest).platform, l, a) && a == Authority([ALICE, BOB], 2, [ALICE, BOB])
    requires t == Signed(2 as char, [], AddMember(BOB), [ALICE, BOB])
    ensures Step(Lab(digest), l, t, AT_START).Accepted?
  {
    var e := Lab(digest);
    BothSign(TransitionVerifier(e.platform, t), 2);
    EasyPasses(digest, l, t);
    SmallEditsPass(e.limits, l.entries, Edits(t, 1));
    assert StewardsAt(e.platform, l, t.prior) == a.stewards && ThresholdAt(e.platform, l, t.prior) == 2;
    hide Root, Accepts, ApplyEdits, Edits, Commit, StewardsAt, ThresholdAt, Governs, Gate;
    assert Screen(e, l, t, AT_START) == Go(l) && Authorize(e.platform, l, t) == Go(l);
  }

  // ----- A key that is not 32 bytes -----

  const SHORT: Bytes := ['k']

  /** A CREATE_GROUP that declares a key of one byte is applied, under the padded key; and the snapshot does
      not name that key. */
  lemma ShortKeyIsNotCommitted(digest: Bytes -> Bytes32)
    ensures var e, t := Lab(digest), Create([], "g", [SHORT], 1, [Fix32(SHORT)]);
            var l := After(e, FRESH, [Submit(t)]);
            && GenesisRun(e, [Submit(t)]) && Applied(e, FRESH, [Submit(t)]) == [t]
            && Governs(e.platform, l, Authority([Fix32(SHORT)], 1, [Fix32(SHORT)]))
            && !Committed(e.platform, l, l.entries, 1)
  {
    hide *;
    var e, t := Lab(digest), Create([], "g", [SHORT], 1, [Fix32(SHORT)]);
    ShortIsSigned(digest);
    FreshIsUnfounded();
    UnfoundedIsBare(FRESH);
    Founded(digest, [SHORT], 1, [Fix32(SHORT)]);
    AcceptedAdvances(Step(e, FRESH, t, AT_START));
    FoundingIsCommitted(e, FRESH, t, AT_START);
  }

  lemma AcceptedAdvances(o: Outcome)
    requires o.Accepted?
    ensures Advanced(o)
  {
  }

  lemma ShortIsSigned(digest: Bytes -> Bytes32)
    ensures var e, t := Lab(digest), Create([], "g", [SHORT], 1, [Fix32(SHORT)]);
            && PadKeys([SHORT]) == [Fix32(SHORT)] && !FullKeys([SHORT]) && t.payload.CreateGroup?
            && t.payload.stewards == [SHORT] && t.payload.threshold == 1 && FRESH.initialStewards == []
            && Accepts(TransitionVerifier(e.platform, t), PadKeys([SHORT]), 1, [Fix32(SHORT)])
  {
    var e, t := Lab(digest), Create([], "g", [SHORT], 1, [Fix32(SHORT)]);
    assert [SHORT][..0] == [] && PadKeys([]) == [];
    assert SHORT in [SHORT] && |SHORT| == 1;
    hide Fix32, Accepts;
    OneSigner(TransitionVerifier(e.platform, t), Fix32(SHORT), Fix32(SHORT));
  }
}
