/** Who may act on a new branch. */
module NewBranches {
  import opened Basics
  import opened ByteStrings
  import opened Snapshot
  import opened Multisig
  import opened Equivocation
  import opened Transitions
  import opened Ledger
  import opened Authority
  import opened Replay
  import opened Forest
  import opened ForestRuns
  import opened Toy

  /** Until something has been applied to it, a new branch is open to anyone. A transition that names its
      prior state is applied there exactly when it is a CREATE_GROUP, naming the empty snapshot, that is
      signed by the stewards it declares itself and passes gate and caps; it is they who then govern the
      branch, not the stewards it inherited. */
  lemma NewBranchIsOpen(e: Env, f: Forest, t: Transition, w: World, stewards: seq<PublicKey>, threshold: nat)
    requires t.branch in f.branches && t.branch != GENESIS && !IsBranchCreate(t) && NamesPrior(t)
    requires Inherits(f.branches[t.branch], stewards, threshold)
    requires f.durable.None? || w.saveOk || w.replaying
    ensures var (err, f') := ForestStep(e, f, t, w);
            var call := CallOf(f.durable, f.nextId, w);
            && (err.None? <==>
                  && Fix32(t.prior) == Root(e.platform, []) && SelfSigned(e.platform, t)
                  && Gate(e, f.branches[t.branch], t, call).None?
                  && ApplyEdits(e.limits, [], Edits(t, call.nextBranch)).Some?)
            && (err.None? ==>
                  t.branch in f'.branches && Governs(e.platform, f'.branches[t.branch], Found(t.payload)))
  {
    var l, call := f.branches[t.branch], CallOf(f.durable, f.nextId, w);
    assert call.persistOk;
    AnyoneFoundsBranch(e, l, t, call, stewards, threshold);
    OwnStep(e, f, t, w);
    hide Step, Root, SelfSigned, Gate, ApplyEdits, Edits, Governs, Found, ForestStep, Inherits, Fix32;
    if Advanced(Step(e, l, t, call)) {
      PersistedStepsAdvance(e, l, t, call);
    }
  }

  /** A step on a branch other than genesis. */
  lemma OwnStep(e: Env, f: Forest, t: Transition, w: World)
    requires t.branch in f.branches && t.branch != GENESIS && !IsBranchCreate(t)
    ensures var (err, f') := ForestStep(e, f, t, w);
            var o := Step(e, f.branches[t.branch], t, CallOf(f.durable, f.nextId, w));
            && err == ErrorOf(o)
            && (o.Accepted? ==> t.branch in f'.branches && f'.branches[t.branch] == o.ledger)
  {
    hide Step;
  }

  // ----- A branch taken over -----

  const CALM := World(0, true, true, true, false)

  /** Alice founds the group and creates a branch. */
  function Branched(digest: Bytes -> Bytes32): seq<Event>
  {
    var found := FOUNDED[0].t;
    [Event(found, CALM), Event(ByAlice(1 as char, Head(Lab(digest), FOUNDED), BranchCreate("b")), CALM)]
  }

  /** Bob's CREATE_GROUP on that branch, signed by nobody else. */
  function BobsClaim(digest: Bytes -> Bytes32): Transition
  {
    Create(Root(Lab(digest).platform, []), "g", [BOB], 1, [BOB]).(branch := 1)
  }

  /** The new branch inherits Alice; but Bob, whom nobody ever made a steward, founds it anew and governs it
      from then on. */
  lemma BranchIsTakenOver(digest: Bytes -> Bytes32)
    ensures var e := Lab(digest);
            var f := Run(e, EMPTY, Branched(digest));
            var (err, f') := ForestStep(e, f, BobsClaim(digest), CALM);
            && 1 in f.branches && Inherits(f.branches[1], [ALICE], 1)
            && err.None? && 1 in f'.branches && Governs(e.platform, f'.branches[1], Authority([BOB], 1, [BOB]))
  {
    var e, t := Lab(digest), BobsClaim(digest);
    BranchCreated(digest);
    var f := Run(e, EMPTY, Branched(digest));
    ClaimPasses(digest, f.branches[1], CallOf(f.durable, f.nextId, CALM));
    hide Root, SelfSigned, Gate, ApplyEdits, Edits, Governs, ForestStep, Inherits, Run, PadKeys;
    NewBranchIsOpen(e, f, t, CALM, [ALICE], 1);
    OneKey(BOB);
  }

  lemma ClaimPasses(digest: Bytes -> Bytes32, l: Ledger, call: Call)
    ensures var e, t := Lab(digest), BobsClaim(digest);
            && NamesPrior(t) && t.branch == 1 && !IsBranchCreate(t) && Fix32(t.prior) == Root(e.platform, [])
            && SelfSigned(e.platform, t) && Gate(e, l, t, call).None?
            && ApplyEdits(e.limits, [], Edits(t, call.nextBranch)).Some?
  {
    var e, t := Lab(digest), BobsClaim(digest);
    OneKey(BOB);
    OneSigner(TransitionVerifier(e.platform, t), BOB, BOB);
    assert |Root(e.platform, [])| == 32;
    CreateEdits(t);
    EditsIgnoreBranch(t, call.nextBranch, 1);
    hide Edits, Accepts, PadKeys, Root;
    SmallEditsPass(e.limits, [], Edits(t, 1));
  }

  lemma BranchCreated(digest: Bytes -> Bytes32)
    ensures var e := Lab(digest);
            var f := Run(e, EMPTY, Branched(digest));
            && 1 in f.branches && Inherits(f.branches[1], [ALICE], 1) && f.durable.None?
  {
    var e := Lab(digest);
    var es, a := Branched(digest), Authority([ALICE], 1, [ALICE]);
    FoundedByAlice(digest);
    FirstEvent(e, es[0].t);
    var f1 := ForestStep(e, EMPTY, es[0].t, CALM).1;
    hide Step, Root, Governs, GenesisRun, After, Applied, NotOnRecord, ForestStep, Unbounded, Inherits;
    AliceActs(digest, f1.genesis, 1 as char, BranchCreate("b"), a);
    SecondEvent(e, f1, es[1].t);
    NewBranchInherits(e, f1, es[1].t, CALM, a);
    TwoEvents(e, es);
  }

  lemma FirstEvent(e: Env, t: Transition)
    requires t.branch == GENESIS && t.payload.CreateGroup? && Step(e, FRESH, t, AT_START).Accepted?
    ensures var (err, f) := ForestStep(e, EMPTY, t, CALM);
            && err.None? && f.genesis == Step(e, FRESH, t, AT_START).ledger
            && f.branches == map[GENESIS := FRESH] && f.nextId == 1 && f.durable.None?
  {
    hide Step;
  }

  lemma SecondEvent(e: Env, f: Forest, t: Transition)
    requires f.branches == map[GENESIS := FRESH] && f.nextId == 1 && f.durable.None? && e.limits.maxBranches <= 0
    requires t.branch == GENESIS && t.payload.BranchCreate? && Step(e, f.genesis, t, AT_START).Accepted?
    ensures var (err, f') := ForestStep(e, f, t, CALM); err.None? && f'.durable.None?
  {
    hide Step, Allocates, Allocated;
  }

  lemma TwoEvents(e: Env, es: seq<Event>)
    requires |es| == 2
    ensures Run(e, EMPTY, es)
         == ForestStep(e, ForestStep(e, EMPTY, es[0].t, es[0].w).1, es[1].t, es[1].w).1
  {
    hide ForestStep;
    assert es[..1] == [es[0]] && es[..1][..0] == [];
    assert Run(e, EMPTY, []) == EMPTY;
  }
}
