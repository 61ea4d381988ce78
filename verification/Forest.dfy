/** The group's forest of branches (internal/group/group.go, branch.go): State.Apply with its
    branch routing, the swap of branch data into State's own fields, and replay at start-up. */
module Forest {
  import opened Basics
  import opened ByteStrings
  import opened Snapshot
  import opened KeyValue
  import opened Multisig
  import opened Equivocation
  import opened Transitions
  import opened Ledger
  import opened Authority
  import opened Replay

  const GENESIS: nat := 0

  // ----- The forest as a value -----

  /** Genesis lives in State's own fields; `branches` is the registry, where entry 0 is only a
      placeholder. `durable` is the transition log of the persister, None without one. */
  datatype Forest = Forest(genesis: Ledger, branches: map<nat, Ledger>, nextId: nat, durable: Option<seq<Transition>>)

  /** What surrounds one call of Apply. */
  datatype World = World(now: int, limiterOk: bool, meshOk: bool, saveOk: bool, replaying: bool)

  /** A BRANCH_CREATE acts on genesis whatever branch it names. */
  function Routed(t: Transition): nat
  {
    if IsBranchCreate(t) then GENESIS else t.branch
  }

  function LedgerOf(f: Forest, id: nat): Ledger
    requires id != GENESIS ==> id in f.branches
  {
    if id == GENESIS then f.genesis else f.branches[id]
  }

  function CallOf(durable: Option<seq<Transition>>, nextId: nat, w: World): Call
  {
    Call(w.now, w.limiterOk, w.meshOk, durable.None? || w.replaying || w.saveOk, nextId)
  }

  function Saved(durable: Option<seq<Transition>>, o: Outcome, t: Transition, w: World): Option<seq<Transition>>
  {
    if o.Accepted? && durable.Some? && !w.replaying then Some(durable.value + [t]) else durable
  }

  /** Does the transition get as far as allocating a branch? */
  predicate Allocates(e: Env, l: Ledger, t: Transition, call: Call)
  {
    t.payload.BranchCreate? && Screen(e, l, t, call).Go?
    && Authorize(e.platform, Screen(e, l, t, call).ledger, t).Go?
  }

  /** A new branch: empty, with the stewards and threshold its creator saw. */
  function NewBranch(p: Platform, l: Ledger, t: Transition): Ledger
  {
    FRESH.(initialStewards := StewardsAt(p, l, t.prior), initialThreshold := ThresholdAt(p, l, t.prior))
  }

  function Allocated(e: Env, l: Ledger, t: Transition, call: Call): Ledger
  {
    NewBranch(e.platform, Authorize(e.platform, Screen(e, l, t, call).ledger, t).ledger, t)
  }

  function WithAllocation(e: Env, f: Forest, l: Ledger, t: Transition, call: Call): Forest
  {
    if !Allocates(e, l, t, call) then f
    else f.(branches := f.branches[f.nextId := Allocated(e, l, t, call)], nextId := f.nextId + 1)
  }

  /** What a branch keeps of an unsuccessful step: the history maps and a log that already existed
      are shared by reference, everything else is not written back. */
  function WrittenBack(before: Ledger, o: Outcome): Ledger
  {
    if o.Accepted? then o.ledger
    else before.(stewardHistory := o.ledger.stewardHistory, thresholdHistory := o.ledger.thresholdHistory,
                 equivocation := if before.equivocation.None? then None else o.ledger.equivocation)
  }

  function ErrorOf(o: Outcome): Option<Rejection>
  {
    match o case Accepted(_) => None case Rejected(why, _) => Some(why)
  }

  /** The registry Apply works with: it creates the genesis placeholder on first use. */
  function Registered(f: Forest, t: Transition): Forest
  {
    if t.branch in f.branches then f else f.(branches := f.branches[GENESIS := FRESH])
  }

  predicate TooMany(e: Env, f: Forest, t: Transition)
  {
    IsBranchCreate(t) && e.limits.maxBranches > 0 && |f.branches| >= e.limits.maxBranches
  }

  /** The step on the branch the transition is routed to. */
  function RoutedStep(e: Env, f: Forest, t: Transition, w: World): (Option<Rejection>, Forest)
    requires Routed(t) != GENESIS ==> Routed(t) in f.branches
  {
    var id := Routed(t);
    var l, call := LedgerOf(f, id), CallOf(f.durable, f.nextId, w);
    var o := Step(e, l, t, call);
    var f1 := WithAllocation(e, f.(durable := Saved(f.durable, o, t, w)), l, t, call);
    (ErrorOf(o),
     if id == GENESIS then f1.(genesis := o.ledger) else f1.(branches := f1.branches[id := WrittenBack(l, o)]))
  }

  lemma RoutedGenesis(e: Env, f: Forest, t: Transition, w: World)
    requires Routed(t) == GENESIS
    ensures var call := CallOf(f.durable, f.nextId, w);
            var o := Step(e, f.genesis, t, call);
            RoutedStep(e, f, t, w)
            == (ErrorOf(o),
                if Allocates(e, f.genesis, t, call)
                then Forest(o.ledger, f.branches[f.nextId := Allocated(e, f.genesis, t, call)], f.nextId + 1,
                            Saved(f.durable, o, t, w))
                else Forest(o.ledger, f.branches, f.nextId, Saved(f.durable, o, t, w)))
  {
    hide Step, Allocates, Allocated, Saved, CallOf, ErrorOf;
  }

  /** Apply on the forest. */
  function ForestStep(e: Env, f: Forest, t: Transition, w: World): (Option<Rejection>, Forest)
  {
    if t.branch !in f.branches && t.branch != GENESIS then (Some(UnknownBranch), f)
    else if TooMany(e, Registered(f, t), t) then (Some(TooManyBranches), Registered(f, t))
    else RoutedStep(e, Registered(f, t), t, w)
  }

  // ----- The code -----

  /** Branch. */
  class Branch {
    const id: nat
    const parentBranchID: nat
    const reason: Bytes
    var entries: Entries
    var stewardHistory: map<Bytes32, seq<PublicKey>>
    var thresholdHistory: map<Bytes32, nat>
    var initialStewards: seq<PublicKey>
    var initialThreshold: nat
    var log: seq<Transition>
    var equivocation: EquivocationLog?
    var transitionCount: nat

    function Value(): Ledger
      reads this, equivocation
    {
      BranchState(entries, stewardHistory, thresholdHistory, initialStewards, initialThreshold, log,
                    if equivocation == null then None else Some(equivocation.Value()))
    }

    constructor (id: nat, parent: nat, why: Bytes)
      ensures Value() == FRESH && equivocation == null && transitionCount == 0
      ensures this.id == id && parentBranchID == parent && reason == why
    {
      this.id, parentBranchID, reason := id, parent, why;
      entries, stewardHistory, thresholdHistory := [], map[], map[];
      initialStewards, initialThreshold, log, equivocation, transitionCount := [], 0, [], null, 0;
    }
  }

  method ComputeRoot(p: Platform, entries: Entries) returns (r: Bytes32)
    ensures r == Root(p, entries)
  {
    var written := WritePreimage(entries);
    r := p.sha256(written);
  }

  /** prospectiveStewardsAfterAddLocked. */
  method ProspectiveStewardsAfterAdd(p: Platform, l: Ledger, key: PublicKey) returns (out: seq<PublicKey>)
    ensures out == Prospective(p, l, key)
  {
    var cur := StewardsAt(p, l, []);
    out := [];
    var seen: set<PublicKey> := {};
    var i := 0;
    while i < |cur|
      invariant 0 <= i <= |cur|
      invariant out == Dedupe(cur[..i])
      invariant seen == set k | k in out
    {
      assert cur[..i + 1][..i] == cur[..i];
      if cur[i] !in seen {
        seen := seen + {cur[i]};
        out := out + [cur[i]];
      }
      i := i + 1;
    }
    assert cur[..i] == cur;
    if key !in seen {
      out := out + [key];
    }
  }

  /** The filter loop of computeCurrentStewards. */
  method RemoveKey(current: seq<PublicKey>, key: PublicKey) returns (out: seq<PublicKey>)
    ensures out == Without(current, key)
  {
    out := [];
    var i := 0;
    while i < |current|
      invariant 0 <= i <= |current|
      invariant out == Without(current[..i], key)
    {
      assert current[..i + 1][..i] == current[..i];
      if current[i] != key {
        out := out + [current[i]];
      }
      i := i + 1;
    }
    assert current[..i] == current;
  }

  /** computeCurrentStewards. */
  method ComputeCurrentStewards(p: Platform, l: Ledger, t: Transition) returns (out: seq<PublicKey>)
    ensures out == NextStewards(p, l, t)
  {
    var current := StewardsAt(p, l, t.prior);
    match t.payload {
      case CreateGroup(_, _, _, _, _) =>
        out := l.initialStewards;
      case AddSteward(k) =>
        var i := 0;
        while i < |current|
          invariant 0 <= i <= |current|
          invariant Fix32(k) !in current[..i]
        {
          if current[i] == Fix32(k) {
            return current;
          }
          i := i + 1;
        }
        assert current[..i] == current;
        out := current + [Fix32(k)];
      case RemoveSteward(k) =>
        out := RemoveKey(current, Fix32(k));
      case SlashSteward(k) =>
        out := RemoveKey(current, Fix32(k));
      case _ =>
        out := current;
    }
  }

  /** The search both gates make for a current steward. */
  method IsAmong(stewards: seq<PublicKey>, key: PublicKey) returns (found: bool)
    ensures found <==> key in stewards
  {
    found := false;
    for i := 0 to |stewards|
      invariant !found && key !in stewards[..i]
    {
      if stewards[i] == key {
        return true;
      }
    }
    assert stewards[..|stewards|] == stewards;
  }

  /** verifySlashStewardPayload: the slashed key must be a steward and must not have signed. */
  method VerifySlashSteward(p: Platform, l: Ledger, raw: Bytes, t: Transition) returns (err: Option<Rejection>)
    ensures err == Some(NotASteward) <==> Fix32(raw) !in StewardsAt(p, l, t.prior)
    ensures err == Some(BadSignatures) <==> Fix32(raw) in StewardsAt(p, l, t.prior) && t.signatures.None?
    ensures err == Some(SignedOwnRemoval) <==>
            && Fix32(raw) in StewardsAt(p, l, t.prior) && t.signatures.Some?
            && SignedBy(TransitionVerifier(p, t), Fix32(raw), t.signatures.value)
    ensures err.None? || err.value in {NotASteward, BadSignatures, SignedOwnRemoval}
  {
    var slashedKey := Fix32(raw);
    var isCurrent := IsAmong(StewardsAt(p, l, t.prior), slashedKey);
    if !isCurrent {
      return Some(NotASteward);
    }
    if t.signatures.None? {
      return Some(BadSignatures);
    }
    var sigs := t.signatures.value;
    for i := 0 to |sigs|
      invariant forall k :: 0 <= k < i ==> !TransitionVerifier(p, t)(slashedKey, sigs[k])
    {
      if p.ed25519(slashedKey, sigs[i], SignBytes(p, t.group, KIND_TRANSITION, t.canonical)) {
        return Some(SignedOwnRemoval);
      }
    }
    return None;
  }

  /** verifyDeclareStewardCustody: a tier is set and the key is a current steward. */
  method VerifyDeclareCustody(p: Platform, l: Ledger, raw: Bytes, tier: int) returns (err: Option<Rejection>)
    ensures err == if tier != 0 && Fix32(raw) in StewardsAt(p, l, []) then None else Some(CustodyRejected)
  {
    if tier == 0 {
      return Some(CustodyRejected);
    }
    var found := IsAmong(StewardsAt(p, l, []), Fix32(raw));
    return if found then None else Some(CustodyRejected);
  }

  /** The edits of one transition, each through appendOrUpdate, stopping at the first one refused. */
  method ApplyWrites(limits: Limits, entries: Entries, ws: seq<Write>) returns (out: Entries, allowed: bool)
    ensures allowed <==> ApplyEdits(limits, entries, ws).Some?
    ensures allowed ==> ApplyEdits(limits, entries, ws) == Some(out)
  {
    out, allowed := entries, true;
    var i := 0;
    while i < |ws|
      invariant 0 <= i <= |ws| && allowed
      invariant ApplyEdits(limits, entries, ws[..i]) == Some(out)
    {
      assert ws[..i + 1][..i] == ws[..i];
      out, allowed := AppendOrUpdate(out, ws[i].key, ws[i].value, limits.maxKvSize, limits.maxKvBytes);
      if !allowed {
        StopsForGood(limits, entries, ws, i + 1);
        return;
      }
      i := i + 1;
    }
    assert ws[..i] == ws;
  }

  lemma {:induction false} StopsForGood(limits: Limits, entries: Entries, ws: seq<Write>, i: nat)
    requires i <= |ws| && ApplyEdits(limits, entries, ws[..i]).None?
    ensures ApplyEdits(limits, entries, ws).None?
  {
    if i == |ws| {
      assert ws[..i] == ws;
    } else {
      assert ws[..|ws| - 1][..i] == ws[..i];
      StopsForGood(limits, entries, ws[..|ws| - 1], i);
    }
  }

  /** State. */
  class State {
    const env: Env
    var entries: Entries
    var stewardHistory: map<Bytes32, seq<PublicKey>>
    var thresholdHistory: map<Bytes32, nat>
    var initialStewards: seq<PublicKey>
    var initialThreshold: nat
    var log: seq<Transition>
    var equivocation: EquivocationLog?
    var branches: map<nat, Branch>
    var nextId: nat
    var durable: Option<seq<Transition>>
    ghost var Repr: set<object>

    /** State's own fields, as the ledger of whichever branch is loaded into them. */
    function Head(): Ledger
      reads this, equivocation
    {
      BranchState(entries, stewardHistory, thresholdHistory, initialStewards, initialThreshold, log,
                    if equivocation == null then None else Some(equivocation.Value()))
    }

    constructor (env: Env, durable: Option<seq<Transition>>)
      ensures this.env == env && Head() == FRESH && equivocation == null
      ensures branches == map[] && nextId == 1 && this.durable == durable
      ensures Valid() && Repr == {this}
    {
      Repr := {this};
      this.env, this.durable := env, durable;
      entries, stewardHistory, thresholdHistory := [], map[], map[];
      initialStewards, initialThreshold, log, equivocation := [], 0, [], null;
      branches, nextId := map[], 1;
    }

    /** checkEquivocationLocked, which creates the log on first use. */
    method CheckEquivocation(p: Presentation) returns (conflict: bool)
      modifies this`equivocation, equivocation
      ensures equivocation != null && (old(equivocation) != null ==> equivocation == old(equivocation))
      ensures old(equivocation) == null ==> fresh(equivocation)
      ensures conflict == Conflicts(EqLogOf(env, old(Head())), p)
      ensures Head() == old(Head()).(equivocation := Some(Record(EqLogOf(env, old(Head())), p)))
    {
      if equivocation == null {
        equivocation := new EquivocationLog(env.limits.maxEquivocations);
      }
      conflict := equivocation.Check(p.key, p.what.hlc, p.what.txHash);
    }

    /** Apply up to the equivocation check. */
    method ScreenHead(t: Transition, call: Call) returns (err: Option<Rejection>)
      modifies this`equivocation, equivocation
      ensures old(equivocation) != null ==> equivocation == old(equivocation)
      ensures old(equivocation) == null && equivocation != null ==> fresh(equivocation)
      ensures var s := Screen(env, old(Head()), t, call);
              Head() == s.ledger && err == if s.Stop? then Some(s.why) else None
    {
      if !IsCreate(t) && |t.hlc| != HLC_SIZE {
        return Some(BadHlcSize);
      }
      if t.prior == [] {
        return None;
      }
      var currentRoot := ComputeRoot(env.platform, entries);
      if Fix32(t.prior) != currentRoot {
        return Some(PriorMismatch);
      }
      var sigs := Signatures(t);
      var stewards := StewardsAt(env.platform, Head(), t.prior);
      var signing := FindSigningSteward(env.platform, stewards, sigs, t.group, t.canonical);
      if signing == ZERO_KEY {
        return None;
      }
      if !call.limiterOk {
        return Some(RateLimited);
      }
      var conflict := CheckEquivocation(PresentationOf(env.platform, signing, t));
      return if conflict then Some(EquivocationDetected) else None;
    }

    /** The signature stage of Apply. */
    method AuthorizeHead(t: Transition) returns (err: Option<Rejection>)
      modifies this`initialStewards, this`initialThreshold
      ensures var s := Authorize(env.platform, old(Head()), t);
              Head() == s.ledger && err == if s.Stop? then Some(s.why) else None
    {
      var stewards := StewardsAt(env.platform, Head(), t.prior);
      if stewards == [] {
        if !IsCreate(t) {
          return Some(NotCreated);
        }
        if !t.payload.CreateGroup? {
          return Some(MissingPayload);
        }
        if t.payload.threshold == 0 {
          return Some(ZeroThreshold);
        }
        if t.signatures.None? || |t.signatures.value| < t.payload.threshold {
          return Some(InsufficientSignatures);
        }
        var keys := PadKeys(t.payload.stewards);
        var ok := VerifyMultisig(env.platform, keys, t.payload.threshold, t.signatures.value,
                                 t.group, KIND_TRANSITION, t.canonical);
        if !ok {
          return Some(BadSignatures);
        }
        initialStewards := keys;
        initialThreshold := t.payload.threshold;
        return None;
      }
      if t.signatures.None? {
        return Some(BadSignatures);
      }
      var threshold := ThresholdAt(env.platform, Head(), t.prior);
      var ok := VerifyMultisig(env.platform, stewards, threshold, t.signatures.value,
                               t.group, KIND_TRANSITION, t.canonical);
      return if ok then None else Some(BadSignatures);
    }

    /** The per-type gate, with the prospective set built as the code builds it. */
    method GateHead(t: Transition, call: Call) returns (err: Option<Rejection>)
      ensures err == Gate(env, Head(), t, call)
    {
      if t.payload.AddSteward? {
        var prospective := ProspectiveStewardsAfterAdd(env.platform, Head(), Fix32(t.payload.steward));
        if env.limits.maxStewards > 0 && |prospective| > env.limits.maxStewards {
          return Some(TooManyStewards);
        }
        return None;
      }
      if t.payload.SlashSteward? {
        err := VerifySlashSteward(env.platform, Head(), t.payload.steward, t);
        return;
      }
      if t.payload.DeclareCustody? {
        err := VerifyDeclareCustody(env.platform, Head(), t.payload.steward, t.payload.tier);
        return;
      }
      return Gate(env, Head(), t, call);
    }

    /** The tail of Apply: new snapshot, histories under its root, capped log. */
    method CommitHead(t: Transition, newEntries: Entries)
      modifies this`entries, this`stewardHistory, this`thresholdHistory, this`log
      ensures Head() == Commit(env, old(Head()), t, newEntries)
    {
      hide Root;
      entries := newEntries;
      var stewardsAfterApply := ComputeCurrentStewards(env.platform, Head(), t);
      var r := ComputeRoot(env.platform, entries);
      thresholdHistory := thresholdHistory[r := NextThreshold(Head(), t)];
      stewardHistory := stewardHistory[r := stewardsAfterApply];
      log := log + [t];
      if env.limits.maxLogSize > 0 && |log| > env.limits.maxLogSize {
        var drop := |log| - env.limits.maxLogSize;
        log := log[drop..];
      }
    }

    /** allocate, and the initial stewards and threshold Apply then gives the new branch. */
    method AllocateBranch(t: Transition, reason: Bytes)
      modifies this`branches, this`nextId
      ensures nextId == old(nextId) + 1 && old(nextId) in branches && fresh(branches[old(nextId)])
      ensures branches == old(branches)[old(nextId) := branches[old(nextId)]]
      ensures branches[old(nextId)].equivocation == null
      ensures branches[old(nextId)].Value() == NewBranch(env.platform, Head(), t)
    {
      var b := new Branch(nextId, t.branch, reason);
      b.initialStewards := StewardsAt(env.platform, Head(), t.prior);
      b.initialThreshold := ThresholdAt(env.platform, Head(), t.prior);
      branches := branches[nextId := b];
      nextId := nextId + 1;
    }

    /** The writes of the payload switch, the tail, and the durable log. */
    method PerformHead(t: Transition, w: World, call: Call) returns (err: Option<Rejection>)
      requires call.persistOk == (durable.None? || w.replaying || w.saveOk)
      modifies this`entries, this`stewardHistory, this`thresholdHistory, this`log, this`durable
      ensures var o := Perform(env, old(Head()), t, call);
              Head() == o.ledger && err == ErrorOf(o) && durable == Saved(old(durable), o, t, w)
    {
      var newEntries, kvAllowed := ApplyWrites(env.limits, entries, Edits(t, call.nextBranch));
      if !kvAllowed {
        return Some(KvSizeExceeded);
      }
      CommitHead(t, newEntries);
      if durable.Some? && !w.replaying {
        if !w.saveOk {
          return Some(PersistFailed);
        }
        durable := Some(durable.value + [t]);
      }
      return None;
    }

    /** The payload switch and the tail of Apply. */
    method ExecuteHead(t: Transition, w: World) returns (err: Option<Rejection>)
      modifies this
      ensures Repr == old(Repr)
      ensures equivocation == old(equivocation)
      ensures var o := Execute(env, old(Head()), t, CallOf(old(durable), old(nextId), w));
              Head() == o.ledger && err == ErrorOf(o) && durable == Saved(old(durable), o, t, w)
      ensures if t.payload.BranchCreate? then
                && nextId == old(nextId) + 1 && old(nextId) in branches && fresh(branches[old(nextId)])
                && branches == old(branches)[old(nextId) := branches[old(nextId)]]
                && branches[old(nextId)].equivocation == null
                && branches[old(nextId)].Value() == NewBranch(env.platform, old(Head()), t)
              else branches == old(branches) && nextId == old(nextId)
    {
      hide Perform, NewBranch;
      var call := CallOf(durable, nextId, w);
      err := GateHead(t, call);
      if err.Some? {
        return;
      }
      if t.payload.BranchCreate? {
        AllocateBranch(t, t.payload.reason);
      }
      err := PerformHead(t, w, call);
    }

    /** Apply, once the branch to act on is loaded into State's own fields. */
    method ApplyHead(t: Transition, w: World) returns (err: Option<Rejection>)
      modifies this, equivocation
      ensures Repr == old(Repr)
      ensures old(equivocation) != null ==> equivocation == old(equivocation)
      ensures old(equivocation) == null && equivocation != null ==> fresh(equivocation)
      ensures var call := CallOf(old(durable), old(nextId), w);
              var o := Step(env, old(Head()), t, call);
              Head() == o.ledger && err == ErrorOf(o) && durable == Saved(old(durable), o, t, w)
      ensures var call := CallOf(old(durable), old(nextId), w);
              if Allocates(env, old(Head()), t, call) then
                && nextId == old(nextId) + 1 && old(nextId) in branches && fresh(branches[old(nextId)])
                && branches == old(branches)[old(nextId) := branches[old(nextId)]]
                && branches[old(nextId)].equivocation == null
                && branches[old(nextId)].Value() == Allocated(env, old(Head()), t, call)
              else branches == old(branches) && nextId == old(nextId)
    {
      hide Screen, Authorize, Execute, NewBranch;
      var call := CallOf(durable, nextId, w);
      err := ScreenHead(t, call);
      if err.Some? {
        return;
      }
      err := AuthorizeHead(t);
      if err.Some? {
        return;
      }
      err := ExecuteHead(t, w);
    }

    // ----- Branch objects -----

    ghost function Logs(): set<EquivocationLog?>
      reads this, branches.Values
    {
      set i | i in branches :: branches[i].equivocation
    }

    /** No two branches share an object, and none shares its equivocation log with genesis. */
    ghost predicate Separate()
      reads this, branches.Values
    {
      && nextId >= 1
      && (forall i <- branches :: i < nextId)
      && (forall i, j :: i in branches && j in branches && i != j ==>
            branches[i] != branches[j]
            && (branches[i].equivocation != null ==> branches[i].equivocation != branches[j].equivocation))
      && (forall i <- branches :: branches[i].equivocation != null ==> branches[i].equivocation != equivocation)
    }

    ghost function Registry(): map<nat, Ledger>
      reads this, branches.Values, Logs()
    {
      map i | i in branches :: branches[i].Value()
    }

    ghost function View(): Forest
      reads this, equivocation, branches.Values, Logs()
    {
      Forest(Head(), Registry(), nextId, durable)
    }

    /** The objects that make up the state. */
    ghost function Footprint(): set<object?>
      reads this, branches.Values
    {
      {this, equivocation} + branches.Values + Logs() - {null}
    }

    /** The step left the registered branch objects and their logs alone. */
    twostate predicate BranchesUntouched()
      reads *
    {
      forall i :: i in old(branches) ==>
        && unchanged(old(branches[i]))
        && (old(branches[i].equivocation) != null ==> unchanged(old(branches[i].equivocation)))
    }

    twostate lemma RegistryKept()
      requires old(Separate()) && branches == old(branches) && nextId == old(nextId) && BranchesUntouched()
      requires equivocation == null || equivocation == old(equivocation) || fresh(equivocation)
      ensures Separate() && fresh(Footprint() - old(Footprint())) && Registry() == old(Registry())
    {
    }

    /** A fresh branch without a log was registered. */
    twostate lemma RegistryGrown(id: nat)
      requires old(Separate()) && old(nextId) <= nextId && id < nextId && id !in old(branches)
      requires id in branches && branches == old(branches)[id := branches[id]]
      requires fresh(branches[id]) && branches[id].equivocation == null && BranchesUntouched()
      requires equivocation == null || equivocation == old(equivocation) || fresh(equivocation)
      ensures Separate() && fresh(Footprint() - old(Footprint()))
      ensures Registry() == old(Registry())[id := branches[id].Value()]
    {
      RegistryGains(id);
      FootprintGains(id);
      hide Registry, Footprint, Logs;
    }

    twostate lemma RegistryGains(id: nat)
      requires old(Separate()) && id !in old(branches) && id in branches
      requires branches == old(branches)[id := branches[id]] && BranchesUntouched()
      ensures Registry() == old(Registry())[id := branches[id].Value()]
    {
      hide Separate;
    }

    twostate lemma FootprintGains(id: nat)
      requires old(Separate()) && id !in old(branches) && id in branches
      requires branches == old(branches)[id := branches[id]] && BranchesUntouched()
      requires fresh(branches[id]) && branches[id].equivocation == null
      requires equivocation == null || equivocation == old(equivocation) || fresh(equivocation)
      ensures fresh(Footprint() - old(Footprint()))
    {
      hide Separate;
    }

    /** Apply on the genesis branch: State's own fields are the branch. */
    method StepGenesis(t: Transition, w: World) returns (err: Option<Rejection>)
      requires Separate()
      modifies this, equivocation
      ensures Repr == old(Repr)
      ensures Separate() && fresh(Footprint() - old(Footprint()))
      ensures var call := CallOf(old(durable), old(nextId), w);
              var o := Step(env, old(Head()), t, call);
              && err == ErrorOf(o) && Head() == o.ledger && durable == Saved(old(durable), o, t, w)
              && (if Allocates(env, old(Head()), t, call) then
                    Registry() == old(Registry())[old(nextId) := Allocated(env, old(Head()), t, call)]
                    && nextId == old(nextId) + 1
                  else Registry() == old(Registry()) && nextId == old(nextId))
    {
      hide Step, Saved, Allocated;
      ghost var id := nextId;
      label before:
      err := ApplyHead(t, w);
      assert BranchesUntouched@before();
      if nextId == id {
        RegistryKept@before();
      } else {
        RegistryGrown@before(id);
      }
    }

    method ApplyGenesis(t: Transition, w: World) returns (err: Option<Rejection>)
      requires Separate() && Routed(t) == GENESIS
      modifies this, equivocation
      ensures Repr == old(Repr)
      ensures Separate() && fresh(Footprint() - old(Footprint()))
      ensures (err, View()) == RoutedStep(env, old(View()), t, w)
    {
      hide Step, Saved, Allocated, Allocates, ErrorOf, CallOf, RoutedStep, Separate, Footprint, Head, Registry;
      RoutedGenesis(env, Forest(Head(), Registry(), nextId, durable), t, w);
      err := StepGenesis(t, w);
    }

    /** Swap in: the branch's data becomes State's own. */
    method Load(b: Branch)
      modifies this`entries, this`stewardHistory, this`thresholdHistory, this`initialStewards,
               this`initialThreshold, this`log, this`equivocation
      ensures Head() == b.Value() && equivocation == b.equivocation
    {
      entries, stewardHistory, thresholdHistory := b.entries, b.stewardHistory, b.thresholdHistory;
      initialStewards, initialThreshold := b.initialStewards, b.initialThreshold;
      log, equivocation := b.log, b.equivocation;
    }

    /** Swap out: everything on success. After an error only what Go shares by reference shows in
        the branch, that is the two history maps (and a log object it already had). */
    method WriteBack(b: Branch, ok: bool)
      modifies b
      ensures ok ==> b.Value() == Head() && b.equivocation == equivocation
      ensures !ok ==> b.equivocation == old(b.equivocation)
      ensures !ok ==> b.Value() == old(b.Value()).(stewardHistory := stewardHistory,
                                                   thresholdHistory := thresholdHistory)
    {
      if ok {
        b.entries, b.stewardHistory, b.thresholdHistory := entries, stewardHistory, thresholdHistory;
        b.initialStewards, b.initialThreshold := initialStewards, initialThreshold;
        b.log, b.equivocation := log, equivocation;
        b.transitionCount := b.transitionCount + 1;
      } else {
        b.stewardHistory, b.thresholdHistory := stewardHistory, thresholdHistory;
      }
    }

    /** Swap the branch in, apply, write back, and put genesis back. */
    method StepBranch(b: Branch, t: Transition, w: World) returns (err: Option<Rejection>)
      requires !IsBranchCreate(t) && (b.equivocation != null ==> b.equivocation != equivocation)
      modifies this, b, b.equivocation
      ensures Repr == old(Repr)
      ensures branches == old(branches) && nextId == old(nextId)
      ensures Head() == old(Head()) && equivocation == old(equivocation)
      ensures old(b.equivocation) != null ==> b.equivocation == old(b.equivocation)
      ensures old(b.equivocation) == null && b.equivocation != null ==> fresh(b.equivocation)
      ensures var o := Step(env, old(b.Value()), t, CallOf(old(durable), old(nextId), w));
              && err == ErrorOf(o) && durable == Saved(old(durable), o, t, w)
              && b.Value() == WrittenBack(old(b.Value()), o)
    {
      hide Step, WrittenBack, Saved, CallOf, ErrorOf;
      var savedEntries, savedStewards, savedThresholds := entries, stewardHistory, thresholdHistory;
      var savedInitial, savedInitialThreshold := initialStewards, initialThreshold;
      var savedLog, savedEquivocation := log, equivocation;
      err := StepLoaded(b, t, w);
      entries, stewardHistory, thresholdHistory := savedEntries, savedStewards, savedThresholds;
      initialStewards, initialThreshold := savedInitial, savedInitialThreshold;
      log, equivocation := savedLog, savedEquivocation;
    }

    method StepLoaded(b: Branch, t: Transition, w: World) returns (err: Option<Rejection>)
      requires !IsBranchCreate(t)
      modifies this, b, b.equivocation
      ensures Repr == old(Repr)
      ensures branches == old(branches) && nextId == old(nextId)
      ensures old(b.equivocation) != null ==> b.equivocation == old(b.equivocation)
      ensures old(b.equivocation) == null && b.equivocation != null ==> fresh(b.equivocation)
      ensures var o := Step(env, old(b.Value()), t, CallOf(old(durable), old(nextId), w));
              && err == ErrorOf(o) && durable == Saved(old(durable), o, t, w)
              && b.Value() == WrittenBack(old(b.Value()), o)
    {
      hide Step, Saved, CallOf;
      Load(b);
      err := ApplyHead(t, w);
      WriteBack(b, err.None?);
    }

    /** The registry after a step that changes one branch object and its log. */
    twostate lemma RegistryReplaced(id: nat)
      requires old(Separate()) && id in old(branches)
      requires branches == old(branches) && nextId == old(nextId) && equivocation == old(equivocation)
      requires equivocation != null ==> unchanged(equivocation)
      requires branches[id].equivocation == old(branches[id].equivocation)
               || (old(branches[id].equivocation) == null && fresh(branches[id].equivocation))
      requires forall i :: i in branches && i != id ==> unchanged(branches[i])
      requires forall i :: i in branches && i != id && branches[i].equivocation != null ==>
        unchanged(branches[i].equivocation)
      ensures Separate() && fresh(Footprint() - old(Footprint()))
      ensures Registry() == old(Registry())[id := branches[id].Value()]
    {
    }

    /** Apply on another branch: its data is swapped into State's own fields for the duration of
        the step, written back if the step succeeded, and genesis is put back in any case. */
    method ApplyBranch(t: Transition, w: World) returns (err: Option<Rejection>)
      requires Separate() && Routed(t) != GENESIS && Routed(t) in branches
      modifies this, equivocation, branches[Routed(t)], branches[Routed(t)].equivocation
      ensures Repr == old(Repr)
      ensures Separate() && fresh(Footprint() - old(Footprint()))
      ensures (err, View()) == RoutedStep(env, old(View()), t, w)
    {
      label before:
      err := StepBranch(branches[t.branch], t, w);
      RegistryReplaced@before(t.branch);
    }

    /** Representation invariant: `Repr` covers the branch objects and logs, which are all distinct. */
    ghost predicate Valid()
      reads this, Repr
      ensures Valid() ==> this in Repr
    {
      && this in Repr
      && (equivocation != null ==> equivocation in Repr)
      && (forall i <- branches ::
            branches[i] in Repr && (branches[i].equivocation != null ==> branches[i].equivocation in Repr))
      && Separate()
    }

    /** Take objects created by a step into `Repr`. */
    ghost method Adopt()
      requires this in Repr && Separate()
      modifies this`Repr
      ensures Valid() && View() == old(View())
      ensures forall o :: o in Repr ==> o in old(Repr) || o in old(Footprint())
    {
      label before:
      Repr := Repr + (Footprint() - {null});
      hide Separate, Registry, View;
      OnlyReprChanged@before();
    }

    twostate lemma OnlyReprChanged()
      requires old(Separate())
      requires unchanged(this`entries, this`stewardHistory, this`thresholdHistory, this`initialStewards)
      requires unchanged(this`initialThreshold, this`log, this`equivocation, this`branches, this`nextId, this`durable)
      requires forall i <- branches ::
        unchanged(branches[i]) && (branches[i].equivocation != null ==> unchanged(branches[i].equivocation))
      requires equivocation != null ==> unchanged(equivocation)
      ensures Separate() && View() == old(View()) && Footprint() == old(Footprint())
    {
    }

    lemma FootprintInRepr()
      requires Valid()
      ensures forall o :: o in Footprint() ==> o == null || o in Repr
    {
    }

    /** Apply on whichever branch the transition is routed to. */
    method ApplyRouted(t: Transition, w: World) returns (err: Option<Rejection>)
      requires Valid() && (Routed(t) != GENESIS ==> Routed(t) in branches)
      modifies Repr
      ensures Valid() && fresh(Repr - old(Repr))
      ensures (err, View()) == RoutedStep(env, old(View()), t, w)
    {
      FootprintInRepr();
      if Routed(t) == GENESIS {
        err := ApplyGenesis(t, w);
      } else {
        err := ApplyBranch(t, w);
      }
      Adopt();
    }

    /** getOrCreate for the genesis branch. */
    method CreateGenesisBranch()
      requires Valid() && GENESIS !in branches
      modifies this`branches, this`Repr
      ensures Valid() && fresh(Repr - old(Repr))
      ensures View() == old(View()).(branches := old(View()).branches[GENESIS := FRESH])
    {
      FootprintInRepr();
      label before:
      var b := new Branch(GENESIS, GENESIS, []);
      branches := branches[GENESIS := b];
      RegistryGrown@before(GENESIS);
      Adopt();
    }

    lemma RegistrySize()
      ensures |Registry()| == |branches|
    {
      assert Registry().Keys == branches.Keys;
      assert |Registry().Keys| == |Registry()| && |branches.Keys| == |branches|;
    }

    /** Apply. */
    method Apply(t: Transition, w: World) returns (err: Option<Rejection>)
      requires Valid()
      modifies Repr
      ensures Valid() && fresh(Repr - old(Repr))
      ensures (err, View()) == ForestStep(env, old(View()), t, w)
    {
      hide RoutedStep, Head;
      ghost var f := View();
      if t.branch !in branches {
        if t.branch != GENESIS {
          return Some(UnknownBranch);
        }
        CreateGenesisBranch();
      }
      assert View() == Registered(f, t);
      RegistrySize();
      if IsBranchCreate(t) && env.limits.maxBranches > 0 && |branches| >= env.limits.maxBranches {
        return Some(TooManyBranches);
      }
      err := ApplyRouted(t, w);
    }
  }
}
