/** Runs of the whole forest: branches are independent ledgers, and start-up replays the durable log. */
module ForestRuns {
  import opened Basics
  import opened ByteStrings
  import opened Snapshot
  import opened Multisig
  import opened Equivocation
  import opened Transitions
  import opened Ledger
  import opened Authority
  import opened Replay
  import opened Forest

  const EMPTY := Forest(FRESH, map[], 1, None)

  predicate IsBranch(f: Forest, id: nat)
  {
    id == GENESIS || id in f.branches
  }

  /** IDs are handed out in increasing order and never reused. */
  predicate Numbered(f: Forest)
  {
    f.nextId >= 1 && forall i <- f.branches :: i < f.nextId
  }

  // ----- One step -----

  /** What a step does to the ledger it is routed to. */
  function BranchStep(e: Env, id: nat, l: Ledger, s: Submission): Ledger
  {
    var o := Step(e, l, s.t, s.call);
    if id == GENESIS then o.ledger else WrittenBack(l, o)
  }

  /** Did the forest step get past routing and reach branch `id`? */
  predicate Reaches(e: Env, f: Forest, t: Transition, id: nat)
  {
    && (t.branch in f.branches || t.branch == GENESIS)
    && !TooMany(e, Registered(f, t), t)
    && Routed(t) == id
  }

  function SubmissionOf(f: Forest, t: Transition, w: World): Submission
  {
    Submission(t, CallOf(f.durable, f.nextId, w))
  }

  /** Apply is a step of one branch: the branch it is routed to takes its own step, every other
      branch keeps its ledger, and IDs stay numbered. */
  lemma ApplyIsOneBranchStep(e: Env, f: Forest, t: Transition, w: World, id: nat)
    requires IsBranch(f, id) && Numbered(f)
    ensures var f' := ForestStep(e, f, t, w).1;
            && IsBranch(f', id) && Numbered(f')
            && LedgerOf(f', id)
               == if Reaches(e, f, t, id) then BranchStep(e, id, LedgerOf(f, id), SubmissionOf(f, t, w))
                  else LedgerOf(f, id)
  {
  }

  /** A new branch starts empty, and takes the authority in force where it was created for its initial one.
      Who may act on it is another matter: see `AnyoneFoundsBranch`. */
  lemma NewBranchInherits(e: Env, f: Forest, t: Transition, w: World, a: Authority)
    requires Numbered(f) && NamesPrior(t) && Governs(e.platform, f.genesis, a)
    requires t.payload.BranchCreate? && ForestStep(e, f, t, w).0.None?
    ensures var f' := ForestStep(e, f, t, w).1;
            && f.nextId !in f.branches && f.nextId in f'.branches && f'.nextId == f.nextId + 1
            && Inherits(f'.branches[f.nextId], a.stewards, a.threshold)
  {
    var f1 := Registered(f, t);
    var call := CallOf(f1.durable, f1.nextId, w);
    assert Step(e, f.genesis, t, call).Accepted?;
    AdvancedShape(e, f.genesis, t, call);
    var l1 := Screen(e, f.genesis, t, call).ledger;
    assert StewardsAt(e.platform, l1, t.prior) == a.stewards;
    GovernsStep(e, f.genesis, t, call, a);
    assert Authorize(e.platform, l1, t).ledger == l1;
  }

  /** A rejection other than a persister failure changes no snapshot, history or log on any branch. */
  lemma RejectionTouchesNoBranch(e: Env, f: Forest, t: Transition, w: World, id: nat)
    requires IsBranch(f, id) && Numbered(f)
    requires var err := ForestStep(e, f, t, w).0; err.Some? && err != Some(PersistFailed)
    ensures SameCore(LedgerOf(f, id), LedgerOf(ForestStep(e, f, t, w).1, id))
    ensures ForestStep(e, f, t, w).1.durable == f.durable
  {
    ApplyIsOneBranchStep(e, f, t, w, id);
    if Reaches(e, f, t, id) {
      RejectionKeepsCore(e, LedgerOf(f, id), t, CallOf(f.durable, f.nextId, w));
    }
  }

  // ----- Whole runs -----

  datatype Event = Event(t: Transition, w: World)

  function Run(e: Env, f: Forest, es: seq<Event>): Forest
  {
    if es == [] then f
    else
      var n := |es| - 1;
      ForestStep(e, Run(e, f, es[..n]), es[n].t, es[n].w).1
  }

  /** The submissions of a forest run that reached branch `id`. */
  function Projection(e: Env, f: Forest, es: seq<Event>, id: nat): seq<Submission>
  {
    if es == [] then []
    else
      var n := |es| - 1;
      var before := Run(e, f, es[..n]);
      Projection(e, f, es[..n], id)
      + (if Reaches(e, before, es[n].t, id) then [SubmissionOf(before, es[n].t, es[n].w)] else [])
  }

  /** The run of a single branch by itself. */
  function Alone(e: Env, id: nat, l: Ledger, subs: seq<Submission>): Ledger
  {
    if subs == [] then l
    else BranchStep(e, id, Alone(e, id, l, subs[..|subs| - 1]), subs[|subs| - 1])
  }

  /** The forest is a product of independent ledgers: after any run, each branch is where its own
      submissions alone would have taken it. */
  lemma {:induction false} BranchesAreIndependent(e: Env, f: Forest, es: seq<Event>, id: nat)
    requires IsBranch(f, id) && Numbered(f)
    ensures var f' := Run(e, f, es);
            && IsBranch(f', id) && Numbered(f')
            && LedgerOf(f', id) == Alone(e, id, LedgerOf(f, id), Projection(e, f, es, id))
  {
    if es != [] {
      var n := |es| - 1;
      BranchesAreIndependent(e, f, es[..n], id);
      var before, subs := Run(e, f, es[..n]), Projection(e, f, es[..n], id);
      ApplyIsOneBranchStep(e, before, es[n].t, es[n].w, id);
      if Reaches(e, before, es[n].t, id) {
        AloneSnoc(e, id, LedgerOf(f, id), subs, SubmissionOf(before, es[n].t, es[n].w));
      } else {
        assert subs + [] == subs;
      }
    }
  }

  lemma AloneSnoc(e: Env, id: nat, l: Ledger, subs: seq<Submission>, s: Submission)
    ensures Alone(e, id, l, subs + [s]) == BranchStep(e, id, Alone(e, id, l, subs), s)
  {
    assert (subs + [s])[..|subs|] == subs;
  }

  lemma {:induction false} GenesisAlone(e: Env, l: Ledger, subs: seq<Submission>)
    ensures Alone(e, GENESIS, l, subs) == After(e, l, subs)
  {
    if subs != [] {
      GenesisAlone(e, l, subs[..|subs| - 1]);
    }
  }

  /** So every theorem about runs of the genesis branch speaks about the State object: whatever else
      happens on other branches, its own fields hold the run of the genesis submissions. */
  lemma GenesisIsItsOwnRun(e: Env, es: seq<Event>, durable: Option<seq<Transition>>)
    ensures var f := EMPTY.(durable := durable);
            Run(e, f, es).genesis == After(e, FRESH, Projection(e, f, es, GENESIS))
  {
    var f := EMPTY.(durable := durable);
    BranchesAreIndependent(e, f, es, GENESIS);
    GenesisAlone(e, FRESH, Projection(e, f, es, GENESIS));
  }

  /** MaxBranches: the registry, with the genesis branch in it, never outgrows its cap. */
  lemma {:induction false} BranchesWithinCap(e: Env, es: seq<Event>, durable: Option<seq<Transition>>)
    requires e.limits.maxBranches > 0
    ensures var f := Run(e, EMPTY.(durable := durable), es);
            && Numbered(f) && (f.branches == map[] || GENESIS in f.branches)
            && |f.branches| <= e.limits.maxBranches
  {
    if es != [] {
      var n := |es| - 1;
      BranchesWithinCap(e, es[..n], durable);
      StepWithinCap(e, Run(e, EMPTY.(durable := durable), es[..n]), es[n].t, es[n].w);
      hide ForestStep;
    }
  }

  lemma StepWithinCap(e: Env, f: Forest, t: Transition, w: World)
    requires e.limits.maxBranches > 0 && |f.branches| <= e.limits.maxBranches
    requires Numbered(f) && (f.branches == map[] || GENESIS in f.branches)
    ensures var f' := ForestStep(e, f, t, w).1;
            && Numbered(f') && (GENESIS in f'.branches || f' == f)
            && |f'.branches| <= e.limits.maxBranches
  {
  }

  // ----- Start-up -----

  /** Apply the stored transitions in order; stop at the first error. */
  function Restore(e: Env, f: Forest, ts: seq<Transition>, ws: seq<World>): (Option<Rejection>, Forest)
    requires |ws| == |ts|
  {
    if ts == [] then (None, f)
    else
      var n := |ts| - 1;
      var (err, f') := Restore(e, f, ts[..n], ws[..n]);
      if err.Some? then (err, f') else ForestStep(e, f', ts[n], ws[n])
  }

  lemma {:induction false} RestoreStops(e: Env, f: Forest, ts: seq<Transition>, ws: seq<World>, i: nat)
    requires |ws| == |ts| && i <= |ts| && Restore(e, f, ts[..i], ws[..i]).0.Some?
    ensures Restore(e, f, ts, ws).0 == Restore(e, f, ts[..i], ws[..i]).0
  {
    if i == |ts| {
      assert ts[..i] == ts && ws[..i] == ws;
    } else {
      var n := |ts| - 1;
      assert ts[..n][..i] == ts[..i] && ws[..n][..i] == ws[..i];
      RestoreStops(e, f, ts[..n], ws[..n], i);
      RestoreKeepsError(e, f, ts, ws);
    }
  }

  lemma RestoreKeepsError(e: Env, f: Forest, ts: seq<Transition>, ws: seq<World>)
    requires |ws| == |ts| > 0 && Restore(e, f, ts[..|ts| - 1], ws[..|ts| - 1]).0.Some?
    ensures Restore(e, f, ts, ws).0 == Restore(e, f, ts[..|ts| - 1], ws[..|ts| - 1]).0
  {
  }

  lemma RestoreSnoc(e: Env, f: Forest, ts: seq<Transition>, ws: seq<World>, i: nat, f': Forest)
    requires |ws| == |ts| && i < |ts| && Restore(e, f, ts[..i], ws[..i]) == (None, f')
    ensures Restore(e, f, ts[..i + 1], ws[..i + 1]) == ForestStep(e, f', ts[i], ws[i])
  {
    assert ts[..i + 1][..i] == ts[..i] && ws[..i + 1][..i] == ws[..i];
  }

  /** NewStateWithPersister: replay everything the durable log holds, or fail. The worlds carry
      the clock readings of the replay. */
  method NewStateWithPersister(e: Env, stored: Option<seq<Transition>>, ws: seq<World>)
    returns (st: State, err: Option<Rejection>)
    requires stored.Some? ==> |ws| == |stored.value|
    ensures fresh(st) && st.env == e && st.Valid()
    ensures stored.None? ==> err.None? && st.View() == EMPTY
    ensures stored.Some? ==> err == Restore(e, EMPTY.(durable := stored), stored.value, ws).0
    ensures stored.Some? && err.None? ==> st.View() == Restore(e, EMPTY.(durable := stored), stored.value, ws).1
  {
    st := new State(e, stored);
    assert st.View() == EMPTY.(durable := stored) by {
      assert st.Registry() == map[];
    }
    err := None;
    if stored.Some? {
      err := ReplayStored(st, stored.value, ws);
    }
  }

  /** The replay loop of NewStateWithPersister. */
  method ReplayStored(st: State, ts: seq<Transition>, ws: seq<World>) returns (err: Option<Rejection>)
    requires st.Valid() && |ws| == |ts|
    modifies st.Repr
    ensures st.Valid() && fresh(st.Repr - old(st.Repr))
    ensures err == Restore(st.env, old(st.View()), ts, ws).0
    ensures err.None? ==> st.View() == Restore(st.env, old(st.View()), ts, ws).1
  {
    ghost var e, f := st.env, st.View();
    var i := 0;
    while i < |ts|
      invariant 0 <= i <= |ts|
      invariant st.Valid() && fresh(st.Repr - old(st.Repr))
      invariant Restore(e, f, ts[..i], ws[..i]) == (None, st.View())
    {
      RestoreSnoc(e, f, ts, ws, i, st.View());
      err := st.Apply(ts[i], ws[i]);
      if err.Some? {
        RestoreStops(e, f, ts, ws, i + 1);
        return;
      }
      i := i + 1;
    }
    assert ts[..i] == ts && ws[..i] == ws;
    return None;
  }

  /** A restart: replaying, without limiter, the mesh registry unused. */
  function RestartWorld(now: int): World
  {
    World(now, true, false, true, true)
  }

  function RestartWorlds(nows: seq<int>): (ws: seq<World>)
    ensures |ws| == |nows|
  {
    seq(|nows|, i requires 0 <= i < |nows| => RestartWorld(nows[i]))
  }

  /** The durable log holds genesis transitions only, none of which creates a branch. */
  predicate GenesisOnly(ts: seq<Transition>)
  {
    forall i :: 0 <= i < |ts| ==> ts[i].branch == GENESIS && !IsBranchCreate(ts[i])
  }

  lemma StepIgnoresBranchId(e: Env, l: Ledger, t: Transition, call: Call, n: nat)
    requires !IsBranchCreate(t)
    ensures Step(e, l, t, call) == Step(e, l, t, call.(nextBranch := n))
  {
    var call' := call.(nextBranch := n);
    assert Screen(e, l, t, call) == Screen(e, l, t, call');
    if Screen(e, l, t, call).Go? {
      var l1 := Screen(e, l, t, call).ledger;
      if Authorize(e.platform, l1, t).Go? {
        ExecuteIgnoresBranchId(e, Authorize(e.platform, l1, t).ledger, t, call, n);
      }
    }
  }

  lemma ExecuteIgnoresBranchId(e: Env, l: Ledger, t: Transition, call: Call, n: nat)
    requires !IsBranchCreate(t)
    ensures Execute(e, l, t, call) == Execute(e, l, t, call.(nextBranch := n))
  {
    EditsIgnoreBranch(t, call.nextBranch, n);
    assert Gate(e, l, t, call) == Gate(e, l, t, call.(nextBranch := n));
  }

  /** One restored transition on the genesis branch. */
  lemma RestoreStep(e: Env, f: Forest, t: Transition, now: int)
    requires t.branch == GENESIS && !IsBranchCreate(t)
    ensures var (err, f') := ForestStep(e, f, t, RestartWorld(now));
            var o := Step(e, f.genesis, t, ReplayCall(now));
            && err == ErrorOf(o) && f'.genesis == o.ledger && f'.durable == f.durable
  {
    StepIgnoresBranchId(e, f.genesis, t, CallOf(f.durable, f.nextId, RestartWorld(now)), 0);
  }

  /** Start-up on a genesis-only log is the rebuild that `ReplayRebuilds` is about. */
  lemma {:induction false} RestoreIsRebuild(e: Env, ts: seq<Transition>, nows: seq<int>,
                                             durable: Option<seq<Transition>>)
    requires |nows| == |ts| && GenesisOnly(ts)
    ensures var (err, f) := Restore(e, EMPTY.(durable := durable), ts, RestartWorlds(nows));
            && (err.None? <==> Rebuild(e, ts, nows).Some?)
            && (err.None? ==> f.genesis == Rebuild(e, ts, nows).value && f.durable == durable)
  {
    if ts != [] {
      var n := |ts| - 1;
      RestoreIsRebuild(e, ts[..n], nows[..n], durable);
      assert RestartWorlds(nows)[..n] == RestartWorlds(nows[..n]);
      var (err, f) := Restore(e, EMPTY.(durable := durable), ts[..n], RestartWorlds(nows[..n]));
      if err.None? {
        RestoreStep(e, f, ts[n], nows[n]);
      }
    }
  }

  /** The durable log of a run holds exactly what it accepted. */
  lemma {:induction false} DurableLogIsAccepted(e: Env, es: seq<Event>, start: seq<Transition>)
    requires forall i :: 0 <= i < |es| ==> !es[i].w.replaying
    ensures var f := Run(e, EMPTY.(durable := Some(start)), es);
            f.durable == Some(start + AcceptedOf(e, EMPTY.(durable := Some(start)), es))
  {
    if es == [] {
      assert start + [] == start;
    } else {
      var n := |es| - 1;
      DurableLogIsAccepted(e, es[..n], start);
      var f0 := EMPTY.(durable := Some(start));
      assert !es[n].w.replaying;
      DurableStep(e, Run(e, f0, es[..n]), es[n].t, es[n].w);
      var before, t := AcceptedOf(e, f0, es[..n]), es[n].t;
      assert start + (before + [t]) == start + before + [t];
      assert start + (before + []) == start + before;
    }
  }

  function AcceptedOf(e: Env, f: Forest, es: seq<Event>): seq<Transition>
  {
    if es == [] then []
    else
      var n := |es| - 1;
      AcceptedOf(e, f, es[..n])
      + (if ForestStep(e, Run(e, f, es[..n]), es[n].t, es[n].w).0.None? then [es[n].t] else [])
  }

  lemma DurableStep(e: Env, f: Forest, t: Transition, w: World)
    requires f.durable.Some? && !w.replaying
    ensures var (err, f') := ForestStep(e, f, t, w);
            f'.durable == if err.None? then Some(f.durable.value + [t]) else f.durable
  {
  }

  /** Every event of the run is an ordinary genesis transition with a working durable log. */
  predicate OrdinaryEvents(es: seq<Event>)
  {
    forall i :: 0 <= i < |es| ==>
      es[i].t.branch == GENESIS && !IsBranchCreate(es[i].t) && !es[i].w.replaying && es[i].w.saveOk
  }

  lemma OrdinaryStep(e: Env, f: Forest, t: Transition, w: World)
    requires t.branch == GENESIS && !IsBranchCreate(t) && w.saveOk
    ensures Reaches(e, f, t, GENESIS)
    ensures SubmissionOf(f, t, w).call.persistOk
    ensures ForestStep(e, f, t, w).0.None? <==> Step(e, f.genesis, t, SubmissionOf(f, t, w).call).Accepted?
  {
  }

  lemma AdvancedIfDurable(e: Env, l: Ledger, s: Submission)
    requires s.call.persistOk
    ensures Advanced(Step(e, l, s.t, s.call)) <==> Step(e, l, s.t, s.call).Accepted?
  {
    if Advanced(Step(e, l, s.t, s.call)) {
      PersistedStepsAdvance(e, l, s.t, s.call);
    }
  }

  lemma AppliedSnoc(e: Env, l: Ledger, subs: seq<Submission>, s: Submission)
    ensures Applied(e, l, subs + [s])
         == Applied(e, l, subs) + (if Advanced(Step(e, After(e, l, subs), s.t, s.call)) then [s.t] else [])
  {
    assert (subs + [s])[..|subs|] == subs;
  }

  lemma {:induction false} AcceptedIsApplied(e: Env, es: seq<Event>, f: Forest)
    requires OrdinaryEvents(es) && f.genesis == FRESH && Numbered(f)
    ensures AcceptedOf(e, f, es) == Applied(e, FRESH, Projection(e, f, es, GENESIS))
    ensures Durable(Projection(e, f, es, GENESIS))
  {
    if es != [] {
      var n := |es| - 1;
      AcceptedIsApplied(e, es[..n], f);
      var before, subs := Run(e, f, es[..n]), Projection(e, f, es[..n], GENESIS);
      var s := SubmissionOf(before, es[n].t, es[n].w);
      BranchesAreIndependent(e, f, es[..n], GENESIS);
      GenesisAlone(e, FRESH, subs);
      OrdinaryStep(e, before, es[n].t, es[n].w);
      AppliedSnoc(e, FRESH, subs, s);
      AdvancedIfDurable(e, before.genesis, s);
    }
  }

  /** What State.Stewards and State.Threshold return agrees. */
  predicate ShowSameAuthority(p: Platform, l: Ledger, m: Ledger)
  {
    StewardsAt(p, l, []) == StewardsAt(p, m, []) && ThresholdAt(p, l, []) == ThresholdAt(p, m, [])
  }

  /** A restart recovers the group. Take a State with an empty durable log and any run of ordinary
      genesis events, accepted or refused, whose accepted transitions name their prior state (see
      `GenesisRun`) and are self-contained, with no equivocation entry evicted. Constructing a State from
      the durable log the run leaves succeeds if and only if no MIGRATE deadline in it has passed at the
      restart, and then shows the same root, histories and log; and the same steward set and threshold,
      exactly unless the group was never founded and a refused CREATE_GROUP left its set on record. */
  lemma RestartRecovers(e: Env, es: seq<Event>, nows: seq<int>)
    requires OrdinaryEvents(es)
    requires var f0 := EMPTY.(durable := Some([]));
             var subs := Projection(e, f0, es, GENESIS);
             && GenesisRun(e, subs) && AllSelfContained(Applied(e, FRESH, subs))
             && EqLogOf(e, Run(e, f0, es).genesis).evictions == 0
             && |nows| == |AcceptedOf(e, f0, es)|
    ensures var f := Run(e, EMPTY.(durable := Some([])), es);
            && f.durable == Some(AcceptedOf(e, EMPTY.(durable := Some([])), es))
            && var (err, r) := Restore(e, EMPTY.(durable := f.durable), f.durable.value, RestartWorlds(nows));
               && (err.None? <==> DeadlinesHold(f.durable.value, nows))
               && (err.None? ==>
                     && SameCore(f.genesis, r.genesis) && r.durable == f.durable
                     && Root(e.platform, r.genesis.entries) == Root(e.platform, f.genesis.entries)
                     && (ShowSameAuthority(e.platform, r.genesis, f.genesis)
                         <==> f.durable.value != [] || f.genesis.initialStewards == []))
  {
    var f0 := EMPTY.(durable := Some([]));
    var subs, ts := Projection(e, f0, es, GENESIS), AcceptedOf(e, f0, es);
    DurableLogIsAccepted(e, es, []);
    assert [] + ts == ts;
    GenesisIsItsOwnRun(e, es, Some([]));
    AcceptedIsApplied(e, es, f0);
    ReplayRebuilds(e, subs, nows);
    AcceptedAreGenesis(e, es, f0);
    RestoreIsRebuild(e, ts, nows, Some(ts));
    if Rebuild(e, ts, nows).Some? {
      RebuiltShowsTheSame(e, Rebuild(e, ts, nows).value, After(e, FRESH, subs), ts);
    }
  }

  lemma {:induction false} AcceptedAreGenesis(e: Env, es: seq<Event>, f: Forest)
    requires OrdinaryEvents(es)
    ensures GenesisOnly(AcceptedOf(e, f, es))
  {
    if es != [] {
      var n := |es| - 1;
      AcceptedAreGenesis(e, es[..n], f);
      assert es[n].t.branch == GENESIS && !IsBranchCreate(es[n].t);
    }
  }
}
