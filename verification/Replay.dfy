/** Replaying the durable log rebuilds the ledger (NewStateWithPersister). */
module Replay {
  import opened Basics
  import opened ByteStrings
  import opened Snapshot
  import opened KeyValue
  import opened Multisig
  import opened Equivocation
  import opened Transitions
  import opened Ledger
  import opened Authority

  /** Replay runs Apply with the clock of the restart, without limiter and without saving again. */
  function ReplayCall(now: int): Call
  {
    Call(now, true, false, true, 0)
  }

  /** Apply the stored transitions to a fresh branch; None as soon as one is refused. */
  function Rebuild(e: Env, ts: seq<Transition>, nows: seq<int>): Option<Ledger>
    requires |nows| == |ts|
  {
    if ts == [] then Some(FRESH)
    else
      var n := |ts| - 1;
      match Rebuild(e, ts[..n], nows[..n])
      case None => None
      case Some(l) =>
        match Step(e, l, ts[n], ReplayCall(nows[n]))
        case Accepted(l') => Some(l')
        case Rejected(_, _) => None
  }

  /** Transitions whose effect does not depend on the mesh registry or the branch allocator. */
  predicate SelfContained(t: Transition)
  {
    && !t.payload.AddHostPeer? && !t.payload.RemoveHostPeer? && !t.payload.BranchCreate?
    && (t.payload.CreateGroup? ==> t.payload.meshPeers == [])
  }

  /** The restart clock has not passed the deadline of a MIGRATE. */
  predicate DeadlineHolds(t: Transition, now: int)
  {
    t.payload.Migrate? && t.payload.deadline.Some? ==> DeadlineInstant(t.payload.deadline.value) >= now
  }

  predicate DeadlinesHold(ts: seq<Transition>, nows: seq<int>)
    requires |nows| == |ts|
  {
    forall i :: 0 <= i < |ts| ==> DeadlineHolds(ts[i], nows[i])
  }

  // ----- The equivocation logs of the original and of the replay -----

  /** The replayed log knows no more than the original one, and neither has evicted. */
  ghost predicate SubLog(r: EqLog, o: EqLog)
  {
    && Coherent(r) && Coherent(o) && r.maxEntries == o.maxEntries && r.evictions == 0 && o.evictions == 0
    && forall k :: k in r.seen ==> k in o.seen && r.seen[k] == o.seen[k]
  }

  function KeysOf(s: seq<EqKey>): set<EqKey>
  {
    set k | k in s
  }

  lemma {:induction false} DistinctLength(s: seq<EqKey>)
    requires forall i, j :: 0 <= i < j < |s| ==> s[i] != s[j]
    ensures |KeysOf(s)| == |s|
  {
    if s != [] {
      var init, last := s[..|s| - 1], s[|s| - 1];
      DistinctLength(init);
      KeysSnoc(s);
      assert last !in init;
    }
  }

  lemma KeysSnoc(s: seq<EqKey>)
    requires s != []
    ensures KeysOf(s) == KeysOf(s[..|s| - 1]) + {s[|s| - 1]}
  {
    var init, last := s[..|s| - 1], s[|s| - 1];
    assert forall k :: k in s <==> k in init || k == last by {
      assert s == init + [last];
    }
  }

  lemma OrderIsSeen(l: EqLog)
    requires Coherent(l)
    ensures |l.order| == |l.seen.Keys|
  {
    DistinctLength(l.order);
    assert KeysOf(l.order) == l.seen.Keys;
  }

  /** Fewer keys recorded leave at least as much room. */
  lemma SubLogRoom(r: EqLog, o: EqLog, p: Presentation)
    requires SubLog(r, o) && p.key !in r.seen && r.maxEntries > 0
    requires p.key in o.seen || |o.order| < o.maxEntries
    ensures |r.order| < r.maxEntries
  {
    OrderIsSeen(r);
    OrderIsSeen(o);
    if p.key in o.seen {
      assert r.seen.Keys <= o.seen.Keys - {p.key};
      SubsetCard(r.seen.Keys, o.seen.Keys - {p.key});
    } else {
      assert r.seen.Keys <= o.seen.Keys;
      SubsetCard(r.seen.Keys, o.seen.Keys);
    }
  }

  lemma {:induction false} SubsetCard<T>(a: set<T>, b: set<T>)
    requires a <= b
    ensures |a| <= |b|
  {
    assert b == a + (b - a);
  }

  /** A presentation the original let pass also passes in the replay, and the logs stay related. */
  lemma SubLogRecord(r: EqLog, o: EqLog, p: Presentation)
    requires SubLog(r, o) && !Conflicts(o, p) && Record(o, p).evictions == 0
    ensures !Conflicts(r, p) && SubLog(Record(r, p), Record(o, p))
  {
    RecordShape(o, p);
    RecordShape(r, p);
    RecordCoherent(o, p);
    RecordCoherent(r, p);
    if p.key !in r.seen && r.maxEntries > 0 {
      SubLogRoom(r, o, p);
    }
  }

  /** Presentations the replay does not see only grow the original log. */
  lemma SubLogExtra(r: EqLog, o: EqLog, p: Presentation)
    requires SubLog(r, o) && Record(o, p).evictions == 0
    ensures SubLog(r, Record(o, p))
  {
    RecordShape(o, p);
    RecordCoherent(o, p);
  }

  // ----- The ledgers of the original and of the replay -----

  /** Same snapshot, histories and log; the initial set agrees while there are stewards. */
  ghost predicate Mirrors(e: Env, r: Ledger, o: Ledger, a: Authority)
  {
    && SameCore(o, r) && Governs(e.platform, o, a)
    && (a.stewards != [] ==> r.initialStewards == o.initialStewards)
    && SubLog(EqLogOf(e, r), EqLogOf(e, o))
  }

  /** Screening touches nothing but the equivocation log, and that by at most one presentation. */
  lemma ScreenShape(e: Env, l: Ledger, t: Transition, call: Call)
    ensures var s := Screen(e, l, t, call);
            var p := PresentationOf(e.platform, SigningKey(e.platform, l, t), t);
            || s.ledger == l
            || s.ledger == l.(equivocation := Some(Record(EqLogOf(e, l), p)))
  {
  }

  /** The rest of a step leaves the equivocation log as screening left it. */
  lemma StepKeepsScreenedLog(e: Env, l: Ledger, t: Transition, call: Call)
    ensures Step(e, l, t, call).ledger.equivocation == Screen(e, l, t, call).ledger.equivocation
  {
    var l1 := Screen(e, l, t, call).ledger;
    AuthorizeKeepsCore(e.platform, l1, t);
    if Screen(e, l, t, call).Go? && Authorize(e.platform, l1, t).Go? {
      ExecuteKeepsLog(e, Authorize(e.platform, l1, t).ledger, t, call);
    }
  }

  lemma ExecuteKeepsLog(e: Env, l: Ledger, t: Transition, call: Call)
    ensures Execute(e, l, t, call).ledger.equivocation == l.equivocation
  {
  }

  lemma EvictionsGrow(e: Env, l: Ledger, t: Transition, call: Call)
    requires Coherent(EqLogOf(e, l))
    ensures var l' := Step(e, l, t, call).ledger;
            Coherent(EqLogOf(e, l')) && EqLogOf(e, l).evictions <= EqLogOf(e, l').evictions
  {
    var p := PresentationOf(e.platform, SigningKey(e.platform, l, t), t);
    StepKeepsScreenedLog(e, l, t, call);
    ScreenShape(e, l, t, call);
    RecordCoherent(EqLogOf(e, l), p);
    EvictionsMonotone(EqLogOf(e, l), p);
  }

  /** Screening the same transition on related ledgers. */
  lemma ScreenMirrors(e: Env, r: Ledger, o: Ledger, a: Authority, t: Transition, call: Call, now: int)
    requires Mirrors(e, r, o, a) && NamesPrior(t) && Screen(e, o, t, call).Go?
    requires EqLogOf(e, Screen(e, o, t, call).ledger).evictions == 0
    ensures Screen(e, r, t, ReplayCall(now)).Go?
    ensures Mirrors(e, Screen(e, r, t, ReplayCall(now)).ledger, Screen(e, o, t, call).ledger, a)
  {
    assert SigningKey(e.platform, r, t) == SigningKey(e.platform, o, t);
    var signer := SigningKey(e.platform, o, t);
    if signer != ZERO_KEY {
      SubLogRecord(EqLogOf(e, r), EqLogOf(e, o), PresentationOf(e.platform, signer, t));
    }
  }

  /** Signatures are checked against the same set and threshold. */
  lemma AuthorizeMirrors(e: Env, r: Ledger, o: Ledger, a: Authority, t: Transition)
    requires Mirrors(e, r, o, a) && NamesPrior(t) && Fix32(t.prior) == Root(e.platform, o.entries)
    requires Authorize(e.platform, o, t).Go?
    ensures Authorize(e.platform, r, t).Go?
    ensures var r', o' := Authorize(e.platform, r, t).ledger, Authorize(e.platform, o, t).ledger;
            && SameCore(o', r') && r'.equivocation == r.equivocation && o'.equivocation == o.equivocation
            && (a.stewards != [] || IsCreate(t) ==> r'.initialStewards == o'.initialStewards)
  {
    assert StewardsAt(e.platform, o, t.prior) == StewardsAt(e.platform, r, t.prior) == a.stewards;
  }

  /** The gates read nothing on which the ledgers differ, except the clock. */
  lemma GateMirrors(e: Env, r: Ledger, o: Ledger, a: Authority, t: Transition, call: Call, now: int)
    requires SameCore(o, r) && Governs(e.platform, o, a) && SelfContained(t) && Gate(e, o, t, call).None?
    requires NamesPrior(t) && Fix32(t.prior) == Root(e.platform, o.entries)
    ensures Gate(e, r, t, ReplayCall(now)).None? <==> DeadlineHolds(t, now)
  {
    assert StewardsAt(e.platform, r, t.prior) == StewardsAt(e.platform, o, t.prior);
    assert StewardsAt(e.platform, r, []) == StewardsAt(e.platform, o, []);
  }

  lemma EditsIgnoreBranch(t: Transition, m: nat, n: nat)
    requires !t.payload.BranchCreate?
    ensures Edits(t, m) == Edits(t, n)
  {
  }

  /** One accepted step, replayed: refused exactly when a deadline has passed. */
  lemma StepMirrors(e: Env, r: Ledger, o: Ledger, a: Authority, t: Transition, call: Call, now: int)
    requires Mirrors(e, r, o, a) && NamesPrior(t) && SelfContained(t) && call.persistOk
    requires Step(e, o, t, call).Accepted? && EqLogOf(e, Step(e, o, t, call).ledger).evictions == 0
    ensures Step(e, r, t, ReplayCall(now)).Accepted? <==> DeadlineHolds(t, now)
    ensures DeadlineHolds(t, now) ==>
              Mirrors(e, Step(e, r, t, ReplayCall(now)).ledger, Step(e, o, t, call).ledger, Amend(a, t.payload))
  {
    AdvancedShape(e, o, t, call);
    StepKeepsScreenedLog(e, o, t, call);
    StepKeepsScreenedLog(e, r, t, ReplayCall(now));
    GovernsStep(e, o, t, call, a);
    ScreenMirrors(e, r, o, a, t, call, now);
    var o1, r1 := Screen(e, o, t, call).ledger, Screen(e, r, t, ReplayCall(now)).ledger;
    AuthorizeMirrors(e, r1, o1, a, t);
    var o2, r2 := Authorize(e.platform, o1, t).ledger, Authorize(e.platform, r1, t).ledger;
    GateMirrors(e, r2, o2, a, t, call, now);
    EditsIgnoreBranch(t, call.nextBranch, 0);
    var entries := ApplyEdits(e.limits, o.entries, Edits(t, call.nextBranch)).value;
    if DeadlineHolds(t, now) {
      CommitMirrors(e, r2, o2, a, t, entries);
      assert Step(e, r, t, ReplayCall(now)) == Execute(e, r2, t, ReplayCall(now));
      assert Step(e, r, t, ReplayCall(now)).ledger == Commit(e, r2, t, entries);
    }
  }

  lemma CommitMirrors(e: Env, r: Ledger, o: Ledger, a: Authority, t: Transition, entries: Entries)
    requires SameCore(o, r) && NamesPrior(t)
    requires Fix32(t.prior) in o.stewardHistory && Fix32(t.prior) in o.thresholdHistory
    requires a.stewards != [] || IsCreate(t) ==> r.initialStewards == o.initialStewards
    requires a.stewards == [] ==> IsCreate(t)
    ensures SameCore(Commit(e, o, t, entries), Commit(e, r, t, entries))
    ensures Commit(e, r, t, entries).initialStewards == r.initialStewards
    ensures Commit(e, r, t, entries).equivocation == r.equivocation
  {
    var o', r' := o.(entries := entries), r.(entries := entries);
    assert StewardsAt(e.platform, o', t.prior) == StewardsAt(e.platform, r', t.prior);
    assert NextStewards(e.platform, o', t) == NextStewards(e.platform, r', t);
    assert NextThreshold(o, t) == NextThreshold(r, t);
  }

  /** A rejected submission changes nothing the replay depends on. */
  lemma RejectionMirrors(e: Env, r: Ledger, o: Ledger, a: Authority, t: Transition, call: Call)
    requires Mirrors(e, r, o, a) && !Advanced(Step(e, o, t, call))
    requires EqLogOf(e, Step(e, o, t, call).ledger).evictions == 0
    ensures Mirrors(e, r, Step(e, o, t, call).ledger, a)
  {
    GovernsRejected(e, o, t, call, a);
    RejectionKeepsCore(e, o, t, call);
    StepKeepsScreenedLog(e, o, t, call);
    ScreenShape(e, o, t, call);
    SubLogExtraIfRecorded(e, r, o, t, call);
    if a.stewards != [] {
      InitialKept(e, o, t, call);
    }
  }

  lemma SubLogExtraIfRecorded(e: Env, r: Ledger, o: Ledger, t: Transition, call: Call)
    requires SubLog(EqLogOf(e, r), EqLogOf(e, o))
    requires EqLogOf(e, Screen(e, o, t, call).ledger).evictions == 0
    ensures SubLog(EqLogOf(e, r), EqLogOf(e, Screen(e, o, t, call).ledger))
  {
    ScreenShape(e, o, t, call);
    if Screen(e, o, t, call).ledger != o {
      SubLogExtra(EqLogOf(e, r), EqLogOf(e, o), PresentationOf(e.platform, SigningKey(e.platform, o, t), t));
    }
  }

  // ----- Whole runs -----

  lemma FoundingMirrors(e: Env, t: Transition, call: Call, now: int)
    requires SelfContained(t) && call.persistOk && Step(e, FRESH, t, call).Accepted?
    ensures t.payload.CreateGroup?
    ensures Step(e, FRESH, t, ReplayCall(now)).Accepted?
    ensures Mirrors(e, Step(e, FRESH, t, ReplayCall(now)).ledger, Step(e, FRESH, t, call).ledger, Found(t.payload))
  {
    FreshIsUnfounded();
    FoundingGoverns(e, FRESH, t, call);
    NobodySigns(TransitionVerifier(e.platform, t), Signatures(t));
    assert Screen(e, FRESH, t, call) == Screen(e, FRESH, t, ReplayCall(now)) == Go(FRESH);
    var l := Authorize(e.platform, FRESH, t).ledger;
    EditsIgnoreBranch(t, call.nextBranch, 0);
    StepKeepsScreenedLog(e, FRESH, t, call);
    StepKeepsScreenedLog(e, FRESH, t, ReplayCall(now));
    assert Execute(e, l, t, call).ledger == Execute(e, l, t, ReplayCall(now)).ledger;
  }

  /** Submissions whose durable write succeeded whenever they were accepted. */
  predicate Durable(subs: seq<Submission>)
  {
    forall i :: 0 <= i < |subs| ==> subs[i].call.persistOk
  }

  predicate AllSelfContained(ts: seq<Transition>)
  {
    forall i :: 0 <= i < |ts| ==> SelfContained(ts[i])
  }

  lemma {:induction false} RunLogCoherent(e: Env, subs: seq<Submission>)
    ensures Coherent(EqLogOf(e, After(e, FRESH, subs)))
  {
    if subs != [] {
      var n := |subs| - 1;
      RunLogCoherent(e, subs[..n]);
      EvictionsGrow(e, After(e, FRESH, subs[..n]), subs[n].t, subs[n].call);
    }
  }

  lemma PersistedStepsAdvance(e: Env, l: Ledger, t: Transition, call: Call)
    requires call.persistOk && Advanced(Step(e, l, t, call))
    ensures Step(e, l, t, call).Accepted?
  {
    AdvancedShape(e, l, t, call);
  }

  /** The rebuilt ledger mirrors the original one; before the founding it is fresh. */
  ghost predicate Resembles(e: Env, r: Ledger, o: Ledger, ts: seq<Transition>)
    requires ts != [] ==> ts[0].payload.CreateGroup?
  {
    if ts == [] then r == FRESH && Unfounded(o) else Mirrors(e, r, o, AuthorityOf(ts))
  }

  /** Replaying `ts` at the times `nows` succeeds exactly when the deadlines hold, and then
      mirrors `l`. */
  ghost predicate ReplaysTo(e: Env, ts: seq<Transition>, nows: seq<int>, l: Ledger)
    requires |nows| == |ts|
  {
    && (ts != [] ==> ts[0].payload.CreateGroup?)
    && (Rebuild(e, ts, nows).Some? <==> DeadlinesHold(ts, nows))
    && (Rebuild(e, ts, nows).Some? ==> Resembles(e, Rebuild(e, ts, nows).value, l, ts))
  }

  lemma RebuildOne(e: Env, t: Transition, now: int)
    ensures var o := Step(e, FRESH, t, ReplayCall(now));
            Rebuild(e, [t], [now]) == if o.Accepted? then Some(o.ledger) else None
  {
    hide Step;
    assert [t][..0] == [] && [now][..0] == [];
    assert Rebuild(e, [], []) == Some(FRESH);
  }

  lemma ReplayFounding(e: Env, l: Ledger, t: Transition, call: Call, now: int)
    requires Unfounded(l) && (NamesPrior(t) || l.initialStewards == [])
    requires SelfContained(t) && call.persistOk && Advanced(Step(e, l, t, call))
    ensures ReplaysTo(e, [t], [now], Step(e, l, t, call).ledger)
  {
    FoundingIsFresh(e, l, t, call);
    hide Step, Mirrors, Found, Rebuild;
    PersistedStepsAdvance(e, FRESH, t, call);
    FoundingMirrors(e, t, call, now);
    RebuildOne(e, t, now);
    assert AuthorityOf([t]) == Found(t.payload);
    assert DeadlinesHold([t], [now]);
  }

  lemma ReplayAccepted(e: Env, ts: seq<Transition>, nows: seq<int>, l: Ledger, t: Transition, call: Call, now: int)
    requires |nows| == |ts| && ts != [] && ReplaysTo(e, ts, nows, l)
    requires NamesPrior(t) && SelfContained(t) && call.persistOk && Advanced(Step(e, l, t, call))
    requires EqLogOf(e, Step(e, l, t, call).ledger).evictions == 0
    ensures ReplaysTo(e, ts + [t], nows + [now], Step(e, l, t, call).ledger)
  {
    hide Step, Mirrors, Amend, DeadlineHolds, DeadlinesHold;
    PersistedStepsAdvance(e, l, t, call);
    var all, times := ts + [t], nows + [now];
    assert all[..|ts|] == ts && times[..|ts|] == nows;
    OneMoreDeadline(ts, t, nows, now);
    if Rebuild(e, ts, nows).Some? {
      StepMirrors(e, Rebuild(e, ts, nows).value, l, AuthorityOf(ts), t, call, now);
    }
  }

  lemma OneMoreDeadline(ts: seq<Transition>, t: Transition, nows: seq<int>, now: int)
    requires |nows| == |ts|
    ensures DeadlinesHold(ts + [t], nows + [now]) <==> DeadlinesHold(ts, nows) && DeadlineHolds(t, now)
  {
    hide DeadlineHolds;
    var all, times := ts + [t], nows + [now];
    assert all[|ts|] == t && times[|ts|] == now;
    assert forall i :: 0 <= i < |ts| ==> all[i] == ts[i] && times[i] == nows[i];
  }

  lemma ReplayRejected(e: Env, ts: seq<Transition>, nows: seq<int>, l: Ledger, t: Transition, call: Call)
    requires |nows| == |ts| && ReplaysTo(e, ts, nows, l)
    requires !Advanced(Step(e, l, t, call)) && EqLogOf(e, Step(e, l, t, call).ledger).evictions == 0
    ensures ReplaysTo(e, ts, nows, Step(e, l, t, call).ledger)
  {
    hide Step, Mirrors, Unfounded;
    if ts == [] {
      assert Rebuild(e, ts, nows).Some?;
      UnfoundedRejected(e, l, t, call);
    } else if Rebuild(e, ts, nows).Some? {
      RejectionMirrors(e, Rebuild(e, ts, nows).value, l, AuthorityOf(ts), t, call);
    }
  }

  /** Replay rebuilds the ledger, exactly when no deadline has passed. Take any run of accepted and
      rejected submissions with durable writes, self-contained accepted transitions and no equivocation
      entry evicted. Applying only the accepted transitions, in order, to a fresh branch accepts every
      one of them if and only if each MIGRATE deadline among them is not before the clock at its replay;
      and then snapshot, histories and log are the same. */
  lemma {:induction false} ReplayRebuilds(e: Env, subs: seq<Submission>, nows: seq<int>)
    requires GenesisRun(e, subs) && Durable(subs) && AllSelfContained(Applied(e, FRESH, subs))
    requires EqLogOf(e, After(e, FRESH, subs)).evictions == 0
    requires |nows| == |Applied(e, FRESH, subs)|
    ensures ReplaysTo(e, Applied(e, FRESH, subs), nows, After(e, FRESH, subs))
  {
    if subs == [] {
      FreshReplays(e);
    } else {
      hide *;
      var n := |subs| - 1;
      var init, t, call := subs[..n], subs[n].t, subs[n].call;
      var ts, l := Applied(e, FRESH, init), After(e, FRESH, init);
      LastSubmission(e, subs);
      RunLogCoherent(e, init);
      EvictionsGrow(e, l, t, call);
      if !Advanced(Step(e, l, t, call)) {
        ReplayRebuilds(e, init, nows);
        ReplayRejected(e, ts, nows, l, t, call);
      } else if ts == [] {
        RunGoverned(e, init);
        ReplayFounding(e, l, t, call, nows[0]);
        Singletons(ts, t, nows);
      } else {
        SplitLast(nows, |ts|);
        ReplayRebuilds(e, init, nows[..|ts|]);
        ReplayAccepted(e, ts, nows[..|ts|], l, t, call, nows[|ts|]);
      }
    }
  }

  lemma FreshReplays(e: Env)
    ensures ReplaysTo(e, [], [], FRESH)
  {
    FreshIsUnfounded();
  }

  lemma Singletons(ts: seq<Transition>, t: Transition, nows: seq<int>)
    requires ts == [] && |nows| == 1
    ensures ts + [t] == [t] && nows == [nows[0]]
  {
  }

  lemma SplitLast(nows: seq<int>, k: nat)
    requires |nows| == k + 1
    ensures nows == nows[..k] + [nows[k]]
  {
  }

  /** A run split into its last submission and what went before. */
  lemma LastSubmission(e: Env, subs: seq<Submission>)
    requires subs != [] && GenesisRun(e, subs) && Durable(subs) && AllSelfContained(Applied(e, FRESH, subs))
    ensures var n := |subs| - 1;
            var init, t, call := subs[..n], subs[n].t, subs[n].call;
            var ts, l := Applied(e, FRESH, init), After(e, FRESH, init);
            && GenesisRun(e, init) && Durable(init) && AllSelfContained(ts) && call.persistOk
            && After(e, FRESH, subs) == Step(e, l, t, call).ledger
            && (if Advanced(Step(e, l, t, call)) then
                  && Applied(e, FRESH, subs) == ts + [t] && SelfContained(t)
                  && (NamesPrior(t) || (ts == [] && l.initialStewards == []))
                else Applied(e, FRESH, subs) == ts)
  {
    hide Step;
    var n := |subs| - 1;
    RunPrefix(e, subs, n);
    assert Advances(e, subs, n) ==> NamesPrior(subs[n].t) || Unclaimed(e, subs[..n]);
    assert forall i :: 0 <= i < n ==> subs[..n][i] == subs[i];
    var ts, all := Applied(e, FRESH, subs[..n]), Applied(e, FRESH, subs);
    assert forall i :: 0 <= i < |ts| ==> all[i] == ts[i];
    if Advanced(Step(e, After(e, FRESH, subs[..n]), subs[n].t, subs[n].call)) {
      assert all[|ts|] == subs[n].t;
    }
  }

  /** What the readers of a rebuilt ledger see: same root, snapshot, histories and log; and the same
      stewards and threshold, unless the group was never founded but a refused CREATE_GROUP left its set
      on record. */
  lemma RebuiltShowsTheSame(e: Env, r: Ledger, o: Ledger, ts: seq<Transition>)
    requires (ts != [] ==> ts[0].payload.CreateGroup?) && Resembles(e, r, o, ts)
    ensures SameCore(o, r) && Root(e.platform, r.entries) == Root(e.platform, o.entries)
    ensures StewardsAt(e.platform, r, []) == StewardsAt(e.platform, o, [])
       <==> ts != [] || o.initialStewards == []
    ensures ThresholdAt(e.platform, r, []) == ThresholdAt(e.platform, o, [])
       <==> ts != [] || o.initialStewards == []
    ensures ts != [] ==> StewardsAt(e.platform, r, []) == AuthorityOf(ts).stewards
                         && ThresholdAt(e.platform, r, []) == AuthorityOf(ts).threshold
  {
    hide Root, AuthorityOf;
  }
}
