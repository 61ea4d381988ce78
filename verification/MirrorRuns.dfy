/** A mirror of a log that a run has left. */
module MirrorRuns {
  import opened Basics
  import opened ByteStrings
  import opened Snapshot
  import opened Multisig
  import opened Equivocation
  import opened Transitions
  import opened Ledger
  import opened Authority
  import opened Replay
  import opened Forest
  import opened ForestRuns
  import opened Mirror

  /** A mirror applies what it fetched at these times, without being held up by its own limiter or durable
      log. */
  predicate Smooth(ws: seq<World>, nows: seq<int>)
  {
    |ws| == |nows| && forall i :: 0 <= i < |ws| ==>
      ws[i].now == nows[i] && ws[i].limiterOk && (ws[i].saveOk || ws[i].replaying)
  }

  /** The mesh registry has no say in a self-contained transition. */
  lemma StepIgnoresMesh(e: Env, l: Ledger, t: Transition, call: Call)
    requires SelfContained(t)
    ensures Step(e, l, t, call) == Step(e, l, t, call.(meshOk := false))
  {
    var call' := call.(meshOk := false);
    assert Screen(e, l, t, call) == Screen(e, l, t, call');
    forall m ensures Execute(e, m, t, call) == Execute(e, m, t, call') {
      ExecuteIgnoresMesh(e, m, t, call);
    }
    hide Screen, Authorize, Execute;
  }

  lemma ExecuteIgnoresMesh(e: Env, l: Ledger, t: Transition, call: Call)
    requires SelfContained(t)
    ensures Execute(e, l, t, call) == Execute(e, l, t, call.(meshOk := false))
  {
    assert Gate(e, l, t, call) == Gate(e, l, t, call.(meshOk := false));
    hide Gate, Edits, ApplyEdits, Commit;
  }

  lemma MirrorStep(e: Env, f: Forest, t: Transition, w: World)
    requires t.branch == GENESIS && !IsBranchCreate(t) && SelfContained(t)
    requires w.limiterOk && (w.saveOk || w.replaying)
    ensures var (err, f') := ForestStep(e, f, t, w);
            var o := Step(e, f.genesis, t, ReplayCall(w.now));
            err == ErrorOf(o) && f'.genesis == o.ledger
  {
    var call := CallOf(f.durable, f.nextId, w);
    StepIgnoresMesh(e, f.genesis, t, call);
    StepIgnoresBranchId(e, f.genesis, t, call.(meshOk := false), 0);
    hide Step;
  }

  /** Applying a log to an empty mirror is the rebuild that `ReplayRebuilds` is about. */
  lemma {:induction false} MirrorIsRebuild(e: Env, ts: seq<Transition>, nows: seq<int>, ws: seq<World>,
                                           durable: Option<seq<Transition>>)
    requires |nows| == |ts| && GenesisOnly(ts) && AllSelfContained(ts) && Smooth(ws, nows)
    ensures var (err, f) := Restore(e, EMPTY.(durable := durable), ts, ws);
            && (err.None? <==> Rebuild(e, ts, nows).Some?)
            && (err.None? ==> f.genesis == Rebuild(e, ts, nows).value)
  {
    if ts != [] {
      hide Step, ForestStep;
      var n := |ts| - 1;
      MirrorIsRebuild(e, ts[..n], nows[..n], ws[..n], durable);
      var (err, f) := Restore(e, EMPTY.(durable := durable), ts[..n], ws[..n]);
      if err.None? {
        MirrorStep(e, f, ts[n], ws[n]);
      }
    }
  }

  /** Applying a log in two parts. */
  lemma {:induction false} RestoreInParts(e: Env, f: Forest, ts: seq<Transition>, ws: seq<World>, c: nat)
    requires |ws| == |ts| && c <= |ts| && Restore(e, f, ts, ws).0.None?
    ensures Restore(e, f, ts[..c], ws[..c]).0.None?
    ensures Restore(e, Restore(e, f, ts[..c], ws[..c]).1, ts[c..], ws[c..]) == Restore(e, f, ts, ws)
    decreases |ts|
  {
    hide ForestStep;
    if c == |ts| {
      assert ts[..c] == ts && ws[..c] == ws && ts[c..] == [] && ws[c..] == [];
    } else {
      var n := |ts| - 1;
      assert ts[..n][..c] == ts[..c] && ws[..n][..c] == ws[..c];
      assert ts[c..][..n - c] == ts[..n][c..] && ws[c..][..n - c] == ws[..n][c..];
      RestoreInParts(e, f, ts[..n], ws[..n], c);
    }
  }

  /** Below its cap the log is what was applied. */
  lemma {:induction false} LogIsApplied(e: Env, subs: seq<Submission>)
    requires e.limits.maxLogSize <= 0 || |Applied(e, FRESH, subs)| <= e.limits.maxLogSize
    ensures After(e, FRESH, subs).log == Applied(e, FRESH, subs)
  {
    if subs != [] {
      var n := |subs| - 1;
      var l, t, call := After(e, FRESH, subs[..n]), subs[n].t, subs[n].call;
      hide Step;
      LogIsApplied(e, subs[..n]);
      if Advanced(Step(e, l, t, call)) {
        LogAdvances(e, l, t, call);
      } else {
        RejectionKeepsCore(e, l, t, call);
      }
    }
  }

  lemma LogAdvances(e: Env, l: Ledger, t: Transition, call: Call)
    requires Advanced(Step(e, l, t, call)) && (e.limits.maxLogSize <= 0 || |l.log| < e.limits.maxLogSize)
    ensures Step(e, l, t, call).ledger.log == l.log + [t]
  {
    AdvancedShape(e, l, t, call);
    hide Step, Screen, Authorize, Gate, Edits, ApplyEdits, Root, NextStewards, NextThreshold;
  }

  /** A mirror converges. Take any run of the server, with durable writes, self-contained transitions, no
      equivocation entry evicted and the log below its cap, and a mirror that has applied any prefix of the
      server's log. If no MIGRATE deadline has passed at the times it applies them, bootstrapping applies
      exactly the rest without error, and ends with the server's log, snapshot and histories, hence its
      root; and with its stewards and threshold, once the group is founded. */
  lemma MirrorConverges(e: Env, subs: seq<Submission>, durable: Option<seq<Transition>>, c: nat,
                        attempts: seq<Attempt>, nows: seq<int>)
    requires GenesisRun(e, subs) && Durable(subs) && EqLogOf(e, After(e, FRESH, subs)).evictions == 0
    requires var ts := Applied(e, FRESH, subs);
             && AllSelfContained(ts) && GenesisOnly(ts) && |nows| == |ts| == |attempts| && c <= |ts|
             && (e.limits.maxLogSize <= 0 || |ts| <= e.limits.maxLogSize)
             && DeadlinesHold(ts, nows)
    requires Smooth(Worlds(attempts), nows)
    ensures After(e, FRESH, subs).log == Applied(e, FRESH, subs)
    ensures var ts := Applied(e, FRESH, subs);
            var (err, f) := Restore(e, EMPTY.(durable := durable), ts[..c], Worlds(attempts)[..c]);
            err.None? && f.genesis.log == ts[..c] && Lacking(ts, |f.genesis.log|) == ts[c..]
    ensures var ts := Applied(e, FRESH, subs);
            var f := Restore(e, EMPTY.(durable := durable), ts[..c], Worlds(attempts)[..c]).1;
            Converged(e, Sync(e, f, ts[c..], attempts[c..]), After(e, FRESH, subs), |ts| - c)
  {
    hide *;
    var ts, server, f0 := Applied(e, FRESH, subs), After(e, FRESH, subs), EMPTY.(durable := durable);
    var ws := Worlds(attempts);
    LogIsApplied(e, subs);
    assert Restore(e, f0, ts, ws).0.None? && Resembles(e, Restore(e, f0, ts, ws).1.genesis, server, ts)
           && (ts != [] ==> ts[0].payload.CreateGroup?) by {
      RunGoverned(e, subs);
      ReplayRebuilds(e, subs, nows);
      ReplayedTo(e, ts, nows, server);
      MirrorIsRebuild(e, ts, nows, ws, durable);
    }
    RestoreInParts(e, f0, ts, ws, c);
    RebuiltShowsTheSame(e, Restore(e, f0, ts, ws).1.genesis, server, ts);
    SameAuthorityShown(e.platform, Restore(e, f0, ts, ws).1.genesis, server);
    PrefixLog(e, durable, ts, ws, c);
    LackingAfter(ts, c);
    WorldsFrom(attempts, c);
    SyncIsRestore(e, Restore(e, f0, ts[..c], ws[..c]).1, ts[c..], attempts[c..]);
    ConvergedIs(e, Restore(e, f0, ts, ws).1, server, ts, |ts| - c);
  }

  /** The mirror has applied `n` transitions without error and shows what the server shows. */
  predicate Converged(e: Env, s: Progress, server: Ledger, n: nat)
  {
    && s.err.None? && s.applied == n && SameCore(server, s.f.genesis)
    && Root(e.platform, s.f.genesis.entries) == Root(e.platform, server.entries)
    && (server.log != [] ==> ShowSameAuthority(e.platform, s.f.genesis, server))
  }

  lemma ConvergedIs(e: Env, f: Forest, server: Ledger, ts: seq<Transition>, n: nat)
    requires SameCore(server, f.genesis) && server.log == ts
    requires Root(e.platform, f.genesis.entries) == Root(e.platform, server.entries)
    requires ts != [] ==> ShowSameAuthority(e.platform, f.genesis, server)
    ensures Converged(e, Progress(f, n, None), server, n)
  {
    hide Root, ShowSameAuthority, SameCore;
  }

  /** The log of a mirror that has applied a prefix. */
  lemma PrefixLog(e: Env, durable: Option<seq<Transition>>, ts: seq<Transition>, ws: seq<World>, c: nat)
    requires |ws| == |ts| && c <= |ts| && GenesisOnly(ts)
    requires e.limits.maxLogSize <= 0 || |ts| <= e.limits.maxLogSize
    requires Restore(e, EMPTY.(durable := durable), ts[..c], ws[..c]).0.None?
    ensures Restore(e, EMPTY.(durable := durable), ts[..c], ws[..c]).1.genesis.log == ts[..c]
  {
    hide *;
    PrefixIsGenesisOnly(ts, c);
    EmptyLogs(e, durable);
    RestoreExtendsLog(e, EMPTY.(durable := durable), ts[..c], ws[..c]);
    assert [] + ts[..c] == ts[..c];
  }

  lemma ReplayedTo(e: Env, ts: seq<Transition>, nows: seq<int>, l: Ledger)
    requires |nows| == |ts| && ReplaysTo(e, ts, nows, l) && DeadlinesHold(ts, nows)
    ensures Rebuild(e, ts, nows).Some?
    ensures (ts != [] ==> ts[0].payload.CreateGroup?) && Resembles(e, Rebuild(e, ts, nows).value, l, ts)
  {
    hide Rebuild, Resembles, DeadlinesHold;
  }

  lemma PrefixIsGenesisOnly(ts: seq<Transition>, c: nat)
    requires GenesisOnly(ts) && c <= |ts|
    ensures GenesisOnly(ts[..c])
  {
  }

  lemma EmptyLogs(e: Env, durable: Option<seq<Transition>>)
    ensures EMPTY.(durable := durable).genesis.log == []
  {
  }

  lemma LackingAfter(ts: seq<Transition>, c: nat)
    requires c <= |ts|
    ensures |ts[..c]| == c && Lacking(ts, c) == ts[c..]
  {
  }

  lemma WorldsFrom(attempts: seq<Attempt>, c: nat)
    requires c <= |attempts|
    ensures Worlds(attempts[c..]) == Worlds(attempts)[c..]
  {
  }

  lemma SameAuthorityShown(p: Platform, l: Ledger, m: Ledger)
    ensures ShowSameAuthority(p, l, m) <==>
            StewardsAt(p, l, []) == StewardsAt(p, m, []) && ThresholdAt(p, l, []) == ThresholdAt(p, m, [])
  {
  }
}
