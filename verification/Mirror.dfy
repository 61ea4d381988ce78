/** Mirror bootstrap: GetLog pages (internal/host/service.go) replayed by the Syncer
    (internal/federation/syncer.go). */
module Mirror {
  import opened Basics
  import opened ByteStrings
  import opened Snapshot
  import opened Transitions
  import opened Ledger
  import opened Forest
  import opened ForestRuns
  import Authority
  import Replay

  const DEFAULT_LIMIT: nat := 100
  const MAX_LIMIT: nat := 1000

  datatype Page = Page(transitions: seq<Transition>, nextCursor: nat, total: nat)

  function EffectiveLimit(limit: uint32): (n: nat)
    ensures 1 <= n <= MAX_LIMIT
  {
    if limit == 0 then DEFAULT_LIMIT else if limit > MAX_LIMIT then MAX_LIMIT else limit
  }

  function Min(a: nat, b: nat): nat
  {
    if a <= b then a else b
  }

  /** The page at `since`: at most `limit` transitions, and the next cursor, 0 at the end. */
  function PageAt(log: seq<Transition>, since: nat, limit: uint32): Page
  {
    var start := Min(since, |log|);
    var end := Min(start + EffectiveLimit(limit), |log|);
    Page(log[start..end], if end < |log| then end else 0, |log|)
  }

  /** GetLog: from the cursor, or from the end if that is earlier, as many transitions as asked for, where 0
      asks for 100 and more than 1000 for 1000, or all that are left; and where to go on, 0 for nowhere. */
  method GetLog(log: seq<Transition>, since: nat, limit: uint32) returns (page: Page)
    ensures page == PageAt(log, since, limit)
    ensures since >= |log| ==> page == Page([], 0, |log|)
    ensures since < |log| ==>
              var asked: nat := if limit == 0 then 100 else if limit <= 1000 then limit else 1000;
              var left := |log| - since;
              && |page.transitions| == (if asked < left then asked else left)
              && (forall i :: 0 <= i < |page.transitions| ==> page.transitions[i] == log[since + i])
              && page.nextCursor == (if asked < left then since + asked else 0)
              && page.total == |log|
  {
    var total := |log|;
    var n := limit;
    if n == 0 {
      n := 100;
    }
    if n > 1000 {
      n := 1000;
    }
    var start := since;
    if start > total {
      start := total;
    }
    var end := start + n;
    if end > total {
      end := total;
    }
    var transitions := [];
    var i := start;
    while i < end
      invariant start <= i <= end || (i == start && end <= start)
      invariant transitions == log[start..i]
    {
      transitions := transitions + [log[i]];
      i := i + 1;
    }
    var nextCursor := 0;
    if end < total {
      nextCursor := end;
    }
    page := Page(transitions, nextCursor, total);
  }

  /** Follow the cursor from page to page. */
  function AllPages(log: seq<Transition>, since: nat, limit: uint32): seq<Page>
    decreases |log| - since
  {
    var page := PageAt(log, since, limit);
    if page.nextCursor == 0 then [page] else [page] + AllPages(log, page.nextCursor, limit)
  }

  function Concat(pages: seq<Page>): seq<Transition>
  {
    if pages == [] then [] else pages[0].transitions + Concat(pages[1..])
  }

  function CeilDiv(a: nat, b: nat): nat
    requires b > 0
  {
    (a + b - 1) / b
  }

  /** For every limit the pages concatenate to the log from the cursor on, without gap or overlap,
      and their number is the ceiling of the rest over the effective limit, at least one. */
  lemma {:induction false} PagesCoverTheLog(log: seq<Transition>, since: nat, limit: uint32)
    requires since <= |log|
    ensures Concat(AllPages(log, since, limit)) == log[since..]
    ensures |AllPages(log, since, limit)| == Max(1, CeilDiv(|log| - since, EffectiveLimit(limit)))
    decreases |log| - since
  {
    var page := PageAt(log, since, limit);
    var n := EffectiveLimit(limit);
    if page.nextCursor == 0 {
      assert page.transitions == log[since..];
      assert [page][1..] == [];
      CeilDivSmall(|log| - since, n);
    } else {
      var rest := AllPages(log, page.nextCursor, limit);
      PagesCoverTheLog(log, page.nextCursor, limit);
      assert ([page] + rest)[1..] == rest;
      assert log[since..] == log[since..page.nextCursor] + log[page.nextCursor..];
      CeilDivStep(|log| - since, n);
    }
  }

  lemma CeilDivSmall(a: nat, n: nat)
    requires n > 0 && a <= n
    ensures Max(1, CeilDiv(a, n)) == 1
  {
    assert a + n - 1 < 2 * n;
    DivBound(a + n - 1, n);
  }

  lemma DivBound(a: nat, n: nat)
    requires n > 0 && a < 2 * n
    ensures a / n <= 1
  {
    var q := a / n;
    assert q >= 2 ==> n * q >= 2 * n;
  }

  lemma CeilDivStep(a: nat, n: nat)
    requires n > 0 && a > n
    ensures CeilDiv(a, n) == CeilDiv(a - n, n) + 1 && CeilDiv(a - n, n) >= 1
  {
    var x := a - n + n - 1;
    assert a + n - 1 == x + n;
    DivAdd(x, n);
    DivAdd(x - n, n);
  }

  lemma DivAdd(x: int, n: nat)
    requires n > 0
    ensures (x + n) / n == x / n + 1
  {
    assert x == n * (x / n) + x % n;
    assert x + n == n * (x / n + 1) + x % n;
    DivUnique(x + n, n, x / n + 1, x % n);
  }

  lemma DivUnique(x: int, n: nat, q: int, r: int)
    requires n > 0 && x == n * q + r && 0 <= r < n
    ensures x / n == q
  {
    var d := x / n - q;
    assert n * d == r - x % n;
    assert d >= 1 ==> n * d >= n;
    assert d <= -1 ==> n * d <= 0 - n;
  }

  // ----- What a bootstrap does to the mirror -----

  /** What surrounds one application, and whether the text of its error, if any, speaks of a duplicate. */
  datatype Attempt = Attempt(w: World, duplicate: bool)

  /** isDuplicateTransition. Of the errors of Apply only those of the mesh registry, and those a durable
      log of its own kind may raise, can contain the word; a mismatch of the prior state is worded
      differently from what is looked for. */
  predicate Skips(why: Rejection, duplicate: bool)
  {
    duplicate && (why == MeshRejected || why == PersistFailed)
  }

  /** The mirror, the transitions applied, and the error that ended the bootstrap. */
  datatype Progress = Progress(f: Forest, applied: nat, err: Option<Rejection>)

  /** One stored transition: applied, skipped as a duplicate, or the end. */
  function Next(e: Env, s: Progress, t: Transition, a: Attempt): Progress
  {
    if s.err.Some? then s
    else
      match ForestStep(e, s.f, t, a.w)
      case (None, f) => Progress(f, s.applied + 1, None)
      case (Some(why), f) => Progress(f, s.applied, if Skips(why, a.duplicate) then None else Some(why))
  }

  function Sync(e: Env, f: Forest, rest: seq<Transition>, attempts: seq<Attempt>): Progress
    requires |attempts| == |rest|
  {
    if rest == [] then Progress(f, 0, None)
    else
      var n := |rest| - 1;
      Next(e, Sync(e, f, rest[..n], attempts[..n]), rest[n], attempts[n])
  }

  /** How many stored transitions are got through. */
  function Passed(e: Env, f: Forest, rest: seq<Transition>, attempts: seq<Attempt>): nat
    requires |attempts| == |rest|
  {
    if rest == [] then 0
    else
      var n := |rest| - 1;
      if Sync(e, f, rest[..n], attempts[..n]).err.Some? then Passed(e, f, rest[..n], attempts[..n])
      else if Sync(e, f, rest, attempts).err.Some? then n
      else n + 1
  }

  lemma SyncStep(e: Env, f: Forest, rest: seq<Transition>, attempts: seq<Attempt>, k: nat)
    requires |attempts| == |rest| && k < |rest|
    ensures SyncTo(e, f, rest, attempts, k + 1) == Next(e, SyncTo(e, f, rest, attempts, k), rest[k], attempts[k])
  {
    hide Next;
    assert rest[..k + 1][..k] == rest[..k] && attempts[..k + 1][..k] == attempts[..k];
  }

  /** An error is the end: the k-th transition stopped the bootstrap. */
  lemma {:induction false} SyncStops(e: Env, f: Forest, rest: seq<Transition>, attempts: seq<Attempt>, k: nat, n: nat)
    requires |attempts| == |rest| && k < n <= |rest|
    requires SyncTo(e, f, rest, attempts, k).err.None? && SyncTo(e, f, rest, attempts, k + 1).err.Some?
    ensures SyncTo(e, f, rest, attempts, n) == SyncTo(e, f, rest, attempts, k + 1)
    ensures Passed(e, f, rest[..n], attempts[..n]) == k
  {
    hide ForestStep, Skips;
    assert rest[..n][..n - 1] == rest[..n - 1] && attempts[..n][..n - 1] == attempts[..n - 1];
    if k + 1 < n {
      SyncStops(e, f, rest, attempts, k, n - 1);
    }
  }

  /** A mirror of a log it accepts: the rest is applied in order, none skipped. */
  lemma {:induction false} SyncIsRestore(e: Env, f: Forest, rest: seq<Transition>, attempts: seq<Attempt>)
    requires |attempts| == |rest| && Restore(e, f, rest, Worlds(attempts)).0.None?
    ensures Sync(e, f, rest, attempts) == Progress(Restore(e, f, rest, Worlds(attempts)).1, |rest|, None)
  {
    hide ForestStep;
    if rest != [] {
      var n := |rest| - 1;
      assert Worlds(attempts)[..n] == Worlds(attempts[..n]);
      SyncIsRestore(e, f, rest[..n], attempts[..n]);
    }
  }

  function Worlds(attempts: seq<Attempt>): (ws: seq<World>)
    ensures |ws| == |attempts|
  {
    seq(|attempts|, i requires 0 <= i < |attempts| => attempts[i].w)
  }

  /** A genesis transition that is applied is appended to the log, and one that is not leaves it, as
      long as the durable log works and the log is below its cap. */
  lemma LogFollows(e: Env, f: Forest, t: Transition, w: World)
    requires t.branch == GENESIS && !IsBranchCreate(t) && (w.saveOk || ForestStep(e, f, t, w).0.None?)
    requires e.limits.maxLogSize <= 0 || |f.genesis.log| < e.limits.maxLogSize
    ensures var (err, f') := ForestStep(e, f, t, w);
            f'.genesis.log == if err.None? then f.genesis.log + [t] else f.genesis.log
  {
    var call := CallOf(f.durable, f.nextId, w);
    hide Step;
    if Step(e, f.genesis, t, call).Accepted? {
      LogAppended(e, f.genesis, t, call);
    } else {
      RefusedIsNotPersist(e, f.genesis, t, call);
      RejectionKeepsCore(e, f.genesis, t, call);
    }
  }

  lemma LogAppended(e: Env, l: Ledger, t: Transition, call: Call)
    requires Step(e, l, t, call).Accepted?
    requires e.limits.maxLogSize <= 0 || |l.log| < e.limits.maxLogSize
    ensures Step(e, l, t, call).ledger.log == l.log + [t]
  {
    Authority.AdvancedShape(e, l, t, call);
    hide Step, Screen, Authorize, Gate, Edits, ApplyEdits, Root, NextStewards, NextThreshold;
  }

  lemma RefusedIsNotPersist(e: Env, l: Ledger, t: Transition, call: Call)
    requires call.persistOk && Step(e, l, t, call).Rejected?
    ensures Step(e, l, t, call).why != PersistFailed
  {
    if Step(e, l, t, call).why == PersistFailed {
      Replay.PersistedStepsAdvance(e, l, t, call);
    }
  }

  /** The mirror's log grows by exactly the transitions applied: a skipped one is missing from it. */
  lemma {:induction false} LogGrowsByApplied(e: Env, f: Forest, rest: seq<Transition>, attempts: seq<Attempt>)
    requires |attempts| == |rest| && GenesisOnly(rest) && forall a <- attempts :: a.w.saveOk
    requires e.limits.maxLogSize <= 0 || |f.genesis.log| + |rest| <= e.limits.maxLogSize
    ensures var s := Sync(e, f, rest, attempts);
            && |s.f.genesis.log| == |f.genesis.log| + s.applied && s.applied <= |rest|
            && (s.applied == |rest| ==> s.f.genesis.log == f.genesis.log + rest)
  {
    hide ForestStep;
    if rest == [] {
      assert f.genesis.log + rest == f.genesis.log;
    } else {
      var n := |rest| - 1;
      LogGrowsByApplied(e, f, rest[..n], attempts[..n]);
      var s := Sync(e, f, rest[..n], attempts[..n]);
      assert attempts[n] in attempts && rest == rest[..n] + [rest[n]];
      if s.err.None? {
        LogFollows(e, s.f, rest[n], attempts[n].w);
      }
    }
  }

  /** The log of a mirror that accepts the rest is the server's. */
  lemma {:induction false} RestoreExtendsLog(e: Env, f: Forest, rest: seq<Transition>, ws: seq<World>)
    requires |ws| == |rest| && GenesisOnly(rest) && Restore(e, f, rest, ws).0.None?
    requires e.limits.maxLogSize <= 0 || |f.genesis.log| + |rest| <= e.limits.maxLogSize
    ensures Restore(e, f, rest, ws).1.genesis.log == f.genesis.log + rest
  {
    hide ForestStep;
    if rest == [] {
      assert f.genesis.log + rest == f.genesis.log;
    } else {
      var n := |rest| - 1;
      RestoreExtendsLog(e, f, rest[..n], ws[..n]);
      assert rest == rest[..n] + [rest[n]];
      LogFollows(e, Restore(e, f, rest[..n], ws[..n]).1, rest[n], ws[n]);
    }
  }

  /** Bootstrap equals suffix replay: from a log that the mirror accepts, within its cap, exactly the
      missing transitions are applied, without error, and the logs agree. */
  lemma AcceptedLogIsMirrored(e: Env, f: Forest, server: seq<Transition>, attempts: seq<Attempt>)
    requires f.genesis.log <= server && GenesisOnly(server) && |attempts| == |server| - |f.genesis.log|
    requires e.limits.maxLogSize <= 0 || |server| <= e.limits.maxLogSize
    requires Restore(e, f, Lacking(server, |f.genesis.log|), Worlds(attempts)).0.None?
    ensures var rest := Lacking(server, |f.genesis.log|);
            var s := Sync(e, f, rest, attempts);
            && s == Progress(Restore(e, f, rest, Worlds(attempts)).1, |rest|, None)
            && s.f.genesis.log == server && Lacking(server, |s.f.genesis.log|) == []
  {
    hide *;
    var rest := Lacking(server, |f.genesis.log|);
    LackingJoins(server, f.genesis.log);
    SyncIsRestore(e, f, rest, attempts);
    RestoreExtendsLog(e, f, rest, Worlds(attempts));
  }

  lemma LackingJoins(server: seq<Transition>, log: seq<Transition>)
    requires log <= server && GenesisOnly(server)
    ensures log + Lacking(server, |log|) == server && |Lacking(server, |log|)| == |server| - |log|
    ensures Lacking(server, |server|) == [] && GenesisOnly(Lacking(server, |log|))
  {
  }

  /** The source means to skip what it applied before, told by the mismatch of its prior state. It does
      not: such a transition ends the bootstrap, whatever its error says. */
  lemma StalePriorStops(e: Env, f: Forest, t: Transition, a: Attempt)
    requires t.branch == GENESIS && !IsBranchCreate(t) && (IsCreate(t) || |t.hlc| == HLC_SIZE)
    requires NamesPrior(t) && Fix32(t.prior) != Root(e.platform, f.genesis.entries)
    ensures Sync(e, f, [t], [a]).err == Some(PriorMismatch) && Sync(e, f, [t], [a]).f.genesis == f.genesis
  {
    var call := CallOf(f.durable, f.nextId, a.w);
    assert Step(e, f.genesis, t, call) == Rejected(PriorMismatch, f.genesis);
    hide Step, Root;
    OneStep(e, f, t, a);
  }

  lemma OneStep(e: Env, f: Forest, t: Transition, a: Attempt)
    ensures Sync(e, f, [t], [a]) == Next(e, Progress(f, 0, None), t, a)
  {
    hide Next;
    assert [t][..0] == [] && [a][..0] == [];
    assert Sync(e, f, [], []) == Progress(f, 0, None);
  }

  // ----- Bootstrap -----

  /** What the mirror is missing, told by the length of its own log. */
  function Lacking(server: seq<Transition>, have: nat): seq<Transition>
  {
    if have <= |server| then server[have..] else []
  }

  /** The requests a bootstrap makes from a position on: one for each page. */
  function Rounds(total: nat, pos: nat): nat
    decreases total - pos
  {
    if pos + DEFAULT_LIMIT >= total then 1 else 1 + Rounds(total, pos + DEFAULT_LIMIT)
  }

  lemma {:induction false} RoundsAreCeiling(total: nat, pos: nat)
    requires pos <= total
    ensures Rounds(total, pos) == Max(1, CeilDiv(total - pos, DEFAULT_LIMIT))
    decreases total - pos
  {
    if pos + DEFAULT_LIMIT >= total {
      CeilDivSmall(total - pos, DEFAULT_LIMIT);
    } else {
      RoundsAreCeiling(total, pos + DEFAULT_LIMIT);
      CeilDivStep(total - pos, DEFAULT_LIMIT);
    }
  }

  /** The page at a position of the missing transitions. */
  lemma PageOf(server: seq<Transition>, have: nat, pos: nat)
    requires pos == 0 || pos < |Lacking(server, have)|
    ensures var rest, page := Lacking(server, have), PageAt(server, have + pos, DEFAULT_LIMIT);
            && page.transitions == rest[pos..Min(pos + DEFAULT_LIMIT, |rest|)]
            && page.nextCursor == if pos + DEFAULT_LIMIT < |rest| then have + pos + DEFAULT_LIMIT else 0
  {
  }

  /** The state after the first `k` transitions. */
  function SyncTo(e: Env, f: Forest, rest: seq<Transition>, attempts: seq<Attempt>, k: nat): Progress
    requires |attempts| == |rest| && k <= |rest|
  {
    Sync(e, f, rest[..k], attempts[..k])
  }

  lemma SyncEnds(e: Env, f: Forest, rest: seq<Transition>, attempts: seq<Attempt>)
    requires |attempts| == |rest|
    ensures SyncTo(e, f, rest, attempts, 0) == Progress(f, 0, None)
    ensures SyncTo(e, f, rest, attempts, |rest|) == Sync(e, f, rest, attempts)
  {
    hide Next;
    assert rest[..0] == [] && attempts[..0] == [];
    assert rest[..|rest|] == rest && attempts[..|rest|] == attempts;
  }

  /** Bootstrap: fetch pages of 100 from the server's log, starting at the length of the mirror's own, and
      apply them. For every log and whatever Apply makes of it, the mirror ends where working through the
      missing transitions one by one ends; without an error that takes max(1, ceil(missing/100)) requests,
      with one it stops on the page that holds the refused transition. */
  method Bootstrap(st: State, server: seq<Transition>, attempts: seq<Attempt>)
    returns (applied: nat, requests: nat, err: Option<Rejection>)
    requires st.Valid() && |attempts| == |Lacking(server, |st.log|)|
    modifies st.Repr
    ensures st.Valid() && fresh(st.Repr - old(st.Repr))
    ensures var rest := Lacking(server, |old(st.log)|);
            && Progress(st.View(), applied, err) == Sync(st.env, old(st.View()), rest, attempts)
            && requests == if err.None? then Max(1, CeilDiv(|rest|, 100))
                           else Passed(st.env, old(st.View()), rest, attempts) / 100 + 1
  {
    ghost var f, rest := st.View(), Lacking(server, |st.log|);
    hide *;
    var have, pos := |st.log|, 0;
    applied, requests, err := 0, 0, None;
    SyncEnds(st.env, f, rest, attempts);
    RoundsAreCeiling(|rest|, 0);
    var more := true;
    while more
      invariant st.Valid() && fresh(st.Repr - old(st.Repr))
      invariant pos <= |rest|
      invariant more ==>
          && (pos == 0 || pos < |rest|) && pos == 100 * requests && err.None?
          && SyncTo(st.env, f, rest, attempts, pos) == Progress(st.View(), applied, None)
          && requests + Rounds(|rest|, pos) == Rounds(|rest|, 0)
      invariant !more ==>
          && Progress(st.View(), applied, err) == Sync(st.env, f, rest, attempts)
          && requests == if err.None? then Rounds(|rest|, 0)
                         else Passed(st.env, f, rest, attempts) / DEFAULT_LIMIT + 1
      decreases more, |rest| - pos
    {
      err, applied, pos, more := Round(st, server, have, f, rest, attempts, pos, applied);
      requests := requests + 1;
    }
  }

  /** One round: fetch the page at the cursor, apply it, and go on where the server says. */
  method Round(st: State, server: seq<Transition>, have: nat, ghost f: Forest, ghost rest: seq<Transition>,
               attempts: seq<Attempt>, pos: nat, applied: nat)
    returns (err: Option<Rejection>, applied': nat, pos': nat, more: bool)
    requires st.Valid() && rest == Lacking(server, have) && |attempts| == |rest| && (pos == 0 || pos < |rest|)
    requires SyncTo(st.env, f, rest, attempts, pos) == Progress(st.View(), applied, None)
    modifies st.Repr
    ensures st.Valid() && fresh(st.Repr - old(st.Repr))
    ensures more ==>
              && pos' == pos + 100 < |rest| && err.None?
              && SyncTo(st.env, f, rest, attempts, pos') == Progress(st.View(), applied', None)
              && Rounds(|rest|, pos) == 1 + Rounds(|rest|, pos')
    ensures !more ==>
              && pos' == pos
              && Progress(st.View(), applied', err) == Sync(st.env, f, rest, attempts)
              && (err.None? ==> Rounds(|rest|, pos) == 1)
              && (err.Some? ==> pos <= Passed(st.env, f, rest, attempts) < pos + 100)
  {
    hide Sync, SyncTo, Passed, PageAt, Lacking;
    var page := GetLog(server, have + pos, DEFAULT_LIMIT);
    PageOf(server, have, pos);
    SyncEnds(st.env, f, rest, attempts);
    err, applied' := ApplyPage(st, page.transitions, f, rest, attempts, pos, applied);
    more := err.None? && page.nextCursor != 0;
    pos' := if more then page.nextCursor - have else pos;
  }

  /** The inner loop of Bootstrap: apply one page, skipping duplicates, up to the first other error. */
  method ApplyPage(st: State, transitions: seq<Transition>, ghost f: Forest, ghost rest: seq<Transition>,
                   attempts: seq<Attempt>, start: nat, applied: nat)
    returns (err: Option<Rejection>, applied': nat)
    requires st.Valid() && |attempts| == |rest| && start + |transitions| <= |rest|
    requires transitions == rest[start..start + |transitions|]
    requires SyncTo(st.env, f, rest, attempts, start) == Progress(st.View(), applied, None)
    modifies st.Repr
    ensures st.Valid() && fresh(st.Repr - old(st.Repr))
    ensures err.None? ==>
              SyncTo(st.env, f, rest, attempts, start + |transitions|) == Progress(st.View(), applied', None)
    ensures err.Some? ==>
              && Progress(st.View(), applied', err) == Sync(st.env, f, rest, attempts)
              && start <= Passed(st.env, f, rest, attempts) < start + |transitions|
  {
    hide ForestStep, Sync, Passed, Skips;
    err, applied' := None, applied;
    var k := 0;
    while k < |transitions|
      invariant 0 <= k <= |transitions| && err.None?
      invariant st.Valid() && fresh(st.Repr - old(st.Repr))
      invariant SyncTo(st.env, f, rest, attempts, start + k) == Progress(st.View(), applied', None)
    {
      SyncStep(st.env, f, rest, attempts, start + k);
      var a := attempts[start + k];
      var refused := st.Apply(transitions[k], a.w);
      if refused.None? {
        applied' := applied' + 1;
      } else if !Skips(refused.value, a.duplicate) {
        err := refused;
        SyncStops(st.env, f, rest, attempts, start + k, |rest|);
        SyncEnds(st.env, f, rest, attempts);
        assert rest[..|rest|] == rest && attempts[..|rest|] == attempts;
        return;
      }
      k := k + 1;
    }
  }
}
