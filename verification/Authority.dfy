/** Runs of one branch, and who had authority over each accepted step. */
module Authority {
  import opened Basics
  import opened ByteStrings
  import opened Snapshot
  import opened KeyValue
  import opened Multisig
  import opened Equivocation
  import opened Transitions
  import opened Ledger

  datatype Submission = Submission(t: Transition, call: Call)

  /** The in-memory state moved on. It also does when only the durable log failed. */
  predicate Advanced(o: Outcome)
  {
    o.Accepted? || o.why == PersistFailed
  }

  function After(e: Env, l: Ledger, subs: seq<Submission>): Ledger
  {
    if subs == [] then l
    else
      var n := |subs| - 1;
      Step(e, After(e, l, subs[..n]), subs[n].t, subs[n].call).ledger
  }

  /** The transitions of the run that advanced the state, in order. */
  function Applied(e: Env, l: Ledger, subs: seq<Submission>): seq<Transition>
  {
    if subs == [] then []
    else
      var n := |subs| - 1;
      Applied(e, l, subs[..n])
      + (if Advanced(Step(e, After(e, l, subs[..n]), subs[n].t, subs[n].call)) then [subs[n].t] else [])
  }

  /** Nothing has been applied yet and no initial stewards are on record. */
  predicate Unclaimed(e: Env, subs: seq<Submission>)
  {
    Applied(e, FRESH, subs) == [] && After(e, FRESH, subs).initialStewards == []
  }

  /** Submission `i` of the run advanced the state. */
  predicate Advances(e: Env, subs: seq<Submission>, i: nat)
    requires i < |subs|
  {
    Advanced(Step(e, After(e, FRESH, subs[..i]), subs[i].t, subs[i].call))
  }

  /** A run of the genesis branch: any submissions, of which those that advance the state name their
      prior state. The one that founds the group may omit it as long as no initial stewards are on
      record. */
  predicate GenesisRun(e: Env, subs: seq<Submission>)
  {
    forall i :: 0 <= i < |subs| && Advances(e, subs, i) ==> NamesPrior(subs[i].t) || Unclaimed(e, subs[..i])
  }

  // ----- The authority in force, as a fold over applied transitions -----

  datatype Authority = Authority(stewards: seq<PublicKey>, threshold: nat, initial: seq<PublicKey>)

  function Found(create: Payload): Authority
    requires create.CreateGroup?
  {
    var keys := PadKeys(create.stewards);
    Authority(keys, create.threshold, keys)
  }

  /** A CREATE_GROUP on a group whose last steward is gone installs a new set and keeps the
      threshold; on a group with stewards it restores the initial set. */
  function Amend(a: Authority, t: Payload): Authority
  {
    match t
    case CreateGroup(_, _, _, raws, _) =>
      if a.stewards == [] then Authority(PadKeys(raws), a.threshold, PadKeys(raws)) else a.(stewards := a.initial)
    case AddSteward(k) => if Fix32(k) in a.stewards then a else a.(stewards := a.stewards + [Fix32(k)])
    case RemoveSteward(k) => a.(stewards := Without(a.stewards, Fix32(k)))
    case SlashSteward(k) => a.(stewards := Without(a.stewards, Fix32(k)))
    case ChangeThreshold(n) => a.(threshold := n)
    case _ => a
  }

  function AuthorityOf(ts: seq<Transition>): Authority
    requires |ts| > 0 && ts[0].payload.CreateGroup?
  {
    if |ts| == 1 then Found(ts[0].payload) else Amend(AuthorityOf(ts[..|ts| - 1]), ts[|ts| - 1].payload)
  }

  /** The histories at the head hold the authority in force. */
  predicate Governs(p: Platform, l: Ledger, a: Authority)
  {
    var r := Root(p, l.entries);
    && r in l.stewardHistory && l.stewardHistory[r] == a.stewards
    && r in l.thresholdHistory && l.thresholdHistory[r] == a.threshold
    && a.threshold > 0
    && (a.stewards != [] ==> l.initialStewards == a.initial)
  }

  // ----- One step -----

  /** How an advancing step is put together. */
  lemma AdvancedShape(e: Env, l: Ledger, t: Transition, call: Call)
    requires Advanced(Step(e, l, t, call))
    ensures Screen(e, l, t, call).Go?
    ensures NamesPrior(t) ==> Fix32(t.prior) == Root(e.platform, l.entries)
    ensures var l1 := Screen(e, l, t, call).ledger;
            && Authorize(e.platform, l1, t).Go?
            && var l2 := Authorize(e.platform, l1, t).ledger;
               && SameCore(l, l1) && SameCore(l1, l2)
               && l1.initialStewards == l.initialStewards && l1.initialThreshold == l.initialThreshold
               && l2.equivocation == l1.equivocation
               && Gate(e, l2, t, call).None?
               && ApplyEdits(e.limits, l.entries, Edits(t, call.nextBranch)).Some?
               && Step(e, l, t, call).ledger
                  == Commit(e, l2, t, ApplyEdits(e.limits, l.entries, Edits(t, call.nextBranch)).value)
  {
    hide Screen, Authorize, Execute, Gate, ApplyEdits, Edits, Commit, Root, Fix32;
    ScreenKeepsCore(e, l, t, call);
    ScreenVerdict(e, l, t, call);
    var l1 := Screen(e, l, t, call).ledger;
    AuthorizeKeepsCore(e.platform, l1, t);
    AuthorizeVerdict(e.platform, l1, t);
    var l2 := Authorize(e.platform, l1, t).ledger;
    ExecuteShape(e, l2, t, call);
  }

  lemma ScreenVerdict(e: Env, l: Ledger, t: Transition, call: Call)
    ensures var s := Screen(e, l, t, call);
            && (s.Stop? ==> s.why != PersistFailed)
            && (s.Go? && NamesPrior(t) ==> Fix32(t.prior) == Root(e.platform, l.entries))
  {
    hide Root, Fix32;
  }

  lemma AuthorizeVerdict(p: Platform, l: Ledger, t: Transition)
    ensures var s := Authorize(p, l, t); s.Stop? ==> s.why != PersistFailed
  {
  }

  lemma ExecuteShape(e: Env, l: Ledger, t: Transition, call: Call)
    requires Advanced(Execute(e, l, t, call))
    ensures Gate(e, l, t, call).None?
    ensures ApplyEdits(e.limits, l.entries, Edits(t, call.nextBranch)).Some?
    ensures Execute(e, l, t, call).ledger
         == Commit(e, l, t, ApplyEdits(e.limits, l.entries, Edits(t, call.nextBranch)).value)
  {
    GateNeverPersists(e, l, t, call);
  }

  lemma GateNeverPersists(e: Env, l: Ledger, t: Transition, call: Call)
    ensures Gate(e, l, t, call) != Some(PersistFailed)
  {
  }

  /** Nothing but the initial stewards and threshold is on record. */
  predicate Bare(l: Ledger)
  {
    l == FRESH.(initialStewards := l.initialStewards, initialThreshold := l.initialThreshold)
  }

  /** Before the founding: what a refused CREATE_GROUP may have left. */
  predicate Unfounded(l: Ledger)
  {
    && Bare(l)
    && (l.initialStewards == [] <==> l.initialThreshold == 0)
  }

  lemma UnfoundedIsBare(l: Ledger)
    requires Unfounded(l)
    ensures Bare(l)
  {
  }

  /** Without a history, screening records nothing. */
  lemma UnfoundedScreen(e: Env, l: Ledger, t: Transition, call: Call)
    requires NamesPrior(t) ==> l.stewardHistory == map[]
    ensures Screen(e, l, t, call).ledger == l
  {
    NobodySigns(TransitionVerifier(e.platform, t), Signatures(t));
    hide Root;
  }

  /** A refused submission may leave an initial set behind, and nothing else. */
  lemma UnfoundedRejected(e: Env, l: Ledger, t: Transition, call: Call)
    requires Unfounded(l) && !Advanced(Step(e, l, t, call))
    ensures Unfounded(Step(e, l, t, call).ledger)
    ensures Step(e, l, t, call).ledger.initialStewards == []
       <==> l.initialStewards == [] && !PassesSignatures(e, l, t, call)
  {
    UnfoundedScreen(e, l, t, call);
    UnfoundedAuthorize(e.platform, l, t);
    hide Root, Screen, Authorize;
    if PassesSignatures(e, l, t, call) {
      ExecuteKeepsCore(e, Authorize(e.platform, l, t).ledger, t, call);
    }
  }

  /** Did the submission get through screening and signatures? */
  predicate PassesSignatures(e: Env, l: Ledger, t: Transition, call: Call)
  {
    Screen(e, l, t, call).Go? && Authorize(e.platform, Screen(e, l, t, call).ledger, t).Go?
  }

  lemma UnfoundedAuthorize(p: Platform, l: Ledger, t: Transition)
    requires Unfounded(l)
    ensures var s := Authorize(p, l, t);
            && Unfounded(s.ledger)
            && (s.Stop? ==> s.ledger == l)
            && (s.Go? ==> s.ledger.initialStewards != [])
  {
    hide Root;
    NoQuorumOfNobody(TransitionVerifier(p, t), Signatures(t));
  }

  lemma {:induction false} NoQuorumOfNobody(v: Verifier, sigs: seq<Signature>)
    ensures Credited(v, [], sigs) == {}
  {
    if sigs != [] {
      NoQuorumOfNobody(v, sigs[..|sigs| - 1]);
    }
  }

  /** The founding step: with a named prior state, or no initial stewards on record, what was refused
      before leaves no trace. */
  lemma FoundingIsFresh(e: Env, l: Ledger, t: Transition, call: Call)
    requires Bare(l) && Advanced(Step(e, l, t, call)) && (NamesPrior(t) || l.initialStewards == [])
    ensures t.payload.CreateGroup? && Step(e, l, t, call) == Step(e, FRESH, t, call)
  {
    AdvancedShape(e, l, t, call);
    UnfoundedScreen(e, l, t, call);
    hide Root, PadKeys, Execute, Accepts, Gate, ApplyEdits, Edits, Commit;
  }

  /** The first transition that advances the state is a CREATE_GROUP, and puts its own set and
      threshold in force. */
  lemma FoundingGoverns(e: Env, l: Ledger, t: Transition, call: Call)
    requires Bare(l) && Advanced(Step(e, l, t, call)) && (NamesPrior(t) || l.initialStewards == [])
    ensures t.payload.CreateGroup?
    ensures Governs(e.platform, Step(e, l, t, call).ledger, Found(t.payload))
  {
    FoundingIsFresh(e, l, t, call);
    AdvancedShape(e, FRESH, t, call);
    var l1 := Screen(e, FRESH, t, call).ledger;
    hide Screen, Step, Gate, ApplyEdits, Edits, Root, PadKeys, Found;
    FoundingAuthorized(e.platform, l1, t);
    var l2 := Authorize(e.platform, l1, t).ledger;
    hide Authorize;
    FoundingCommitted(e, l2, t, ApplyEdits(e.limits, FRESH.entries, Edits(t, call.nextBranch)).value);
  }

  /** Without stewards only a CREATE_GROUP passes, and it installs its own set and threshold. */
  lemma FoundingAuthorized(p: Platform, l: Ledger, t: Transition)
    requires l.stewardHistory == map[] && l.initialStewards == [] && Authorize(p, l, t).Go?
    ensures t.payload.CreateGroup? && t.payload.threshold > 0
    ensures Authorize(p, l, t).ledger
         == l.(initialStewards := Found(t.payload).stewards, initialThreshold := t.payload.threshold)
  {
    hide Root, PadKeys, Fix32;
  }

  lemma FoundingCommitted(e: Env, l: Ledger, t: Transition, entries: Entries)
    requires t.payload.CreateGroup? && t.payload.threshold > 0
    requires l.thresholdHistory == map[] && l.initialThreshold == t.payload.threshold
    requires l.initialStewards == Found(t.payload).stewards
    ensures Governs(e.platform, Commit(e, l, t, entries), Found(t.payload))
  {
    hide Root, PadKeys, Fix32;
  }

  /** The tail of Apply computes the fold: its lookups find the authority in force under the
      named prior state, even though the snapshot has already been replaced. */
  lemma TailAmends(p: Platform, l: Ledger, t: Transition, a: Authority)
    requires NamesPrior(t) && Fix32(t.prior) in l.stewardHistory && Fix32(t.prior) in l.thresholdHistory
    requires l.stewardHistory[Fix32(t.prior)] == a.stewards && l.thresholdHistory[Fix32(t.prior)] == a.threshold
    requires t.payload.CreateGroup? ==>
               l.initialStewards == if a.stewards == [] then PadKeys(t.payload.stewards) else a.initial
    ensures NextStewards(p, l, t) == Amend(a, t.payload).stewards
    ensures NextThreshold(l, t) == Amend(a, t.payload).threshold
  {
    assert StewardsAt(p, l, t.prior) == a.stewards;
  }

  /** A CREATE_GROUP signed by enough of the stewards it declares itself. */
  predicate SelfSigned(p: Platform, t: Transition)
  {
    && t.payload.CreateGroup? && t.payload.threshold > 0
    && Accepts(TransitionVerifier(p, t), PadKeys(t.payload.stewards), t.payload.threshold, Signatures(t))
  }

  /** What the signature stage establishes under a known authority. */
  lemma AuthorizeUnder(p: Platform, l: Ledger, t: Transition, a: Authority)
    requires NamesPrior(t) && Fix32(t.prior) in l.stewardHistory && Fix32(t.prior) in l.thresholdHistory
    requires l.stewardHistory[Fix32(t.prior)] == a.stewards && l.thresholdHistory[Fix32(t.prior)] == a.threshold
    requires Authorize(p, l, t).Go?
    ensures a.stewards == [] ==>
              SelfSigned(p, t) && Authorize(p, l, t).ledger.initialStewards == PadKeys(t.payload.stewards)
    ensures a.stewards != [] ==>
              (Authorize(p, l, t).ledger == l
               && Accepts(TransitionVerifier(p, t), a.stewards, a.threshold, Signatures(t)))
  {
    assert StewardsAt(p, l, t.prior) == a.stewards;
    assert ThresholdAt(p, l, t.prior) == a.threshold;
  }

  /** What the gates establish that authority depends on. */
  lemma GateUnder(e: Env, l: Ledger, t: Transition, call: Call)
    requires Gate(e, l, t, call).None?
    ensures t.payload.ChangeThreshold? ==> t.payload.threshold > 0
    ensures t.payload.SlashSteward? ==>
              !SignedBy(TransitionVerifier(e.platform, t), Fix32(t.payload.steward), Signatures(t))
    ensures IsCreate(t) ==> t.payload.CreateGroup?
  {
  }

  /** An advancing step was signed by a quorum of the authority in force, and amends it. */
  lemma GovernsStep(e: Env, l: Ledger, t: Transition, call: Call, a: Authority)
    requires Governs(e.platform, l, a) && NamesPrior(t) && Advanced(Step(e, l, t, call))
    ensures Governs(e.platform, Step(e, l, t, call).ledger, Amend(a, t.payload))
    ensures a.stewards == [] ==> SelfSigned(e.platform, t)
    ensures a.stewards != [] ==> Accepts(TransitionVerifier(e.platform, t), a.stewards, a.threshold, Signatures(t))
    ensures t.payload.SlashSteward? ==>
              !SignedBy(TransitionVerifier(e.platform, t), Fix32(t.payload.steward), Signatures(t))
  {
    AdvancedShape(e, l, t, call);
    var l1 := Screen(e, l, t, call).ledger;
    AuthorizeUnder(e.platform, l1, t, a);
    var l2 := Authorize(e.platform, l1, t).ledger;
    GateUnder(e, l2, t, call);
    var entries := ApplyEdits(e.limits, l.entries, Edits(t, call.nextBranch)).value;
    TailAmends(e.platform, l2.(entries := entries), t, a);
  }

  /** A submission that does not advance the state leaves the authority alone. */
  lemma GovernsRejected(e: Env, l: Ledger, t: Transition, call: Call, a: Authority)
    requires Governs(e.platform, l, a) && !Advanced(Step(e, l, t, call))
    ensures Governs(e.platform, Step(e, l, t, call).ledger, a)
  {
    RejectionKeepsCore(e, l, t, call);
    if a.stewards != [] {
      InitialKept(e, l, t, call);
    }
  }

  /** Only a CREATE_GROUP on a branch without stewards can change the initial set. */
  lemma InitialKept(e: Env, l: Ledger, t: Transition, call: Call)
    requires !Advanced(Step(e, l, t, call))
    requires Root(e.platform, l.entries) in l.stewardHistory && l.stewardHistory[Root(e.platform, l.entries)] != []
    ensures Step(e, l, t, call).ledger.initialStewards == l.initialStewards
  {
    ScreenKeepsCore(e, l, t, call);
    var l1 := Screen(e, l, t, call).ledger;
    if Screen(e, l, t, call).Go? {
      assert StewardsAt(e.platform, l1, t.prior) != [];
      assert Authorize(e.platform, l1, t).ledger == l1;
      if Authorize(e.platform, l1, t).Go? {
        ExecuteKeepsCore(e, l1, t, call);
      }
    }
  }

  // ----- Whole runs -----

  /** Until something is applied a run leaves at most an initial set behind, and it does so exactly
      when some submission got through its signatures before it was refused. */
  lemma {:induction false} UnclaimedExactly(e: Env, subs: seq<Submission>)
    requires Applied(e, FRESH, subs) == []
    ensures Unfounded(After(e, FRESH, subs))
    ensures Unclaimed(e, subs) <==> NonePasses(e, subs)
  {
    hide Step, PassesSignatures, Unfounded;
    if subs == [] {
      FreshIsUnfounded();
    } else {
      var n := |subs| - 1;
      UnclaimedExactly(e, subs[..n]);
      UnfoundedRejected(e, After(e, FRESH, subs[..n]), subs[n].t, subs[n].call);
      assert After(e, FRESH, subs) == Step(e, After(e, FRESH, subs[..n]), subs[n].t, subs[n].call).ledger;
      NonePassesSnoc(e, subs);
      hide After, Applied, NonePasses;
    }
  }

  /** No submission of the run gets through its signatures. */
  predicate NonePasses(e: Env, subs: seq<Submission>)
  {
    forall i :: 0 <= i < |subs| ==> !PassesSignatures(e, After(e, FRESH, subs[..i]), subs[i].t, subs[i].call)
  }

  lemma NonePassesSnoc(e: Env, subs: seq<Submission>)
    requires subs != []
    ensures var n := |subs| - 1;
            NonePasses(e, subs) <==>
            NonePasses(e, subs[..n]) && !PassesSignatures(e, After(e, FRESH, subs[..n]), subs[n].t, subs[n].call)
  {
    hide After, PassesSignatures;
    var n := |subs| - 1;
    assert forall i :: 0 <= i < n ==> subs[..n][i] == subs[i] && subs[..n][..i] == subs[..i];
  }

  lemma FreshIsUnfounded()
    ensures Unfounded(FRESH)
  {
  }

  lemma RunPrefix(e: Env, subs: seq<Submission>, n: nat)
    requires GenesisRun(e, subs) && n <= |subs|
    ensures GenesisRun(e, subs[..n])
  {
    hide Step, Unclaimed;
    forall i | 0 <= i < n && Advances(e, subs[..n], i)
      ensures NamesPrior(subs[i].t) || Unclaimed(e, subs[..n][..i])
    {
      assert subs[..n][..i] == subs[..i];
      assert Advances(e, subs, i);
    }
  }

  /** In a run, either nothing has been applied, or the first transition applied was a CREATE_GROUP and
      the fold of the applied transitions is in force. */
  lemma {:induction false} RunGoverned(e: Env, subs: seq<Submission>)
    requires GenesisRun(e, subs)
    ensures var ts, l := Applied(e, FRESH, subs), After(e, FRESH, subs);
            && (ts == [] ==> Unfounded(l))
            && (ts != [] ==> ts[0].payload.CreateGroup? && Governs(e.platform, l, AuthorityOf(ts)))
  {
    if subs == [] {
      FreshIsUnfounded();
    } else {
      var n := |subs| - 1;
      var init := subs[..n];
      RunPrefix(e, subs, n);
      RunGoverned(e, init);
      assert Advances(e, subs, n) ==> NamesPrior(subs[n].t) || Unclaimed(e, init);
      hide Step, Governs, Amend, Found, Unfounded, GenesisRun;
      StepGoverned(e, After(e, FRESH, init), Applied(e, FRESH, init), subs[n].t, subs[n].call);
    }
  }

  /** One step of `RunGoverned`. */
  lemma StepGoverned(e: Env, l: Ledger, ts: seq<Transition>, t: Transition, call: Call)
    requires ts == [] ==> Unfounded(l)
    requires ts != [] ==> ts[0].payload.CreateGroup? && Governs(e.platform, l, AuthorityOf(ts))
    requires Advanced(Step(e, l, t, call)) ==> NamesPrior(t) || (ts == [] && l.initialStewards == [])
    ensures var l', ts' := Step(e, l, t, call).ledger, ts + if Advanced(Step(e, l, t, call)) then [t] else [];
            && (ts' == [] ==> Unfounded(l'))
            && (ts' != [] ==> ts'[0].payload.CreateGroup? && Governs(e.platform, l', AuthorityOf(ts')))
  {
    hide Step, Governs, Amend, Found, Unfounded, Bare;
    if Advanced(Step(e, l, t, call)) {
      assert (ts + [t])[..|ts|] == ts;
      if ts == [] {
        UnfoundedIsBare(l);
        FoundingGoverns(e, l, t, call);
      } else {
        GovernsStep(e, l, t, call, AuthorityOf(ts));
      }
    } else {
      assert ts + [] == ts;
      if ts == [] {
        UnfoundedRejected(e, l, t, call);
      } else {
        GovernsRejected(e, l, t, call, AuthorityOf(ts));
      }
    }
  }

  /** Authority over whole runs. Let S and T be the fold of the transitions applied so far. Whatever
      advances the state next was signed by at least T distinct keys of S, exactly when S is not empty;
      without stewards it is a CREATE_GROUP signed by its own. T is never 0, and a slashed steward is
      not among the signers. */
  lemma AuthorityOverRuns(e: Env, subs: seq<Submission>, i: nat)
    requires GenesisRun(e, subs) && i < |subs| && Advances(e, subs, i)
    ensures var ts, t := Applied(e, FRESH, subs[..i]), subs[i].t;
            if ts == [] then SelfSigned(e.platform, t)
            else
              && ts[0].payload.CreateGroup?
              && var a, v := AuthorityOf(ts), TransitionVerifier(e.platform, t);
                 && a.threshold > 0
                 && (Quorum(v, a.stewards, a.threshold, Signatures(t)) <==> a.stewards != [])
                 && (a.stewards == [] ==> SelfSigned(e.platform, t))
                 && (t.payload.SlashSteward? ==>
                       forall assign :: DistinctSigners(v, a.stewards, Signatures(t), assign) ==>
                         Fix32(t.payload.steward) !in assign)
  {
    var t, call := subs[i].t, subs[i].call;
    var l, ts := After(e, FRESH, subs[..i]), Applied(e, FRESH, subs[..i]);
    RunPrefix(e, subs, i);
    RunGoverned(e, subs[..i]);
    hide Step, Amend, Found, After, Applied;
    if ts == [] {
      FoundingSigned(e, l, t, call);
    } else {
      var a := AuthorityOf(ts);
      assert ts[0].payload.CreateGroup?;
      GovernsStep(e, l, t, call, a);
      hide Governs;
      SignersOf(TransitionVerifier(e.platform, t), a.stewards, a.threshold, t);
    }
  }

  lemma FoundingSigned(e: Env, l: Ledger, t: Transition, call: Call)
    requires Bare(l) && Advanced(Step(e, l, t, call)) && (NamesPrior(t) || l.initialStewards == [])
    ensures SelfSigned(e.platform, t)
  {
    hide Step, Screen, Gate, Root, PadKeys, Accepts, Authorize, SelfSigned, ApplyEdits, Edits, Commit;
    AdvancedShape(e, l, t, call);
    UnfoundedScreen(e, l, t, call);
    NobodyAuthorizes(e.platform, l, t);
  }

  /** Where no stewards are found, only a self-signed CREATE_GROUP passes. */
  lemma NobodyAuthorizes(p: Platform, l: Ledger, t: Transition)
    requires l.stewardHistory == map[] && (NamesPrior(t) || l.initialStewards == []) && Authorize(p, l, t).Go?
    ensures SelfSigned(p, t)
  {
    hide Root, PadKeys, Accepts;
  }

  /** An accepted list holds a quorum; nobody's list does; and who signed nothing is not in it. */
  lemma SignersOf(v: Verifier, stewards: seq<PublicKey>, threshold: nat, t: Transition)
    requires threshold > 0 && (stewards != [] ==> Accepts(v, stewards, threshold, Signatures(t)))
    ensures Quorum(v, stewards, threshold, Signatures(t)) <==> stewards != []
    ensures forall k, assign ::
              !SignedBy(v, k, Signatures(t)) && DistinctSigners(v, stewards, Signatures(t), assign) ==> k !in assign
  {
    if stewards != [] {
      AcceptsImpliesQuorum(v, stewards, threshold, Signatures(t));
    }
    forall assign: map<PublicKey, nat> | DistinctSigners(v, [], Signatures(t), assign) ensures |assign| == 0 {
      assert assign.Keys == {};
      assert |assign.Keys| == |assign|;
    }
  }

  // ----- A group without stewards -----

  /** Once its last steward is gone, a group is open to anyone. A transition that names the head is
      applied exactly when it is a CREATE_GROUP signed by the stewards it declares itself, passing the
      gate and the size caps; they are then in force, under the threshold of before. */
  lemma AnyoneRefounds(e: Env, l: Ledger, t: Transition, call: Call, a: Authority)
    requires Governs(e.platform, l, a) && a.stewards == [] && NamesPrior(t)
    ensures Advanced(Step(e, l, t, call)) <==>
            && Fix32(t.prior) == Root(e.platform, l.entries) && SelfSigned(e.platform, t)
            && Gate(e, l, t, call).None?
            && ApplyEdits(e.limits, l.entries, Edits(t, call.nextBranch)).Some?
    ensures Advanced(Step(e, l, t, call)) ==>
              Governs(e.platform, Step(e, l, t, call).ledger,
                      Authority(PadKeys(t.payload.stewards), a.threshold, PadKeys(t.payload.stewards)))
  {
    if Advanced(Step(e, l, t, call)) {
      AdvancedShape(e, l, t, call);
      GovernsStep(e, l, t, call, a);
    }
    if Fix32(t.prior) == Root(e.platform, l.entries) && SelfSigned(e.platform, t) {
      OpenScreen(e, l, t, call);
    }
    hide Screen, Authorize, Root, PadKeys, Fix32, Edits, ApplyEdits, SelfSigned, Governs;
    if Fix32(t.prior) == Root(e.platform, l.entries) && SelfSigned(e.platform, t) {
      ExecuteAdvances(e, Authorize(e.platform, l, t).ledger, t, call);
    }
  }

  /** Nobody is charged or checked for equivocation, and the CREATE_GROUP speaks for itself. */
  lemma OpenScreen(e: Env, l: Ledger, t: Transition, call: Call)
    requires NamesPrior(t) && Fix32(t.prior) == Root(e.platform, l.entries) && SelfSigned(e.platform, t)
    requires Fix32(t.prior) in l.stewardHistory && l.stewardHistory[Fix32(t.prior)] == []
    ensures Screen(e, l, t, call) == Go(l)
    ensures Authorize(e.platform, l, t).Go? && Authorize(e.platform, l, t).ledger.entries == l.entries
  {
    NobodySigns(TransitionVerifier(e.platform, t), Signatures(t));
    hide Root, PadKeys, Fix32, Credited;
  }

  /** The gate of a CREATE_GROUP does not read the ledger. */
  lemma ExecuteAdvances(e: Env, l: Ledger, t: Transition, call: Call)
    requires t.payload.CreateGroup?
    ensures forall other: Ledger :: Gate(e, other, t, call) == Gate(e, l, t, call)
    ensures Advanced(Execute(e, l, t, call)) <==>
              Gate(e, l, t, call).None? && ApplyEdits(e.limits, l.entries, Edits(t, call.nextBranch)).Some?
  {
    hide Edits, ApplyEdits, Commit;
  }

  // ----- Transitions that name no prior state -----

  /** The founding, exactly. The first transition to advance the state is a CREATE_GROUP signed by its own
      stewards, and puts its own set and threshold in force, if and only if it names its prior state, or
      no initial stewards are on record, or it declares just the set and threshold that are. */
  lemma FoundingExactly(e: Env, l: Ledger, t: Transition, call: Call)
    requires Unfounded(l) && Advanced(Step(e, l, t, call))
    ensures SelfSigned(e.platform, t) && Governs(e.platform, Step(e, l, t, call).ledger, Found(t.payload)) <==>
            || NamesPrior(t) || l.initialStewards == []
            || (t.payload.CreateGroup?
                && Found(t.payload) == Authority(l.initialStewards, l.initialThreshold, l.initialStewards))
  {
    hide Step, Governs, Root, PadKeys, Fix32, Accepts;
    if NamesPrior(t) || l.initialStewards == [] {
      FoundingGoverns(e, l, t, call);
      FoundingSigned(e, l, t, call);
    } else {
      LeftoverGoverns(e, l, t, call);
      hide Unfounded;
      if t.payload.CreateGroup? {
        GovernsWhat(e.platform, Step(e, l, t, call).ledger, Found(t.payload));
      }
    }
  }

  lemma GovernsWhat(p: Platform, l: Ledger, a: Authority)
    requires Root(p, l.entries) in l.stewardHistory && Root(p, l.entries) in l.thresholdHistory
    ensures Governs(p, l, a) <==>
            && l.stewardHistory[Root(p, l.entries)] == a.stewards
            && l.thresholdHistory[Root(p, l.entries)] == a.threshold
            && a.threshold > 0 && (a.stewards != [] ==> l.initialStewards == a.initial)
  {
  }

  /** Otherwise the stewards a refused CREATE_GROUP left behind decide: their signatures are asked for,
      and a CREATE_GROUP that gets them records their set and threshold, whatever it declares. */
  lemma LeftoverGoverns(e: Env, l: Ledger, t: Transition, call: Call)
    requires Unfounded(l) && Advanced(Step(e, l, t, call)) && !NamesPrior(t) && l.initialStewards != []
    ensures Accepts(TransitionVerifier(e.platform, t), l.initialStewards, l.initialThreshold, Signatures(t))
    ensures var l', r := Step(e, l, t, call).ledger, Root(e.platform, Step(e, l, t, call).ledger.entries);
            && r in l'.stewardHistory && r in l'.thresholdHistory && l'.initialStewards == l.initialStewards
            && (t.payload.CreateGroup? ==>
                  l'.stewardHistory[r] == l.initialStewards && l'.thresholdHistory[r] == l.initialThreshold)
  {
    AdvancedShape(e, l, t, call);
    hide Step, Gate, ApplyEdits, Edits, Root, Accepts;
    UnnamedScreen(e, l, t, call);
    assert StewardsAt(e.platform, l, t.prior) == l.initialStewards;
    assert ThresholdAt(e.platform, l, t.prior) == l.initialThreshold;
  }

  lemma UnnamedScreen(e: Env, l: Ledger, t: Transition, call: Call)
    requires !NamesPrior(t) && Screen(e, l, t, call).Go?
    ensures Screen(e, l, t, call).ledger == l
  {
  }

  /** What the tail of Apply takes for the authority in force when no prior state is named: the set
      recorded under the root it has just reached, else the initial set; and the initial threshold. */
  function Fallback(p: Platform, l: Ledger, reached: Entries): Authority
  {
    var r := Root(p, reached);
    Authority(if r in l.stewardHistory then l.stewardHistory[r] else l.initialStewards, l.initialThreshold,
              l.initialStewards)
  }

  /** The entries a transition makes of the ledger's, if no cap stops it. */
  function Reached(e: Env, l: Ledger, t: Transition, call: Call): Entries
  {
    match ApplyEdits(e.limits, l.entries, Edits(t, call.nextBranch))
    case None => l.entries
    case Some(entries) => entries
  }

  /** Why the run theorems ask for a named prior state. Without one the tail of Apply amends not the
      authority in force but the fallback, at a new root and at one reached before. The fold survives
      exactly when both amend to the same set and threshold (a CREATE_GROUP restores the initial set in
      any case). */
  lemma UnnamedPriorFallsBack(e: Env, l: Ledger, t: Transition, call: Call, a: Authority)
    requires Governs(e.platform, l, a) && !NamesPrior(t) && Advanced(Step(e, l, t, call)) && a.stewards != []
    ensures var l', reached := Step(e, l, t, call).ledger, Reached(e, l, t, call);
            var r, f := Root(e.platform, reached), Amend(Fallback(e.platform, l, reached), t.payload);
            && l'.entries == reached && r in l'.stewardHistory && r in l'.thresholdHistory
            && l'.stewardHistory[r] == (if IsCreate(t) then l.initialStewards else f.stewards)
            && l'.thresholdHistory[r] == f.threshold
    ensures var f := Amend(Fallback(e.platform, l, Reached(e, l, t, call)), t.payload);
            Governs(e.platform, Step(e, l, t, call).ledger, Amend(a, t.payload)) <==>
            && (IsCreate(t) || f.stewards == Amend(a, t.payload).stewards)
            && f.threshold == Amend(a, t.payload).threshold
  {
    AdvancedShape(e, l, t, call);
    UnnamedScreen(e, l, t, call);
    var l2 := Authorize(e.platform, l, t).ledger;
    GateUnder(e, l2, t, call);
    var entries := ApplyEdits(e.limits, l.entries, Edits(t, call.nextBranch)).value;
    UnnamedAuthorize(e, l, t, a);
    hide Step, Screen, Authorize, Gate, ApplyEdits, Edits, Root, Fix32, Accepts;
    UnnamedTail(e, l, t, entries);
    AmendKeepsInitial(a, t.payload);
    GovernsWhat(e.platform, Commit(e, l, t, entries), Amend(a, t.payload));
  }

  lemma AmendKeepsInitial(a: Authority, t: Payload)
    requires a.stewards != [] && a.threshold > 0 && (t.ChangeThreshold? ==> t.threshold > 0)
    ensures Amend(a, t).initial == a.initial && Amend(a, t).threshold > 0
    ensures t.CreateGroup? ==> Amend(a, t).stewards == a.initial
  {
  }

  lemma UnnamedAuthorize(e: Env, l: Ledger, t: Transition, a: Authority)
    requires Governs(e.platform, l, a) && !NamesPrior(t) && Authorize(e.platform, l, t).Go?
    ensures a.stewards != [] ==> Authorize(e.platform, l, t).ledger == l
    ensures a.stewards == [] ==>
              && SelfSigned(e.platform, t)
              && Authorize(e.platform, l, t).ledger
                 == l.(initialStewards := PadKeys(t.payload.stewards), initialThreshold := t.payload.threshold)
  {
    assert StewardsAt(e.platform, l, t.prior) == a.stewards;
  }

  lemma UnnamedTail(e: Env, l: Ledger, t: Transition, entries: Entries)
    requires !NamesPrior(t) && (IsCreate(t) ==> t.payload.CreateGroup?)
    ensures var l' := Commit(e, l, t, entries);
            var r, f := Root(e.platform, entries), Amend(Fallback(e.platform, l, entries), t.payload);
            && l'.entries == entries && l'.initialStewards == l.initialStewards
            && r in l'.stewardHistory && r in l'.thresholdHistory
            && l'.stewardHistory[r] == (if IsCreate(t) then l.initialStewards else f.stewards)
            && l'.thresholdHistory[r] == f.threshold
  {
    hide Root, Fix32, PadKeys;
    assert StewardsAt(e.platform, l.(entries := entries), t.prior) == Fallback(e.platform, l, entries).stewards;
  }

  /** On a group without stewards it takes over both set and threshold, where the fold keeps the old
      threshold. */
  lemma UnnamedRefounding(e: Env, l: Ledger, t: Transition, call: Call, a: Authority)
    requires Governs(e.platform, l, a) && !NamesPrior(t) && Advanced(Step(e, l, t, call)) && a.stewards == []
    ensures SelfSigned(e.platform, t) && Governs(e.platform, Step(e, l, t, call).ledger, Found(t.payload))
    ensures Governs(e.platform, Step(e, l, t, call).ledger, Amend(a, t.payload)) <==>
            t.payload.threshold == a.threshold
  {
    AdvancedShape(e, l, t, call);
    UnnamedScreen(e, l, t, call);
    UnnamedAuthorize(e, l, t, a);
    var l2 := Authorize(e.platform, l, t).ledger;
    var entries := ApplyEdits(e.limits, l.entries, Edits(t, call.nextBranch)).value;
    hide Step, Screen, Authorize, Gate, ApplyEdits, Edits, Root, Fix32, Accepts, PadKeys;
    UnnamedTail(e, l2, t, entries);
    GovernsWhat(e.platform, Commit(e, l2, t, entries), Amend(a, t.payload));
    GovernsWhat(e.platform, Commit(e, l2, t, entries), Found(t.payload));
  }

  // ----- The first transition on a new branch -----

  /** What a new branch starts with: nothing but its parent's stewards and threshold. */
  predicate Inherits(l: Ledger, stewards: seq<PublicKey>, threshold: nat)
  {
    l == FRESH.(initialStewards := stewards, initialThreshold := threshold)
  }

  /** A transition that names its prior state finds no stewards on a new branch, whoever it inherited. It
      is applied exactly when it is a CREATE_GROUP, naming the empty snapshot, that is signed by the
      stewards it declares itself and passes gate and caps; and they then govern the branch. */
  lemma AnyoneFoundsBranch(e: Env, l: Ledger, t: Transition, call: Call, stewards: seq<PublicKey>, threshold: nat)
    requires Inherits(l, stewards, threshold) && NamesPrior(t)
    ensures Advanced(Step(e, l, t, call)) <==>
            && Fix32(t.prior) == Root(e.platform, []) && SelfSigned(e.platform, t)
            && Gate(e, l, t, call).None? && ApplyEdits(e.limits, [], Edits(t, call.nextBranch)).Some?
    ensures Advanced(Step(e, l, t, call)) ==>
              Governs(e.platform, Step(e, l, t, call).ledger, Found(t.payload))
  {
    if Advanced(Step(e, l, t, call)) {
      FoundingGoverns(e, l, t, call);
      FoundingSigned(e, l, t, call);
      AdvancedShape(e, l, t, call);
    }
    if Fix32(t.prior) == Root(e.platform, []) && SelfSigned(e.platform, t) {
      EmptyScreen(e, l, t, call);
    }
    hide Screen, Authorize, Root, PadKeys, Fix32, Edits, ApplyEdits, SelfSigned, Governs;
    if Fix32(t.prior) == Root(e.platform, []) && SelfSigned(e.platform, t) {
      assert t.payload.CreateGroup? by { SelfSignedCreates(e.platform, t); }
      ExecuteAdvances(e, Authorize(e.platform, l, t).ledger, t, call);
    }
    if Advanced(Step(e, l, t, call)) {
      SelfSignedCreates(e.platform, t);
      ExecuteAdvances(e, l, t, call);
    }
  }

  lemma SelfSignedCreates(p: Platform, t: Transition)
    requires SelfSigned(p, t)
    ensures t.payload.CreateGroup?
  {
  }

  lemma EmptyScreen(e: Env, l: Ledger, t: Transition, call: Call)
    requires l.stewardHistory == map[] && l.entries == []
    requires NamesPrior(t) && Fix32(t.prior) == Root(e.platform, []) && SelfSigned(e.platform, t)
    ensures Screen(e, l, t, call) == Go(l)
    ensures Authorize(e.platform, l, t).Go? && Authorize(e.platform, l, t).ledger.entries == []
  {
    NobodySigns(TransitionVerifier(e.platform, t), Signatures(t));
    hide Root, PadKeys, Fix32, Credited;
  }

  /** The inherited authority is asked for only by a transition that names no prior state; and it puts
      that authority, amended, in force. */
  lemma UnnamedStartsBranch(e: Env, l: Ledger, t: Transition, call: Call, stewards: seq<PublicKey>, threshold: nat)
    requires Inherits(l, stewards, threshold) && stewards != [] && !NamesPrior(t) && Advanced(Step(e, l, t, call))
    ensures Accepts(TransitionVerifier(e.platform, t), stewards, threshold, Signatures(t))
    ensures var a := Authority(stewards, threshold, stewards);
            Governs(e.platform, Step(e, l, t, call).ledger, if IsCreate(t) then a else Amend(a, t.payload))
  {
    AdvancedShape(e, l, t, call);
    UnnamedScreen(e, l, t, call);
    var l2 := Authorize(e.platform, l, t).ledger;
    GateUnder(e, l2, t, call);
    var entries := ApplyEdits(e.limits, l.entries, Edits(t, call.nextBranch)).value;
    assert StewardsAt(e.platform, l, t.prior) == stewards && ThresholdAt(e.platform, l, t.prior) == threshold;
    assert l2 == l;
    hide Step, Screen, Authorize, Gate, ApplyEdits, Edits, Root, Fix32;
    UnnamedTail(e, l, t, entries);
    var a := Authority(stewards, threshold, stewards);
    assert threshold > 0;
    hide Accepts;
    assert Fallback(e.platform, l, entries) == a;
    AmendKeepsInitial(a, t.payload);
    GovernsWhat(e.platform, Commit(e, l, t, entries), if IsCreate(t) then a else Amend(a, t.payload));
  }
}
