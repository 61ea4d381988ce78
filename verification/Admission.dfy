/** Which transitions the ledger admits, and what they leave in the snapshot. */
module Admission {
  import opened Basics
  import opened ByteStrings
  import opened Snapshot
  import opened KeyValue
  import opened Multisig
  import opened Equivocation
  import opened Transitions
  import opened Ledger
  import opened Authority
  import opened Commitment
  import opened Deadlock

  // ----- What each type asks for -----

  /** UTF-8 text of at least `min` and at most `max` bytes. */
  predicate Text(p: Platform, s: Bytes, min: nat, max: nat)
  {
    min <= |s| <= max && p.validUtf8(s)
  }

  /** What a transition of each type must hold, given the authority in force. */
  predicate Admits(e: Env, a: Authority, t: Transition, call: Call)
  {
    var p := e.platform;
    match t.payload
    case CreateGroup(name, display, _, _, peers) =>
      Text(p, name, 1, 256) && Text(p, display, 1, 256) && (peers == [] || call.meshOk)
    case AddSteward(k) =>
      e.limits.maxStewards <= 0 || |KeySet(a.stewards) + {Fix32(k)}| <= e.limits.maxStewards
    case RemoveSteward(_) => true
    case ChangeThreshold(n) => 1 <= n <= |a.stewards|
    case AddMember(_) => true
    case RemoveMember(_) => true
    case CreateEvent(id, title, location, _) =>
      Text(p, id, 1, 256) && Text(p, title, 1, 1024) && Text(p, location, 0, 1024)
    case UpdateEvent(id, _) => Text(p, id, 1, 256)
    case CancelEvent(id) => Text(p, id, 1, 256)
    case Rsvp(id, _) => Text(p, id, 1, 256)
    case CancelRsvp(id, _) => Text(p, id, 1, 256)
    case Attest(_, _) => true
    case Fork(_) => true
    case Migrate(host, deadline) =>
      && Text(p, host, 1, 256) && deadline.Some? && deadline.value.seconds != 0
      && call.now <= deadline.value.seconds * 1_000_000_000 + deadline.value.nanos
    case IssueHostCert(_, _, _, _) => true
    case RevokeHostCert(_, _, _, _) => true
    case AddHostPeer(_, ip) => (|ip| == 4 || |ip| == 16) && call.meshOk
    case RemoveHostPeer(_) => call.meshOk
    case DeclareCustody(k, tier) => tier != 0 && Fix32(k) in a.stewards
    case SlashSteward(k) =>
      Fix32(k) in a.stewards && t.signatures.Some?
      && forall s :: s in t.signatures.value ==> !TransitionVerifier(p, t)(Fix32(k), s)
    case BranchCreate(_) => true
    case NameBind(_, name, expiry) => Text(p, name, 1, 256) && expiry.Some?
    case Missing(_) => false
    case Unsupported => false
  }

  lemma {:induction false} DedupeCounts(keys: seq<PublicKey>)
    ensures |Dedupe(keys)| == |KeySet(keys)|
    ensures forall k :: k in Dedupe(keys) <==> k in keys
  {
    if keys == [] {
      assert KeySet(keys) == {};
    } else {
      var n := |keys| - 1;
      DedupeCounts(keys[..n]);
      assert keys == keys[..n] + [keys[n]];
      assert KeySet(keys) == KeySet(keys[..n]) + {keys[n]};
      assert keys[n] in keys[..n] ==> KeySet(keys) == KeySet(keys[..n]);
    }
  }

  lemma ProspectiveCounts(p: Platform, l: Ledger, stewards: seq<PublicKey>, k: PublicKey)
    requires StewardsAt(p, l, []) == stewards
    ensures |Prospective(p, l, k)| == |KeySet(stewards) + {k}|
  {
    DedupeCounts(stewards);
    if k in stewards {
      assert KeySet(stewards) + {k} == KeySet(stewards);
    }
    hide StewardsAt, Dedupe;
  }

  /** The gate lets pass exactly what its type asks for. */
  lemma GateExactly(e: Env, l: Ledger, t: Transition, call: Call, a: Authority)
    requires Governs(e.platform, l, a) && NamesPrior(t) && Fix32(t.prior) == Root(e.platform, l.entries)
    ensures Gate(e, l, t, call).None? <==> Admits(e, a, t, call)
  {
    assert StewardsAt(e.platform, l, []) == a.stewards && StewardsAt(e.platform, l, t.prior) == a.stewards;
    if t.payload.AddSteward? {
      ProspectiveCounts(e.platform, l, a.stewards, Fix32(t.payload.steward));
    }
    if t.payload.SlashSteward? && t.signatures.Some? {
      SignedByAny(TransitionVerifier(e.platform, t), Fix32(t.payload.steward), t.signatures.value);
    }
    hide StewardsAt, Prospective, Root, Fix32, SignedBy, Governs;
  }

  lemma SignedByAny(v: Verifier, k: PublicKey, sigs: seq<Signature>)
    ensures SignedBy(v, k, sigs) <==> exists s :: s in sigs && v(k, s)
  {
    if SignedBy(v, k, sigs) {
      var i :| 0 <= i < |sigs| && v(k, sigs[i]);
      assert sigs[i] in sigs;
    }
  }

  // ----- What advances the state -----

  /** A transition that names its prior state is applied to a group with stewards exactly when its clock value
      has 18 bytes, it names the head, its signer, where it has one, is within the rate limit and has nothing
      else on record there, its signatures meet the threshold, its type admits it, and no size cap stops its
      edits. */
  lemma AdvancesExactly(e: Env, l: Ledger, t: Transition, call: Call, a: Authority)
    requires Governs(e.platform, l, a) && a.stewards != [] && NamesPrior(t)
    ensures var v := TransitionVerifier(e.platform, t);
            var signer := SigningSteward(v, a.stewards, Signatures(t));
            var q, log := EqKey(signer, Root(e.platform, l.entries)), EqLogOf(e, l);
            Advanced(Step(e, l, t, call)) <==>
            && (IsCreate(t) || |t.hlc| == 18)
            && Fix32(t.prior) == Root(e.platform, l.entries)
            && (signer != ZERO_KEY ==>
                  call.limiterOk && (q in log.seen ==> log.seen[q] == Stamp(e.platform, t)))
            && Accepts(v, a.stewards, a.threshold, Signatures(t))
            && Admits(e, a, t, call)
            && WithinCaps(e.limits, l.entries, Edits(t, call.nextBranch))
  {
    EditsPassExactly(e.limits, l.entries, Edits(t, call.nextBranch));
    hide WithinCaps;
    ScreenExactly(e, l, t, call, a);
    if Screen(e, l, t, call).Go? {
      var l1 := Screen(e, l, t, call).ledger;
      ScreenKeepsCore(e, l, t, call);
      SameGoverns(e.platform, l, l1, a);
      AuthorizeExactly(e.platform, l1, t, a);
      GateExactly(e, l1, t, call, a);
      ExecuteExactly(e, l1, t, call);
    }
    ScreenVerdict(e, l, t, call);
    AuthorizeVerdict(e.platform, Screen(e, l, t, call).ledger, t);
    hide Screen, Authorize, Execute, Gate, Edits, ApplyEdits, Root, Fix32, Accepts, Admits, SigningSteward, Governs;
    hide EqLogOf, Stamp;
  }

  /** The refusals before the gates come in this order: clock value, head, rate limit, equivocation, signatures.
      What a signer presented is recorded exactly if the first three pass, whether or not it is then applied. */
  lemma RefusedInOrder(e: Env, l: Ledger, t: Transition, call: Call, a: Authority)
    requires Governs(e.platform, l, a) && a.stewards != [] && NamesPrior(t)
    ensures var v, o := TransitionVerifier(e.platform, t), Step(e, l, t, call);
            var signer := SigningSteward(v, a.stewards, Signatures(t));
            var q, log := EqKey(signer, Root(e.platform, l.entries)), EqLogOf(e, l);
            var clock, head := IsCreate(t) || |t.hlc| == 18, Fix32(t.prior) == Root(e.platform, l.entries);
            && (!clock ==> o == Rejected(BadHlcSize, l))
            && (clock && !head ==> o == Rejected(PriorMismatch, l))
            && (clock && head && signer != ZERO_KEY && !call.limiterOk ==> o == Rejected(RateLimited, l))
            && (clock && head && signer != ZERO_KEY && call.limiterOk ==>
                  && o.ledger.equivocation == Some(Record(log, Presentation(q, Stamp(e.platform, t))))
                  && (q in log.seen && log.seen[q] != Stamp(e.platform, t) ==>
                        o.Rejected? && o.why == EquivocationDetected))
            && (signer == ZERO_KEY ==> o.ledger.equivocation == l.equivocation)
            && (Screen(e, l, t, call).Go? && !Accepts(v, a.stewards, a.threshold, Signatures(t)) ==>
                  o.Rejected? && o.why == BadSignatures)
  {
    ScreenRefuses(e, l, t, call, a);
    var l1 := Screen(e, l, t, call).ledger;
    if Screen(e, l, t, call).Go? {
      ScreenExactly(e, l, t, call, a);
      ScreenKeepsCore(e, l, t, call);
      SameGoverns(e.platform, l, l1, a);
      AuthorizeExactly(e.platform, l1, t, a);
      AuthorizeRefuses(e.platform, l1, t, a);
      ExecuteKeepsRecord(e, l1, t, call);
    }
    hide Screen, Authorize, Execute, Root, Fix32, Accepts, SigningSteward, Governs, EqLogOf, Stamp, Record;
  }

  lemma ScreenRefuses(e: Env, l: Ledger, t: Transition, call: Call, a: Authority)
    requires Governs(e.platform, l, a) && NamesPrior(t)
    ensures var signer := SigningSteward(TransitionVerifier(e.platform, t), a.stewards, Signatures(t));
            var q, log, s := EqKey(signer, Root(e.platform, l.entries)), EqLogOf(e, l), Screen(e, l, t, call);
            var clock, head := IsCreate(t) || |t.hlc| == 18, Fix32(t.prior) == Root(e.platform, l.entries);
            && (!clock ==> s == Stop(BadHlcSize, l))
            && (clock && !head ==> s == Stop(PriorMismatch, l))
            && (clock && head && signer != ZERO_KEY && !call.limiterOk ==> s == Stop(RateLimited, l))
            && (clock && head && signer != ZERO_KEY && call.limiterOk ==>
                  && s.ledger.equivocation == Some(Record(log, Presentation(q, Stamp(e.platform, t))))
                  && (q in log.seen && log.seen[q] != Stamp(e.platform, t) ==>
                        s.Stop? && s.why == EquivocationDetected))
            && (signer == ZERO_KEY ==> s.ledger.equivocation == l.equivocation)
  {
    if Fix32(t.prior) == Root(e.platform, l.entries) {
      assert StewardsAt(e.platform, l, t.prior) == a.stewards;
    }
    hide Root, Fix32, StewardsAt, SigningSteward, Record, Governs;
  }

  lemma AuthorizeRefuses(p: Platform, l: Ledger, t: Transition, a: Authority)
    requires Governs(p, l, a) && a.stewards != [] && NamesPrior(t) && Fix32(t.prior) == Root(p, l.entries)
    ensures var s := Authorize(p, l, t); s.Stop? ==> s.why == BadSignatures
  {
    assert StewardsAt(p, l, t.prior) == a.stewards;
    hide Root, Fix32, StewardsAt, ThresholdAt, Credited, Governs;
  }

  lemma ExecuteKeepsRecord(e: Env, l: Ledger, t: Transition, call: Call)
    ensures Execute(e, l, t, call).ledger.equivocation == l.equivocation
  {
    hide Gate, Edits, ApplyEdits, Root, NextStewards, NextThreshold, AppendCapped;
  }

  /** Each edit is allowed on top of those before it. */
  predicate WithinCaps(limits: Limits, s: Entries, ws: seq<Write>)
  {
    forall i :: 0 <= i < |ws| ==> Allowed(PutAll(s, ws[..i]), ws[i], limits.maxKvSize, limits.maxKvBytes)
  }

  lemma {:induction false} EditsPassExactly(limits: Limits, s: Entries, ws: seq<Write>)
    ensures ApplyEdits(limits, s, ws).Some? <==> WithinCaps(limits, s, ws)
    ensures WithinCaps(limits, s, ws) ==> ApplyEdits(limits, s, ws) == Some(PutAll(s, ws))
  {
    hide *;
    if ws == [] {
      NoEdits(limits, s);
    } else {
      EditsPassExactly(limits, s, ws[..|ws| - 1]);
      LastEdit(limits, s, ws);
      LastWithin(limits, s, ws);
    }
  }

  lemma NoEdits(limits: Limits, s: Entries)
    ensures ApplyEdits(limits, s, []) == Some(s) && WithinCaps(limits, s, []) && PutAll(s, []) == s
  {
  }

  lemma LastWithin(limits: Limits, s: Entries, ws: seq<Write>)
    requires ws != []
    ensures var n := |ws| - 1;
            WithinCaps(limits, s, ws) <==>
              WithinCaps(limits, s, ws[..n]) && Allowed(PutAll(s, ws[..n]), ws[n], limits.maxKvSize, limits.maxKvBytes)
  {
    hide PutAll, Allowed;
    var n := |ws| - 1;
    forall i | 0 <= i < n ensures ws[..n][..i] == ws[..i] && ws[..n][i] == ws[i] {
    }
  }

  lemma LastEdit(limits: Limits, s: Entries, ws: seq<Write>)
    requires ws != []
    ensures var n := |ws| - 1;
            var before := ApplyEdits(limits, s, ws[..n]);
            && PutAll(s, ws) == Put(PutAll(s, ws[..n]), ws[n])
            && ApplyEdits(limits, s, ws)
               == if before.Some? && Allowed(before.value, ws[n], limits.maxKvSize, limits.maxKvBytes)
                  then Some(Put(before.value, ws[n])) else None
  {
    hide Allowed, Put;
  }

  /** What a signature of a transition is over. */
  lemma VerifiesExactly(p: Platform, t: Transition, k: PublicKey, s: Signature)
    ensures TransitionVerifier(p, t)(k, s) <==>
              p.ed25519(k, s, p.sha256("federated-meetup/v1/signing") + t.group + [1 as char]
                              + BigEndian(|t.canonical|, 8) + t.canonical)
  {
    hide BigEndian;
    assert SignBytes(p, t.group, KIND_TRANSITION, t.canonical)
        == p.sha256("federated-meetup/v1/signing") + t.group + [1 as char] + BigEndian(|t.canonical|, 8) + t.canonical;
  }

  lemma SameGoverns(p: Platform, l: Ledger, m: Ledger, a: Authority)
    requires Governs(p, l, a) && SameCore(l, m) && m.initialStewards == l.initialStewards
    ensures Governs(p, m, a)
  {
    hide Root;
  }

  lemma ScreenExactly(e: Env, l: Ledger, t: Transition, call: Call, a: Authority)
    requires Governs(e.platform, l, a) && NamesPrior(t)
    ensures var signer := SigningSteward(TransitionVerifier(e.platform, t), a.stewards, Signatures(t));
            var q, log := EqKey(signer, Root(e.platform, l.entries)), EqLogOf(e, l);
            Screen(e, l, t, call).Go? <==>
            && (IsCreate(t) || |t.hlc| == 18)
            && Fix32(t.prior) == Root(e.platform, l.entries)
            && (signer != ZERO_KEY ==>
                  call.limiterOk && (q in log.seen ==> log.seen[q] == Stamp(e.platform, t)))
  {
    if Fix32(t.prior) == Root(e.platform, l.entries) {
      assert StewardsAt(e.platform, l, t.prior) == a.stewards;
    }
    hide Root, Fix32, StewardsAt, SigningSteward, Record, Governs;
  }

  lemma AuthorizeExactly(p: Platform, l: Ledger, t: Transition, a: Authority)
    requires Governs(p, l, a) && a.stewards != [] && NamesPrior(t) && Fix32(t.prior) == Root(p, l.entries)
    ensures var s := Authorize(p, l, t);
            (s.Go? <==> Accepts(TransitionVerifier(p, t), a.stewards, a.threshold, Signatures(t)))
            && s.ledger == l
  {
    assert StewardsAt(p, l, t.prior) == a.stewards && ThresholdAt(p, l, t.prior) == a.threshold;
    hide Root, Fix32, StewardsAt, ThresholdAt, Credited, Governs;
  }

  lemma ExecuteExactly(e: Env, l: Ledger, t: Transition, call: Call)
    ensures Advanced(Execute(e, l, t, call)) <==>
              Gate(e, l, t, call).None? && ApplyEdits(e.limits, l.entries, Edits(t, call.nextBranch)).Some?
  {
    GateNeverPersists(e, l, t, call);
    hide Gate, Edits, ApplyEdits, Commit;
  }

  /** CHANGE_THRESHOLD, over every run: while there are stewards, an applied one asks for at least one
      signature and for no more than there are stewards in the list. */
  lemma ThresholdWithinStewards(e: Env, subs: seq<Submission>, i: nat)
    requires GenesisRun(e, subs) && i < |subs| && Advances(e, subs, i)
    requires subs[i].t.payload.ChangeThreshold? && Applied(e, FRESH, subs[..i]) != []
    ensures var ts := Applied(e, FRESH, subs[..i]);
            && ts[0].payload.CreateGroup?
            && var a := AuthorityOf(ts);
               a.stewards != [] && 1 <= subs[i].t.payload.threshold <= |a.stewards|
  {
    var t, call := subs[i].t, subs[i].call;
    var l, ts := After(e, FRESH, subs[..i]), Applied(e, FRESH, subs[..i]);
    RunPrefix(e, subs, i);
    RunGoverned(e, subs[..i]);
    hide Step, Amend, Found, After, Applied, Governs;
    GovernsStep(e, l, t, call, AuthorityOf(ts));
    NoThresholdAlone(e.platform, t);
    AdvancesExactly(e, l, t, call, AuthorityOf(ts));
  }

  lemma NoThresholdAlone(p: Platform, t: Transition)
    requires t.payload.ChangeThreshold?
    ensures !SelfSigned(p, t)
  {
  }

  /** ADD_STEWARD leaves at most MaxStewards distinct keys. */
  lemma AddWithinCap(e: Env, l: Ledger, t: Transition, call: Call, a: Authority)
    requires Governs(e.platform, l, a) && a.stewards != [] && NamesPrior(t) && Advanced(Step(e, l, t, call))
    requires t.payload.AddSteward? && e.limits.maxStewards > 0
    ensures |KeySet(Amend(a, t.payload).stewards)| <= e.limits.maxStewards
  {
    AdvancesExactly(e, l, t, call, a);
    hide Step, Governs, Accepts, Root;
    assert KeySet(Amend(a, t.payload).stewards) == KeySet(a.stewards) + {Fix32(t.payload.steward)};
  }

  // ----- What is left in the snapshot -----

  /** The snapshot holds this value under the key, or nothing. */
  predicate Shows(s: Entries, key: Bytes, value: Option<Bytes>)
  {
    match Lookup(s, key)
    case None => value.None?
    case Some((v, _)) => value == Some(v)
  }

  /** A snapshot after a transition of each type. */
  predicate Reflects(s: Entries, t: Transition, nextBranch: nat)
  {
    match t.payload
    case CreateGroup(name, display, _, raws, peers) =>
      && Shows(s, "name", Some(name)) && Shows(s, "display_name", Some(display))
      && (forall r :: r in raws ==> Shows(s, "steward/" + Hex(r), Some([1 as char])))
      && forall i :: 0 <= i < |peers| && (forall j :: i < j < |peers| ==> peers[j].wgKey != peers[i].wgKey) ==>
           Shows(s, "mesh_peer/" + Hex(peers[i].wgKey), peers[i].ip)
    case AddSteward(k) => Shows(s, "steward/" + Hex(Fix32(k)), Some([1 as char]))
    case RemoveSteward(k) => Shows(s, "steward/" + Hex(Fix32(k)), None)
    case ChangeThreshold(n) => Shows(s, "threshold", Some(BigEndian(n, 4)))
    case AddMember(u) => Shows(s, "member/" + Hex(Fix32(u)), Some([1 as char]))
    case RemoveMember(u) => Shows(s, "member/" + Hex(Fix32(u)), Some([0 as char]))
    case SlashSteward(k) =>
      && Shows(s, "steward/" + Hex(Fix32(k)), None) && Shows(s, "slashed/" + Hex(Fix32(k)), Some([1 as char]))
    case DeclareCustody(k, tier) => Shows(s, "custody/" + Hex(k), Some([(tier % 256) as char]))
    case Attest(to, body) => Shows(s, "attest/" + Hex(to), Some(body))
    case Fork(k) => Shows(s, "fork_lineage", k)
    case _ => ReflectsEvent(s, t) || ReflectsHost(s, t) || ReflectsCert(s, t) || ReflectsName(s, t, nextBranch)
  }

  predicate ReflectsEvent(s: Entries, t: Transition)
  {
    match t.payload
    case CreateEvent(id, _, _, body) => Shows(s, "event/" + id, Some(body))
    case UpdateEvent(id, body) => Shows(s, "event_patch/" + id, Some(body))
    case CancelEvent(id) => Shows(s, "event_cancelled/" + id, Some([1 as char]))
    case Rsvp(id, u) => Shows(s, "rsvp/" + id + "/" + Hex(Fix32(u)), Some([1 as char]))
    case CancelRsvp(id, u) => Shows(s, "rsvp/" + id + "/" + Hex(Fix32(u)), Some([0 as char]))
    case _ => false
  }

  predicate ReflectsHost(s: Entries, t: Transition)
  {
    match t.payload
    case Migrate(host, deadline) =>
      && Shows(s, "canonical_host", Some(host)) && deadline.Some?
      && Shows(s, "canonical_after", Some(BigEndian(deadline.value.seconds % TWO_64, 8)))
    case AddHostPeer(k, ip) => Shows(s, "mesh_peer/" + Hex(k), Some(ip))
    case RemoveHostPeer(k) => Shows(s, "mesh_peer/" + Hex(k), Some([]))
    case _ => false
  }

  predicate ReflectsCert(s: Entries, t: Transition)
  {
    match t.payload
    case IssueHostCert(h, k, na, body) => Shows(s, "host_cert/" + h + "/" + Hex(k) + "/" + Decimal(na), Some(body))
    case RevokeHostCert(h, k, na, body) =>
      && Shows(s, "host_cert_revoke/" + h + "/" + Hex(k) + "/" + Decimal(na), Some(body))
      && Shows(s, "host_cert/" + h + "/" + Hex(k) + "/" + Decimal(na), None)
    case _ => false
  }

  predicate ReflectsName(s: Entries, t: Transition, nextBranch: nat)
  {
    match t.payload
    case BranchCreate(reason) =>
      && Shows(s, "branch/" + Decimal(nextBranch) + "/parent", Some(Decimal(t.branch)))
      && Shows(s, "branch/" + Decimal(nextBranch) + "/reason", Some(reason))
    case NameBind(dir, name, expiry) =>
      && expiry.Some?
      && Shows(s, "name_bind/" + (if dir == [] then "*" else dir) + "/" + name + "/" + Decimal(expiry.value),
               Some([1 as char]))
    case _ => false
  }

  /** The last write of a key decides. */
  lemma LastWriteShows(s: Entries, ws: seq<Write>, i: nat)
    requires UniqueKeys(s) && i < |ws| && forall j :: i < j < |ws| ==> ws[j].key != ws[i].key
    ensures Shows(PutAll(s, ws), ws[i].key, ws[i].value)
  {
    var before, after := ws[..i], ws[i + 1..];
    assert ws == (before + [ws[i]]) + after;
    PutAllConcat(s, before + [ws[i]], after);
    PutAllSnoc(s, before, ws[i]);
    PutAllUnique(s, before);
    var s1 := PutAll(s, before);
    PutIsMapUpdate(s1, ws[i], ws[i].key);
    PutUnique(s1, ws[i]);
    PutAllOtherLookup(Put(s1, ws[i]), after, ws[i].key);
    hide PutAll, Put, Lookup;
  }

  /** After a transition of any type was applied the snapshot shows it. */
  lemma AppliedIsReflected(e: Env, l: Ledger, t: Transition, call: Call)
    requires UniqueKeys(l.entries) && Advanced(Step(e, l, t, call))
    ensures Reflects(Step(e, l, t, call).ledger.entries, t, call.nextBranch)
  {
    EntriesAfter(e, l, t, call);
    AdvancedShape(e, l, t, call);
    var l2 := Authorize(e.platform, Screen(e, l, t, call).ledger, t).ledger;
    GateAsks(e, l2, t, call);
    var n := call.nextBranch;
    hide Step, Screen, Authorize, Gate, ApplyEdits, Reflects, Commit, Root, PutAll, Edits;
    if t.payload.CreateGroup? {
      CreateIsReflected(l.entries, t, n);
    } else if t.payload.RevokeHostCert? || t.payload.Migrate? || t.payload.SlashSteward? || t.payload.BranchCreate? {
      TwoAreReflected(l.entries, t, n);
    } else {
      OneIsReflected(l.entries, t, n);
    }
  }

  lemma GateAsks(e: Env, l: Ledger, t: Transition, call: Call)
    requires Gate(e, l, t, call).None?
    ensures !t.payload.Missing? && !t.payload.Unsupported?
    ensures t.payload.Migrate? ==> t.payload.deadline.Some?
    ensures t.payload.NameBind? ==> t.payload.expiry.Some?
  {
  }

  lemma OneIsReflected(s: Entries, t: Transition, nextBranch: nat)
    requires UniqueKeys(s) && !t.payload.Missing? && !t.payload.Unsupported? && !t.payload.CreateGroup?
    requires !t.payload.RevokeHostCert? && !t.payload.Migrate? && !t.payload.SlashSteward? && !t.payload.BranchCreate?
    requires t.payload.NameBind? ==> t.payload.expiry.Some?
    ensures Reflects(PutAll(s, Edits(t, nextBranch)), t, nextBranch)
  {
    LastWriteShows(s, Edits(t, nextBranch), 0);
    hide PutAll, Shows, Hex, Decimal, BigEndian, Fix32;
  }

  lemma TwoAreReflected(s: Entries, t: Transition, nextBranch: nat)
    requires UniqueKeys(s)
    requires t.payload.RevokeHostCert? || t.payload.Migrate? || t.payload.SlashSteward? || t.payload.BranchCreate?
    requires t.payload.Migrate? ==> t.payload.deadline.Some?
    ensures Reflects(PutAll(s, Edits(t, nextBranch)), t, nextBranch)
  {
    var ws := Edits(t, nextBranch);
    TwoKeysDiffer(t, nextBranch);
    LastWriteShows(s, ws, 0);
    LastWriteShows(s, ws, 1);
    hide PutAll, Shows, Hex, Decimal, BigEndian, Fix32, ReflectsEvent;
    if t.payload.SlashSteward? || t.payload.BranchCreate? {
      hide ReflectsHost, ReflectsCert;
    } else {
      hide ReflectsName;
    }
  }

  lemma TwoKeysDiffer(t: Transition, nextBranch: nat)
    requires t.payload.RevokeHostCert? || t.payload.Migrate? || t.payload.SlashSteward? || t.payload.BranchCreate?
    ensures |Edits(t, nextBranch)| == 2 && Edits(t, nextBranch)[0].key != Edits(t, nextBranch)[1].key
  {
    var ws := Edits(t, nextBranch);
    var x, y := ws[0].key, ws[1].key;
    if t.payload.RevokeHostCert? {
      assert x[9] == '_' && y[9] == '/';
    } else if t.payload.Migrate? {
      assert |x| == 14 && |y| == 15;
    } else if t.payload.SlashSteward? {
      assert x[1] == 't' && y[1] == 'l';
    } else {
      var d := |Decimal(nextBranch)|;
      assert x[7 + d + 1] == 'p' && y[7 + d + 1] == 'r';
    }
    hide Hex, Decimal, BigEndian, Fix32;
  }

  lemma {:induction false} StewardWriteAt(raws: seq<Bytes>, i: nat)
    requires i < |raws|
    ensures StewardWrites(raws)[i] == Mark("steward/" + Hex(raws[i]), [1 as char])
  {
    if i < |raws| - 1 {
      StewardWriteAt(raws[..|raws| - 1], i);
    }
  }

  lemma {:induction false} PeerWriteAt(peers: seq<InitialPeer>, i: nat)
    requires i < |peers|
    ensures PeerWrites(peers)[i] == Write("mesh_peer/" + Hex(peers[i].wgKey), peers[i].ip)
  {
    if i < |peers| - 1 {
      PeerWriteAt(peers[..|peers| - 1], i);
    }
  }

  lemma {:induction false} SameWritesShow(s: Entries, ws: seq<Write>, k: Bytes, value: Option<Bytes>)
    requires UniqueKeys(s) && (exists i :: 0 <= i < |ws| && ws[i].key == k)
    requires forall i :: 0 <= i < |ws| && ws[i].key == k ==> ws[i].value == value
    ensures Shows(PutAll(s, ws), k, value)
  {
    var n := |ws| - 1;
    if ws[n].key == k {
      LastWriteShows(s, ws, n);
    } else {
      var init := ws[..n];
      assert forall i :: 0 <= i < n ==> init[i] == ws[i];
      SameWritesShow(s, init, k, value);
      PutAllUnique(s, init);
      PutIsMapUpdate(PutAll(s, init), ws[n], k);
    }
  }

  /** The edits of CREATE_GROUP one by one: two names, then the stewards, then the peers. */
  lemma CreateWriteAt(t: Transition, nextBranch: nat, i: nat)
    requires t.payload.CreateGroup?
    ensures var ws, n := Edits(t, nextBranch), |t.payload.stewards|;
            && |ws| == 2 + n + |t.payload.meshPeers|
            && ws[0] == Mark("name", t.payload.name) && ws[1] == Mark("display_name", t.payload.displayName)
            && (2 <= i < 2 + n ==> ws[i] == Mark("steward/" + Hex(t.payload.stewards[i - 2]), [1 as char]))
            && (2 + n <= i < |ws| ==>
                  ws[i] == Write("mesh_peer/" + Hex(t.payload.meshPeers[i - 2 - n].wgKey),
                                 t.payload.meshPeers[i - 2 - n].ip))
  {
    var n := |t.payload.stewards|;
    if 2 <= i < 2 + n {
      StewardWriteAt(t.payload.stewards, i - 2);
    } else if 2 + n <= i < 2 + n + |t.payload.meshPeers| {
      PeerWriteAt(t.payload.meshPeers, i - 2 - n);
    }
    hide Hex;
  }

  /** The keys of the four groups of edits differ in their first letters. */
  lemma CreateKeyLetters(t: Transition, nextBranch: nat, i: nat)
    requires t.payload.CreateGroup? && i < |Edits(t, nextBranch)|
    ensures var k, n := Edits(t, nextBranch)[i].key, |t.payload.stewards|;
            |k| > 0 && k[0] == if i == 0 then 'n' else if i == 1 then 'd' else if i < 2 + n then 's' else 'm'
  {
    CreateWriteAt(t, nextBranch, i);
    hide Hex, Edits;
  }

  lemma CreateIsReflected(s: Entries, t: Transition, nextBranch: nat)
    requires UniqueKeys(s) && t.payload.CreateGroup?
    ensures Reflects(PutAll(s, Edits(t, nextBranch)), t, nextBranch)
  {
    var ws, raws, peers := Edits(t, nextBranch), t.payload.stewards, t.payload.meshPeers;
    hide Edits, PutAll, Shows, Hex;
    NamesAreReflected(s, t, nextBranch);
    forall r | r in raws
      ensures Shows(PutAll(s, ws), "steward/" + Hex(r), Some([1 as char]))
    {
      StewardIsReflected(s, t, nextBranch, r);
    }
    forall i | 0 <= i < |peers| && (forall j :: i < j < |peers| ==> peers[j].wgKey != peers[i].wgKey)
      ensures Shows(PutAll(s, ws), "mesh_peer/" + Hex(peers[i].wgKey), peers[i].ip)
    {
      PeerIsReflected(s, t, nextBranch, i);
    }
  }

  lemma NamesAreReflected(s: Entries, t: Transition, nextBranch: nat)
    requires UniqueKeys(s) && t.payload.CreateGroup?
    ensures Shows(PutAll(s, Edits(t, nextBranch)), "name", Some(t.payload.name))
    ensures Shows(PutAll(s, Edits(t, nextBranch)), "display_name", Some(t.payload.displayName))
  {
    var ws := Edits(t, nextBranch);
    hide Edits, PutAll, Shows, Hex;
    CreateWriteAt(t, nextBranch, 0);
    forall j | 0 <= j < |ws|
      ensures |ws[j].key| > 0 && (j > 0 ==> ws[j].key[0] != 'n') && (j > 1 ==> ws[j].key[0] != 'd')
    {
      CreateKeyLetters(t, nextBranch, j);
    }
    LastWriteShows(s, ws, 0);
    LastWriteShows(s, ws, 1);
  }

  lemma StewardIsReflected(s: Entries, t: Transition, nextBranch: nat, r: Bytes)
    requires UniqueKeys(s) && t.payload.CreateGroup? && r in t.payload.stewards
    ensures Shows(PutAll(s, Edits(t, nextBranch)), "steward/" + Hex(r), Some([1 as char]))
  {
    var ws, k := Edits(t, nextBranch), "steward/" + Hex(r);
    hide Edits, PutAll, Shows, Hex;
    var at :| 0 <= at < |t.payload.stewards| && t.payload.stewards[at] == r;
    CreateWriteAt(t, nextBranch, at + 2);
    assert ws[at + 2].key == k;
    assert k[0] == 's';
    forall j | 0 <= j < |ws| && ws[j].key == k
      ensures ws[j].value == Some([1 as char])
    {
      CreateWriteAt(t, nextBranch, j);
      CreateKeyLetters(t, nextBranch, j);
    }
    SameWritesShow(s, ws, k, Some([1 as char]));
  }

  lemma PeerIsReflected(s: Entries, t: Transition, nextBranch: nat, i: nat)
    requires UniqueKeys(s) && t.payload.CreateGroup? && i < |t.payload.meshPeers|
    requires forall j :: i < j < |t.payload.meshPeers| ==> t.payload.meshPeers[j].wgKey != t.payload.meshPeers[i].wgKey
    ensures Shows(PutAll(s, Edits(t, nextBranch)), "mesh_peer/" + Hex(t.payload.meshPeers[i].wgKey),
                  t.payload.meshPeers[i].ip)
  {
    var ws, peers, n := Edits(t, nextBranch), t.payload.meshPeers, 2 + |t.payload.stewards|;
    hide Edits, PutAll, Shows, Hex;
    CreateWriteAt(t, nextBranch, n + i);
    forall j | n + i < j < |ws|
      ensures ws[j].key != ws[n + i].key
    {
      CreateWriteAt(t, nextBranch, j);
      OtherPeerKey(peers[j - n].wgKey, peers[i].wgKey);
    }
    LastWriteShows(s, ws, n + i);
  }

  lemma OtherPeerKey(x: Bytes, y: Bytes)
    requires x != y
    ensures "mesh_peer/" + Hex(x) != "mesh_peer/" + Hex(y)
  {
    if Hex(x) == Hex(y) {
      HexInjective(x, y);
    }
    assert ("mesh_peer/" + Hex(x))[10..] == Hex(x);
    assert ("mesh_peer/" + Hex(y))[10..] == Hex(y);
    hide Hex;
  }
}
