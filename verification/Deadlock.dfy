/** How a group can lock itself: a threshold its stewards cannot reach, and a root at which its only
    steward has already signed. */
module Deadlock {
  import opened Basics
  import opened ByteStrings
  import opened Snapshot
  import opened KeyValue
  import opened Multisig
  import opened Equivocation
  import opened Transitions
  import opened Ledger
  import opened Authority
  import opened Commitment
  import opened Growth

  // ----- Thresholds out of reach -----

  /** The distinct keys of a list. */
  function KeySet(stewards: seq<PublicKey>): set<PublicKey>
  {
    set k | k in stewards
  }

  /** Whatever the signatures, no more stewards are credited than there are keys. */
  lemma {:induction false} CreditedWithin(v: Verifier, stewards: seq<PublicKey>, sigs: seq<Signature>)
    ensures Credited(v, stewards, sigs) <= KeySet(stewards)
  {
    if sigs != [] {
      var init := sigs[..|sigs| - 1];
      CreditedWithin(v, stewards, init);
      FirstMatchMember(v, stewards, sigs[|sigs| - 1], Credited(v, stewards, init));
    }
  }

  lemma {:induction false} Smaller<T>(a: set<T>, b: set<T>)
    requires a <= b
    ensures |a| <= |b|
  {
    assert b == a + (b - a);
  }

  lemma AcceptedNeedsKeys(v: Verifier, stewards: seq<PublicKey>, threshold: nat, sigs: seq<Signature>)
    requires Accepts(v, stewards, threshold, sigs)
    ensures 0 < threshold <= |KeySet(stewards)|
  {
    CreditedWithin(v, stewards, sigs);
    Smaller(Credited(v, stewards, sigs), KeySet(stewards));
  }

  /** Each steward can sign. */
  ghost predicate AllCanSign(v: Verifier, stewards: seq<PublicKey>)
  {
    forall k :: k in stewards ==> exists s :: v(k, s)
  }

  /** No signature verifies under two of the keys. */
  ghost predicate NoSharedSignature(v: Verifier, stewards: seq<PublicKey>)
  {
    forall s, k, l :: k in stewards && l in stewards && v(k, s) && v(l, s) ==> k == l
  }

  /** A quorum exists, when every steward can sign and no signature verifies under two keys, exactly when
      the threshold is positive and within the number of distinct keys, however often they are listed. */
  lemma QuorumExists(v: Verifier, stewards: seq<PublicKey>, threshold: nat)
    requires AllCanSign(v, stewards) && NoSharedSignature(v, stewards)
    ensures (exists sigs :: Accepts(v, stewards, threshold, sigs)) <==> 0 < threshold <= |KeySet(stewards)|
  {
    if sigs :| Accepts(v, stewards, threshold, sigs) {
      AcceptedNeedsKeys(v, stewards, threshold, sigs);
    }
    if 0 < threshold <= |KeySet(stewards)| {
      var sigs := OneEach(v, stewards);
      AcceptsExactly(v, stewards, threshold, sigs);
      KeysAtMost(stewards);
      assert Signers(v, stewards, sigs) == KeySet(stewards);
    }
  }

  /** A signature of each steward. */
  lemma {:induction false} OneEach(v: Verifier, stewards: seq<PublicKey>) returns (sigs: seq<Signature>)
    requires AllCanSign(v, stewards)
    ensures |sigs| == |stewards| && forall i :: 0 <= i < |stewards| ==> v(stewards[i], sigs[i])
  {
    if stewards == [] {
      sigs := [];
    } else {
      var n := |stewards| - 1;
      assert stewards[n] in stewards && forall k :: k in stewards[..n] ==> k in stewards;
      var s :| v(stewards[n], s);
      var rest := OneEach(v, stewards[..n]);
      sigs := rest + [s];
    }
  }

  lemma {:induction false} KeysAtMost(stewards: seq<PublicKey>)
    ensures |KeySet(stewards)| <= |stewards|
  {
    if stewards == [] {
      assert KeySet(stewards) == {};
    } else {
      var n := |stewards| - 1;
      KeysAtMost(stewards[..n]);
      assert stewards == stewards[..n] + [stewards[n]];
      assert KeySet(stewards) == KeySet(stewards[..n]) + {stewards[n]};
    }
  }

  /** After this the threshold is within reach again. */
  predicate KeepsQuorum(a: Authority, t: Payload)
  {
    match t
    case RemoveSteward(k) => Fix32(k) !in a.stewards || a.threshold < |KeySet(a.stewards)|
    case ChangeThreshold(n) => n <= |KeySet(a.stewards)|
    case CreateGroup(_, _, _, _, _) => a.threshold <= |KeySet(a.initial)|
    case _ => true
  }

  /** When the next quorum exists, exactly. An accepted transition leaves the threshold within the number of
      distinct keys, unless it removes a steward when all are needed, raises the threshold past the keys
      that are distinct, or restores an initial set that is too small. SLASH_STEWARD never breaks it, since
      the slashed steward was not needed. */
  lemma NextQuorumExactly(e: Env, l: Ledger, t: Transition, call: Call, a: Authority)
    requires Governs(e.platform, l, a) && a.stewards != [] && NamesPrior(t) && Advanced(Step(e, l, t, call))
    ensures var a' := Amend(a, t.payload);
            a'.threshold <= |KeySet(a'.stewards)| <==> KeepsQuorum(a, t.payload)
  {
    var v := TransitionVerifier(e.platform, t);
    GovernsStep(e, l, t, call, a);
    hide Step, Governs, Accepts, SignedBy, Amend, KeySet;
    AcceptedNeedsKeys(v, a.stewards, a.threshold, Signatures(t));
    if t.payload.SlashSteward? {
      SignersExclude(v, a.stewards, a.threshold, Signatures(t), Fix32(t.payload.steward));
    }
    AmendCounts(a, t.payload);
  }

  /** An accepted list that one key did not sign needs one key less. */
  lemma SignersExclude(v: Verifier, stewards: seq<PublicKey>, threshold: nat, sigs: seq<Signature>, k: PublicKey)
    requires Accepts(v, stewards, threshold, sigs) && !SignedBy(v, k, sigs)
    ensures k in KeySet(stewards) ==> threshold < |KeySet(stewards)|
  {
    CreditedWithin(v, stewards, sigs);
    NotCredited(v, stewards, sigs, k);
    Smaller(Credited(v, stewards, sigs), KeySet(stewards) - {k});
  }

  lemma {:induction false} NotCredited(v: Verifier, stewards: seq<PublicKey>, sigs: seq<Signature>, k: PublicKey)
    requires !SignedBy(v, k, sigs)
    ensures k !in Credited(v, stewards, sigs)
  {
    if sigs != [] {
      var init := sigs[..|sigs| - 1];
      assert forall i :: 0 <= i < |init| ==> init[i] == sigs[i];
      NotCredited(v, stewards, init, k);
      FirstMatchMember(v, stewards, sigs[|sigs| - 1], Credited(v, stewards, init));
    }
  }

  lemma AmendCounts(a: Authority, t: Payload)
    requires a.stewards != [] && a.threshold <= |KeySet(a.stewards)|
    requires t.SlashSteward? && Fix32(t.steward) in KeySet(a.stewards) ==> a.threshold < |KeySet(a.stewards)|
    ensures Amend(a, t).threshold <= |KeySet(Amend(a, t).stewards)| <==> KeepsQuorum(a, t)
  {
    if t.RemoveSteward? || t.SlashSteward? {
      WithoutMembers(a.stewards, Fix32(t.steward));
      assert KeySet(Without(a.stewards, Fix32(t.steward))) == KeySet(a.stewards) - {Fix32(t.steward)};
    } else if t.AddSteward? {
      Smaller(KeySet(a.stewards), KeySet(Amend(a, t).stewards));
    }
  }

  /** Out of reach is out of reach for ever: nothing that names its prior state advances the group again. */
  lemma {:induction false} DeadlockIsFinal(e: Env, l: Ledger, subs: seq<Submission>, a: Authority)
    requires Governs(e.platform, l, a) && a.stewards != [] && a.threshold > |KeySet(a.stewards)|
    requires forall i :: 0 <= i < |subs| ==> NamesPrior(subs[i].t)
    ensures Applied(e, l, subs) == [] && Governs(e.platform, After(e, l, subs), a)
  {
    if subs != [] {
      hide Step, Governs, KeySet;
      var n := |subs| - 1;
      DeadlockIsFinal(e, l, subs[..n], a);
      var before, t, call := After(e, l, subs[..n]), subs[n].t, subs[n].call;
      if Advanced(Step(e, before, t, call)) {
        GovernsStep(e, before, t, call, a);
        AcceptedNeedsKeys(TransitionVerifier(e.platform, t), a.stewards, a.threshold, Signatures(t));
      } else {
        GovernsRejected(e, before, t, call, a);
      }
    }
  }

  // ----- Roots already signed -----

  /** Adding a steward and removing it again restores the entries, hence the root. */
  lemma AddThenRemove(e: Env, l: Ledger, add: Transition, c1: Call, remove: Transition, c2: Call)
    requires add.payload.AddSteward? && remove.payload.RemoveSteward?
    requires Fix32(add.payload.steward) == Fix32(remove.payload.steward)
    requires !HasKey(l.entries, StewardEntry(Fix32(add.payload.steward)))
    requires Advanced(Step(e, l, add, c1)) && Advanced(Step(e, Step(e, l, add, c1).ledger, remove, c2))
    ensures Step(e, Step(e, l, add, c1).ledger, remove, c2).ledger.entries == l.entries
  {
    var k := StewardEntry(Fix32(add.payload.steward));
    var l1 := Step(e, l, add, c1).ledger;
    EntriesAfter(e, l, add, c1);
    EntriesAfter(e, l1, remove, c2);
    hide Step, PutAll, StewardEntry, HasKey;
    assert Edits(add, c1.nextBranch) == [Write(k, Some(SET_MARK))];
    assert Edits(remove, c2.nextBranch) == [Write(k, None)];
    RemovalRestoresSnapshot(l.entries, k, SET_MARK);
    PutAllConcat(l.entries, [Write(k, Some(SET_MARK))], [Write(k, None)]);
    assert [Write(k, Some(SET_MARK))] + [Write(k, None)] == [Write(k, Some(SET_MARK)), Write(k, None)];
  }

  lemma EntriesAfter(e: Env, l: Ledger, t: Transition, call: Call)
    requires Advanced(Step(e, l, t, call))
    ensures Step(e, l, t, call).ledger.entries == PutAll(l.entries, Edits(t, call.nextBranch))
  {
    AdvancedShape(e, l, t, call);
    ApplyEditsIsPutAll(e.limits, l.entries, Edits(t, call.nextBranch));
    hide Step, Screen, Authorize, Gate, ApplyEdits, Edits, PutAll, Root;
  }

  /** What a transition is recorded as. */
  function Stamp(p: Platform, t: Transition): Seen
  {
    Seen(t.hlc, p.sha256(t.canonical))
  }

  /** A steward whose signature at this root is on record is refused with anything else. */
  lemma HeldSignerIsRefused(e: Env, l: Ledger, t: Transition, call: Call)
    requires NamesPrior(t) && Fix32(t.prior) == Root(e.platform, l.entries) && (IsCreate(t) || |t.hlc| == HLC_SIZE)
    requires call.limiterOk && SigningKey(e.platform, l, t) != ZERO_KEY
    requires EqKey(SigningKey(e.platform, l, t), Fix32(t.prior)) in EqLogOf(e, l).seen
    ensures var k := EqKey(SigningKey(e.platform, l, t), Fix32(t.prior));
            EqLogOf(e, l).seen[k] != Stamp(e.platform, t) ==>
              Step(e, l, t, call).Rejected? && Step(e, l, t, call).why == EquivocationDetected
  {
    hide Root, SigningKey, Fix32, Record, Authorize, Execute;
  }

  /** What advances has its signer on record at the root it named. */
  lemma SignerIsRecorded(e: Env, l: Ledger, t: Transition, call: Call)
    requires Coherent(EqLogOf(e, l)) && NamesPrior(t) && Advanced(Step(e, l, t, call))
    requires SigningKey(e.platform, l, t) != ZERO_KEY
    ensures var k, l' := EqKey(SigningKey(e.platform, l, t), Fix32(t.prior)), Step(e, l, t, call).ledger;
            k in EqLogOf(e, l').seen && EqLogOf(e, l').seen[k] == Stamp(e.platform, t)
  {
    LogAfter(e, l, t, call);
    var p := PresentationOf(e.platform, SigningKey(e.platform, l, t), t);
    if p.key !in EqLogOf(e, l).seen {
      InsertedIsNewest(EqLogOf(e, l), p);
    } else {
      RecordShape(EqLogOf(e, l), p);
    }
    hide Step, SigningKey, Fix32;
  }

  /** The equivocation log after a transition that advanced the state. */
  lemma LogAfter(e: Env, l: Ledger, t: Transition, call: Call)
    requires NamesPrior(t) && Advanced(Step(e, l, t, call))
    ensures var p, l' := PresentationOf(e.platform, SigningKey(e.platform, l, t), t), Step(e, l, t, call).ledger;
            if SigningKey(e.platform, l, t) == ZERO_KEY then l'.equivocation == l.equivocation
            else !Conflicts(EqLogOf(e, l), p) && EqLogOf(e, l') == Record(EqLogOf(e, l), p)
  {
    AdvancedShape(e, l, t, call);
    hide Step, Authorize, Gate, ApplyEdits, Edits, Root, SigningKey, Record;
  }

  /** The only steward's signature is the one a transition that it passes is attributed to. */
  lemma OnlyStewardSigns(v: Verifier, k: PublicKey, threshold: nat, sigs: seq<Signature>)
    requires Accepts(v, [k], threshold, sigs)
    ensures SigningSteward(v, [k], sigs) == k
  {
    KeysAtMost([k]);
    if !SignedBy(v, k, sigs) {
      SignersExclude(v, [k], threshold, sigs, k);
    }
    FirstOfOne(v, k, sigs);
  }

  lemma {:induction false} FirstOfOne(v: Verifier, k: PublicKey, sigs: seq<Signature>)
    requires SignedBy(v, k, sigs)
    ensures SigningSteward(v, [k], sigs) == k
  {
    assert [k][0] == k && k in [k];
    if !v(k, sigs[0]) {
      var i :| 0 <= i < |sigs| && v(k, sigs[i]);
      assert sigs[1..][i - 1] == sigs[i];
      FirstOfOne(v, k, sigs[1..]);
    }
  }

  /** A group of one steward whose signature at the head is on record can only repeat what it signed. */
  lemma OneStewardLocked(e: Env, l: Ledger, t: Transition, call: Call, a: Authority, k: PublicKey)
    requires Governs(e.platform, l, a) && a.stewards == [k] && k != ZERO_KEY
    requires EqKey(k, Root(e.platform, l.entries)) in EqLogOf(e, l).seen
    requires NamesPrior(t) && Advanced(Step(e, l, t, call))
    ensures Stamp(e.platform, t) == EqLogOf(e, l).seen[EqKey(k, Root(e.platform, l.entries))]
  {
    GovernsStep(e, l, t, call, a);
    AdvancedShape(e, l, t, call);
    LogAfter(e, l, t, call);
    OnlyStewardSigns(TransitionVerifier(e.platform, t), k, a.threshold, Signatures(t));
    assert StewardsAt(e.platform, l, t.prior) == [k];
    hide Step, Screen, Authorize, Gate, ApplyEdits, Edits, Root, Record, SigningSteward, Accepts, StewardsAt;
  }

  /** Removing what was just added locks a group of one steward. After the two transitions its head is a
      root it has signed, and while that is on record nothing that names the head advances the group but
      the very transition it signed there. */
  lemma AddRemoveLocks(e: Env, l: Ledger, add: Transition, c1: Call, remove: Transition, c2: Call,
                       t: Transition, c3: Call, a: Authority, k: PublicKey)
    requires Governs(e.platform, l, a) && a.stewards == [k] && k != ZERO_KEY && Coherent(EqLogOf(e, l))
    requires add.payload.AddSteward? && remove.payload.RemoveSteward? && NamesPrior(add) && NamesPrior(remove)
    requires Fix32(add.payload.steward) == Fix32(remove.payload.steward) != k
    requires !HasKey(l.entries, StewardEntry(Fix32(add.payload.steward)))
    requires Advanced(Step(e, l, add, c1))
    requires var l1 := Step(e, l, add, c1).ledger;
             var l2 := Step(e, l1, remove, c2).ledger;
             && Advanced(Step(e, l1, remove, c2))
             && EqKey(k, Root(e.platform, l.entries)) in EqLogOf(e, l2).seen
             && NamesPrior(t) && Advanced(Step(e, l2, t, c3))
    ensures Stamp(e.platform, t) == Stamp(e.platform, add)
  {
    hide Step, Root, Governs, HasKey, StewardEntry, Fix32, EqLogOf;
    var l1 := Step(e, l, add, c1).ledger;
    var l2 := Step(e, l1, remove, c2).ledger;
    AddThenRemove(e, l, add, c1, remove, c2);
    OneStewardRecorded(e, l, add, c1, a, k);
    RecordStays(e, l1, remove, c2, EqKey(k, Root(e.platform, l.entries)));
    GovernsStep(e, l, add, c1, a);
    GovernsStep(e, l1, remove, c2, Amend(a, add.payload));
    BackToOne(a, k, add.payload, remove.payload);
    OneStewardLocked(e, l2, t, c3, Amend(Amend(a, add.payload), remove.payload), k);
  }

  lemma BackToOne(a: Authority, k: PublicKey, add: Payload, remove: Payload)
    requires a.stewards == [k] && add.AddSteward? && remove.RemoveSteward?
    requires Fix32(add.steward) == Fix32(remove.steward) != k
    ensures Amend(Amend(a, add), remove).stewards == [k]
  {
    var x := Fix32(add.steward);
    assert [k] + [x] == [k, x] && [k, x][..1] == [k] && [k][..0] == [];
    assert Without([], x) == [] && Without([k], x) == [k] && Without([k, x], x) == [k];
  }

  /** The only steward's signature goes on record at the root it names. */
  lemma OneStewardRecorded(e: Env, l: Ledger, t: Transition, call: Call, a: Authority, k: PublicKey)
    requires Governs(e.platform, l, a) && a.stewards == [k] && k != ZERO_KEY && Coherent(EqLogOf(e, l))
    requires NamesPrior(t) && Advanced(Step(e, l, t, call))
    ensures var q, log := EqKey(k, Root(e.platform, l.entries)), EqLogOf(e, Step(e, l, t, call).ledger);
            q in log.seen && log.seen[q] == Stamp(e.platform, t) && Coherent(log)
  {
    GovernsStep(e, l, t, call, a);
    AdvancedShape(e, l, t, call);
    OnlyStewardSigns(TransitionVerifier(e.platform, t), k, a.threshold, Signatures(t));
    assert StewardsAt(e.platform, l, t.prior) == [k];
    hide Step, Screen, Authorize, Gate, ApplyEdits, Edits, Root, Record, SigningSteward, Accepts, StewardsAt;
    SignerIsRecorded(e, l, t, call);
    LogAfter(e, l, t, call);
    RecordCoherent(EqLogOf(e, l), PresentationOf(e.platform, k, t));
  }

  /** What is on record does not change while it is held. */
  lemma RecordStays(e: Env, l: Ledger, t: Transition, call: Call, q: EqKey)
    requires Coherent(EqLogOf(e, l)) && NamesPrior(t) && Advanced(Step(e, l, t, call)) && q in EqLogOf(e, l).seen
    ensures var log := EqLogOf(e, Step(e, l, t, call).ledger);
            q in log.seen ==> log.seen[q] == EqLogOf(e, l).seen[q]
  {
    LogAfter(e, l, t, call);
    RecordShape(EqLogOf(e, l), PresentationOf(e.platform, SigningKey(e.platform, l, t), t));
    hide Step, SigningKey, Record;
  }
}
