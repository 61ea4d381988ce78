/** A toy platform, under any digest, and the steps of concrete runs on it. */
module Toy {
  import opened Basics
  import opened ByteStrings
  import opened Snapshot
  import opened KeyValue
  import opened Multisig
  import opened Equivocation
  import opened Transitions
  import opened Ledger
  import opened Authority
  import opened Replay

  /** A toy signature scheme: a signature of a key is that key. Every text is UTF-8, and no cap is set. */
  function Lab(digest: Bytes -> Bytes32): Env
  {
    Env(Platform(digest, (k: PublicKey, s: Signature, m: Bytes) => s == k, (b: Bytes) => true),
        Limits(0, 0, 0, 0, 0, 0))
  }

  const ALICE: PublicKey := Zeros(31) + [1 as char]
  const BOB: PublicKey := Zeros(31) + [2 as char]

  /** A CREATE_GROUP. */
  function Create(prior: Bytes, name: Bytes, raws: seq<Bytes>, threshold: uint32, signers: seq<Signature>): Transition
  {
    Transition(0, prior, [], CreateGroup(name, "g", threshold, raws, []), Some(signers), [], ZERO_KEY)
  }

  /** Another transition, at a given tick of the clock. */
  function Signed(tick: byte, prior: Bytes, payload: Payload, signers: seq<Signature>): Transition
  {
    Transition(0, prior, Zeros(17) + [tick], payload, Some(signers), [], ZERO_KEY)
  }

  /** One of Alice's. */
  function ByAlice(tick: byte, prior: Bytes, payload: Payload): Transition
  {
    Signed(tick, prior, payload, [ALICE])
  }

  /** A move to another host, with a deadline ten seconds into the epoch. */
  const MOVE := Migrate("h", Some(Deadline(10, 0)))

  const AT_START := Call(0, true, true, true, 1)

  const AFTER_DEADLINE := 20_000_000_000

  function Submit(t: Transition): Submission
  {
    Submission(t, AT_START)
  }

  /** The root a run has reached. */
  function Head(e: Env, subs: seq<Submission>): Bytes32
  {
    Root(e.platform, After(e, FRESH, subs).entries)
  }

  // ----- Single steps -----

  lemma {:induction false} SmallEditsPass(limits: Limits, s: Entries, ws: seq<Write>)
    requires limits.maxKvSize <= 0 && limits.maxKvBytes <= 0
    requires forall i :: 0 <= i < |ws| && ws[i].value.Some? ==> |ws[i].value.value| <= MAX_VALUE_SIZE
    ensures ApplyEdits(limits, s, ws).Some?
  {
    if ws != [] {
      SmallEditsPass(limits, s, ws[..|ws| - 1]);
    }
  }

  lemma OneSigner(v: Verifier, key: PublicKey, sig: Signature)
    ensures Accepts(v, [key], 1, [sig]) <==> v(key, sig)
  {
    var sigs: seq<Signature> := [sig];
    assert sigs[..0] == [] && sigs[..1] == sigs;
    CreditedNone(v, [key]);
    CreditedNext(v, [key], sigs, 0);
    assert FirstMatch(v, [], sig, {}) == {};
    assert FirstMatch(v, [key], sig, {}) == if v(key, sig) then {key} else {};
    hide Credited, FirstMatch;
    assert {} + {key} == {key};
  }

  lemma OneKey(key: PublicKey)
    ensures PadKeys([key]) == [key]
  {
    assert [key][..0] == [] && PadKeys([]) == [];
  }

  lemma {:induction false} StewardMarks(raws: seq<Bytes>)
    ensures SmallValues(StewardWrites(raws))
  {
    if raws != [] {
      StewardMarks(raws[..|raws| - 1]);
    }
  }

  lemma CreateEdits(t: Transition)
    requires t.payload.CreateGroup? && t.payload.name == "g" == t.payload.displayName && t.payload.meshPeers == []
    ensures SmallValues(Edits(t, 1))
  {
    StewardMarks(t.payload.stewards);
    assert PeerWrites([]) == [];
    hide StewardWrites;
  }

  /** A CREATE_GROUP that gets through its signatures is applied, unless its name is empty. */
  lemma CreateExecutes(digest: Bytes -> Bytes32, l: Ledger, prior: Bytes, name: Bytes, raws: seq<Bytes>,
                       threshold: uint32, signers: seq<Signature>)
    requires name == "g" || name == ""
    ensures var o := Execute(Lab(digest), l, Create(prior, name, raws, threshold, signers), AT_START);
            if name == "g" then o.Accepted? else o == Rejected(BadField, l)
  {
    var t := Create(prior, name, raws, threshold, signers);
    if name == "g" {
      CreateEdits(t);
      hide StewardWrites;
      SmallEditsPass(Lab(digest).limits, l.entries, Edits(t, 1));
    }
    hide Edits, ApplyEdits, Commit;
  }

  /** A group founded with these stewards, by these signers. */
  lemma Founded(digest: Bytes -> Bytes32, raws: seq<Bytes>, threshold: uint32, signers: seq<Signature>)
    requires var e, t := Lab(digest), Create([], "g", raws, threshold, signers);
             threshold > 0 && Accepts(TransitionVerifier(e.platform, t), PadKeys(raws), threshold, signers)
    ensures var e, t := Lab(digest), Create([], "g", raws, threshold, signers);
            var l := After(e, FRESH, [Submit(t)]);
            && GenesisRun(e, [Submit(t)]) && Applied(e, FRESH, [Submit(t)]) == [t]
            && l == Step(e, FRESH, t, AT_START).ledger && Step(e, FRESH, t, AT_START).Accepted?
            && Governs(e.platform, l, Authority(PadKeys(raws), threshold, PadKeys(raws))) && l.equivocation == None
  {
    var e, t := Lab(digest), Create([], "g", raws, threshold, signers);
    var s := Authorize(e.platform, FRESH, t);
    CreateExecutes(digest, s.ledger, [], "g", raws, threshold, signers);
    FreshIsUnfounded();
    assert Step(e, FRESH, t, AT_START).Accepted?;
    FoundingGoverns(e, FRESH, t, AT_START);
    StepKeepsScreenedLog(e, FRESH, t, AT_START);
    assert [] + [Submit(t)] == [Submit(t)] && [] + [t] == [t];
    hide Step, Governs, Root, PadKeys, Accepts;
    EmptyRun(e);
    RunSnoc(e, [], Submit(t));
  }

  /** The payloads used here that any ledger's gate lets pass. */
  predicate Easy(payload: Payload)
  {
    || payload == MOVE || payload.AddSteward? || payload.RemoveSteward? || payload.AddMember?
    || payload == BranchCreate("b")
  }

  lemma EasyPasses(digest: Bytes -> Bytes32, l: Ledger, t: Transition)
    requires Easy(t.payload) && t.branch == 0
    ensures Gate(Lab(digest), l, t, AT_START).None?
    ensures SmallValues(Edits(t, 1))
  {
    assert |BigEndian(10, 8)| == 8 && |Decimal(0)| == 1;
    hide Dedupe, BigEndian, Decimal;
  }

  predicate SmallValues(ws: seq<Write>)
  {
    forall i :: 0 <= i < |ws| && ws[i].value.Some? ==> |ws[i].value.value| <= MAX_VALUE_SIZE
  }

  /** A transition that the authority in force has signed, by a steward not on record at the head, is
      applied if its gate lets it pass. */
  lemma Acts(digest: Bytes -> Bytes32, l: Ledger, t: Transition, a: Authority)
    requires var e := Lab(digest);
             && Governs(e.platform, l, a) && a.stewards != [] && t.prior == Root(e.platform, l.entries)
             && Accepts(TransitionVerifier(e.platform, t), a.stewards, a.threshold, Signatures(t))
             && |t.hlc| == HLC_SIZE && t.signatures.Some?
             && NotOnRecord(e, l, SigningSteward(TransitionVerifier(e.platform, t), a.stewards, Signatures(t)))
             && (forall m :: SameCore(l, m) ==> Gate(e, m, t, AT_START).None?) && SmallValues(Edits(t, 1))
    ensures var e := Lab(digest);
            var o := Step(e, l, t, AT_START);
            o.Accepted? && Unbounded(e, o.ledger)
  {
    var e := Lab(digest);
    assert StewardsAt(e.platform, l, t.prior) == a.stewards && ThresholdAt(e.platform, l, t.prior) == a.threshold;
    SmallEditsPass(e.limits, l.entries, Edits(t, 1));
    ActsScreened(e, l, t);
    StepKeepsScreenedLog(e, l, t, AT_START);
    hide Root, Accepts, ApplyEdits, Edits, Commit, SigningSteward, StewardsAt, ThresholdAt, Governs, Gate, Screen;
    var l1 := Screen(e, l, t, AT_START).ledger;
    SameAuthority(e.platform, l, l1, t.prior);
    assert Authorize(e.platform, l1, t) == Go(l1);
  }

  /** Nothing has been evicted, nor ever will be. */
  predicate Unbounded(e: Env, l: Ledger)
  {
    EqLogOf(e, l).maxEntries <= 0 && EqLogOf(e, l).evictions == 0
  }

  predicate NotOnRecord(e: Env, l: Ledger, signer: PublicKey)
  {
    Unbounded(e, l) && EqKey(signer, Root(e.platform, l.entries)) !in EqLogOf(e, l).seen
  }

  lemma SameAuthority(p: Platform, l: Ledger, m: Ledger, prior: Bytes)
    requires SameCore(l, m) && prior != []
    ensures StewardsAt(p, m, prior) == StewardsAt(p, l, prior) && ThresholdAt(p, m, prior) == ThresholdAt(p, l, prior)
  {
    hide Fix32, Root;
  }

  lemma ActsScreened(e: Env, l: Ledger, t: Transition)
    requires |t.hlc| == HLC_SIZE && NamesPrior(t) && Fix32(t.prior) == Root(e.platform, l.entries)
    requires NotOnRecord(e, l, SigningKey(e.platform, l, t))
    ensures Screen(e, l, t, AT_START).Go? && Unbounded(e, Screen(e, l, t, AT_START).ledger)
    ensures Screen(e, l, t, AT_START).ledger == l.(equivocation := Screen(e, l, t, AT_START).ledger.equivocation)
  {
    hide Root, Fix32, SigningKey;
  }

  /** Alice, first of the stewards of a group that asks for one signature, has her transition applied. */
  lemma AliceActs(digest: Bytes -> Bytes32, l: Ledger, tick: byte, payload: Payload, a: Authority)
    requires var e := Lab(digest);
             Governs(e.platform, l, a) && a.stewards != [] && a.stewards[0] == ALICE && a.threshold == 1
    requires Easy(payload) && NotOnRecord(Lab(digest), l, ALICE)
    ensures var e := Lab(digest);
            var o := Step(e, l, ByAlice(tick, Root(e.platform, l.entries), payload), AT_START);
            o.Accepted? && Unbounded(e, o.ledger)
  {
    var e := Lab(digest);
    var t := ByAlice(tick, Root(e.platform, l.entries), payload);
    FirstSigner(TransitionVerifier(e.platform, t), a.stewards, ALICE);
    forall m ensures Gate(e, m, t, AT_START).None? {
      EasyPasses(digest, m, t);
    }
    EasyPasses(digest, l, t);
    hide Root, Accepts, SigningSteward, Governs, Gate, Edits, SmallValues, NotOnRecord, Unbounded, Step;
    Acts(digest, l, t, a);
  }

  /** The first steward's signature is enough where one is asked for, and is attributed to it. */
  lemma FirstSigner(v: Verifier, stewards: seq<PublicKey>, sig: Signature)
    requires stewards != [] && v(stewards[0], sig)
    ensures Accepts(v, stewards, 1, [sig]) && SigningSteward(v, stewards, [sig]) == stewards[0]
  {
    var sigs: seq<Signature> := [sig];
    assert sigs[..0] == [] && sigs[..1] == sigs;
    CreditedNone(v, stewards);
    CreditedNext(v, stewards, sigs, 0);
    FirstMatchFound(v, stewards, sig, {}, 0);
    assert stewards[0] in stewards;
    hide Credited, FirstMatch;
    assert {} + {stewards[0]} == {stewards[0]};
  }

  /** One more submission on a run. */
  lemma RunSnoc(e: Env, subs: seq<Submission>, s: Submission)
    requires GenesisRun(e, subs) && (NamesPrior(s.t) || Unclaimed(e, subs))
    ensures GenesisRun(e, subs + [s])
    ensures After(e, FRESH, subs + [s]) == Step(e, After(e, FRESH, subs), s.t, s.call).ledger
    ensures Applied(e, FRESH, subs + [s])
         == Applied(e, FRESH, subs) + if Advanced(Step(e, After(e, FRESH, subs), s.t, s.call)) then [s.t] else []
  {
    hide Step, Unclaimed;
    var all := subs + [s];
    assert all[..|subs|] == subs;
    forall i | 0 <= i < |all| && Advances(e, all, i) ensures NamesPrior(all[i].t) || Unclaimed(e, all[..i]) {
      if i < |subs| {
        assert all[..i] == subs[..i];
        assert Advances(e, subs, i);
      }
    }
  }

  // ----- Founded by Alice -----

  const FOUNDED := [Submit(Create([], "g", [ALICE], 1, [ALICE]))]

  lemma FoundedByAlice(digest: Bytes -> Bytes32)
    ensures var e := Lab(digest);
            && GenesisRun(e, FOUNDED) && Applied(e, FRESH, FOUNDED) == [FOUNDED[0].t]
            && Step(e, FRESH, FOUNDED[0].t, AT_START).Accepted?
            && Governs(e.platform, After(e, FRESH, FOUNDED), Authority([ALICE], 1, [ALICE]))
            && After(e, FRESH, FOUNDED) == Step(e, FRESH, FOUNDED[0].t, AT_START).ledger
            && EqLogOf(e, After(e, FRESH, FOUNDED)) == EmptyLog(0)
            && NotOnRecord(e, After(e, FRESH, FOUNDED), ALICE)
  {
    var e, t := Lab(digest), FOUNDED[0].t;
    OneKey(ALICE);
    OneSigner(TransitionVerifier(e.platform, t), ALICE, ALICE);
    hide Step, Governs, Root, PadKeys, Accepts, GenesisRun, After, Applied;
    Founded(digest, [ALICE], 1, [ALICE]);
  }

  lemma EmptyRun(e: Env)
    ensures GenesisRun(e, []) && Unclaimed(e, []) && Applied(e, FRESH, []) == [] && After(e, FRESH, []) == FRESH
  {
  }
}
