/** A state root commits to the steward set and threshold recorded under it. */
module Commitment {
  import opened Basics
  import opened ByteStrings
  import opened Snapshot
  import opened KeyValue
  import opened Multisig
  import opened Transitions
  import opened Ledger
  import opened Authority

  /** The `steward/` entries of a snapshot. */
  ghost function StewardKeys(s: Entries): set<Bytes>
  {
    set e | e in s && IsStewardEntry(e.key) :: e.key
  }

  ghost function StewardNames(keys: seq<PublicKey>): set<Bytes>
  {
    set k | k in keys :: StewardEntry(k)
  }

  /** The threshold a snapshot holds: its `threshold` entry, or the founding one without it. */
  function ThresholdIn(s: Entries, founding: nat): nat
  {
    match Lookup(s, THRESHOLD_KEY)
    case None => founding
    case Some((v, _)) => FromBigEndian(v)
  }

  // ----- Effect of the edits on the steward entries -----

  lemma PutStewardKeys(s: Entries, w: Write)
    ensures StewardKeys(Put(s, w)) ==
              if !IsStewardEntry(w.key) then StewardKeys(s)
              else if w.value.Some? then StewardKeys(s) + {w.key}
              else StewardKeys(s) - {w.key}
  {
    OthersMembers(s, w.key);
    var o := Others(s, w.key);
    match w.value {
      case None =>
        assert Put(s, w) == o;
      case Some(v) =>
        var x := Written(s, w);
        assert Put(s, w) == o + [x];
        assert x in Put(s, w);
    }
    forall k
      ensures k in StewardKeys(o) <==> k in StewardKeys(s) && k != w.key
    {
    }
  }

  function Written(s: Entries, w: Write): StateEntry
    requires w.value.Some?
  {
    StateEntry(w.key, w.value.value, (MaxSeq(s, w.key) + 1) % TWO_64)
  }

  lemma {:induction false} PutAllOtherKeys(s: Entries, ws: seq<Write>)
    requires forall w :: w in ws ==> !IsStewardEntry(w.key)
    ensures StewardKeys(PutAll(s, ws)) == StewardKeys(s)
  {
    if ws != [] {
      assert ws == ws[..|ws| - 1] + [ws[|ws| - 1]];
      PutAllOtherKeys(s, ws[..|ws| - 1]);
      PutStewardKeys(PutAll(s, ws[..|ws| - 1]), ws[|ws| - 1]);
    }
  }

  lemma {:induction false} PutAllConcat(s: Entries, a: seq<Write>, b: seq<Write>)
    ensures PutAll(s, a + b) == PutAll(PutAll(s, a), b)
  {
    if b == [] {
      assert a + b == a;
    } else {
      assert (a + b)[..|a + b| - 1] == a + b[..|b| - 1];
      PutAllConcat(s, a, b[..|b| - 1]);
    }
  }

  /** Entry names as CREATE_GROUP writes them, from the raw bytes. */
  ghost function RawNames(raws: seq<Bytes>): set<Bytes>
  {
    set r | r in raws :: STEWARD_PREFIX + Hex(r)
  }

  lemma RawNamesAppend(raws: seq<Bytes>)
    requires raws != []
    ensures RawNames(raws) == RawNames(raws[..|raws| - 1]) + {STEWARD_PREFIX + Hex(raws[|raws| - 1])}
  {
    assert raws == raws[..|raws| - 1] + [raws[|raws| - 1]];
  }

  lemma PutAllSnoc(s: Entries, ws: seq<Write>, w: Write)
    ensures PutAll(s, ws + [w]) == Put(PutAll(s, ws), w)
  {
    assert (ws + [w])[..|ws|] == ws;
  }

  lemma {:induction false} PutAllStewards(s: Entries, raws: seq<Bytes>)
    ensures StewardKeys(PutAll(s, StewardWrites(raws))) == StewardKeys(s) + RawNames(raws)
  {
    if raws != [] {
      var init, name := raws[..|raws| - 1], STEWARD_PREFIX + Hex(raws[|raws| - 1]);
      PutAllStewards(s, init);
      RawNamesAppend(raws);
      PutAllSnoc(s, StewardWrites(init), Mark(name, SET_MARK));
      assert IsStewardEntry(name);
      PutStewardKeys(PutAll(s, StewardWrites(init)), Mark(name, SET_MARK));
    }
  }

  lemma {:induction false} ApplyEditsIsPutAll(limits: Limits, s: Entries, ws: seq<Write>)
    requires ApplyEdits(limits, s, ws).Some?
    ensures ApplyEdits(limits, s, ws).value == PutAll(s, ws)
  {
    if ws != [] {
      ApplyEditsIsPutAll(limits, s, ws[..|ws| - 1]);
    }
  }

  lemma {:induction false} PadKeysExact(raws: seq<Bytes>)
    requires forall r :: r in raws ==> |r| == 32
    ensures PadKeys(raws) == raws
  {
    if raws != [] {
      assert raws == raws[..|raws| - 1] + [raws[|raws| - 1]];
      PadKeysExact(raws[..|raws| - 1]);
    }
  }

  lemma {:induction false} PadKeysMembers(raws: seq<Bytes>)
    ensures forall k :: k in PadKeys(raws) <==> exists r :: r in raws && Fix32(r) == k
  {
    if raws != [] {
      var init, last := raws[..|raws| - 1], raws[|raws| - 1];
      PadKeysMembers(init);
      assert raws == init + [last];
      forall k
        ensures k in PadKeys(raws) <==> exists r :: r in raws && Fix32(r) == k
      {
        if k == Fix32(last) {
          assert last in raws;
        }
      }
    }
  }

  function NameWrites(t: Transition): seq<Write>
    requires t.payload.CreateGroup?
  {
    [Mark("name", t.payload.name), Mark("display_name", t.payload.displayName)]
  }

  lemma NameWritesAreNotSteward(t: Transition)
    requires t.payload.CreateGroup?
    ensures forall w :: w in NameWrites(t) ==> !IsStewardEntry(w.key)
  {
    forall w | w in NameWrites(t)
      ensures !IsStewardEntry(w.key)
    {
      assert w.key[0] != 's';
    }
  }

  lemma CreateSplits(t: Transition, nextBranch: nat)
    requires t.payload.CreateGroup?
    ensures Edits(t, nextBranch)
         == NameWrites(t) + StewardWrites(t.payload.stewards) + PeerWrites(t.payload.meshPeers)
  {
  }

  /** CREATE_GROUP adds an entry for each declared key. */
  lemma CreateStewardKeys(s: Entries, t: Transition, nextBranch: nat)
    requires t.payload.CreateGroup?
    ensures StewardKeys(PutAll(s, Edits(t, nextBranch))) == StewardKeys(s) + RawNames(t.payload.stewards)
  {
    var head, mid, tail := NameWrites(t), StewardWrites(t.payload.stewards), PeerWrites(t.payload.meshPeers);
    hide PutAll, StewardKeys, RawNames, Edits;
    CreateSplits(t, nextBranch);
    PutAllConcat(s, head + mid, tail);
    PutAllConcat(s, head, mid);
    forall w | w in tail
      ensures !IsStewardEntry(w.key)
    {
      PeerKeysAreNotSteward(t.payload.meshPeers, w);
    }
    NameWritesAreNotSteward(t);
    PutAllOtherKeys(s, head);
    PutAllStewards(PutAll(s, head), t.payload.stewards);
    PutAllOtherKeys(PutAll(s, head + mid), tail);
  }

  /** Raw names and padded names agree exactly when no key needs padding or cutting. */
  lemma RawNamesExact(raws: seq<Bytes>)
    ensures RawNames(raws) == StewardNames(PadKeys(raws)) <==> forall r :: r in raws ==> |r| == 32
  {
    if forall r :: r in raws ==> |r| == 32 {
      PadKeysExact(raws);
    } else {
      var r :| r in raws && |r| != 32;
      assert STEWARD_PREFIX + Hex(r) in RawNames(raws);
      assert |STEWARD_PREFIX + Hex(r)| != 8 + 64;
      assert forall n :: n in StewardNames(PadKeys(raws)) ==> |n| == 8 + 64;
    }
  }

  /** At the founding root the snapshot names exactly the recorded stewards if and only if every
      declared key is 32 bytes: the entry is named after the raw bytes, the set holds padded keys. */
  lemma FoundingCommitsExactly(t: Transition, nextBranch: nat)
    requires t.payload.CreateGroup?
    ensures StewardKeys(PutAll([], Edits(t, nextBranch))) == StewardNames(PadKeys(t.payload.stewards))
       <==> forall r :: r in t.payload.stewards ==> |r| == 32
  {
    NoNames();
    hide PutAll, Edits, StewardKeys, StewardNames, RawNames, PadKeys;
    CreateStewardKeys([], t, nextBranch);
    RawNamesExact(t.payload.stewards);
    assert {} + RawNames(t.payload.stewards) == RawNames(t.payload.stewards);
  }

  lemma NoNames()
    ensures StewardKeys([]) == {}
  {
  }

  lemma {:induction false} WithoutMembers(keys: seq<PublicKey>, k: PublicKey)
    ensures forall q :: q in Without(keys, k) <==> q in keys && q != k
  {
    if keys != [] {
      assert keys == keys[..|keys| - 1] + [keys[|keys| - 1]];
      WithoutMembers(keys[..|keys| - 1], k);
    }
  }

  lemma StewardEntryInjective(a: PublicKey, b: PublicKey)
    requires StewardEntry(a) == StewardEntry(b)
    ensures a == b
  {
    assert StewardEntry(a)[8..] == Hex(a) && StewardEntry(b)[8..] == Hex(b);
    HexInjective(a, b);
  }

  lemma StewardNamesWithout(keys: seq<PublicKey>, k: PublicKey)
    ensures StewardNames(Without(keys, k)) == StewardNames(keys) - {StewardEntry(k)}
  {
    WithoutMembers(keys, k);
    forall q | q in keys && StewardEntry(q) == StewardEntry(k) {
      StewardEntryInjective(q, k);
    }
  }

  lemma StewardNamesAdd(keys: seq<PublicKey>, k: PublicKey)
    ensures StewardNames(if k in keys then keys else keys + [k]) == StewardNames(keys) + {StewardEntry(k)}
  {
    if k !in keys {
      assert forall q :: q in keys + [k] <==> q in keys || q == k;
    }
  }

  lemma PutOne(s: Entries, w: Write)
    ensures PutAll(s, [w]) == Put(s, w)
  {
    assert [w][..0] == [];
  }

  lemma SlashedKeyIsNotSteward(k: PublicKey)
    ensures !IsStewardEntry("slashed/" + Hex(k))
  {
    assert ("slashed/" + Hex(k))[1] == 'l';
  }

  /** The edits and the fold of the authority move the steward entries and the steward set alike. */
  lemma EditsFollowAmend(s: Entries, t: Transition, nextBranch: nat, a: Authority)
    requires !t.payload.CreateGroup? && StewardKeys(s) == StewardNames(a.stewards)
    ensures StewardKeys(PutAll(s, Edits(t, nextBranch))) == StewardNames(Amend(a, t.payload).stewards)
  {
    if t.payload.AddSteward? || t.payload.RemoveSteward? || t.payload.SlashSteward? {
      hide PutAll, Put, StewardNames, StewardKeys, StewardEntry;
      var k := Fix32(t.payload.steward);
      StewardEditFollows(s, k, if t.payload.AddSteward? then Some(SET_MARK) else None, a.stewards);
      if t.payload.SlashSteward? {
        SlashMarkIsNotSteward(s, k);
      }
    } else {
      forall w | w in Edits(t, nextBranch)
        ensures !IsStewardEntry(w.key)
      {
        ThresholdKeyIsNotSteward();
        if !t.payload.ChangeThreshold? {
          OtherKeysAreSeparate(t, nextBranch, w);
        }
      }
      PutAllOtherKeys(s, Edits(t, nextBranch));
    }
  }

  /** Writing a steward entry adds the key, removing it drops the key. */
  lemma StewardEditFollows(s: Entries, k: PublicKey, value: Option<Bytes>, stewards: seq<PublicKey>)
    requires StewardKeys(s) == StewardNames(stewards)
    ensures StewardKeys(PutAll(s, [Write(StewardEntry(k), value)]))
         == StewardNames(if value.None? then Without(stewards, k)
                         else if k in stewards then stewards else stewards + [k])
  {
    hide PutAll, Put, StewardKeys, Without;
    PutOne(s, Write(StewardEntry(k), value));
    PutStewardKeys(s, Write(StewardEntry(k), value));
    StewardNamesAdd(stewards, k);
    StewardNamesWithout(stewards, k);
  }

  /** The mark of a slashed key beside its removal. */
  lemma SlashMarkIsNotSteward(s: Entries, k: PublicKey)
    ensures var w, mark := Write(StewardEntry(k), None), Mark("slashed/" + Hex(k), SET_MARK);
            StewardKeys(PutAll(s, [w, mark])) == StewardKeys(PutAll(s, [w]))
  {
    hide PutAll, Put, StewardKeys, Hex;
    var w, mark := Write(StewardEntry(k), None), Mark("slashed/" + Hex(k), SET_MARK);
    assert [w, mark] == [w] + [mark];
    PutAllSnoc(s, [w], mark);
    SlashedKeyIsNotSteward(k);
    PutStewardKeys(PutAll(s, [w]), mark);
  }

  // ----- Effect of the edits on the threshold entry -----

  lemma {:induction false} PutAllOtherLookup(s: Entries, ws: seq<Write>, q: Bytes)
    requires UniqueKeys(s) && forall w :: w in ws ==> w.key != q
    ensures Lookup(PutAll(s, ws), q) == Lookup(s, q)
  {
    if ws != [] {
      assert ws == ws[..|ws| - 1] + [ws[|ws| - 1]];
      PutAllOtherLookup(s, ws[..|ws| - 1], q);
      PutAllUnique(s, ws[..|ws| - 1]);
      PutIsMapUpdate(PutAll(s, ws[..|ws| - 1]), ws[|ws| - 1], q);
    }
  }

  lemma EditsFollowThreshold(s: Entries, t: Transition, nextBranch: nat, a: Authority, founding: nat)
    requires UniqueKeys(s) && !t.payload.CreateGroup? && ThresholdIn(s, founding) == a.threshold
    ensures ThresholdIn(PutAll(s, Edits(t, nextBranch)), founding) == Amend(a, t.payload).threshold
  {
    var ws := Edits(t, nextBranch);
    if t.payload.ChangeThreshold? {
      assert ws[..0] == [];
      PutIsMapUpdate(s, ws[0], THRESHOLD_KEY);
      Pow256Values();
      BigEndianRoundTrip(t.payload.threshold, 4);
    } else {
      forall w | w in ws
        ensures w.key != THRESHOLD_KEY
      {
        if WritesStewards(t) {
          StewardWritesAreNotThreshold(t, nextBranch, w);
        } else {
          OtherKeysAreSeparate(t, nextBranch, w);
        }
      }
      PutAllOtherLookup(s, ws, THRESHOLD_KEY);
    }
  }

  lemma CreateThreshold(s: Entries, t: Transition, nextBranch: nat, founding: nat)
    requires t.payload.CreateGroup? && UniqueKeys(s)
    ensures ThresholdIn(PutAll(s, Edits(t, nextBranch)), founding) == ThresholdIn(s, founding)
  {
    forall w | w in Edits(t, nextBranch)
      ensures w.key != THRESHOLD_KEY
    {
      StewardWritesAreNotThreshold(t, nextBranch, w);
    }
    PutAllOtherLookup(s, Edits(t, nextBranch), THRESHOLD_KEY);
  }

  // ----- Snapshots that sort alike -----

  lemma {:induction false} LookupFromWithKey(s: Entries, k: Bytes)
    ensures Lookup(s, k) ==
              var w := WithKey(s, k);
              if w == [] then None else Some((w[|w| - 1].value, w[|w| - 1].seqNo))
  {
    if s != [] {
      LookupFromWithKey(s[..|s| - 1], k);
    }
  }

  /** Equal preimages mean equal steward entries and equal thresholds. */
  lemma PreimageFixesAuthority(a: Entries, b: Entries, founding: nat)
    requires Encodable(a) && Encodable(b) && Preimage(a) == Preimage(b)
    ensures StewardKeys(a) == StewardKeys(b) && ThresholdIn(a, founding) == ThresholdIn(b, founding)
  {
    PreimageDecides(a, b);
    SortedSameEntries(a, b);
    SameLookup(a, b, THRESHOLD_KEY);
  }

  lemma SameLookup(a: Entries, b: Entries, k: Bytes)
    requires WithKey(a, k) == WithKey(b, k)
    ensures Lookup(a, k) == Lookup(b, k)
  {
    LookupFromWithKey(a, k);
    LookupFromWithKey(b, k);
  }

  // ----- Runs -----

  /** The snapshots a run visits from its founding on. */
  ghost function Visited(e: Env, subs: seq<Submission>): set<Entries>
  {
    if Applied(e, FRESH, subs) == [] then {}
    else Visited(e, subs[..|subs| - 1]) + {After(e, FRESH, subs).entries}
  }

  /** SHA-256 does not collide on these snapshots, and their fields fit the encoding. */
  ghost predicate CollisionFree(p: Platform, snapshots: set<Entries>)
  {
    && (forall a :: a in snapshots ==> Encodable(a))
    && forall a, b :: a in snapshots && b in snapshots && Root(p, a) == Root(p, b) ==> Preimage(a) == Preimage(b)
  }

  predicate FullKeys(raws: seq<Bytes>)
  {
    forall r :: r in raws ==> |r| == 32
  }

  /** A further CREATE_GROUP whose names agree with what it puts in force: without stewards its own keys,
      else the initial set, to which the names already there must add up. */
  ghost predicate NamesAgree(a: Authority, t: Payload)
    requires t.CreateGroup?
  {
    if a.stewards == [] then FullKeys(t.stewards)
    else StewardNames(a.stewards) + RawNames(t.stewards) == StewardNames(a.initial)
  }

  /** A founded run whose CREATE_GROUPs declare 32-byte keys and names that agree. */
  ghost predicate Committing(e: Env, subs: seq<Submission>)
  {
    var ts := Applied(e, FRESH, subs);
    && GenesisRun(e, subs) && ts != [] && ts[0].payload.CreateGroup? && FullKeys(ts[0].payload.stewards)
    && forall i :: 1 <= i < |ts| && ts[i].payload.CreateGroup? ==> NamesAgree(AuthorityOf(ts[..i]), ts[i].payload)
  }

  /** The CREATE_GROUP that founded a run. */
  function Founding(e: Env, subs: seq<Submission>): Payload
    requires Committing(e, subs)
    ensures Founding(e, subs).CreateGroup?
  {
    Applied(e, FRESH, subs)[0].payload
  }

  /** What is recorded under the root of `s` is what `s` holds. */
  ghost predicate Committed(p: Platform, l: Ledger, s: Entries, founding: nat)
  {
    var r := Root(p, s);
    && r in l.stewardHistory && StewardKeys(s) == StewardNames(l.stewardHistory[r])
    && r in l.thresholdHistory && ThresholdIn(s, founding) == l.thresholdHistory[r]
  }

  lemma {:induction false} RunKeepsUniqueKeys(e: Env, subs: seq<Submission>)
    ensures UniqueKeys(After(e, FRESH, subs).entries)
  {
    if subs != [] {
      var n := |subs| - 1;
      var l, t, call := After(e, FRESH, subs[..n]), subs[n].t, subs[n].call;
      RunKeepsUniqueKeys(e, subs[..n]);
      if Advanced(Step(e, l, t, call)) {
        AdvancedShape(e, l, t, call);
        ApplyEditsIsPutAll(e.limits, l.entries, Edits(t, call.nextBranch));
        PutAllUnique(l.entries, Edits(t, call.nextBranch));
      } else {
        RejectionKeepsCore(e, l, t, call);
      }
    }
  }

  /** Commitment holds for the newest snapshot of an advancing step. */
  lemma HeadCommitted(e: Env, l: Ledger, t: Transition, call: Call, a: Authority, founding: nat)
    requires Governs(e.platform, l, a) && NamesPrior(t) && Advanced(Step(e, l, t, call))
    requires UniqueKeys(l.entries) && Committed(e.platform, l, l.entries, founding)
    ensures var l' := Step(e, l, t, call).ledger;
            Committed(e.platform, l', l'.entries, founding)
            <==> (t.payload.CreateGroup? ==> NamesAgree(a, t.payload))
  {
    GovernsStep(e, l, t, call, a);
    AdvancedShape(e, l, t, call);
    ApplyEditsIsPutAll(e.limits, l.entries, Edits(t, call.nextBranch));
    CommittedWhat(e.platform, l, l.entries, a, founding);
    hide Step, Screen, Authorize, Gate, ApplyEdits, Governs, Committed, Commit, Edits, PutAll, StewardKeys, ThresholdIn;
    hide StewardNames, RawNames, Amend, NamesAgree, Root;
    if t.payload.CreateGroup? {
      CreateFollowsAmend(l.entries, t, call.nextBranch, a);
      CreateThreshold(l.entries, t, call.nextBranch, founding);
      AmendKeepsThreshold(a, t.payload);
    } else {
      EditsFollowAmend(l.entries, t, call.nextBranch, a);
      EditsFollowThreshold(l.entries, t, call.nextBranch, a, founding);
    }
    var l' := Step(e, l, t, call).ledger;
    CommittedWhat(e.platform, l', l'.entries, Amend(a, t.payload), founding);
  }

  lemma AmendKeepsThreshold(a: Authority, t: Payload)
    requires t.CreateGroup?
    ensures Amend(a, t).threshold == a.threshold
  {
  }

  /** Commitment of the head, in terms of the authority in force. */
  lemma CommittedWhat(p: Platform, l: Ledger, s: Entries, a: Authority, founding: nat)
    requires Governs(p, l, a) && s == l.entries
    ensures Committed(p, l, s, founding) <==>
            StewardKeys(s) == StewardNames(a.stewards) && ThresholdIn(s, founding) == a.threshold
  {
    hide StewardKeys, StewardNames, ThresholdIn, Root;
  }

  /** A further CREATE_GROUP makes the entries those of the set it puts in force exactly when its names
      agree. */
  lemma CreateFollowsAmend(s: Entries, t: Transition, nextBranch: nat, a: Authority)
    requires t.payload.CreateGroup? && StewardKeys(s) == StewardNames(a.stewards)
    ensures StewardKeys(PutAll(s, Edits(t, nextBranch))) == StewardNames(Amend(a, t.payload).stewards)
       <==> NamesAgree(a, t.payload)
  {
    CreateStewardKeys(s, t, nextBranch);
    hide PutAll, Edits, StewardKeys, RawNames, PadKeys;
    if a.stewards == [] {
      RawNamesExact(t.payload.stewards);
      assert StewardNames(a.stewards) == {};
      assert {} + RawNames(t.payload.stewards) == RawNames(t.payload.stewards);
    }
    hide StewardNames;
  }

  /** A step only writes the histories under the root it reaches. */
  lemma OlderRootsKept(e: Env, l: Ledger, t: Transition, call: Call, s: Entries, founding: nat)
    requires Advanced(Step(e, l, t, call)) && Committed(e.platform, l, s, founding)
    requires Root(e.platform, s) != Root(e.platform, Step(e, l, t, call).ledger.entries)
    ensures Committed(e.platform, Step(e, l, t, call).ledger, s, founding)
  {
    AdvancedShape(e, l, t, call);
  }

  /** The founding commits the root it reaches to its stewards if and only if every declared key is
      32 bytes. */
  lemma FoundingIsCommitted(e: Env, l: Ledger, t: Transition, call: Call)
    requires Bare(l) && Advanced(Step(e, l, t, call)) && (NamesPrior(t) || l.initialStewards == [])
    ensures t.payload.CreateGroup?
    ensures var l' := Step(e, l, t, call).ledger;
            Committed(e.platform, l', l'.entries, t.payload.threshold) <==> FullKeys(t.payload.stewards)
  {
    FoundingGoverns(e, l, t, call);
    AdvancedShape(e, l, t, call);
    assert l.entries == [];
    ApplyEditsIsPutAll(e.limits, [], Edits(t, call.nextBranch));
    FoundingCommitsExactly(t, call.nextBranch);
    CreateThreshold([], t, call.nextBranch, t.payload.threshold);
    assert ThresholdIn([], t.payload.threshold) == t.payload.threshold;
    hide Step, Screen, Authorize, Gate, ApplyEdits, Governs, Committed, Edits, PutAll, StewardKeys, ThresholdIn;
    hide StewardNames;
    var l' := Step(e, l, t, call).ledger;
    CommittedWhat(e.platform, l', l'.entries, Found(t.payload), t.payload.threshold);
  }

  /** A root commits to its stewards. In a committing run, at every moment and for every snapshot
      visited so far, the steward history under its root is, as a set, its `steward/` entries, and
      the threshold history its threshold, even when a root is visited again. */
  lemma {:induction false} RootsCommit(e: Env, subs: seq<Submission>, s: Entries)
    requires Committing(e, subs) && CollisionFree(e.platform, Visited(e, subs)) && s in Visited(e, subs)
    ensures Committed(e.platform, After(e, FRESH, subs), s, Founding(e, subs).threshold)
  {
    var n := |subs| - 1;
    var init, t, call := subs[..n], subs[n].t, subs[n].call;
    var ts, l := Applied(e, FRESH, init), After(e, FRESH, init);
    LastOfFounded(e, subs);
    RunGoverned(e, init);
    var founding := Founding(e, subs).threshold;
    hide Step, Governs, Committed, Unfounded, AuthorityOf, GenesisRun;
    if ts == [] {
      FoundingIsCommitted(e, l, t, call);
    } else {
      RunKeepsUniqueKeys(e, init);
      CollisionFreeWithin(e.platform, Visited(e, init), Visited(e, subs));
      RootsCommit(e, init, l.entries);
      if s in Visited(e, init) {
        RootsCommit(e, init, s);
      }
      CollisionFreeWithin(e.platform, {s, After(e, FRESH, subs).entries}, Visited(e, subs));
      CommitStep(e, l, t, call, AuthorityOf(ts), s, founding);
    }
  }

  /** A founded run without its last submission: founded alike, or that submission founded it. */
  lemma LastOfFounded(e: Env, subs: seq<Submission>)
    requires Committing(e, subs)
    ensures subs != []
    ensures var n := |subs| - 1;
            var init, t, call := subs[..n], subs[n].t, subs[n].call;
            var ts, l := Applied(e, FRESH, init), After(e, FRESH, init);
            && GenesisRun(e, init) && After(e, FRESH, subs) == Step(e, l, t, call).ledger
            && Visited(e, subs) == Visited(e, init) + {After(e, FRESH, subs).entries}
            && (if ts == [] then
                  && Advanced(Step(e, l, t, call)) && (NamesPrior(t) || l.initialStewards == [])
                  && Founding(e, subs) == t.payload && Visited(e, init) == {} && FullKeys(t.payload.stewards)
                else
                  && Committing(e, init) && Founding(e, init) == Founding(e, subs)
                  && (Advanced(Step(e, l, t, call)) ==>
                        NamesPrior(t) && (t.payload.CreateGroup? ==> NamesAgree(AuthorityOf(ts), t.payload)))
                  && l.entries in Visited(e, init))
  {
    hide Step, AuthorityOf, NamesAgree;
    var n := |subs| - 1;
    var init, t := subs[..n], subs[n].t;
    RunPrefix(e, subs, n);
    assert Advances(e, subs, n) ==> NamesPrior(t) || Unclaimed(e, init);
    var ts, all := Applied(e, FRESH, init), Applied(e, FRESH, subs);
    if ts != [] {
      assert all[0] == ts[0];
      assert forall i :: 1 <= i < |ts| ==> all[i] == ts[i] && all[..i] == ts[..i];
      assert Advances(e, subs, n) ==> all[|ts|] == t && all[..|ts|] == ts;
    }
  }

  lemma CollisionFreeWithin(p: Platform, some: set<Entries>, all: set<Entries>)
    requires CollisionFree(p, all) && some <= all
    ensures CollisionFree(p, some)
  {
  }

  /** One step of `RootsCommit`, for a snapshot seen before or just reached. */
  lemma CommitStep(e: Env, l: Ledger, t: Transition, call: Call, a: Authority, s: Entries, founding: nat)
    requires Advanced(Step(e, l, t, call)) ==>
               NamesPrior(t) && (t.payload.CreateGroup? ==> NamesAgree(a, t.payload))
    requires Governs(e.platform, l, a) && UniqueKeys(l.entries) && Committed(e.platform, l, l.entries, founding)
    requires var s' := Step(e, l, t, call).ledger.entries;
             CollisionFree(e.platform, {s, s'}) && (s == s' || Committed(e.platform, l, s, founding))
    ensures Committed(e.platform, Step(e, l, t, call).ledger, s, founding)
  {
    var l' := Step(e, l, t, call).ledger;
    if Advanced(Step(e, l, t, call)) {
      HeadCommitted(e, l, t, call, a, founding);
      if Root(e.platform, s) == Root(e.platform, l'.entries) {
        PreimageFixesAuthority(s, l'.entries, founding);
      } else {
        OlderRootsKept(e, l, t, call, s, founding);
      }
    } else {
      RejectionKeepsCore(e, l, t, call);
    }
  }

  /** Two hosts that reach one root, by whatever runs and limits, recorded the same steward set
      under it, and the same threshold if they were founded with the same one. */
  lemma HostsAgree(e1: Env, subs1: seq<Submission>, s1: Entries, e2: Env, subs2: seq<Submission>, s2: Entries)
    requires e1.platform == e2.platform
    requires Committing(e1, subs1) && Committing(e2, subs2)
    requires CollisionFree(e1.platform, Visited(e1, subs1) + Visited(e2, subs2))
    requires s1 in Visited(e1, subs1) && s2 in Visited(e2, subs2)
    requires Root(e1.platform, s1) == Root(e2.platform, s2)
    ensures var r, l1, l2 := Root(e1.platform, s1), After(e1, FRESH, subs1), After(e2, FRESH, subs2);
            && r in l1.stewardHistory && r in l2.stewardHistory
            && (forall k :: k in l1.stewardHistory[r] <==> k in l2.stewardHistory[r])
            && (Founding(e1, subs1) == Founding(e2, subs2) ==>
                  r in l1.thresholdHistory && r in l2.thresholdHistory
                  && l1.thresholdHistory[r] == l2.thresholdHistory[r])
  {
    CollisionFreeWithin(e1.platform, Visited(e1, subs1), Visited(e1, subs1) + Visited(e2, subs2));
    CollisionFreeWithin(e1.platform, Visited(e2, subs2), Visited(e1, subs1) + Visited(e2, subs2));
    RootsCommit(e1, subs1, s1);
    RootsCommit(e2, subs2, s2);
    var r, l1, l2 := Root(e1.platform, s1), After(e1, FRESH, subs1), After(e2, FRESH, subs2);
    PreimageFixesAuthority(s1, s2, Founding(e1, subs1).threshold);
    SameNamesSameKeys(l1.stewardHistory[r], l2.stewardHistory[r]);
    SameNamesSameKeys(l2.stewardHistory[r], l1.stewardHistory[r]);
  }

  lemma SameNamesSameKeys(a: seq<PublicKey>, b: seq<PublicKey>)
    requires StewardNames(a) == StewardNames(b)
    ensures forall k :: k in a ==> k in b
  {
    forall k | k in a
      ensures k in b
    {
      assert StewardEntry(k) in StewardNames(b);
      var q :| q in b && StewardEntry(q) == StewardEntry(k);
      StewardEntryInjective(q, k);
    }
  }
}
