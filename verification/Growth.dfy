/** Snapshots of a run without removals never recur, and stay within the entry cap. */
module Growth {
  import opened Basics
  import opened ByteStrings
  import opened Snapshot
  import opened KeyValue
  import opened Multisig
  import opened Transitions
  import opened Ledger
  import opened Authority
  import opened Commitment

  /** The transition writes values only: no REMOVE_STEWARD, SLASH_STEWARD or REVOKE_HOST_CERT,
      no FORK without a key, no initial mesh peer without an address. Removed members, RSVPs and
      mesh peers leave tombstone values and pass. */
  predicate OnlyWrites(t: Transition)
  {
    match t.payload
    case RemoveSteward(_) => false
    case SlashSteward(_) => false
    case RevokeHostCert(_, _, _, _) => false
    case Fork(k) => k.Some?
    case CreateGroup(_, _, _, _, peers) => forall i :: 0 <= i < |peers| ==> peers[i].ip.Some?
    case _ => true
  }

  lemma {:induction false} StewardWritesKeep(raws: seq<Bytes>, w: Write)
    requires w in StewardWrites(raws)
    ensures w.value.Some?
  {
    if w in StewardWrites(raws[..|raws| - 1]) {
      StewardWritesKeep(raws[..|raws| - 1], w);
    }
  }

  lemma {:induction false} PeerWritesKeep(peers: seq<InitialPeer>, w: Write)
    requires w in PeerWrites(peers) && forall i :: 0 <= i < |peers| ==> peers[i].ip.Some?
    ensures w.value.Some?
  {
    if w in PeerWrites(peers[..|peers| - 1]) {
      PeerWritesKeep(peers[..|peers| - 1], w);
    }
  }

  lemma OnlyWritesKeep(t: Transition, nextBranch: nat, w: Write)
    requires OnlyWrites(t) && w in Edits(t, nextBranch)
    ensures w.value.Some?
  {
    if t.payload.CreateGroup? {
      if w in StewardWrites(t.payload.stewards) {
        StewardWritesKeep(t.payload.stewards, w);
      } else if w in PeerWrites(t.payload.meshPeers) {
        PeerWritesKeep(t.payload.meshPeers, w);
      }
    }
  }

  /** Every transition that can advance the state edits at least one key. */
  lemma AdvancingEdits(e: Env, l: Ledger, t: Transition, call: Call)
    requires Gate(e, l, t, call).None?
    ensures |Edits(t, call.nextBranch)| >= 1
  {
  }

  function WriteCount(ts: seq<Transition>): nat
  {
    if ts == [] then 0 else WriteCount(ts[..|ts| - 1]) + |Edits(ts[|ts| - 1], 0)|
  }

  lemma EditCountIgnoresBranch(t: Transition, m: nat, n: nat)
    ensures |Edits(t, m)| == |Edits(t, n)|
  {
  }

  predicate AllOnlyWrite(ts: seq<Transition>)
  {
    forall i :: 0 <= i < |ts| ==> OnlyWrites(ts[i])
  }

  lemma StepAddsWrites(e: Env, l: Ledger, t: Transition, call: Call)
    requires UniqueKeys(l.entries) && Advanced(Step(e, l, t, call)) && OnlyWrites(t)
    requires SumSeq(l.entries) + |Edits(t, 0)| < TWO_64
    ensures SumSeq(Step(e, l, t, call).ledger.entries) == SumSeq(l.entries) + |Edits(t, 0)|
  {
    AdvancedShape(e, l, t, call);
    var ws := Edits(t, call.nextBranch);
    ApplyEditsIsPutAll(e.limits, l.entries, ws);
    EditCountIgnoresBranch(t, call.nextBranch, 0);
    forall w | w in ws
      ensures w.value.Some?
    {
      OnlyWritesKeep(t, call.nextBranch, w);
    }
    PutAllGrowsSum(l.entries, ws);
  }

  lemma OnlyWritesPrefix(e: Env, subs: seq<Submission>)
    requires subs != [] && AllOnlyWrite(Applied(e, FRESH, subs))
    ensures var n := |subs| - 1;
            var ts := Applied(e, FRESH, subs[..n]);
            && AllOnlyWrite(ts)
            && (if Advanced(Step(e, After(e, FRESH, subs[..n]), subs[n].t, subs[n].call))
                then OnlyWrites(subs[n].t)
                     && WriteCount(Applied(e, FRESH, subs)) == WriteCount(ts) + |Edits(subs[n].t, 0)|
                else Applied(e, FRESH, subs) == ts)
  {
    var n := |subs| - 1;
    var ts, all := Applied(e, FRESH, subs[..n]), Applied(e, FRESH, subs);
    assert forall i :: 0 <= i < |ts| ==> all[i] == ts[i];
    if Advanced(Step(e, After(e, FRESH, subs[..n]), subs[n].t, subs[n].call)) {
      assert all[|ts|] == subs[n].t && all[..|ts|] == ts;
    }
  }

  /** Conservation: in a run without removals the sequence numbers add up to the number of writes
      ever made (while that fits a uint64). */
  lemma {:induction false} SequenceNumbersCountWrites(e: Env, subs: seq<Submission>)
    requires AllOnlyWrite(Applied(e, FRESH, subs)) && WriteCount(Applied(e, FRESH, subs)) < TWO_64
    ensures SumSeq(After(e, FRESH, subs).entries) == WriteCount(Applied(e, FRESH, subs))
  {
    if subs != [] {
      var n := |subs| - 1;
      var l, t, call := After(e, FRESH, subs[..n]), subs[n].t, subs[n].call;
      OnlyWritesPrefix(e, subs);
      SequenceNumbersCountWrites(e, subs[..n]);
      if Advanced(Step(e, l, t, call)) {
        RunKeepsUniqueKeys(e, subs[..n]);
        StepAddsWrites(e, l, t, call);
      } else {
        RejectionKeepsCore(e, l, t, call);
      }
    }
  }

  lemma {:induction false} WriteCountGrows(e: Env, subs: seq<Submission>, i: nat)
    requires i <= |subs|
    ensures WriteCount(Applied(e, FRESH, subs[..i])) <= WriteCount(Applied(e, FRESH, subs))
    ensures |Applied(e, FRESH, subs[..i])| <= |Applied(e, FRESH, subs)|
    ensures |Applied(e, FRESH, subs[..i])| < |Applied(e, FRESH, subs)| ==>
              WriteCount(Applied(e, FRESH, subs[..i])) < WriteCount(Applied(e, FRESH, subs))
  {
    if i == |subs| {
      assert subs[..i] == subs;
    } else {
      var n := |subs| - 1;
      assert subs[..n][..i] == subs[..i];
      WriteCountGrows(e, subs[..n], i);
      WriteCountStep(e, subs);
    }
  }

  lemma WriteCountStep(e: Env, subs: seq<Submission>)
    requires subs != []
    ensures var n := |subs| - 1;
            var ts, all := Applied(e, FRESH, subs[..n]), Applied(e, FRESH, subs);
            || all == ts
            || (|all| == |ts| + 1 && WriteCount(all) > WriteCount(ts))
  {
    var n := |subs| - 1;
    var l, t, call := After(e, FRESH, subs[..n]), subs[n].t, subs[n].call;
    var ts := Applied(e, FRESH, subs[..n]);
    if Advanced(Step(e, l, t, call)) {
      AdvancedShape(e, l, t, call);
      AdvancingEdits(e, Authorize(e.platform, Screen(e, l, t, call).ledger, t).ledger, t, call);
      EditCountIgnoresBranch(t, call.nextBranch, 0);
      assert (ts + [t])[..|ts|] == ts;
    }
  }

  lemma {:induction false} OnlyWritesUpTo(e: Env, subs: seq<Submission>, i: nat)
    requires i <= |subs| && AllOnlyWrite(Applied(e, FRESH, subs))
    ensures AllOnlyWrite(Applied(e, FRESH, subs[..i]))
  {
    if i == |subs| {
      assert subs[..i] == subs;
    } else {
      OnlyWritesPrefix(e, subs);
      assert subs[..|subs| - 1][..i] == subs[..i];
      OnlyWritesUpTo(e, subs[..|subs| - 1], i);
    }
  }

  /** No snapshot recurs: in a run without removals, once another transition has been applied the
      hash preimage differs from every earlier one. */
  lemma SnapshotsNeverRecur(e: Env, subs: seq<Submission>, i: nat)
    requires AllOnlyWrite(Applied(e, FRESH, subs)) && WriteCount(Applied(e, FRESH, subs)) < TWO_64
    requires i <= |subs| && |Applied(e, FRESH, subs[..i])| < |Applied(e, FRESH, subs)|
    requires Encodable(After(e, FRESH, subs[..i]).entries) && Encodable(After(e, FRESH, subs).entries)
    ensures Preimage(After(e, FRESH, subs[..i]).entries) != Preimage(After(e, FRESH, subs).entries)
  {
    var a, b := After(e, FRESH, subs[..i]).entries, After(e, FRESH, subs).entries;
    WriteCountGrows(e, subs, i);
    OnlyWritesUpTo(e, subs, i);
    SequenceNumbersCountWrites(e, subs[..i]);
    SequenceNumbersCountWrites(e, subs);
    SumSeqSorted(a);
    SumSeqSorted(b);
    PreimageDecides(a, b);
  }

  /** A removal can bring an old snapshot back: adding a steward and removing it again restores
      the entries, hence the root. */
  lemma RemovalRestoresSnapshot(s: Entries, k: Bytes, v: Bytes)
    requires !HasKey(s, k)
    ensures PutAll(s, [Write(k, Some(v)), Write(k, None)]) == s
  {
    hide *;
    OthersOfNew(s, k);
    PutOfNew(s, k, v);
    var added := Put(s, Write(k, Some(v)));
    PutTwo(s, Write(k, Some(v)), Write(k, None));
    RemoveLast(s, added[|s|]);
  }

  lemma {:induction false} OthersOfNew(s: Entries, k: Bytes)
    requires !HasKey(s, k)
    ensures Others(s, k) == s
  {
    if s != [] {
      OthersOfNew(s[..|s| - 1], k);
      assert s == s[..|s| - 1] + [s[|s| - 1]];
    }
  }

  lemma PutOfNew(s: Entries, k: Bytes, v: Bytes)
    requires Others(s, k) == s
    ensures var added := Put(s, Write(k, Some(v)));
            |added| == |s| + 1 && added == s + [added[|s|]] && added[|s|].key == k
  {
    hide Others, MaxSeq;
  }

  lemma RemoveLast(s: Entries, x: StateEntry)
    requires Others(s, x.key) == s
    ensures Put(s + [x], Write(x.key, None)) == s
  {
    assert (s + [x])[..|s|] == s;
    assert Others(s + [x], x.key) == s + [];
  }

  lemma PutTwo(s: Entries, w: Write, x: Write)
    ensures PutAll(s, [w, x]) == Put(Put(s, w), x)
  {
    assert [w, x][..1] == [w] && [w][..0] == [];
    hide Put;
    assert PutAll(s, []) == s;
    assert PutAll(s, [w]) == Put(s, w);
  }

  lemma {:induction false} EditsKeepCount(limits: Limits, s: Entries, ws: seq<Write>)
    requires limits.maxKvSize > 0 && |s| <= limits.maxKvSize && ApplyEdits(limits, s, ws).Some?
    ensures |ApplyEdits(limits, s, ws).value| <= limits.maxKvSize
  {
    if ws != [] {
      EditsKeepCount(limits, s, ws[..|ws| - 1]);
      AllowedKeepsCount(ApplyEdits(limits, s, ws[..|ws| - 1]).value, ws[|ws| - 1], limits.maxKvSize, limits.maxKvBytes);
    }
  }

  /** The entry count never exceeds MaxKVSize, in any run. */
  lemma {:induction false} EntryCountBounded(e: Env, subs: seq<Submission>)
    requires e.limits.maxKvSize > 0
    ensures |After(e, FRESH, subs).entries| <= e.limits.maxKvSize
  {
    if subs != [] {
      var n := |subs| - 1;
      var l, t, call := After(e, FRESH, subs[..n]), subs[n].t, subs[n].call;
      EntryCountBounded(e, subs[..n]);
      if Advanced(Step(e, l, t, call)) {
        AdvancedShape(e, l, t, call);
        EditsKeepCount(e.limits, l.entries, Edits(t, call.nextBranch));
      } else {
        RejectionKeepsCore(e, l, t, call);
      }
    }
  }

  /** None of the edits is an update that does not fit. */
  predicate EditsFit(limits: Limits, s: Entries, ws: seq<Write>)
  {
    if ws == [] then true
    else
      var n := |ws| - 1;
      && EditsFit(limits, s, ws[..n])
      && (ApplyEdits(limits, s, ws[..n]).Some? ==>
            UpdateFits(ApplyEdits(limits, s, ws[..n]).value, ws[n], limits.maxKvBytes))
  }

  lemma {:induction false} EditsKeepBytes(limits: Limits, s: Entries, ws: seq<Write>)
    requires limits.maxKvBytes > 0 && ByteSize(s) <= limits.maxKvBytes
    requires EditsFit(limits, s, ws) && ApplyEdits(limits, s, ws).Some?
    ensures ByteSize(ApplyEdits(limits, s, ws).value) <= limits.maxKvBytes
  {
    if ws != [] {
      var n := |ws| - 1;
      EditsKeepBytes(limits, s, ws[..n]);
      ByteCapExactly(ApplyEdits(limits, s, ws[..n]).value, ws[n], limits.maxKvSize, limits.maxKvBytes);
    }
  }

  /** The keys and values stay within MaxKVBytes in every run in which no update outgrows it. */
  lemma {:induction false} ByteCapOverRuns(e: Env, subs: seq<Submission>)
    requires e.limits.maxKvBytes > 0
    requires forall i :: 0 <= i < |subs| && Advances(e, subs, i) ==>
               EditsFit(e.limits, After(e, FRESH, subs[..i]).entries, Edits(subs[i].t, subs[i].call.nextBranch))
    ensures ByteSize(After(e, FRESH, subs).entries) <= e.limits.maxKvBytes
  {
    if subs != [] {
      hide Step, Edits, EditsFit, ByteSize;
      var n := |subs| - 1;
      var l, t, call := After(e, FRESH, subs[..n]), subs[n].t, subs[n].call;
      forall i | 0 <= i < n && Advances(e, subs[..n], i)
        ensures EditsFit(e.limits, After(e, FRESH, subs[..n][..i]).entries,
                         Edits(subs[..n][i].t, subs[..n][i].call.nextBranch))
      {
        assert subs[..n][..i] == subs[..i] && Advances(e, subs, i);
      }
      ByteCapOverRuns(e, subs[..n]);
      if Advanced(Step(e, l, t, call)) {
        assert Advances(e, subs, n);
        AdvancedShape(e, l, t, call);
        EditsKeepBytes(e.limits, l.entries, Edits(t, call.nextBranch));
      } else {
        RejectionKeepsCore(e, l, t, call);
      }
    } else {
      NoBytes();
    }
  }

  lemma NoBytes()
    ensures ByteSize([]) == 0
  {
  }

  // ----- The capped log -----

  /** The last `max` of a list, or all of it without a cap. */
  function Newest(ts: seq<Transition>, max: int): seq<Transition>
  {
    if max > 0 && |ts| > max then ts[|ts| - max..] else ts
  }

  /** The log is always the newest transitions applied, as many as its cap allows. */
  lemma {:induction false} LogIsNewest(e: Env, subs: seq<Submission>)
    ensures After(e, FRESH, subs).log == Newest(Applied(e, FRESH, subs), e.limits.maxLogSize)
  {
    if subs != [] {
      hide Step, Newest;
      var n := |subs| - 1;
      var l, ts, t, call := After(e, FRESH, subs[..n]), Applied(e, FRESH, subs[..n]), subs[n].t, subs[n].call;
      LogIsNewest(e, subs[..n]);
      if Advanced(Step(e, l, t, call)) {
        LogNext(e, l, t, call);
        NewestNext(ts, t, e.limits.maxLogSize);
      } else {
        RejectionKeepsCore(e, l, t, call);
        assert ts + [] == ts;
      }
    } else {
      NewestOfNone(e.limits.maxLogSize);
    }
  }

  lemma LogNext(e: Env, l: Ledger, t: Transition, call: Call)
    requires Advanced(Step(e, l, t, call))
    ensures Step(e, l, t, call).ledger.log == Newest(l.log + [t], e.limits.maxLogSize)
  {
    AdvancedShape(e, l, t, call);
    hide Step, Screen, Authorize, Gate, Edits, ApplyEdits, Root, NextStewards, NextThreshold;
  }

  lemma NewestNext(ts: seq<Transition>, t: Transition, max: int)
    ensures Newest(Newest(ts, max) + [t], max) == Newest(ts + [t], max)
  {
    if max > 0 && |ts| > max {
      assert (ts + [t])[|ts| + 1 - max..] == ts[|ts| + 1 - max..] + [t];
    }
  }

  lemma NewestOfNone(max: int)
    ensures Newest([], max) == []
  {
  }
}
