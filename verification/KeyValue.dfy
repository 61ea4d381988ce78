/** Key/value edits on a snapshot (appendOrUpdate, internal/group/group.go:1293-1382). */
module KeyValue {
  import opened Basics
  import opened ByteStrings
  import opened Snapshot

  const MAX_VALUE_SIZE := 1024 * 1024

  /** One call of appendOrUpdate; a `None` value is Go's nil and removes the key. */
  datatype Write = Write(key: Bytes, value: Option<Bytes>)

  // ----- What one edit does -----

  function Others(s: Entries, k: Bytes): Entries
  {
    if s == [] then []
    else Others(s[..|s| - 1], k) + (if s[|s| - 1].key != k then [s[|s| - 1]] else [])
  }

  function MaxSeq(s: Entries, k: Bytes): nat
  {
    if s == [] then 0
    else
      var m := MaxSeq(s[..|s| - 1], k);
      if s[|s| - 1].key == k && s[|s| - 1].seqNo > m then s[|s| - 1].seqNo else m
  }

  /** The sequence number is a uint64 and wraps. */
  function Put(s: Entries, w: Write): Entries
  {
    Others(s, w.key) +
    match w.value
    case None => []
    case Some(v) => [StateEntry(w.key, v, (MaxSeq(s, w.key) + 1) % TWO_64)]
  }

  predicate HasKey(s: Entries, k: Bytes)
  {
    exists i :: 0 <= i < |s| && s[i].key == k
  }

  function ByteSize(s: Entries): nat
  {
    if s == [] then 0 else ByteSize(s[..|s| - 1]) + |s[|s| - 1].key| + |s[|s| - 1].value|
  }

  /** The size caps: one value, all bytes, all entries. Removals always pass, and the
      last two caps only stop new keys. */
  predicate Allowed(s: Entries, w: Write, maxEntries: int, maxBytes: int)
  {
    w.value.None? ||
    (&& |w.value.value| <= MAX_VALUE_SIZE
     && (maxBytes > 0 && !HasKey(s, w.key) ==> ByteSize(s) + |w.key| + |w.value.value| <= maxBytes)
     && (maxEntries > 0 && |s| >= maxEntries ==> HasKey(s, w.key)))
  }

  // ----- The code -----

  /** The in-place filter `out := entries[:0]` of appendOrUpdateUnchecked. */
  method DropKeyInPlace(a: array<StateEntry>, k: Bytes) returns (n: nat)
    modifies a
    ensures n <= a.Length && a[..n] == Others(old(a[..]), k)
  {
    ghost var was := a[..];
    n := 0;
    var i := 0;
    while i < a.Length
      invariant 0 <= n <= i <= a.Length
      invariant a[..n] == Others(was[..i], k)
      invariant forall j :: i <= j < a.Length ==> a[j] == was[j]
    {
      assert was[..i + 1][..i] == was[..i];
      if a[i].key != k {
        ghost var kept := a[..n];
        a[n] := a[i];
        assert a[..n + 1] == kept + [was[i]];
        n := n + 1;
      }
      i := i + 1;
    }
    assert was[..i] == was;
  }

  /** appendOrUpdateUnchecked. */
  method AppendOrUpdateUnchecked(entries: Entries, key: Bytes, value: Option<Bytes>) returns (out: Entries)
    ensures out == Put(entries, Write(key, value))
  {
    var maxSeq := 0;
    var i := 0;
    while i < |entries|
      invariant 0 <= i <= |entries|
      invariant maxSeq == MaxSeq(entries[..i], key)
    {
      assert entries[..i + 1][..i] == entries[..i];
      if entries[i].key == key && entries[i].seqNo > maxSeq {
        maxSeq := entries[i].seqNo;
      }
      i := i + 1;
    }
    assert entries[..i] == entries;
    var a := new StateEntry[|entries|](j requires 0 <= j < |entries| => entries[j]);
    assert a[..] == entries;
    var n := DropKeyInPlace(a, key);
    out := a[..n];
    if value.Some? {
      out := out + [StateEntry(key, value.value, (maxSeq + 1) % TWO_64)];
    }
  }

  /** appendOrUpdate: `allowed` is false, and the entries unchanged, when a cap stops the write. */
  method AppendOrUpdate(entries: Entries, key: Bytes, value: Option<Bytes>, maxEntries: int, maxBytes: int)
    returns (out: Entries, allowed: bool)
    ensures allowed <==> Allowed(entries, Write(key, value), maxEntries, maxBytes)
    ensures out == if allowed then Put(entries, Write(key, value)) else entries
  {
    if value.Some? && |value.value| > MAX_VALUE_SIZE {
      return entries, false;
    }
    if maxBytes > 0 && value.Some? {
      var currentBytes := 0;
      var i := 0;
      while i < |entries|
        invariant 0 <= i <= |entries|
        invariant currentBytes == ByteSize(entries[..i])
      {
        assert entries[..i + 1][..i] == entries[..i];
        currentBytes := currentBytes + |entries[i].key| + |entries[i].value|;
        i := i + 1;
      }
      assert entries[..i] == entries;
      var oldBytes, found, j := 0, false, 0;
      while j < |entries| && !found
        invariant 0 <= j <= |entries|
        invariant found ==> HasKey(entries, key)
        invariant !found ==> oldBytes == 0 && forall k :: 0 <= k < j ==> entries[k].key != key
      {
        if entries[j].key == key {
          oldBytes := |entries[j].key| + |entries[j].value|;
          found := true;
        }
        j := j + 1;
      }
      var newBytes := |key| + |value.value|;
      var projected := currentBytes - oldBytes + newBytes;
      if !found && projected > maxBytes {
        return entries, false;
      }
    }
    if maxEntries > 0 && value.Some? && |entries| >= maxEntries {
      var found, j := false, 0;
      while j < |entries| && !found
        invariant 0 <= j <= |entries|
        invariant found ==> HasKey(entries, key)
        invariant !found ==> forall k :: 0 <= k < j ==> entries[k].key != key
      {
        found := entries[j].key == key;
        j := j + 1;
      }
      if !found {
        return entries, false;
      }
    }
    out := AppendOrUpdateUnchecked(entries, key, value);
    allowed := true;
  }

  // ----- What the edits mean: a map whose values carry a write count -----

  lemma {:induction false} OthersMembers(s: Entries, k: Bytes)
    ensures forall e :: e in Others(s, k) <==> e in s && e.key != k
    ensures |Others(s, k)| <= |s|
    ensures HasKey(s, k) ==> |Others(s, k)| < |s|
    ensures !HasKey(s, k) ==> Others(s, k) == s
  {
    if s != [] {
      var init := s[..|s| - 1];
      OthersMembers(init, k);
      assert s == init + [s[|s| - 1]];
      if HasKey(s, k) && s[|s| - 1].key != k {
        var i :| 0 <= i < |s| && s[i].key == k;
        assert init[i].key == k;
      }
      assert HasKey(init, k) ==> HasKey(s, k) by {
        assert forall i :: 0 <= i < |init| ==> init[i] == s[i];
      }
    }
  }

  lemma {:induction false} OthersUnique(s: Entries, k: Bytes)
    requires UniqueKeys(s)
    ensures UniqueKeys(Others(s, k))
  {
    if s != [] {
      var init, last := s[..|s| - 1], s[|s| - 1];
      OthersUnique(init, k);
      OthersMembers(init, k);
      forall i | 0 <= i < |Others(init, k)|
        ensures Others(init, k)[i].key != last.key
      {
        assert Others(init, k)[i] in init;
      }
    }
  }

  lemma {:induction false} MaxSeqUnique(s: Entries, e: StateEntry)
    requires UniqueKeys(s) && e in s
    ensures MaxSeq(s, e.key) == e.seqNo
  {
    var init, last := s[..|s| - 1], s[|s| - 1];
    if e == last {
      MaxSeqAbsent(init, e.key);
    } else {
      assert s == init + [last];
      MaxSeqUnique(init, e);
      var i :| 0 <= i < |init| && init[i] == e;
      assert s[i].key != last.key;
    }
  }

  lemma {:induction false} MaxSeqAbsent(s: Entries, k: Bytes)
    requires forall i :: 0 <= i < |s| ==> s[i].key != k
    ensures MaxSeq(s, k) == 0
  {
    if s != [] {
      MaxSeqAbsent(s[..|s| - 1], k);
    }
  }

  /** What a key holds: its value and sequence number. */
  function Lookup(s: Entries, k: Bytes): Option<(Bytes, nat)>
  {
    if s == [] then None
    else if s[|s| - 1].key == k then Some((s[|s| - 1].value, s[|s| - 1].seqNo))
    else Lookup(s[..|s| - 1], k)
  }

  lemma {:induction false} LookupFinds(s: Entries, k: Bytes)
    ensures Lookup(s, k).Some? <==> HasKey(s, k)
    ensures Lookup(s, k).Some? ==>
              StateEntry(k, Lookup(s, k).value.0, Lookup(s, k).value.1) in s
  {
    if s != [] {
      var init := s[..|s| - 1];
      LookupFinds(init, k);
      assert s == init + [s[|s| - 1]];
      if HasKey(s, k) && s[|s| - 1].key != k {
        var i :| 0 <= i < |s| && s[i].key == k;
        assert init[i].key == k;
      }
    }
  }

  lemma LookupSnoc(s: Entries, e: StateEntry, q: Bytes)
    ensures Lookup(s + [e], q) == if e.key == q then Some((e.value, e.seqNo)) else Lookup(s, q)
  {
    assert (s + [e])[..|s|] == s;
  }

  lemma {:induction false} OthersLookup(s: Entries, k: Bytes, q: Bytes)
    requires q != k
    ensures Lookup(Others(s, k), q) == Lookup(s, q)
  {
    if s != [] {
      var o, last := Others(s[..|s| - 1], k), s[|s| - 1];
      OthersLookup(s[..|s| - 1], k, q);
      if last.key == k {
        assert o + [] == o;
      } else {
        LookupSnoc(o, last, q);
      }
    }
  }

  /** The sequence number a key carries, 0 when it is absent. */
  function CountOf(s: Entries, k: Bytes): nat
  {
    match Lookup(s, k)
    case None => 0
    case Some((_, n)) => n
  }

  lemma CountOfIsMaxSeq(s: Entries, k: Bytes)
    requires UniqueKeys(s)
    ensures MaxSeq(s, k) == CountOf(s, k)
  {
    LookupFinds(s, k);
    match Lookup(s, k)
    case None => MaxSeqAbsent(s, k);
    case Some((v, n)) => MaxSeqUnique(s, StateEntry(k, v, n));
  }

  lemma PutUnique(s: Entries, w: Write)
    requires UniqueKeys(s)
    ensures UniqueKeys(Put(s, w))
  {
    var o := Others(s, w.key);
    OthersUnique(s, w.key);
    OthersMembers(s, w.key);
    assert forall i :: 0 <= i < |o| ==> o[i] in o;
  }

  lemma OthersLacks(s: Entries, k: Bytes)
    ensures Lookup(Others(s, k), k) == None
  {
    OthersMembers(s, k);
    LookupFinds(Others(s, k), k);
  }

  /** One edit is a map update: the written key holds the value with its old count plus one
      (a fresh key starts at 1), a removal forgets the key and its count, other keys keep theirs. */
  lemma PutIsMapUpdate(s: Entries, w: Write, q: Bytes)
    requires UniqueKeys(s)
    ensures q != w.key ==> Lookup(Put(s, w), q) == Lookup(s, q)
    ensures q == w.key && w.value.None? ==> Lookup(Put(s, w), q) == None
    ensures q == w.key && w.value.Some? ==>
              Lookup(Put(s, w), q) == Some((w.value.value, (CountOf(s, q) + 1) % TWO_64))
  {
    var o := Others(s, w.key);
    if w.value.Some? {
      LookupSnoc(o, StateEntry(w.key, w.value.value, (MaxSeq(s, w.key) + 1) % TWO_64), q);
    } else {
      assert Put(s, w) == o;
    }
    if q == w.key {
      OthersLacks(s, q);
      CountOfIsMaxSeq(s, q);
    } else {
      OthersLookup(s, w.key, q);
    }
  }

  // ----- Runs of edits -----

  function PutAll(s: Entries, ws: seq<Write>): Entries
  {
    if ws == [] then s else Put(PutAll(s, ws[..|ws| - 1]), ws[|ws| - 1])
  }

  lemma {:induction false} PutAllUnique(s: Entries, ws: seq<Write>)
    requires UniqueKeys(s)
    ensures UniqueKeys(PutAll(s, ws))
  {
    if ws != [] {
      PutAllUnique(s, ws[..|ws| - 1]);
      PutUnique(PutAll(s, ws[..|ws| - 1]), ws[|ws| - 1]);
    }
  }

  /** Writes of `k` since `k` was last removed. */
  function WritesSinceRemoval(ws: seq<Write>, k: Bytes): nat
  {
    if ws == [] then 0
    else
      var w := ws[|ws| - 1];
      if w.key != k then WritesSinceRemoval(ws[..|ws| - 1], k)
      else if w.value.None? then 0
      else WritesSinceRemoval(ws[..|ws| - 1], k) + 1
  }

  /** The value the last edit of `k` left. */
  function LastWrite(ws: seq<Write>, k: Bytes): Option<Bytes>
  {
    if ws == [] then None
    else if ws[|ws| - 1].key == k then ws[|ws| - 1].value
    else LastWrite(ws[..|ws| - 1], k)
  }

  /** After any run of edits from nothing, each key holds its last written value, and its
      sequence number counts the writes since its last removal (modulo 2^64, for uint64). */
  lemma {:induction false} SeqCountsWrites(ws: seq<Write>, k: Bytes)
    ensures Lookup(PutAll([], ws), k) == Counted(LastWrite(ws, k), WritesSinceRemoval(ws, k))
    ensures LastWrite(ws, k).None? ==> WritesSinceRemoval(ws, k) == 0
  {
    if ws != [] {
      var init, w := ws[..|ws| - 1], ws[|ws| - 1];
      var s := PutAll([], init);
      SeqCountsWrites(init, k);
      PutAllUnique([], init);
      PutIsMapUpdate(s, w, k);
      if w.key == k && w.value.Some? {
        ModSucc(WritesSinceRemoval(init, k), CountOf(s, k));
      }
    }
  }

  function Counted(value: Option<Bytes>, writes: nat): Option<(Bytes, nat)>
  {
    match value
    case None => None
    case Some(v) => Some((v, writes % TWO_64))
  }

  lemma ModSucc(n: nat, r: nat)
    requires r == n % TWO_64
    ensures (r + 1) % TWO_64 == (n + 1) % TWO_64
  {
  }

  // ----- Growth -----

  function SumSeq(s: Entries): nat
  {
    if s == [] then 0 else SumSeq(s[..|s| - 1]) + s[|s| - 1].seqNo
  }

  lemma {:induction false} OthersSum(s: Entries, k: Bytes)
    requires UniqueKeys(s)
    ensures SumSeq(s) == SumSeq(Others(s, k)) + MaxSeq(s, k)
  {
    hide *;
    if s == [] {
      NothingSums(k);
    } else {
      var init, last := s[..|s| - 1], s[|s| - 1];
      LastUnique(s, k);
      OthersSum(init, k);
      SumSeqSnoc(init, last);
      SumSeqSnoc(Others(init, k), last);
      assert init + [last] == s && Others(init, k) + [] == Others(init, k);
    }
  }

  lemma NothingSums(k: Bytes)
    ensures SumSeq([]) == 0 && Others([], k) == [] && MaxSeq([], k) == 0
  {
  }

  lemma LastUnique(s: Entries, k: Bytes)
    requires UniqueKeys(s) && s != []
    ensures var init, last := s[..|s| - 1], s[|s| - 1];
            && UniqueKeys(init)
            && Others(s, k) == Others(init, k) + (if last.key != k then [last] else [])
            && MaxSeq(s, k) == (if last.key == k then last.seqNo else MaxSeq(init, k))
            && (last.key == k ==> MaxSeq(init, k) == 0)
  {
    if s[|s| - 1].key == k {
      MaxSeqAbsent(s[..|s| - 1], k);
    }
  }

  lemma SumSeqSnoc(s: Entries, e: StateEntry)
    ensures SumSeq(s + [e]) == SumSeq(s) + e.seqNo
  {
    assert (s + [e])[..|s|] == s;
  }

  lemma {:induction false} MaxSeqBelowSum(s: Entries, k: Bytes)
    ensures MaxSeq(s, k) <= SumSeq(s)
  {
    if s != [] {
      MaxSeqBelowSum(s[..|s| - 1], k);
    }
  }

  lemma PutGrowsSum(s: Entries, w: Write)
    requires UniqueKeys(s) && w.value.Some? && SumSeq(s) + 1 < TWO_64
    ensures SumSeq(Put(s, w)) == SumSeq(s) + 1
  {
    OthersSum(s, w.key);
    MaxSeqBelowSum(s, w.key);
    assert Put(s, w)[..|Others(s, w.key)|] == Others(s, w.key);
  }

  lemma {:induction false} PutAllGrowsSum(s: Entries, ws: seq<Write>)
    requires UniqueKeys(s) && SumSeq(s) + |ws| < TWO_64
    requires forall w :: w in ws ==> w.value.Some?
    ensures SumSeq(PutAll(s, ws)) == SumSeq(s) + |ws|
  {
    if ws != [] {
      var init := ws[..|ws| - 1];
      assert ws == init + [ws[|ws| - 1]];
      PutAllGrowsSum(s, init);
      PutAllUnique(s, init);
      PutGrowsSum(PutAll(s, init), ws[|ws| - 1]);
    }
  }

  /** The sum of sequence numbers does not depend on the order of the entries. */
  lemma {:induction false} SumSeqSorted(s: Entries)
    ensures SumSeq(Sorted(s)) == SumSeq(s)
  {
    if s != [] {
      SumSeqSorted(s[..|s| - 1]);
      SumSeqInsert(Sorted(s[..|s| - 1]), s[|s| - 1]);
    }
  }

  lemma {:induction false} SumSeqInsert(s: Entries, e: StateEntry)
    ensures SumSeq(InsertEntry(s, e)) == SumSeq(s) + e.seqNo
  {
    if s == [] || !Less(e.key, s[|s| - 1].key) {
      assert (s + [e])[..|s|] == s;
    } else {
      SumSeqInsert(s[..|s| - 1], e);
      var r := InsertEntry(s[..|s| - 1], e);
      assert (r + [s[|s| - 1]])[..|r|] == r;
    }
  }

  /** An allowed edit keeps the entry count within the cap. */
  lemma AllowedKeepsCount(s: Entries, w: Write, maxEntries: int, maxBytes: int)
    requires maxEntries > 0 && |s| <= maxEntries && Allowed(s, w, maxEntries, maxBytes)
    ensures |Put(s, w)| <= maxEntries
  {
    OthersMembers(s, w.key);
  }

  // ----- The size caps -----

  /** The encoding of a snapshot is its keys and values and three eight-byte fields to the entry. */
  lemma {:induction false} EncodeLength(s: Entries)
    ensures |Encode(s)| == ByteSize(s) + 24 * |s|
  {
    if s != [] {
      var n := |s| - 1;
      EncodeLength(s[..n]);
      EncodeAppend(s[..n], s[n]);
      assert s == s[..n] + [s[n]];
    }
  }

  /** What is allowed, exactly: removals; and values of at most 1 MiB, of a key that is there already, or of
      a new one while the entries are fewer than their cap and, with this one, not longer than theirs. */
  lemma CapsExactly(s: Entries, k: Bytes, v: Bytes, maxEntries: int, maxBytes: int)
    ensures Allowed(s, Write(k, None), maxEntries, maxBytes)
    ensures Allowed(s, Write(k, Some(v)), maxEntries, maxBytes) <==>
            && |v| <= 0x10_0000
            && ((exists e :: e in s && e.key == k)
                || ((maxEntries <= 0 || |s| < maxEntries)
                    && (maxBytes <= 0 || |Encode(s)| - 24 * |s| + |k| + |v| <= maxBytes)))
  {
    EncodeLength(s);
    if HasKey(s, k) {
      var i :| 0 <= i < |s| && s[i].key == k;
      assert s[i] in s;
    }
    hide Encode, ByteSize;
  }

  lemma ByteSizeAppend(s: Entries, e: StateEntry)
    ensures ByteSize(s + [e]) == ByteSize(s) + |e.key| + |e.value|
  {
    assert (s + [e])[..|s|] == s;
  }

  lemma {:induction false} OthersSmaller(s: Entries, k: Bytes)
    ensures ByteSize(Others(s, k)) <= ByteSize(s)
    ensures !HasKey(s, k) ==> ByteSize(Others(s, k)) == ByteSize(s)
  {
    if s != [] {
      var n := |s| - 1;
      OthersSmaller(s[..n], k);
      ByteSizeAppend(Others(s[..n], k), s[n]);
      assert !HasKey(s, k) ==> !HasKey(s[..n], k) && s[n].key != k;
      assert Others(s[..n], k) + [] == Others(s[..n], k);
    }
  }

  /** The byte cap is for new keys only. An allowed edit keeps the bytes within the cap if and only if it
      removes, or its key is new, or the update fits. */
  lemma ByteCapExactly(s: Entries, w: Write, maxEntries: int, maxBytes: int)
    requires maxBytes > 0 && ByteSize(s) <= maxBytes && Allowed(s, w, maxEntries, maxBytes)
    ensures ByteSize(Put(s, w)) <= maxBytes <==> UpdateFits(s, w, maxBytes)
  {
    OthersSmaller(s, w.key);
    if w.value.Some? {
      ByteSizeAppend(Others(s, w.key), StateEntry(w.key, w.value.value, (MaxSeq(s, w.key) + 1) % TWO_64));
    } else {
      assert Put(s, w) == Others(s, w.key);
    }
    hide ByteSize, Others, MaxSeq, HasKey;
  }

  predicate UpdateFits(s: Entries, w: Write, maxBytes: int)
  {
    w.value.None? || !HasKey(s, w.key) || ByteSize(Others(s, w.key)) + |w.key| + |w.value.value| <= maxBytes
  }

  /** An update that does not fit passes: one byte is allowed, and three are reached. */
  lemma UpdateEscapesCap()
    ensures var s, w := [StateEntry("k", "", 1)], Write("k", Some("vv"));
            ByteSize(s) == 1 && Allowed(s, w, 0, 1) && ByteSize(Put(s, w)) == 3
  {
    hide *;
    var e, w := StateEntry("k", "", 1), Write("k", Some("vv"));
    OneEntry(e);
    PutOnOne(e, w);
    UpdateIsAllowed(e, w, 1);
  }

  lemma OneEntry(e: StateEntry)
    ensures ByteSize([e]) == |e.key| + |e.value| && HasKey([e], e.key) && Others([e], e.key) == []
  {
    ByteSizeAppend([], e);
    assert [e][..0] == [] && [] + [e] == [e] && [e][0].key == e.key;
    assert ByteSize([]) == 0 && Others([], e.key) == [];
  }

  lemma UpdateIsAllowed(e: StateEntry, w: Write, maxBytes: int)
    requires w.key == e.key && w.value.Some? && |w.value.value| <= 0x10_0000
    ensures Allowed([e], w, 0, maxBytes)
  {
    OneEntry(e);
    hide HasKey, ByteSize;
  }

  lemma PutOnOne(e: StateEntry, w: Write)
    requires w.key == e.key && w.value.Some?
    ensures Put([e], w) == [StateEntry(w.key, w.value.value, (MaxSeq([e], w.key) + 1) % TWO_64)]
    ensures ByteSize(Put([e], w)) == |w.key| + |w.value.value|
  {
    OneEntry(e);
    OneEntry(StateEntry(w.key, w.value.value, (MaxSeq([e], w.key) + 1) % TWO_64));
    hide MaxSeq, Others;
  }
}
