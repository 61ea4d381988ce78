/** State snapshots (internal/types/types.go): canonical order, canonical encoding, root hash. */
module Snapshot {
  import opened Basics
  import opened ByteStrings

  datatype StateEntry = StateEntry(key: Bytes, value: Bytes, seqNo: nat)

  type Entries = seq<StateEntry>

  // ----- Canonical order -----

  /** Insert `e` behind every entry of `s` whose key is not greater. */
  function InsertEntry(s: Entries, e: StateEntry): Entries
  {
    if s == [] || !Less(e.key, s[|s| - 1].key) then s + [e]
    else InsertEntry(s[..|s| - 1], e) + [s[|s| - 1]]
  }

  /** Insertion sort as a function: the specification of `SortInPlace`. */
  function Sorted(s: Entries): Entries
  {
    if s == [] then [] else InsertEntry(Sorted(s[..|s| - 1]), s[|s| - 1])
  }

  predicate InKeyOrder(s: Entries)
  {
    forall i, j :: 0 <= i < j < |s| ==> !Less(s[j].key, s[i].key)
  }

  /** The entries of `s` under one key, in their order in `s`. */
  function WithKey(s: Entries, k: Bytes): Entries
  {
    if s == [] then []
    else WithKey(s[..|s| - 1], k) + (if s[|s| - 1].key == k then [s[|s| - 1]] else [])
  }

  /** The same entries in the same order under every key. */
  ghost predicate AgreePerKey(a: Entries, b: Entries)
  {
    forall k: Bytes :: WithKey(a, k) == WithKey(b, k)
  }

  predicate UniqueKeys(s: Entries)
  {
    forall i, j :: 0 <= i < j < |s| ==> s[i].key != s[j].key
  }

  lemma {:induction false} InsertPermutes(s: Entries, e: StateEntry)
    ensures multiset(InsertEntry(s, e)) == multiset(s) + multiset{e}
    ensures |InsertEntry(s, e)| == |s| + 1
  {
    if s != [] && Less(e.key, s[|s| - 1].key) {
      assert s == s[..|s| - 1] + [s[|s| - 1]];
      InsertPermutes(s[..|s| - 1], e);
    }
  }

  lemma {:induction false} SortedPermutes(s: Entries)
    ensures multiset(Sorted(s)) == multiset(s)
    ensures |Sorted(s)| == |s|
  {
    if s != [] {
      assert s == s[..|s| - 1] + [s[|s| - 1]];
      SortedPermutes(s[..|s| - 1]);
      InsertPermutes(Sorted(s[..|s| - 1]), s[|s| - 1]);
    }
  }

  lemma {:induction false} InsertKeepsOrder(s: Entries, e: StateEntry)
    requires InKeyOrder(s)
    ensures InKeyOrder(InsertEntry(s, e))
  {
    if s == [] {
    } else {
      var last := s[|s| - 1];
      LessTotal(e.key, last.key);
      if Less(e.key, last.key) {
        InsertKeepsOrder(s[..|s| - 1], e);
        InsertPermutes(s[..|s| - 1], e);
        var r := InsertEntry(s[..|s| - 1], e);
        forall i | 0 <= i < |r|
          ensures !Less(last.key, r[i].key)
        {
          assert r[i] in multiset(r);
          assert r[i] == e || r[i] in s[..|s| - 1];
        }
      } else {
        forall i | 0 <= i < |s|
          ensures !Less(e.key, s[i].key)
        {
          LessTotal(s[i].key, last.key);
          LessTotal(e.key, s[i].key);
          if Less(e.key, s[i].key) && Less(s[i].key, last.key) {
            LessTransitive(e.key, s[i].key, last.key);
          }
        }
      }
    }
  }

  lemma {:induction false} SortedInKeyOrder(s: Entries)
    ensures InKeyOrder(Sorted(s))
  {
    if s != [] {
      SortedInKeyOrder(s[..|s| - 1]);
      InsertKeepsOrder(Sorted(s[..|s| - 1]), s[|s| - 1]);
    }
  }

  /** No key comes before one that precedes it at the first byte in which they differ. */
  lemma SortedIsOrdered(s: Entries)
    ensures forall i, j :: 0 <= i < j < |Sorted(s)| ==> !Precedes(Sorted(s)[j].key, Sorted(s)[i].key)
  {
    SortedInKeyOrder(s);
    hide Less, Sorted;
    forall i, j | 0 <= i < j < |Sorted(s)| ensures !Precedes(Sorted(s)[j].key, Sorted(s)[i].key) {
      LessExactly(Sorted(s)[j].key, Sorted(s)[i].key);
    }
  }

  lemma {:induction false} InsertIsStable(s: Entries, e: StateEntry, k: Bytes)
    ensures WithKey(InsertEntry(s, e), k) == WithKey(s + [e], k)
  {
    assert (s + [e])[..|s|] == s;
    if s != [] && Less(e.key, s[|s| - 1].key) {
      var init, last := s[..|s| - 1], s[|s| - 1];
      InsertIsStable(init, e, k);
      LessTotal(e.key, last.key);
      assert (init + [e])[..|init|] == init;
      assert (InsertEntry(init, e) + [last])[..|InsertEntry(init, e)|] == InsertEntry(init, e);
    }
  }

  lemma {:induction false} SortedIsStable(s: Entries, k: Bytes)
    ensures WithKey(Sorted(s), k) == WithKey(s, k)
  {
    if s != [] {
      var init, last := s[..|s| - 1], s[|s| - 1];
      SortedIsStable(init, k);
      InsertIsStable(Sorted(init), last, k);
      assert (Sorted(init) + [last])[..|Sorted(init)|] == Sorted(init);
    }
  }

  lemma {:induction false} WithKeyMembers(s: Entries, k: Bytes)
    ensures forall e :: e in WithKey(s, k) <==> e in s && e.key == k
  {
    if s != [] {
      WithKeyMembers(s[..|s| - 1], k);
      assert s == s[..|s| - 1] + [s[|s| - 1]];
    }
  }

  /** A sequence in key order is determined by what it holds under each key. */
  lemma {:induction false} OrderedIsDetermined(a: Entries, b: Entries)
    requires InKeyOrder(a) && InKeyOrder(b)
    requires AgreePerKey(a, b)
    ensures a == b
  {
    assert a != [] ==> WithKey(a, a[|a| - 1].key) == WithKey(b, a[|a| - 1].key);
    assert b != [] ==> WithKey(a, b[|b| - 1].key) == WithKey(b, b[|b| - 1].key);
    if a != [] && b != [] {
      var x, y := a[|a| - 1], b[|b| - 1];
      assert x.key == y.key by {
        WithKeyMembers(b, x.key);
        WithKeyMembers(a, y.key);
        assert x in WithKey(a, x.key) by { WithKeyMembers(a, x.key); }
        assert y in WithKey(b, y.key) by { WithKeyMembers(b, y.key); }
        assert WithKey(a, x.key) == WithKey(b, x.key);
        assert WithKey(a, y.key) == WithKey(b, y.key);
        assert x in b && y in a;
        LessTotal(x.key, y.key);
      }
      assert WithKey(a, x.key) == WithKey(b, x.key);
      assert WithKey(a, x.key)[|WithKey(a, x.key)| - 1] == x;
      assert x == y;
      var a', b' := a[..|a| - 1], b[..|b| - 1];
      forall k: Bytes
        ensures WithKey(a', k) == WithKey(b', k)
      {
        var tail := if x.key == k then [x] else [];
        assert WithKey(a', k) + tail == WithKey(a, k) == WithKey(b, k) == WithKey(b', k) + tail;
        assert WithKey(a', k) == (WithKey(a', k) + tail)[..|WithKey(a, k)| - |tail|];
      }
      OrderedIsDetermined(a', b');
      assert a == a' + [x] && b == b' + [y];
    }
  }

  /** `Sorted` is the one stable sorted arrangement: two lists sort alike exactly when
      they agree, in order, under every key. */
  lemma SortedAgree(a: Entries, b: Entries)
    ensures Sorted(a) == Sorted(b) <==> AgreePerKey(a, b)
  {
    forall k: Bytes
      ensures WithKey(Sorted(a), k) == WithKey(a, k)
      ensures WithKey(Sorted(b), k) == WithKey(b, k)
    {
      SortedIsStable(a, k);
      SortedIsStable(b, k);
    }
    SortedInKeyOrder(a);
    SortedInKeyOrder(b);
    if AgreePerKey(a, b) {
      OrderedIsDetermined(Sorted(a), Sorted(b));
    }
  }

  lemma {:induction false} WithKeyUnique(s: Entries, k: Bytes)
    requires UniqueKeys(s)
    ensures |WithKey(s, k)| <= 1
  {
    if s != [] {
      WithKeyUnique(s[..|s| - 1], k);
      WithKeyMembers(s[..|s| - 1], k);
      var before := WithKey(s[..|s| - 1], k);
      assert before == [] || before[0] in s[..|s| - 1];
    }
  }

  lemma UniqueKeysHoldAlike(a: Entries, b: Entries, k: Bytes)
    requires UniqueKeys(a) && UniqueKeys(b)
    requires forall e :: e in a <==> e in b
    ensures WithKey(a, k) == WithKey(b, k)
  {
    WithKeyUnique(a, k);
    WithKeyUnique(b, k);
    WithKeyMembers(a, k);
    WithKeyMembers(b, k);
    hide UniqueKeys, WithKey;
    var x, y := WithKey(a, k), WithKey(b, k);
    assert x == [] || x[0] in y;
    assert y == [] || y[0] in x;
  }

  /** With unique keys the canonical order forgets the order of the list. */
  lemma UniqueKeysSortAlike(a: Entries, b: Entries)
    requires UniqueKeys(a) && UniqueKeys(b)
    requires forall e :: e in a <==> e in b
    ensures Sorted(a) == Sorted(b)
  {
    forall k: Bytes
      ensures WithKey(a, k) == WithKey(b, k)
    {
      UniqueKeysHoldAlike(a, b, k);
    }
    SortedAgree(a, b);
  }

  lemma SortedSingleton(s: Entries, i: nat)
    requires i <= 1 && i <= |s|
    ensures Sorted(s[..i]) == s[..i]
  {
    if i == 1 {
      assert s[..1][..0] == [];
      assert InsertEntry([], s[0]) == [s[0]];
    }
  }

  lemma {:induction false} InsertLands(s: Entries, x: StateEntry, j: nat)
    requires j <= |s|
    requires forall k :: j <= k < |s| ==> Less(x.key, s[k].key)
    requires j > 0 ==> !Less(x.key, s[j - 1].key)
    ensures InsertEntry(s, x) == s[..j] + [x] + s[j..]
  {
    if j < |s| {
      var init := s[..|s| - 1];
      InsertLands(init, x, j);
      assert init[..j] == s[..j] && init[j..] + [s[|s| - 1]] == s[j..];
    } else {
      assert s[..j] == s;
    }
  }

  lemma SwapBack(t: Entries, s: Entries, x: StateEntry, rest: Entries, j: nat)
    requires j <= |s| && t == s[..j] + [x] + s[j..] + rest
    ensures |t| == |s| + 1 + |rest| && t[j] == x
    ensures j > 0 ==>
              (t[j - 1] == s[j - 1]
               && t[j - 1 := x][j := s[j - 1]] == s[..j - 1] + [x] + s[j - 1..] + rest)
  {
  }

  /** The inner loop of sortEntries: sink entry `i` into the sorted prefix by adjacent swaps. */
  method SinkEntry(e: array<StateEntry>, i: nat)
    requires i < e.Length
    modifies e
    ensures e[..] == InsertEntry(old(e[..i]), old(e[i])) + old(e[i + 1..])
  {
    ghost var s, x, rest := e[..i], e[i], e[i + 1..];
    var j := i;
    while j > 0 && Less(e[j].key, e[j - 1].key)
      invariant 0 <= j <= i
      invariant e[..] == s[..j] + [x] + s[j..] + rest
      invariant forall k :: j <= k < i ==> Less(x.key, s[k].key)
    {
      ghost var t := e[..];
      SwapBack(t, s, x, rest, j);
      e[j - 1], e[j] := e[j], e[j - 1];
      assert e[..] == t[j - 1 := x][j := s[j - 1]];
      j := j - 1;
    }
    SwapBack(e[..], s, x, rest, j);
    InsertLands(s, x, j);
  }

  lemma SplitAt(t: Entries, sorted: Entries, was: Entries, i: nat)
    requires i < |was| && |sorted| == i && t == sorted + was[i..]
    ensures t[..i] == sorted && t[i] == was[i] && t[i + 1..] == was[i + 1..]
  {
  }

  lemma SortedSnoc(was: Entries, i: nat)
    requires i < |was|
    ensures Sorted(was[..i + 1]) == InsertEntry(Sorted(was[..i]), was[i])
  {
    assert was[..i + 1][..i] == was[..i];
  }

  /** sortEntries: insertion sort, in place. */
  method SortInPlace(e: array<StateEntry>)
    modifies e
    ensures e[..] == Sorted(old(e[..]))
  {
    ghost var was := e[..];
    var i := if e.Length == 0 then 0 else 1;
    SortedSingleton(was, i);
    while i < e.Length
      invariant 0 <= i <= e.Length
      invariant e[..] == Sorted(was[..i]) + was[i..]
    {
      SortedPermutes(was[..i]);
      SplitAt(e[..], Sorted(was[..i]), was, i);
      SortedSnoc(was, i);
      assert e[..i] == e[..][..i] && e[i + 1..] == e[..][i + 1..] && e[i] == e[..][i];
      SinkEntry(e, i);
      i := i + 1;
    }
    assert was[..i] == was;
  }

  // ----- Canonical encoding -----

  function LengthPrefixed(b: Bytes): Bytes
  {
    BigEndian(|b|, 8) + b
  }

  function EncodeEntry(e: StateEntry): Bytes
  {
    LengthPrefixed(e.key) + LengthPrefixed(e.value) + BigEndian(e.seqNo, 8)
  }

  function Encode(s: Entries): Bytes
  {
    if s == [] then [] else EncodeEntry(s[0]) + Encode(s[1..])
  }

  /** Length, key, length, value, sequence number. */
  lemma EntryLayout(e: StateEntry)
    ensures var b, k, v := EncodeEntry(e), |e.key|, |e.value|;
            && |b| == k + v + 24
            && b[..8] == BigEndian(k, 8) && b[8..8 + k] == e.key
            && b[8 + k..16 + k] == BigEndian(v, 8) && b[16 + k..16 + k + v] == e.value
            && b[16 + k + v..] == BigEndian(e.seqNo, 8)
  {
    hide BigEndian;
  }

  /** The bytes `Root` feeds to SHA-256. */
  function Preimage(s: Entries): Bytes
  {
    Encode(Sorted(s))
  }

  /** Lengths and sequence numbers fit their eight-byte fields, as Go's int and uint64 make them. */
  predicate Encodable(s: Entries)
  {
    forall e :: e in s ==> |e.key| < TWO_64 && |e.value| < TWO_64 && e.seqNo < TWO_64
  }

  /** Split a length-prefixed field off the front. */
  function TakeField(b: Bytes): (r: Option<(Bytes, Bytes)>)
    ensures r.Some? ==> |r.value.1| < |b|
  {
    if |b| < 8 then None
    else
      var n := FromBigEndian(b[..8]);
      if |b| < 8 + n then None else Some((b[8..8 + n], b[8 + n..]))
  }

  lemma TakeFieldInverse(f: Bytes, rest: Bytes)
    requires |f| < TWO_64
    ensures TakeField(LengthPrefixed(f) + rest) == Some((f, rest))
  {
    var b := LengthPrefixed(f) + rest;
    Pow256Values();
    BigEndianRoundTrip(|f|, 8);
    assert b[..8] == BigEndian(|f|, 8);
    assert b[8..8 + |f|] == f;
    assert b[8 + |f|..] == rest;
  }

  function TakeEntry(b: Bytes): (r: Option<(StateEntry, Bytes)>)
    ensures r.Some? ==> |r.value.1| < |b|
  {
    match TakeField(b)
    case None => None
    case Some((k, b1)) =>
      match TakeField(b1)
      case None => None
      case Some((v, b2)) =>
        if |b2| < 8 then None else Some((StateEntry(k, v, FromBigEndian(b2[..8])), b2[8..]))
  }

  /** Read the encoding back, entry by entry. */
  function Decode(b: Bytes): Option<Entries>
    decreases |b|
  {
    if b == [] then Some([])
    else
      match TakeEntry(b)
      case None => None
      case Some((e, rest)) =>
        match Decode(rest)
        case None => None
        case Some(tail) => Some([e] + tail)
  }

  lemma TakeEntryInverse(e: StateEntry, rest: Bytes)
    requires |e.key| < TWO_64 && |e.value| < TWO_64 && e.seqNo < TWO_64
    ensures TakeEntry(EncodeEntry(e) + rest) == Some((e, rest))
  {
    var b2 := BigEndian(e.seqNo, 8) + rest;
    var b1 := LengthPrefixed(e.value) + b2;
    assert EncodeEntry(e) + rest == LengthPrefixed(e.key) + b1;
    TakeFieldInverse(e.key, b1);
    TakeFieldInverse(e.value, b2);
    Pow256Values();
    BigEndianRoundTrip(e.seqNo, 8);
    assert b2[..8] == BigEndian(e.seqNo, 8) && b2[8..] == rest;
  }

  lemma {:induction false} DecodeInvertsEncode(s: Entries)
    requires Encodable(s)
    ensures Decode(Encode(s)) == Some(s)
  {
    if s != [] {
      var e, tail := s[0], s[1..];
      assert e in s && forall x :: x in tail ==> x in s;
      DecodeInvertsEncode(tail);
      TakeEntryInverse(e, Encode(tail));
      assert s == [e] + tail;
    }
  }

  lemma SortedEncodable(s: Entries)
    requires Encodable(s)
    ensures Encodable(Sorted(s))
  {
    SortedPermutes(s);
    forall e | e in Sorted(s)
      ensures e in s
    {
      assert e in multiset(Sorted(s));
    }
  }

  lemma SortedSameEntries(a: Entries, b: Entries)
    requires Sorted(a) == Sorted(b)
    ensures forall e :: e in a <==> e in b
  {
    SortedPermutes(a);
    SortedPermutes(b);
    forall e
      ensures e in a <==> e in b
    {
      assert e in a <==> e in multiset(a);
      assert e in b <==> e in multiset(b);
    }
  }

  /** Two snapshots hash the same bytes exactly when they agree, in order, under every key. */
  lemma PreimageDecides(a: Entries, b: Entries)
    requires Encodable(a) && Encodable(b)
    ensures Preimage(a) == Preimage(b) <==> Sorted(a) == Sorted(b)
    ensures Preimage(a) == Preimage(b) <==> AgreePerKey(a, b)
  {
    SortedEncodable(a);
    SortedEncodable(b);
    DecodeInvertsEncode(Sorted(a));
    DecodeInvertsEncode(Sorted(b));
    SortedAgree(a, b);
  }

  /** For unique keys, which every ledger keeps, the preimage is a function of the entry set,
      and determines it. */
  lemma PreimageIsEntrySet(a: Entries, b: Entries)
    requires Encodable(a) && Encodable(b) && UniqueKeys(a) && UniqueKeys(b)
    ensures Preimage(a) == Preimage(b) <==> (forall e :: e in a <==> e in b)
  {
    if Preimage(a) == Preimage(b) {
      PreimageDecides(a, b);
      SortedSameEntries(a, b);
    }
    if forall e :: e in a <==> e in b {
      UniqueKeysSortAlike(a, b);
    }
  }

  /** StateSnapshot.Equal: copy, sort in place, compare field by field. */
  method Equal(a: Entries, b: Entries) returns (same: bool)
    ensures same <==> Sorted(a) == Sorted(b)
  {
    var x := SortedCopy(a);
    var y := SortedCopy(b);
    same := SameElements(x, y);
  }

  method SortedCopy(s: Entries) returns (a: array<StateEntry>)
    ensures fresh(a) && a[..] == Sorted(s)
  {
    a := new StateEntry[|s|](i requires 0 <= i < |s| => s[i]);
    assert a[..] == s;
    SortInPlace(a);
  }

  /** The comparing loop of Equal. */
  method SameElements(x: array<StateEntry>, y: array<StateEntry>) returns (same: bool)
    ensures same <==> x[..] == y[..]
  {
    if x.Length != y.Length {
      assert |x[..]| != |y[..]|;
      return false;
    }
    var i := 0;
    while i < x.Length
      invariant 0 <= i <= x.Length
      invariant x[..i] == y[..i]
    {
      if x[i].key != y[i].key || x[i].seqNo != y[i].seqNo {
        assert x[..][i] != y[..][i];
        return false;
      }
      if x[i].value != y[i].value {
        assert x[..][i] != y[..][i];
        return false;
      }
      i := i + 1;
    }
    assert x[..i] == x[..] && y[..i] == y[..];
    return true;
  }

  lemma {:induction false} EncodeAppend(s: Entries, e: StateEntry)
    ensures Encode(s + [e]) == Encode(s) + EncodeEntry(e)
  {
    if s == [] {
      assert [e][1..] == [];
    } else {
      EncodeAppend(s[1..], e);
      assert (s + [e])[1..] == s[1..] + [e];
    }
  }

  lemma EntryBytes(before: Bytes, e: StateEntry)
    ensures before + LengthPrefixed(e.key) + LengthPrefixed(e.value) + BigEndian(e.seqNo, 8)
         == before + EncodeEntry(e)
  {
  }

  /** StateSnapshot.Root up to the hash: copy, sort in place, write each entry to the hasher. */
  method WritePreimage(entries: Entries) returns (written: Bytes)
    ensures written == Preimage(entries)
  {
    var a := SortedCopy(entries);
    ghost var s := a[..];
    written := [];
    var i := 0;
    while i < a.Length
      invariant 0 <= i <= a.Length && a[..] == s
      invariant written == Encode(s[..i])
    {
      var e := a[i];
      ghost var before := written;
      written := written + (BigEndian(|e.key|, 8) + e.key);
      written := written + (BigEndian(|e.value|, 8) + e.value);
      written := written + BigEndian(e.seqNo, 8);
      EntryBytes(before, e);
      EncodeAppend(s[..i], e);
      assert s[i] == e;
      assert s[..i + 1] == s[..i] + [s[i]];
      i := i + 1;
    }
    assert s[..i] == s;
  }
}
