/** The FIFO-bounded equivocation log (internal/group/equivocation.go). */
module Equivocation {
  import opened ByteStrings

  datatype EqKey = EqKey(steward: Bytes32, prior: Bytes32)

  /** What was first presented for a key. */
  datatype Seen = Seen(hlc: Bytes, txHash: Bytes32)

  datatype Presentation = Presentation(key: EqKey, what: Seen)

  /** The fields of equivocationLog as a value. */
  datatype EqLog = EqLog(maxEntries: int, seen: map<EqKey, Seen>, order: seq<EqKey>, evictions: nat)

  function EmptyLog(maxEntries: int): EqLog
  {
    EqLog(maxEntries, map[], [], 0)
  }

  /** evictOldestLocked. */
  function Evict(l: EqLog): EqLog
    decreases |l.order|
  {
    if l.maxEntries <= 0 || |l.order| <= l.maxEntries then l
    else Evict(l.(seen := l.seen - {l.order[0]}, order := l.order[1..], evictions := l.evictions + 1))
  }

  predicate Conflicts(l: EqLog, p: Presentation)
  {
    p.key in l.seen && l.seen[p.key] != p.what
  }

  /** The log after `check`. */
  function Record(l: EqLog, p: Presentation): EqLog
  {
    if p.key in l.seen then l
    else Evict(l.(seen := l.seen[p.key := p.what], order := l.order + [p.key]))
  }

  class EquivocationLog {
    var maxEntries: int
    var seen: map<EqKey, Seen>
    var insertionOrder: seq<EqKey>
    var evictions: nat

    function Value(): EqLog
      reads this
    {
      EqLog(maxEntries, seen, insertionOrder, evictions)
    }

    constructor (max: int)
      ensures Value() == EmptyLog(max)
    {
      maxEntries, seen, insertionOrder, evictions := max, map[], [], 0;
    }

    /** evictOldestLocked. */
    method EvictOldest()
      modifies this
      ensures Value() == Evict(old(Value()))
    {
      if maxEntries <= 0 || |insertionOrder| == 0 {
        return;
      }
      if |insertionOrder| <= maxEntries {
        return;
      }
      while |insertionOrder| > maxEntries
        invariant maxEntries == old(maxEntries)
        invariant Evict(Value()) == Evict(old(Value()))
        decreases |insertionOrder|
      {
        var oldest := insertionOrder[0];
        insertionOrder := insertionOrder[1..];
        seen := seen - {oldest};
        evictions := evictions + 1;
      }
    }

    /** check: is this a second, different presentation for the key? */
    method Check(key: EqKey, hlc: Bytes, txHash: Bytes32) returns (conflict: bool)
      modifies this
      ensures conflict == Conflicts(old(Value()), Presentation(key, Seen(hlc, txHash)))
      ensures Value() == Record(old(Value()), Presentation(key, Seen(hlc, txHash)))
    {
      if key !in seen {
        seen := seen[key := Seen(hlc, txHash)];
        insertionOrder := insertionOrder + [key];
        EvictOldest();
        return false;
      }
      var prev := seen[key];
      if prev.hlc == hlc && prev.txHash == txHash {
        return false;
      }
      return true;
    }
  }

  // ----- Invariants -----

  ghost predicate Coherent(l: EqLog)
  {
    && (forall i, j :: 0 <= i < j < |l.order| ==> l.order[i] != l.order[j])
    && (forall k :: k in l.order <==> k in l.seen)
    && (l.maxEntries > 0 ==> |l.order| <= l.maxEntries)
  }

  /** One recorded presentation inserts at most one key at the back and evicts at most one from the front. */
  lemma RecordShape(l: EqLog, p: Presentation)
    requires Coherent(l)
    ensures var r := Record(l, p);
            && r.maxEntries == l.maxEntries
            && (p.key in l.seen ==> r == l)
            && (p.key !in l.seen && (l.maxEntries <= 0 || |l.order| < l.maxEntries) ==>
                  r == l.(seen := l.seen[p.key := p.what], order := l.order + [p.key]))
            && (p.key !in l.seen && l.maxEntries > 0 && |l.order| == l.maxEntries ==>
                  r == EqLog(l.maxEntries, l.seen[p.key := p.what] - {l.order[0]},
                             l.order[1..] + [p.key], l.evictions + 1))
  {
    if p.key !in l.seen && l.maxEntries > 0 && |l.order| == l.maxEntries {
      var m := l.(seen := l.seen[p.key := p.what], order := l.order + [p.key]);
      assert m.order[1..] == l.order[1..] + [p.key];
      var n := m.(seen := m.seen - {m.order[0]}, order := m.order[1..], evictions := m.evictions + 1);
      assert Evict(m) == Evict(n) == n;
    }
  }

  /** `insertionOrder` lists the keys of `seen` exactly once each, within the cap. */
  lemma RecordCoherent(l: EqLog, p: Presentation)
    requires Coherent(l)
    ensures Coherent(Record(l, p))
  {
    RecordShape(l, p);
    var r := Record(l, p);
    if p.key !in l.seen && l.maxEntries > 0 && |l.order| == l.maxEntries {
      forall k
        ensures k in r.order <==> k in r.seen
      {
        assert k in l.order <==> k == l.order[0] || k in l.order[1..];
      }
    }
  }

  // ----- Runs of presentations -----

  function RecordAll(l: EqLog, ps: seq<Presentation>): EqLog
  {
    if ps == [] then l else Record(RecordAll(l, ps[..|ps| - 1]), ps[|ps| - 1])
  }

  /** New keys inserted along the run. */
  function Inserts(l: EqLog, ps: seq<Presentation>): nat
  {
    if ps == [] then 0
    else Inserts(l, ps[..|ps| - 1])
         + (if ps[|ps| - 1].key in RecordAll(l, ps[..|ps| - 1]).seen then 0 else 1)
  }

  lemma {:induction false} RecordAllCoherent(l: EqLog, ps: seq<Presentation>)
    requires Coherent(l)
    ensures Coherent(RecordAll(l, ps)) && RecordAll(l, ps).maxEntries == l.maxEntries
  {
    if ps != [] {
      RecordAllCoherent(l, ps[..|ps| - 1]);
      RecordCoherent(RecordAll(l, ps[..|ps| - 1]), ps[|ps| - 1]);
      RecordShape(RecordAll(l, ps[..|ps| - 1]), ps[|ps| - 1]);
    }
  }

  /** Nothing is lost unaccounted: inserts are the keys held plus the keys evicted. */
  lemma {:induction false} InsertsAreHeldOrEvicted(max: int, ps: seq<Presentation>)
    ensures Inserts(EmptyLog(max), ps)
         == |RecordAll(EmptyLog(max), ps).seen| + RecordAll(EmptyLog(max), ps).evictions
  {
    if ps != [] {
      var init, p := ps[..|ps| - 1], ps[|ps| - 1];
      InsertsAreHeldOrEvicted(max, init);
      RecordAllCoherent(EmptyLog(max), init);
      var l := RecordAll(EmptyLog(max), init);
      RecordShape(l, p);
      if p.key !in l.seen {
        var m := l.seen[p.key := p.what];
        assert m.Keys == l.seen.Keys + {p.key};
        assert |m| == |m.Keys| == |l.seen.Keys| + 1 == |l.seen| + 1;
        if l.maxEntries > 0 && |l.order| == l.maxEntries {
          var oldest := l.order[0];
          assert oldest in l.seen;
          assert (m - {oldest}).Keys == m.Keys - {oldest};
          assert |m - {oldest}| == |(m - {oldest}).Keys| == |m.Keys| - 1;
        }
      }
    }
  }

  /** Evictions never decrease. */
  lemma {:induction false} EvictionsMonotone(l: EqLog, p: Presentation)
    requires Coherent(l)
    ensures l.evictions <= Record(l, p).evictions
    ensures Record(l, p).evictions == l.evictions && p.key !in l.seen ==>
              Record(l, p) == l.(seen := l.seen[p.key := p.what], order := l.order + [p.key])
  {
    RecordShape(l, p);
  }

  // ----- The bounded log against the unbounded first-seen table -----

  function FirstSeen(ps: seq<Presentation>, k: EqKey): (i: nat)
    ensures i <= |ps|
    ensures i < |ps| ==> ps[i].key == k
    ensures forall j :: 0 <= j < i ==> ps[j].key != k
  {
    if ps == [] then 0
    else
      var i := FirstSeen(ps[..|ps| - 1], k);
      if i < |ps| - 1 then i else if ps[|ps| - 1].key == k then |ps| - 1 else |ps|
  }

  /** The verdict of a table that remembers every key's first presentation for ever. */
  predicate UnboundedConflict(ps: seq<Presentation>, p: Presentation)
  {
    var i := FirstSeen(ps, p.key);
    i < |ps| && ps[i].what != p.what
  }

  /** A reported conflict is real: a different presentation of the same key came before. */
  lemma {:induction false} ConflictIsReal(max: int, ps: seq<Presentation>, p: Presentation)
    requires Conflicts(RecordAll(EmptyLog(max), ps), p)
    ensures exists i :: 0 <= i < |ps| && ps[i].key == p.key && ps[i].what != p.what
  {
    HeldWasPresented(max, ps, p.key);
  }

  lemma {:induction false} HeldWasPresented(max: int, ps: seq<Presentation>, k: EqKey)
    ensures var l := RecordAll(EmptyLog(max), ps);
            k in l.seen ==> exists i :: 0 <= i < |ps| && ps[i] == Presentation(k, l.seen[k])
  {
    if ps != [] {
      var init, p := ps[..|ps| - 1], ps[|ps| - 1];
      HeldWasPresented(max, init, k);
      RecordAllCoherent(EmptyLog(max), init);
      var l := RecordAll(EmptyLog(max), init);
      RecordShape(l, p);
      var r := Record(l, p);
      if k in r.seen {
        if k == p.key && k !in l.seen {
          assert ps[|ps| - 1] == Presentation(k, r.seen[k]);
        } else {
          var i :| 0 <= i < |init| && init[i] == Presentation(k, l.seen[k]);
          assert ps[i] == Presentation(k, r.seen[k]);
        }
      }
    }
  }

  /** `k` sits `age` places from the back of the queue and holds `what`. */
  predicate HeldAt(l: EqLog, k: EqKey, what: Seen, age: int)
  {
    k in l.seen && l.seen[k] == what && 1 <= age <= |l.order| && l.order[|l.order| - age] == k
  }

  lemma InsertedIsNewest(l: EqLog, p: Presentation)
    requires Coherent(l) && p.key !in l.seen
    ensures HeldAt(Record(l, p), p.key, p.what, 1)
  {
    RecordShape(l, p);
    if l.maxEntries > 0 && |l.order| == l.maxEntries {
      assert l.order[0] in l.order;
    }
  }

  lemma HeldAges(l: EqLog, p: Presentation, k: EqKey, what: Seen, age: int)
    requires Coherent(l) && HeldAt(l, k, what, age)
    requires p.key !in l.seen && l.maxEntries > 0 ==> age < l.maxEntries
    ensures HeldAt(Record(l, p), k, what, if p.key in l.seen then age else age + 1)
  {
    RecordShape(l, p);
    if p.key !in l.seen && l.maxEntries > 0 && |l.order| == l.maxEntries {
      assert l.order[0] != l.order[|l.order| - age];
    }
  }

  /** A key inserted at step `j` is still held, with its first presentation, until `maxEntries`
      further keys have been inserted. */
  lemma {:induction false} HeldWithinWindow(l: EqLog, ps: seq<Presentation>, j: nat)
    requires Coherent(l) && j < |ps| && ps[j].key !in RecordAll(l, ps[..j]).seen
    requires l.maxEntries <= 0 || Inserts(l, ps) - Inserts(l, ps[..j]) <= l.maxEntries
    ensures var r := RecordAll(l, ps);
            HeldAt(r, ps[j].key, ps[j].what, Inserts(l, ps) - Inserts(l, ps[..j]))
    decreases |ps|
  {
    hide *;
    var n := |ps| - 1;
    var before, p := RecordAll(l, ps[..n]), ps[n];
    RunStep(l, ps);
    RecordAllCoherent(l, ps[..n]);
    if j < n {
      assert ps[..n][..j] == ps[..j];
      HeldWithinWindow(l, ps[..n], j);
      HeldAges(before, p, ps[j].key, ps[j].what, Inserts(l, ps[..n]) - Inserts(l, ps[..j]));
    } else {
      InsertedIsNewest(before, p);
    }
  }

  /** The last step of a run. */
  lemma RunStep(l: EqLog, ps: seq<Presentation>)
    requires ps != []
    ensures var before, p := RecordAll(l, ps[..|ps| - 1]), ps[|ps| - 1];
            && RecordAll(l, ps) == Record(before, p)
            && Inserts(l, ps) == Inserts(l, ps[..|ps| - 1]) + (if p.key in before.seen then 0 else 1)
  {
    hide Record;
  }

  /** Refinement: as long as at most `maxEntries` keys were inserted from the key's first
      presentation on, the bounded log answers exactly as the unbounded table. */
  lemma BoundedRefinesUnbounded(max: int, ps: seq<Presentation>, p: Presentation)
    requires var i := FirstSeen(ps, p.key);
             i < |ps| && max > 0 ==>
               Inserts(EmptyLog(max), ps) - Inserts(EmptyLog(max), ps[..i]) <= max
    ensures Conflicts(RecordAll(EmptyLog(max), ps), p) <==> UnboundedConflict(ps, p)
  {
    var l := EmptyLog(max);
    EmptyIsCoherent(max);
    hide RecordAll, Inserts, EmptyLog, Coherent, FirstSeen;
    var i := FirstSeen(ps, p.key);
    if i < |ps| {
      UnseenIsNotHeld(max, ps, i, p.key);
      HeldWithinWindow(l, ps, i);
    } else {
      assert ps[..i] == ps;
      UnseenIsNotHeld(max, ps, i, p.key);
    }
  }

  lemma EmptyIsCoherent(max: int)
    ensures Coherent(EmptyLog(max)) && EmptyLog(max).maxEntries == max
  {
  }

  lemma UnseenIsNotHeld(max: int, ps: seq<Presentation>, i: nat, k: EqKey)
    requires i <= |ps| && forall j :: 0 <= j < i ==> ps[j].key != k
    ensures k !in RecordAll(EmptyLog(max), ps[..i]).seen
  {
    hide RecordAll, EmptyLog;
    HeldWasPresented(max, ps[..i], k);
  }

  // ----- What the bounded log holds, exactly -----

  /** The step at which `k` was last inserted; |ps| if it never was. */
  function LastInsert(l: EqLog, ps: seq<Presentation>, k: EqKey): (j: nat)
    ensures j <= |ps|
  {
    if ps == [] then 0
    else
      var n := |ps| - 1;
      if ps[n].key == k && k !in RecordAll(l, ps[..n]).seen then n
      else
        var j := LastInsert(l, ps[..n], k);
        if j < n then j else |ps|
  }

  /** From step `j` on at most `maxEntries` keys were inserted. */
  predicate WithinWindow(l: EqLog, ps: seq<Presentation>, j: nat)
    requires j <= |ps|
  {
    l.maxEntries <= 0 || Inserts(l, ps) - Inserts(l, ps[..j]) <= l.maxEntries
  }

  /** A key at the front of a full queue goes with the next insertion. */
  lemma OldestGoes(l: EqLog, p: Presentation, k: EqKey, what: Seen)
    requires Coherent(l) && l.maxEntries > 0 && HeldAt(l, k, what, l.maxEntries) && p.key !in l.seen
    ensures k !in Record(l, p).seen
  {
    RecordShape(l, p);
  }

  lemma NewOthersStayOut(l: EqLog, p: Presentation, k: EqKey)
    requires Coherent(l) && k !in l.seen && p.key != k
    ensures k !in Record(l, p).seen
  {
    RecordShape(l, p);
  }

  /** A key is held exactly within the window of its last insertion, with what was presented then. */
  lemma {:induction false} HeldExactly(l: EqLog, ps: seq<Presentation>, k: EqKey)
    requires Coherent(l) && l.seen == map[]
    ensures var j, r := LastInsert(l, ps, k), RecordAll(l, ps);
            && (k in r.seen <==> j < |ps| && WithinWindow(l, ps, j))
            && (j < |ps| ==> ps[j].key == k && k !in RecordAll(l, ps[..j]).seen)
            && (k in r.seen ==> r.seen[k] == ps[j].what)
    decreases |ps|
  {
    if ps != [] {
      hide RecordAll, Inserts, Coherent, HeldAt, WithinWindow;
      var n := |ps| - 1;
      var before, p, j := RecordAll(l, ps[..n]), ps[n], LastInsert(l, ps, k);
      HeldExactly(l, ps[..n], k);
      RunStep(l, ps);
      RecordAllCoherent(l, ps[..n]);
      if j < n {
        assert ps[..n][..j] == ps[..j];
        HeldNext(l, ps, k, j);
      } else if j == n {
        InsertedIsNewest(before, p);
        NewestHeld(l, ps, k);
      } else if p.key != k {
        NewOthersStayOut(before, p, k);
      }
    }
  }

  lemma NewestHeld(l: EqLog, ps: seq<Presentation>, k: EqKey)
    requires ps != [] && ps[|ps| - 1].key == k && k !in RecordAll(l, ps[..|ps| - 1]).seen
    requires HeldAt(RecordAll(l, ps), k, ps[|ps| - 1].what, 1)
    ensures WithinWindow(l, ps, |ps| - 1)
    ensures k in RecordAll(l, ps).seen && RecordAll(l, ps).seen[k] == ps[|ps| - 1].what
  {
    RunStep(l, ps);
    hide RecordAll, Inserts;
  }

  /** One step of `HeldExactly`, for a key inserted before it. */
  lemma HeldNext(l: EqLog, ps: seq<Presentation>, k: EqKey, j: nat)
    requires Coherent(l) && ps != [] && j < |ps| - 1
    requires ps[j].key == k && k !in RecordAll(l, ps[..j]).seen
    requires ps[|ps| - 1].key == k ==> k in RecordAll(l, ps[..|ps| - 1]).seen
    requires k in RecordAll(l, ps[..|ps| - 1]).seen <==> WithinWindow(l, ps[..|ps| - 1], j)
    ensures k in RecordAll(l, ps).seen <==> WithinWindow(l, ps, j)
    ensures k in RecordAll(l, ps).seen ==> RecordAll(l, ps).seen[k] == ps[j].what
  {
    hide *;
    var n := |ps| - 1;
    RunStep(l, ps);
    RecordAllCoherent(l, ps[..n]);
    assert ps[..n][..j] == ps[..j];
    WindowNext(l, ps, j);
    if WithinWindow(l, ps, j) {
      HeldInWindow(l, ps, j);
    } else if WithinWindow(l, ps[..n], j) {
      HeldWithinWindow(l, ps[..n], j);
      OldestGoes(RecordAll(l, ps[..n]), ps[n], k, ps[j].what);
    } else {
      NewOthersStayOut(RecordAll(l, ps[..n]), ps[n], k);
    }
  }

  lemma HeldInWindow(l: EqLog, ps: seq<Presentation>, j: nat)
    requires Coherent(l) && j < |ps| && ps[j].key !in RecordAll(l, ps[..j]).seen && WithinWindow(l, ps, j)
    ensures ps[j].key in RecordAll(l, ps).seen && RecordAll(l, ps).seen[ps[j].key] == ps[j].what
  {
    hide RecordAll, Inserts, Coherent;
    HeldWithinWindow(l, ps, j);
  }

  /** The window from `j` on only fills up, by one for each new key. */
  lemma WindowNext(l: EqLog, ps: seq<Presentation>, j: nat)
    requires j < |ps|
    ensures var n := |ps| - 1;
            var before := RecordAll(l, ps[..n]);
            && ps[..n][..j] == ps[..j]
            && (WithinWindow(l, ps, j) ==> WithinWindow(l, ps[..n], j))
            && (!WithinWindow(l, ps, j) && WithinWindow(l, ps[..n], j) ==>
                  && l.maxEntries > 0 && ps[n].key !in before.seen
                  && Inserts(l, ps[..n]) - Inserts(l, ps[..j]) == l.maxEntries)
  {
    RunStep(l, ps);
    assert ps[..|ps| - 1][..j] == ps[..j];
    hide RecordAll, Inserts;
  }

  /** The verdict, exactly: a conflict is reported if and only if the key's last insertion is within the
      window and something else was presented then. */
  lemma VerdictExactly(max: int, ps: seq<Presentation>, p: Presentation)
    ensures var l := EmptyLog(max);
            var j := LastInsert(l, ps, p.key);
            Conflicts(RecordAll(l, ps), p) <==> j < |ps| && WithinWindow(l, ps, j) && ps[j].what != p.what
  {
    EmptyIsCoherent(max);
    assert EmptyLog(max).seen == map[];
    hide RecordAll, EmptyLog, WithinWindow, LastInsert, Coherent;
    HeldExactly(EmptyLog(max), ps, p.key);
  }

  /** Refinement, exactly. For a key the log answers every later presentation as the unbounded table does
      if and only if the key was never presented, or its last insertion is within the window and held the
      same as its first presentation. */
  lemma RefinesExactly(max: int, ps: seq<Presentation>, k: EqKey)
    ensures var l := EmptyLog(max);
            var i, j := FirstSeen(ps, k), LastInsert(l, ps, k);
            (forall what :: Conflicts(RecordAll(l, ps), Presentation(k, what))
                            <==> UnboundedConflict(ps, Presentation(k, what)))
            <==> i == |ps| || (j < |ps| && WithinWindow(l, ps, j) && ps[j].what == ps[i].what)
  {
    var l := EmptyLog(max);
    var i, j := FirstSeen(ps, k), LastInsert(l, ps, k);
    forall what
      ensures Conflicts(RecordAll(l, ps), Presentation(k, what))
         <==> j < |ps| && WithinWindow(l, ps, j) && ps[j].what != what
    {
      VerdictExactly(max, ps, Presentation(k, what));
    }
    InsertedIsPresented(max, ps, k);
    hide RecordAll, EmptyLog, WithinWindow, LastInsert, FirstSeen, Conflicts;
    if i < |ps| {
      var other := Seen(ps[i].what.hlc + ['\0'], ps[i].what.txHash);
      assert other != ps[i].what;
      assert UnboundedConflict(ps, Presentation(k, other));
      assert !UnboundedConflict(ps, Presentation(k, ps[i].what));
    }
  }

  lemma InsertedIsPresented(max: int, ps: seq<Presentation>, k: EqKey)
    ensures LastInsert(EmptyLog(max), ps, k) < |ps| ==> FirstSeen(ps, k) < |ps|
  {
    EmptyIsCoherent(max);
    assert EmptyLog(max).seen == map[];
    hide RecordAll, EmptyLog, LastInsert, FirstSeen;
    HeldExactly(EmptyLog(max), ps, k);
  }

  /** A key presented at one step only was last inserted there, so for it the condition is the window
      since that step. */
  lemma {:induction false} PresentedOnce(max: int, ps: seq<Presentation>, i: nat)
    requires i < |ps| && forall j :: 0 <= j < |ps| && j != i ==> ps[j].key != ps[i].key
    ensures LastInsert(EmptyLog(max), ps, ps[i].key) == i == FirstSeen(ps, ps[i].key)
    decreases |ps|
  {
    var n, k := |ps| - 1, ps[i].key;
    if i == n {
      UnseenIsNotHeld(max, ps, n, k);
    } else {
      assert ps[..n][i] == ps[i];
      PresentedOnce(max, ps[..n], i);
    }
    hide RecordAll, EmptyLog;
  }

  /** Past the window the log forgets: with room for one key, a second key evicts the first,
      and a conflicting presentation of the first key goes unnoticed. */
  lemma EvictionForgets(a: EqKey, b: EqKey, x: Seen, y: Seen)
    requires a != b && x != y
    ensures var ps := [Presentation(a, x), Presentation(b, x)];
            UnboundedConflict(ps, Presentation(a, y)) && !Conflicts(RecordAll(EmptyLog(1), ps), Presentation(a, y))
  {
    var ps := [Presentation(a, x), Presentation(b, x)];
    assert ps[..1] == [Presentation(a, x)] && ps[..1][..0] == [];
    var l := RecordAll(EmptyLog(1), ps[..1]);
    assert RecordAll(EmptyLog(1), []) == EmptyLog(1);
    assert l == Record(EmptyLog(1), ps[0]);
    RecordShape(EmptyLog(1), ps[0]);
    assert l == EqLog(1, map[a := x], [a], 0);
    RecordShape(l, ps[1]);
    assert FirstSeen(ps, a) == 0;
  }
}
