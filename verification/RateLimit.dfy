/** The per-steward token bucket (internal/ratelimit/ratelimit.go), over real numbers. */
module RateLimit {
  import opened ByteStrings

  datatype Key = Key(group: Bytes32, steward: Bytes32)

  datatype Tokens = Tokens(tokens: real, last: real)

  /** The tokens that `elapsed` seconds are worth. */
  function Earned(rate: real, elapsed: real): real
  {
    elapsed * rate
  }

  function Refill(b: Tokens, rate: real, burst: real, now: real): Tokens
  {
    if now - b.last > 0.0 then
      var t := b.tokens + Earned(rate, now - b.last);
      Tokens(if t > burst then burst else t, now)
    else b
  }

  function Take(b: Tokens): Tokens
  {
    if b.tokens >= 1.0 then b.(tokens := b.tokens - 1.0) else b
  }

  // ----- Bucket -----

  class Bucket {
    const rate: real
    const burst: real
    var tokens: real
    var last: real

    function Value(): Tokens
      reads this
    {
      Tokens(tokens, last)
    }

    /** NewBucket: full, as of its creation. */
    constructor (rate: real, burst: real, now: real)
      ensures this.rate == rate && this.burst == burst && Value() == Tokens(burst, now)
    {
      this.rate, this.burst, tokens, last := rate, burst, burst, now;
    }

    method Allow(now: real) returns (ok: bool)
      modifies this
      ensures var r := Refill(old(Value()), rate, burst, now);
              ok == (r.tokens >= 1.0) && Value() == Take(r)
    {
      var elapsed := now - last;
      if elapsed > 0.0 {
        tokens := tokens + elapsed * rate;
        if tokens > burst {
          tokens := burst;
        }
        last := now;
      }
      if tokens >= 1.0 {
        tokens := tokens - 1.0;
        return true;
      }
      return false;
    }

    /** Tokens also refills. */
    method CurrentTokens(now: real) returns (n: real)
      modifies this
      ensures Value() == Refill(old(Value()), rate, burst, now) && n == tokens
    {
      var elapsed := now - last;
      if elapsed > 0.0 {
        tokens := tokens + elapsed * rate;
        if tokens > burst {
          tokens := burst;
        }
        last := now;
      }
      return tokens;
    }
  }

  // ----- Limiter -----

  /** The clock readings one call of Limiter.Allow may take: creating the bucket, consuming a
      token, and estimating the wait. */
  datatype Clock = Clock(create: real, consume: real, estimate: real)

  /** What one call does to its bucket, and whether it is granted. */
  function Attempt(b: Tokens, rate: real, burst: real, c: Clock): (bool, Tokens)
  {
    var r := Refill(b, rate, burst, c.consume);
    if r.tokens >= 1.0 then (true, Take(r))
    else (false, if rate <= 0.0 then r else Refill(r, rate, burst, c.estimate))
  }

  function BucketOf(m: map<Key, Tokens>, k: Key, burst: real, c: Clock): Tokens
  {
    if k in m then m[k] else Tokens(burst, c.create)
  }

  /** retryAfter, in seconds: an hour without a refill rate, else the time to the next whole token. */
  function Wait(b: Tokens, rate: real): real
  {
    if rate <= 0.0 then 3600.0
    else if 1.0 - b.tokens <= 0.0 then 0.0
    else (1.0 - b.tokens) / rate
  }

  class Limiter {
    const rate: real
    const burst: real
    var buckets: map<Key, Bucket>

    ghost predicate Valid()
      reads this, buckets.Values
    {
      && (forall k <- buckets :: buckets[k].rate == rate && buckets[k].burst == burst)
      && forall j, k :: j in buckets && k in buckets && j != k ==> buckets[j] != buckets[k]
    }

    ghost function Value(): map<Key, Tokens>
      reads this, buckets.Values
    {
      map k | k in buckets :: buckets[k].Value()
    }

    constructor (rate: real, burst: real)
      ensures Valid() && Value() == map[] && this.rate == rate && this.burst == burst
    {
      this.rate, this.burst, buckets := rate, burst, map[];
    }

    /** Allow: create the bucket on first use, try to take a token, else estimate the wait. */
    method Allow(k: Key, c: Clock) returns (ok: bool, retryIn: real)
      requires Valid()
      modifies this, buckets.Values
      ensures Valid() && fresh(buckets.Values - old(buckets.Values))
      ensures var (granted, b) := Attempt(BucketOf(old(Value()), k, burst, c), rate, burst, c);
              && ok == granted && Value() == old(Value())[k := b]
              && (!ok ==> retryIn == Wait(b, rate))
    {
      if k !in buckets {
        Create(k, c.create);
      }
      label held:
      assert Value()[k] == BucketOf(old(Value()), k, burst, c);
      ok, retryIn := TryBucket(buckets[k], c);
      OneBucketChanged@held(k);
    }

    twostate lemma OneBucketChanged(k: Key)
      requires old(Valid()) && k in old(buckets) && buckets == old(buckets)
      requires forall j :: j in buckets && j != k ==> unchanged(buckets[j])
      ensures Valid() && Value() == old(Value())[k := buckets[k].Value()]
    {
    }

    method Create(k: Key, now: real)
      requires Valid() && k !in buckets
      modifies this
      ensures Valid() && fresh(buckets.Values - old(buckets.Values))
      ensures k in buckets && Value() == old(Value())[k := Tokens(burst, now)]
    {
      var b := new Bucket(rate, burst, now);
      buckets := buckets[k := b];
    }
  }

  method TryBucket(b: Bucket, c: Clock) returns (ok: bool, retryIn: real)
    modifies b
    ensures (ok, b.Value()) == Attempt(old(b.Value()), b.rate, b.burst, c)
    ensures !ok ==> retryIn == Wait(b.Value(), b.rate)
  {
    ok := b.Allow(c.consume);
    retryIn := 0.0;
    if !ok {
      retryIn := RetryAfter(b, c.estimate);
    }
  }

  method RetryAfter(b: Bucket, now: real) returns (wait: real)
    modifies b
    ensures b.Value() == if b.rate <= 0.0 then old(b.Value()) else Refill(old(b.Value()), b.rate, b.burst, now)
    ensures wait == Wait(b.Value(), b.rate)
  {
    if b.rate <= 0.0 {
      return 3600.0;
    }
    var tokens := b.CurrentTokens(now);
    var needed := 1.0 - tokens;
    if needed <= 0.0 {
      return 0.0;
    }
    return needed / b.rate;
  }

  // ----- Runs -----

  datatype Request = Request(key: Key, clock: Clock)

  function After(m: map<Key, Tokens>, rate: real, burst: real, rs: seq<Request>): map<Key, Tokens>
  {
    if rs == [] then m
    else
      var before, r := After(m, rate, burst, rs[..|rs| - 1]), rs[|rs| - 1];
      before[r.key := Attempt(BucketOf(before, r.key, burst, r.clock), rate, burst, r.clock).1]
  }

  predicate Granted(m: map<Key, Tokens>, rate: real, burst: real, r: Request)
  {
    Attempt(BucketOf(m, r.key, burst, r.clock), rate, burst, r.clock).0
  }

  /** Requests of `k` granted along the run. */
  function Grants(m: map<Key, Tokens>, rate: real, burst: real, rs: seq<Request>, k: Key): nat
  {
    if rs == [] then 0
    else
      var r := rs[|rs| - 1];
      Grants(m, rate, burst, rs[..|rs| - 1], k)
      + (if r.key == k && Granted(After(m, rate, burst, rs[..|rs| - 1]), rate, burst, r) then 1 else 0)
  }

  /** The requests for one key. */
  function Only(rs: seq<Request>, k: Key): seq<Request>
  {
    if rs == [] then []
    else Only(rs[..|rs| - 1], k) + (if rs[|rs| - 1].key == k then [rs[|rs| - 1]] else [])
  }

  /** Requests for other keys have no effect: the bucket of `k` and its grants are those of a limiter
      that saw only the requests of `k`. */
  lemma {:induction false} KeysAreIndependent(rate: real, burst: real, rs: seq<Request>, k: Key)
    ensures var all, own := After(map[], rate, burst, rs), After(map[], rate, burst, Only(rs, k));
            (k in all <==> k in own) && (k in all ==> all[k] == own[k])
    ensures Grants(map[], rate, burst, rs, k) == Grants(map[], rate, burst, Only(rs, k), k)
  {
    if rs != [] {
      var init, r := rs[..|rs| - 1], rs[|rs| - 1];
      KeysAreIndependent(rate, burst, init, k);
      if r.key == k {
        assert (Only(init, k) + [r])[..|Only(init, k)|] == Only(init, k);
      } else {
        assert Only(init, k) + [] == Only(init, k);
      }
    }
  }

  /** Every clock reading of the run lies between the two times. */
  predicate ReadingsWithin(rs: seq<Request>, earliest: real, latest: real)
  {
    forall i :: 0 <= i < |rs| ==>
      && earliest <= rs[i].clock.create <= latest
      && earliest <= rs[i].clock.consume <= latest
      && earliest <= rs[i].clock.estimate <= latest
  }

  /** Tokens, grants so far and elapsed time in balance. */
  predicate Balanced(b: Tokens, rate: real, burst: real, grants: nat, earliest: real, latest: real)
  {
    && 0.0 <= b.tokens <= burst && earliest <= b.last <= latest
    && b.tokens + grants as real <= burst + Earned(rate, b.last - earliest)
  }

  lemma RefillBalanced(b: Tokens, rate: real, burst: real, grants: nat, earliest: real, latest: real, now: real)
    requires rate >= 0.0 && burst >= 0.0 && now <= latest && Balanced(b, rate, burst, grants, earliest, latest)
    ensures Balanced(Refill(b, rate, burst, now), rate, burst, grants, earliest, latest)
  {
    EarnedAdds(rate, b.last - earliest, now - b.last);
    if now - b.last > 0.0 {
      EarnedGrows(rate, 0.0, now - b.last);
    }
    hide Earned;
  }

  lemma EarnedAdds(rate: real, x: real, y: real)
    ensures Earned(rate, x + y) == Earned(rate, x) + Earned(rate, y) && Earned(rate, 0.0) == 0.0
  {
  }

  lemma EarnedGrows(rate: real, x: real, y: real)
    requires rate >= 0.0 && x <= y
    ensures Earned(rate, x) <= Earned(rate, y) && Earned(rate, 0.0) == 0.0
  {
    EarnedAdds(rate, x, y - x);
  }

  lemma AttemptBalanced(b: Tokens, rate: real, burst: real, grants: nat, earliest: real, latest: real, c: Clock)
    requires rate >= 0.0 && burst >= 0.0 && c.consume <= latest && c.estimate <= latest
    requires Balanced(b, rate, burst, grants, earliest, latest)
    ensures var (ok, b') := Attempt(b, rate, burst, c);
            Balanced(b', rate, burst, if ok then grants + 1 else grants, earliest, latest)
  {
    RefillBalanced(b, rate, burst, grants, earliest, latest, c.consume);
    var r := Refill(b, rate, burst, c.consume);
    if r.tokens < 1.0 {
      RefillBalanced(r, rate, burst, grants, earliest, latest, c.estimate);
    }
  }

  lemma {:induction false} RunBalanced(rate: real, burst: real, rs: seq<Request>, k: Key, earliest: real, latest: real)
    requires rate >= 0.0 && burst >= 0.0 && ReadingsWithin(rs, earliest, latest)
    ensures var m, g := After(map[], rate, burst, rs), Grants(map[], rate, burst, rs, k);
            if k in m then Balanced(m[k], rate, burst, g, earliest, latest) else g == 0
  {
    if rs != [] {
      var init, r := rs[..|rs| - 1], rs[|rs| - 1];
      RunBalanced(rate, burst, init, k, earliest, latest);
      if r.key == k {
        KeyBalanced(After(map[], rate, burst, init), rate, burst, Grants(map[], rate, burst, init, k), r,
                    earliest, latest);
      }
    }
  }

  lemma KeyBalanced(
    m: map<Key, Tokens>, rate: real, burst: real, g: nat, r: Request, earliest: real, latest: real)
    requires rate >= 0.0 && burst >= 0.0 && ReadingsWithin([r], earliest, latest)
    requires if r.key in m then Balanced(m[r.key], rate, burst, g, earliest, latest) else g == 0
    ensures var (ok, b) := Attempt(BucketOf(m, r.key, burst, r.clock), rate, burst, r.clock);
            Balanced(b, rate, burst, if ok then g + 1 else g, earliest, latest)
  {
    assert ReadingsWithin([r], earliest, latest) ==> [r][0].clock.create <= latest;
    var b := BucketOf(m, r.key, burst, r.clock);
    EarnedGrows(rate, 0.0, r.clock.create - earliest);
    hide Earned;
    AttemptBalanced(b, rate, burst, g, earliest, latest, r.clock);
  }

  /** Token bucket bound. With rate and burst not negative, in any run of requests, even with a clock
      that steps back, the grants of one key never exceed the burst plus what the time from the
      earliest to the latest reading earns, and its tokens stay between 0 and burst. */
  lemma GrantsAreBounded(rate: real, burst: real, rs: seq<Request>, k: Key, earliest: real, latest: real)
    requires rate >= 0.0 && burst >= 0.0 && earliest <= latest && ReadingsWithin(rs, earliest, latest)
    ensures Grants(map[], rate, burst, rs, k) as real <= burst + rate * (latest - earliest)
    ensures var m := After(map[], rate, burst, rs); k in m ==> 0.0 <= m[k].tokens <= burst
  {
    RunBalanced(rate, burst, rs, k, earliest, latest);
    hide *;
    var m := After(map[], rate, burst, rs);
    Bounded(m, rate, burst, Grants(map[], rate, burst, rs, k), k, earliest, latest);
    EarnedIs(rate, latest - earliest);
  }

  lemma EarnedIs(rate: real, x: real)
    ensures Earned(rate, x) == rate * x
  {
  }

  lemma Bounded(m: map<Key, Tokens>, rate: real, burst: real, g: nat, k: Key, earliest: real, latest: real)
    requires rate >= 0.0 && burst >= 0.0 && earliest <= latest
    requires if k in m then Balanced(m[k], rate, burst, g, earliest, latest) else g == 0
    ensures g as real <= burst + Earned(rate, latest - earliest)
    ensures k in m ==> 0.0 <= m[k].tokens <= burst
  {
    EarnedGrows(rate, 0.0, latest - earliest);
    if k in m {
      EarnedGrows(rate, m[k].last - earliest, latest - earliest);
    }
    hide Earned;
  }

  /** The wait estimate is enough: a refused request is granted once the clock is that far past the
      bucket's last refill, exactly when the bucket can ever hold a whole token. */
  lemma WaitSuffices(b: Tokens, rate: real, burst: real, now: real)
    requires rate > 0.0 && burst >= 0.0 && 0.0 <= b.tokens <= burst
    requires now >= b.last + Wait(b, rate)
    ensures Refill(b, rate, burst, now).tokens >= 1.0 <==> burst >= 1.0
  {
    if b.tokens < 1.0 {
      var need := (1.0 - b.tokens) / rate;
      Quotient(1.0 - b.tokens, rate);
      EarnedGrows(rate, need, now - b.last);
      hide Earned;
    }
  }

  lemma Quotient(n: real, d: real)
    requires n > 0.0 && d > 0.0
    ensures n / d > 0.0 && Earned(d, n / d) == n
  {
  }

  /** And no more than needed: the next token is there exactly from the end of the wait on. */
  lemma WaitExactly(b: Tokens, rate: real, burst: real, now: real)
    requires rate > 0.0 && 1.0 <= burst && b.tokens <= burst && now >= b.last
    ensures Refill(b, rate, burst, now).tokens >= 1.0 <==> now - b.last >= Wait(b, rate)
  {
    if b.tokens < 1.0 {
      var need, elapsed := (1.0 - b.tokens) / rate, now - b.last;
      Quotient(1.0 - b.tokens, rate);
      if elapsed < need {
        EarnedStrictly(rate, elapsed, need);
      } else {
        EarnedGrows(rate, need, elapsed);
      }
    } else {
      EarnedGrows(rate, 0.0, now - b.last);
    }
    hide Earned;
  }

  lemma EarnedStrictly(rate: real, x: real, y: real)
    requires rate > 0.0 && x < y
    ensures Earned(rate, x) < Earned(rate, y)
  {
    EarnedAdds(rate, x, y - x);
    assert Earned(rate, y - x) > 0.0;
  }

  // ----- What is granted, exactly -----

  /** The clock does not step back. */
  predicate InOrder(rs: seq<Request>)
  {
    && (forall i :: 0 <= i < |rs| ==> rs[i].clock.create <= rs[i].clock.consume <= rs[i].clock.estimate)
    && forall i, j :: 0 <= i < j < |rs| ==> rs[i].clock.estimate <= rs[j].clock.create
  }

  /** Requests of `k` granted from the i-th request on. */
  function GrantsFrom(rate: real, burst: real, rs: seq<Request>, k: Key, i: nat): int
    requires i <= |rs|
  {
    Grants(map[], rate, burst, rs, k) - Grants(map[], rate, burst, rs[..i], k)
  }

  /** The tokens are what every earlier request leaves, and no less. */
  predicate Tight(b: Tokens, rate: real, burst: real, rs: seq<Request>, k: Key)
  {
    && b.tokens <= burst
    && (forall i :: 0 <= i < |rs| && rs[i].key == k ==> Leaves(b, rate, burst, rs, k, i) >= b.tokens)
    && (b.tokens == burst
        || exists i :: 0 <= i < |rs| && rs[i].key == k && Leaves(b, rate, burst, rs, k, i) == b.tokens)
  }

  /** What a bucket full at the i-th request holds now. */
  function Leaves(b: Tokens, rate: real, burst: real, rs: seq<Request>, k: Key, i: nat): real
    requires i < |rs|
  {
    burst + Earned(rate, b.last - rs[i].clock.consume) - GrantsFrom(rate, burst, rs, k, i) as real
  }

  lemma RefillTight(b: Tokens, rate: real, burst: real, rs: seq<Request>, k: Key, now: real)
    requires rate >= 0.0 && Tight(b, rate, burst, rs, k) && b.last <= now
    ensures Tight(Refill(b, rate, burst, now), rate, burst, rs, k) && Refill(b, rate, burst, now).last == now
  {
    var r := Refill(b, rate, burst, now);
    EarnedGrows(rate, 0.0, now - b.last);
    forall i | 0 <= i < |rs| && rs[i].key == k
      ensures Leaves(r, rate, burst, rs, k, i) == Leaves(b, rate, burst, rs, k, i) + Earned(rate, now - b.last)
    {
      EarnedAdds(rate, b.last - rs[i].clock.consume, now - b.last);
    }
    hide Earned, GrantsFrom, Leaves;
  }

  /** Another request: the earlier ones leave one token less if it is granted. */
  lemma LeavesNext(b: Tokens, rate: real, burst: real, rs: seq<Request>, r: Request, i: nat, t: real)
    requires i < |rs| && rs[i].key == r.key
    ensures var g := if Granted(After(map[], rate, burst, rs), rate, burst, r) then 1.0 else 0.0;
            Leaves(b.(tokens := t), rate, burst, rs + [r], r.key, i) == Leaves(b, rate, burst, rs, r.key, i) - g
  {
    assert (rs + [r])[..|rs|] == rs && (rs + [r])[..i] == rs[..i];
    hide Granted, After, Earned;
  }

  lemma LeavesOwn(b: Tokens, rate: real, burst: real, rs: seq<Request>, r: Request)
    requires b.last == r.clock.consume
    ensures var g := if Granted(After(map[], rate, burst, rs), rate, burst, r) then 1.0 else 0.0;
            Leaves(b, rate, burst, rs + [r], r.key, |rs|) == burst - g
  {
    assert (rs + [r])[..|rs|] == rs;
    EarnedAdds(rate, 0.0, 0.0);
    hide Granted, After, Earned;
  }

  lemma LeavesOther(b: Tokens, rate: real, burst: real, rs: seq<Request>, r: Request, k: Key, i: nat)
    requires i < |rs| && r.key != k
    ensures Leaves(b, rate, burst, rs + [r], k, i) == Leaves(b, rate, burst, rs, k, i)
  {
    assert (rs + [r])[..|rs|] == rs && (rs + [r])[..i] == rs[..i];
    hide Granted, After, Earned;
  }

  lemma TakeTight(b: Tokens, rate: real, burst: real, rs: seq<Request>, r: Request)
    requires Tight(b, rate, burst, rs, r.key) && b.last == r.clock.consume
    requires Granted(After(map[], rate, burst, rs), rate, burst, r) <==> b.tokens >= 1.0
    ensures Tight(Take(b), rate, burst, rs + [r], r.key)
  {
    var next, t := rs + [r], Take(b);
    LeavesOwn(t, rate, burst, rs, r);
    forall i | 0 <= i < |rs| && rs[i].key == r.key
      ensures next[i] == rs[i]
      ensures Leaves(t, rate, burst, next, r.key, i) == Leaves(b, rate, burst, rs, r.key, i) - (b.tokens - t.tokens)
    {
      LeavesNext(b, rate, burst, rs, r, i, t.tokens);
    }
    hide Leaves, Granted, After;
    assert next[|rs|] == r;
    if b.tokens != burst {
      var i :| 0 <= i < |rs| && rs[i].key == r.key && Leaves(b, rate, burst, rs, r.key, i) == b.tokens;
      assert next[i].key == r.key;
    }
  }

  lemma OtherTight(b: Tokens, rate: real, burst: real, rs: seq<Request>, r: Request, k: Key)
    requires Tight(b, rate, burst, rs, k) && r.key != k
    ensures Tight(b, rate, burst, rs + [r], k)
  {
    var next := rs + [r];
    forall i | 0 <= i < |rs|
      ensures next[i] == rs[i] && Leaves(b, rate, burst, next, k, i) == Leaves(b, rate, burst, rs, k, i)
    {
      LeavesOther(b, rate, burst, rs, r, k, i);
    }
    hide Leaves;
    if b.tokens != burst {
      var i :| 0 <= i < |rs| && rs[i].key == k && Leaves(b, rate, burst, rs, k, i) == b.tokens;
      assert next[i].key == k;
    }
  }

  predicate LastWithin(b: Tokens, rs: seq<Request>)
  {
    exists i :: 0 <= i < |rs| && b.last <= rs[i].clock.estimate
  }

  /** Tight, with no refill later than the last reading; no bucket without a request. */
  predicate TightAt(m: map<Key, Tokens>, rate: real, burst: real, rs: seq<Request>, k: Key)
  {
    if k in m then Tight(m[k], rate, burst, rs, k) && LastWithin(m[k], rs)
    else forall i :: 0 <= i < |rs| ==> rs[i].key != k
  }

  /** The bucket a request finds or creates. */
  lemma FoundTight(m: map<Key, Tokens>, rate: real, burst: real, rs: seq<Request>, r: Request)
    requires InOrder(rs + [r]) && TightAt(m, rate, burst, rs, r.key)
    ensures var b := BucketOf(m, r.key, burst, r.clock);
            Tight(b, rate, burst, rs, r.key) && b.last <= r.clock.consume
  {
    assert (rs + [r])[|rs|] == r;
    if r.key in m {
      var i :| 0 <= i < |rs| && m[r.key].last <= rs[i].clock.estimate;
      assert (rs + [r])[i] == rs[i];
    }
    hide Leaves;
  }

  lemma AttemptTight(b: Tokens, rate: real, burst: real, rs: seq<Request>, r: Request)
    requires rate >= 0.0 && InOrder(rs + [r]) && Tight(b, rate, burst, rs, r.key) && b.last <= r.clock.consume
    requires b == BucketOf(After(map[], rate, burst, rs), r.key, burst, r.clock)
    ensures var next := Attempt(b, rate, burst, r.clock).1;
            Tight(next, rate, burst, rs + [r], r.key) && LastWithin(next, rs + [r])
  {
    var full := Refill(b, rate, burst, r.clock.consume);
    RefillTight(b, rate, burst, rs, r.key, r.clock.consume);
    TakeTight(full, rate, burst, rs, r);
    assert (rs + [r])[|rs|] == r;
    if full.tokens < 1.0 {
      RefillTight(full, rate, burst, rs + [r], r.key, r.clock.estimate);
    }
    hide Tight, Refill, After;
  }

  lemma OtherTightAt(m: map<Key, Tokens>, rate: real, burst: real, rs: seq<Request>, r: Request, k: Key, b: Tokens)
    requires TightAt(m, rate, burst, rs, k) && r.key != k
    ensures TightAt(m[r.key := b], rate, burst, rs + [r], k)
  {
    if k in m {
      OtherTight(m[k], rate, burst, rs, r, k);
      var i :| 0 <= i < |rs| && m[k].last <= rs[i].clock.estimate;
      assert (rs + [r])[i] == rs[i];
    }
    hide Tight;
  }

  /** Every bucket is tight. */
  lemma {:induction false} RunTight(rate: real, burst: real, rs: seq<Request>, k: Key)
    requires rate >= 0.0 && InOrder(rs)
    ensures TightAt(After(map[], rate, burst, rs), rate, burst, rs, k)
  {
    if rs != [] {
      var init, r := rs[..|rs| - 1], rs[|rs| - 1];
      assert rs == init + [r];
      OrderedPrefix(init, r);
      RunTight(rate, burst, init, k);
      var m := After(map[], rate, burst, init);
      var b := BucketOf(m, r.key, burst, r.clock);
      hide Tight, Attempt, InOrder, BucketOf, LastWithin;
      if r.key == k {
        FoundTight(m, rate, burst, init, r);
        AttemptTight(b, rate, burst, init, r);
      } else {
        OtherTightAt(m, rate, burst, init, r, k, Attempt(b, rate, burst, r.clock).1);
      }
    }
  }

  lemma OrderedPrefix(rs: seq<Request>, r: Request)
    requires InOrder(rs + [r])
    ensures InOrder(rs)
  {
    assert forall i :: 0 <= i < |rs| ==> (rs + [r])[i] == rs[i];
  }

  /** With a rate not negative and a clock that does not step back, a request is granted exactly when the burst
      is at least one and, counted from each earlier request of its key, the grants since then and one more are
      within the burst and what the time since then earns. */
  lemma GrantedExactly(rate: real, burst: real, rs: seq<Request>, r: Request)
    requires rate >= 0.0 && InOrder(rs + [r])
    ensures Granted(After(map[], rate, burst, rs), rate, burst, r) <==>
              && 1.0 <= burst
              && forall i :: 0 <= i < |rs| && rs[i].key == r.key ==>
                   (GrantsFrom(rate, burst, rs, r.key, i) + 1) as real
                   <= burst + rate * (r.clock.consume - rs[i].clock.consume)
  {
    assert forall i :: 0 <= i < |rs| ==> (rs + [r])[i] == rs[i];
    RunTight(rate, burst, rs, r.key);
    var b := BucketOf(After(map[], rate, burst, rs), r.key, burst, r.clock);
    FoundTight(After(map[], rate, burst, rs), rate, burst, rs, r);
    RefillTight(b, rate, burst, rs, r.key, r.clock.consume);
    var full := Refill(b, rate, burst, r.clock.consume);
    assert Granted(After(map[], rate, burst, rs), rate, burst, r) <==> full.tokens >= 1.0;
    TightExactly(full, rate, burst, rs, r);
    hide Granted, After, Refill, Tight, BucketOf, GrantsFrom;
  }

  lemma TightExactly(b: Tokens, rate: real, burst: real, rs: seq<Request>, r: Request)
    requires Tight(b, rate, burst, rs, r.key) && b.last == r.clock.consume
    ensures b.tokens >= 1.0 <==>
              && 1.0 <= burst
              && forall i :: 0 <= i < |rs| && rs[i].key == r.key ==>
                   (GrantsFrom(rate, burst, rs, r.key, i) + 1) as real
                   <= burst + rate * (r.clock.consume - rs[i].clock.consume)
  {
    hide GrantsFrom;
  }

  /** The first requests of a key, as many as the burst allows, are granted at whatever times they come. */
  lemma BurstIsGranted(rate: real, burst: real, rs: seq<Request>, r: Request)
    requires rate >= 0.0 && InOrder(rs + [r])
    requires (|Only(rs, r.key)| + 1) as real <= burst
    ensures Granted(After(map[], rate, burst, rs), rate, burst, r)
  {
    hide *;
    GrantsWithinRequests(rate, burst, rs, r.key);
    forall i | 0 <= i < |rs| && rs[i].key == r.key
      ensures (GrantsFrom(rate, burst, rs, r.key, i) + 1) as real
              <= burst + rate * (r.clock.consume - rs[i].clock.consume)
    {
      NoEarlier(rs, r, i);
      GrantsFromAll(rate, burst, rs, r.key, i);
      WithinBurst(GrantsFrom(rate, burst, rs, r.key, i), |Only(rs, r.key)|, burst, rate,
                  r.clock.consume - rs[i].clock.consume);
    }
    assert 1.0 <= burst;
    GrantedExactly(rate, burst, rs, r);
  }

  lemma NoEarlier(rs: seq<Request>, r: Request, i: nat)
    requires InOrder(rs + [r]) && i < |rs|
    ensures rs[i].clock.consume <= r.clock.consume
  {
    assert (rs + [r])[|rs|] == r && (rs + [r])[i] == rs[i];
  }

  lemma GrantsFromAll(rate: real, burst: real, rs: seq<Request>, k: Key, i: nat)
    requires i <= |rs|
    ensures GrantsFrom(rate, burst, rs, k, i) <= Grants(map[], rate, burst, rs, k)
  {
    hide Grants;
  }

  lemma WithinBurst(g: int, n: int, burst: real, rate: real, x: real)
    requires g <= n && (n + 1) as real <= burst && rate >= 0.0 && x >= 0.0
    ensures (g + 1) as real <= burst + rate * x
  {
    assert rate * x >= 0.0;
  }

  lemma {:induction false} GrantsWithinRequests(rate: real, burst: real, rs: seq<Request>, k: Key)
    ensures Grants(map[], rate, burst, rs, k) <= |Only(rs, k)|
  {
    if rs != [] {
      GrantsWithinRequests(rate, burst, rs[..|rs| - 1], k);
    }
    hide Granted, After;
  }
}
