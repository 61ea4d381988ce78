/** Hybrid logical clocks (internal/hlc/hlc.go): 18-byte values compared as byte strings. */
module Hlc {
  import opened Basics
  import opened ByteStrings

  const SIZE := 18

  /** 60 seconds in nanoseconds. */
  const PARTITION_WINDOW: nat := 60 * 1_000_000_000

  type HLC = Bytes

  const ZERO: HLC := Zeros(SIZE)

  datatype Result<+T> = Ok(value: T) | BadSize

  // ----- Fields -----

  function Wall(h: HLC): (n: nat)
    requires |h| == SIZE
  {
    FromBigEndian(h[..8])
  }

  function Reserved(h: HLC): nat
    requires |h| == SIZE
  {
    FromBigEndian(h[8..16])
  }

  function Counter(h: HLC): nat
    requires |h| == SIZE
  {
    FromBigEndian(h[16..])
  }

  /** The value the operations write: wall, eight reserved zero bytes, counter. Both fields wrap. */
  function Make(wall: nat, counter: nat): (h: HLC)
    ensures |h| == SIZE
  {
    BigEndian(wall, 8) + Zeros(8) + BigEndian(counter, 2)
  }

  /** A value this package writes. */
  predicate Clean(h: HLC)
  {
    |h| == SIZE && Reserved(h) == 0
  }

  /** Where a clean value lies in clock order: 65536 counter steps to the nanosecond. */
  function Position(h: HLC): nat
    requires |h| == SIZE
  {
    Wall(h) * 0x1_0000 + Counter(h)
  }

  const MAX_COUNTER := 0xFFFF

  // ----- Operations -----

  /** FromProto: an absent value is Zero, any other length than 18 an error. */
  function FromProto(b: Bytes): Result<HLC>
  {
    if b == [] then Ok(ZERO) else if |b| != SIZE then BadSize else Ok(b)
  }

  /** One past a value whose wall is kept: the counter, or on overflow the wall. */
  function Bump(wall: nat, counter: nat): HLC
  {
    if counter == MAX_COUNTER then Make(wall + 1, 0) else Make(wall, counter + 1)
  }

  /** Tick. `now` is the wall clock as an unsigned 64-bit nanosecond count; an empty `last` stands
      for Go's empty non-nil slice, which takes the first branch. */
  function Tick(last: HLC, now: nat): Result<HLC>
    requires now < TWO_64
  {
    if last != [] && |last| != SIZE then BadSize
    else if last == [] then Ok(Make(now, 0))
    else if Wall(last) >= now then Ok(Bump(Wall(last), Counter(last)))
    else if Counter(last) > 0 && now - Wall(last) <= PARTITION_WINDOW then Ok(Bump(now, Counter(last)))
    else Ok(Make(now, 0))
  }

  function WallOrZero(h: HLC): nat
    requires h == [] || |h| == SIZE
  {
    if h == [] then 0 else Wall(h)
  }

  function CounterOrZero(h: HLC): nat
    requires h == [] || |h| == SIZE
  {
    if h == [] then 0 else Counter(h)
  }

  /** Observe. */
  function Observe(last: HLC, remote: HLC, now: nat): Result<HLC>
    requires now < TWO_64
  {
    if (last != [] && |last| != SIZE) || (remote != [] && |remote| != SIZE) then BadSize
    else
      var lw, rw := WallOrZero(last), WallOrZero(remote);
      var lc, rc := CounterOrZero(last), CounterOrZero(remote);
      var max := Max(now, Max(lw, rw));
      if max == rw && rw == lw then Ok(Bump(max, Max(lc, rc)))
      else if max == rw then Ok(Bump(max, rc))
      else if max == lw then Ok(Bump(max, lc))
      else Ok(Make(max, 0))
  }

  // ----- Byte order is clock order -----

  lemma {:induction false} ZerosAreZero(n: nat)
    ensures FromBigEndian(Zeros(n)) == 0
  {
    if n > 0 {
      assert Zeros(n)[..n - 1] == Zeros(n - 1);
      ZerosAreZero(n - 1);
    }
  }

  lemma MakeFields(wall: nat, counter: nat)
    requires wall < TWO_64 && counter <= MAX_COUNTER
    ensures Wall(Make(wall, counter)) == wall && Counter(Make(wall, counter)) == counter
    ensures Reserved(Make(wall, counter)) == 0
  {
    var h := Make(wall, counter);
    assert h[..8] == BigEndian(wall, 8) && h[8..16] == Zeros(8) && h[16..] == BigEndian(counter, 2);
    Pow256Values();
    BigEndianRoundTrip(wall, 8);
    BigEndianRoundTrip(counter, 2);
    ZerosAreZero(8);
  }

  lemma FieldBounds(h: HLC)
    requires |h| == SIZE
    ensures Wall(h) < TWO_64 && Counter(h) <= MAX_COUNTER && Reserved(h) < TWO_64
  {
    Pow256Values();
    FromBigEndianBound(h[..8]);
    FromBigEndianBound(h[8..16]);
    FromBigEndianBound(h[16..]);
  }

  /** The 18 bytes read as one number. */
  lemma NumericValue(h: HLC)
    requires |h| == SIZE
    ensures FromBigEndian(h) == Wall(h) * Pow256(10) + (Reserved(h) * 0x1_0000 + Counter(h))
    ensures Reserved(h) * 0x1_0000 + Counter(h) < Pow256(10)
  {
    hide FromBigEndian, Pow256;
    Pow256Values();
    ThreeFields(h);
    FromBigEndianConcat(h[..8], h[8..]);
    FromBigEndianConcat(h[8..16], h[16..]);
    FromBigEndianBound(h[8..]);
  }

  lemma ThreeFields(h: HLC)
    requires |h| == SIZE
    ensures h == h[..8] + h[8..] && h[8..] == h[8..16] + h[16..]
  {
  }

  /** Compare: byte order of two 18-byte values is the lexicographic order of wall, reserved bytes
      and counter. */
  lemma CompareIsLexicographic(a: HLC, b: HLC)
    requires |a| == SIZE && |b| == SIZE
    ensures Less(a, b) <==>
              || Wall(a) < Wall(b)
              || (Wall(a) == Wall(b) && Reserved(a) < Reserved(b))
              || (Wall(a) == Wall(b) && Reserved(a) == Reserved(b) && Counter(a) < Counter(b))
  {
    LessIsNumeric(a, b);
    NumericValue(a);
    NumericValue(b);
    FieldBounds(a);
    FieldBounds(b);
    LeadingDigit(Wall(a), Wall(b), Reserved(a) * 0x1_0000 + Counter(a), Reserved(b) * 0x1_0000 + Counter(b),
                 Pow256(10));
  }

  /** Clean values compare by position, and a position determines the value. */
  lemma ComparePositions(a: HLC, b: HLC)
    requires Clean(a) && Clean(b)
    ensures Less(a, b) <==> Position(a) < Position(b)
    ensures a == b <==> Position(a) == Position(b)
  {
    CompareIsLexicographic(a, b);
    FieldBounds(a);
    FieldBounds(b);
    LessIsNumeric(a, b);
    NumericValue(a);
    NumericValue(b);
  }

  lemma ZeroIsClean()
    ensures Clean(ZERO) && Position(ZERO) == 0
  {
    assert ZERO[..8] == Zeros(8) && ZERO[8..16] == Zeros(8) && ZERO[16..] == Zeros(2);
    ZerosAreZero(8);
    ZerosAreZero(2);
  }

  /** A bump moves one position on, unless the wall wraps. */
  lemma BumpIsNext(wall: nat, counter: nat)
    requires wall < TWO_64 && counter <= MAX_COUNTER && (wall < TWO_64 - 1 || counter < MAX_COUNTER)
    ensures Clean(Bump(wall, counter)) && Position(Bump(wall, counter)) == wall * 0x1_0000 + counter + 1
  {
    if counter == MAX_COUNTER {
      MakeFields(wall + 1, 0);
    } else {
      MakeFields(wall, counter + 1);
    }
  }

  /** The last value there is. */
  predicate AtEnd(h: HLC)
    requires |h| == SIZE
  {
    Wall(h) == TWO_64 - 1 && Counter(h) == MAX_COUNTER
  }

  /** The counter overflows into a wall that is already at the top of its range. */
  predicate TickOverflows(last: HLC, now: nat)
    requires |last| == SIZE
  {
    && Counter(last) == MAX_COUNTER
    && ((Wall(last) >= now && Wall(last) == TWO_64 - 1)
        || (Wall(last) < now == TWO_64 - 1 && now - Wall(last) <= 60_000_000_000))
  }

  /** A bump past the top gives the smallest value. */
  lemma BumpWraps()
    ensures Bump(TWO_64 - 1, MAX_COUNTER) == ZERO
  {
    Pow256Values();
    PowerWrapsToZero(8);
    assert Make(TWO_64, 0) == Make(0, 0);
    ZeroBytes(8);
    ZeroBytes(2);
    assert Make(0, 0) == ZERO;
  }

  lemma {:induction false} ZeroBytes(k: nat)
    ensures BigEndian(0, k) == Zeros(k)
  {
    if k > 0 {
      ZeroBytes(k - 1);
      assert Zeros(k) == Zeros(k - 1) + ['\0'];
    }
  }

  /** What Tick makes: the next position if the wall is not behind the clock; at the clock, the counter goes on
      after a lag of at most a minute, where it is not zero, and starts again otherwise. */
  lemma TickPosition(last: HLC, now: nat)
    requires Clean(last) && now < TWO_64
    ensures Tick(last, now).Ok?
    ensures var h := Tick(last, now).value;
            if TickOverflows(last, now) then h == ZERO
            else
              && Clean(h)
              && Position(h) == (if Wall(last) >= now then Position(last) + 1
                                 else if Counter(last) > 0 && now - Wall(last) <= 60_000_000_000
                                 then now * 0x1_0000 + Counter(last) + 1
                                 else now * 0x1_0000)
  {
    FieldBounds(last);
    BumpWraps();
    MakeFields(now, 0);
    hide Make, Bump, Wall, Counter;
    if Wall(last) >= now {
      if !TickOverflows(last, now) {
        BumpIsNext(Wall(last), Counter(last));
      }
    } else if Counter(last) > 0 && now - Wall(last) <= PARTITION_WINDOW {
      if !TickOverflows(last, now) {
        BumpIsNext(now, Counter(last));
      }
    }
  }

  /** Tick: strictly later than `last`, never behind either wall, and at most one position past the
      later of `last` and the end of the current nanosecond, through every branch, as long as the wall
      does not overflow. */
  lemma TickAdvances(last: HLC, now: nat)
    requires Clean(last) && now < TWO_64 && !TickOverflows(last, now)
    ensures Tick(last, now).Ok?
    ensures var h := Tick(last, now).value;
            && Clean(h) && Less(last, h)
            && Wall(h) >= now && Wall(h) >= Wall(last)
            && Position(h) <= Max(Position(last), now * 0x1_0000 + MAX_COUNTER) + 1
  {
    var h := Tick(last, now).value;
    TickPosition(last, now);
    FieldBounds(last);
    FieldBounds(h);
    ComparePositions(last, h);
    hide Tick, Wall, Counter, Less;
  }

  /** At the top of the range the order is lost: Tick fails to exceed `last` exactly when the counter
      overflows into a wall that is at its maximum, and then it starts again from zero. */
  lemma WallWraps(last: HLC, now: nat)
    requires Clean(last) && now < TWO_64
    ensures !Less(last, Tick(last, now).value) <==> TickOverflows(last, now)
    ensures TickOverflows(last, now) ==> Tick(last, now).value == ZERO
  {
    TickPosition(last, now);
    if TickOverflows(last, now) {
      ZeroIsClean();
      ComparePositions(last, ZERO);
    } else {
      TickAdvances(last, now);
    }
    hide Tick, Less, Wall, Counter;
  }

  /** What Observe makes: one past the latest of the three, or the bare clock. */
  lemma ObservePosition(last: HLC, remote: HLC, now: nat)
    requires |last| == SIZE && |remote| == SIZE && now < TWO_64
    ensures Observe(last, remote, now).Ok?
    ensures var h, latest := Observe(last, remote, now).value, Max(Position(last), Position(remote));
            if AtEnd(last) || AtEnd(remote) then h == ZERO
            else Clean(h) && Position(h) == if Max(Wall(last), Wall(remote)) >= now then latest + 1 else now * 0x1_0000
  {
    FieldBounds(last);
    FieldBounds(remote);
    BumpWraps();
    MakeFields(now, 0);
    var lw, rw, lc, rc := Wall(last), Wall(remote), Counter(last), Counter(remote);
    var max, c := Max(now, Max(lw, rw)), if rw == lw then Max(lc, rc) else if rw > lw then rc else lc;
    assert max > Max(lw, rw) || Observe(last, remote, now) == Ok(Bump(max, c));
    hide Make, Bump, Wall, Counter, Observe;
    if max == Max(lw, rw) && !AtEnd(last) && !AtEnd(remote) {
      BumpIsNext(max, c);
    }
  }

  /** Observe: strictly later than `last`, never behind any of the three walls, and at most one
      position past the latest of them, as long as neither value is the last there is. It exceeds
      `remote` exactly when the wall moved past the remote one or the remote reserved bytes are zero, as
      they are in every value made here. */
  lemma ObserveAdvances(last: HLC, remote: HLC, now: nat)
    requires Clean(last) && |remote| == SIZE && now < TWO_64 && !AtEnd(last) && !AtEnd(remote)
    ensures Observe(last, remote, now).Ok?
    ensures var h := Observe(last, remote, now).value;
            && Clean(h) && Less(last, h)
            && Wall(h) >= now && Wall(h) >= Wall(last) && Wall(h) >= Wall(remote)
            && Position(h) <= Max(Max(Position(last), Position(remote)) + 1, now * 0x1_0000)
            && (Less(remote, h) <==> Wall(h) > Wall(remote) || Reserved(remote) == 0)
  {
    var h := Observe(last, remote, now).value;
    ObservePosition(last, remote, now);
    FieldBounds(last);
    FieldBounds(remote);
    FieldBounds(h);
    ComparePositions(last, h);
    CompareIsLexicographic(remote, h);
    hide Observe, Wall, Counter, Reserved, Less;
  }

  /** Observe fails to exceed `last` exactly when one of the two is the last value there is; then it
      starts again from zero and exceeds neither. */
  lemma ObserveWraps(last: HLC, remote: HLC, now: nat)
    requires Clean(last) && |remote| == SIZE && now < TWO_64
    ensures var h := Observe(last, remote, now).value;
            && (!Less(last, h) <==> AtEnd(last) || AtEnd(remote))
            && (AtEnd(last) || AtEnd(remote) ==> h == ZERO && !Less(remote, h))
  {
    ObservePosition(last, remote, now);
    if AtEnd(last) || AtEnd(remote) {
      ZeroIsClean();
      FieldBounds(ZERO);
      ComparePositions(last, ZERO);
      CompareIsLexicographic(remote, ZERO);
    } else {
      ObserveAdvances(last, remote, now);
    }
    hide Observe, Wall, Counter, Less;
  }

  /** 256^k does not fit `k` bytes and is written as zero. */
  lemma {:induction false} PowerWrapsToZero(k: nat)
    ensures BigEndian(Pow256(k), k) == BigEndian(0, k)
  {
    if k > 0 {
      PowerWrapsToZero(k - 1);
      assert Pow256(k) / 256 == Pow256(k - 1) && Pow256(k) % 256 == 0;
    }
  }
}
