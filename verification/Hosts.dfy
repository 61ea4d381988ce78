/** Hosts driving their clocks over an unreliable network (sim/host.go). */
module Hosts {
  import opened Basics
  import opened ByteStrings
  import opened Hlc

  const TWO_63: nat := 0x8000_0000_0000_0000

  /** `time.Unix(0, int64(ns))`: walls of 2^63 and more read as negative times. */
  function SignedWall(h: HLC): int
    requires |h| == SIZE
  {
    if Wall(h) < TWO_63 then Wall(h) else Wall(h) - TWO_64
  }

  /** Deliver's drift check. */
  predicate TooFarAhead(remote: HLC, now: nat, limit: nat)
    requires |remote| == SIZE
  {
    SignedWall(remote) > now + limit
  }

  // ----- One host -----

  const DEFAULT_DRIFT: nat := 60 * 1_000_000_000

  /** Host, as far as its clock is concerned. The group state machine appears as the verdict of
      Apply; a nil cursor reads as the zero clock. */
  class Host {
    var hlcCursor: HLC
    var clockSkew: int
    var maxHLCDrift: nat
    var outbound: seq<HLC>
    var droppedMessages: nat
    var appliedMessages: nat

    constructor ()
      ensures hlcCursor == ZERO && clockSkew == 0 && maxHLCDrift == 0
      ensures outbound == [] && droppedMessages == 0 && appliedMessages == 0
    {
      hlcCursor, clockSkew, maxHLCDrift, outbound, droppedMessages, appliedMessages := ZERO, 0, 0, [], 0, 0;
    }

    function DriftLimit(): nat
      reads this
    {
      if maxHLCDrift > 0 then maxHLCDrift else DEFAULT_DRIFT
    }

    /** SubmitTransition: tick, stamp, apply, broadcast. `sent` is the stamp put on the mesh. */
    method SubmitTransition(worldNow: int, known: bool, applyOk: bool) returns (sent: Option<HLC>)
      requires 0 <= worldNow + clockSkew < TWO_63 && |hlcCursor| == SIZE
      modifies this`hlcCursor, this`outbound
      ensures hlcCursor == if known then TickOf(old(hlcCursor), worldNow + clockSkew) else old(hlcCursor)
      ensures sent == if known && applyOk then Some(hlcCursor) else None
      ensures outbound == if sent.Some? then old(outbound) + [hlcCursor] else old(outbound)
    {
      if !known {
        return None;
      }
      var hostNow := worldNow + clockSkew;
      var next := Tick(hlcCursor, hostNow);
      if next.BadSize? {
        return None;
      }
      hlcCursor := next.value;
      if !applyOk {
        return None;
      }
      outbound := outbound + [hlcCursor];
      return Some(hlcCursor);
    }

    /** Deliver: check size and drift, observe, apply. */
    method Deliver(payloadHlc: Bytes, worldNow: int, applyOk: bool) returns (ok: bool)
      requires 0 <= worldNow + clockSkew < TWO_63 && |hlcCursor| == SIZE
      modifies this`hlcCursor, this`droppedMessages, this`appliedMessages
      ensures hlcCursor == DeliverOf(old(hlcCursor), payloadHlc, worldNow + clockSkew, DriftLimit())
      ensures var limit := if maxHLCDrift > 0 then maxHLCDrift else 60_000_000_000;
              ok <==> applyOk && InReach(payloadHlc, worldNow + clockSkew, limit)
      ensures appliedMessages == if ok then old(appliedMessages) + 1 else old(appliedMessages)
      ensures droppedMessages ==
                if |payloadHlc| == SIZE && TooFarAhead(payloadHlc, worldNow + clockSkew, DriftLimit())
                then old(droppedMessages) + 1 else old(droppedMessages)
    {
      ObservesInReach(payloadHlc, worldNow + clockSkew, DriftLimit());
      hide InReach;
      var remote: HLC := ZERO;
      if |payloadHlc| > 0 {
        var parsed := FromProto(payloadHlc);
        if parsed.BadSize? {
          return false;
        }
        remote := parsed.value;
        var hostNow := worldNow + clockSkew;
        if TooFarAhead(remote, hostNow, DriftLimit()) {
          droppedMessages := droppedMessages + 1;
          return false;
        }
      }
      var next := Observe(hlcCursor, remote, worldNow + clockSkew);
      if next.BadSize? {
        return false;
      }
      hlcCursor := next.value;
      if !applyOk {
        return false;
      }
      appliedMessages := appliedMessages + 1;
      return true;
    }
  }

  function TickOf(cursor: HLC, now: nat): (h: HLC)
    requires |cursor| == SIZE && now < TWO_63
    ensures |h| == SIZE
  {
    Tick(cursor, now).value
  }

  /** Does Deliver observe this stamp? An absent stamp is observed as the zero clock. */
  predicate Observes(remote: Bytes, now: nat, limit: nat)
  {
    remote == [] || (|remote| == SIZE && !TooFarAhead(remote, now, limit))
  }

  /** An absent stamp, or one of 18 bytes with a wall at most `limit` ahead; the top half of the range counts
      as the past. */
  predicate InReach(remote: Bytes, now: int, limit: nat)
  {
    remote == [] || (|remote| == 18 && (Wall(remote) <= now + limit || Wall(remote) >= 0x8000_0000_0000_0000))
  }

  /** A delivery moves the cursor, and then strictly forward, exactly when the stamp is in reach. */
  lemma DeliveryMoves(cursor: HLC, remote: Bytes, now: nat, limit: nat)
    requires Clean(cursor) && !AtEnd(cursor) && now < TWO_63 && (|remote| == SIZE ==> !AtEnd(remote))
    ensures var c := DeliverOf(cursor, remote, now, limit);
            && (c != cursor <==> InReach(remote, now, limit))
            && (InReach(remote, now, limit) ==> Less(cursor, c) && Wall(c) >= now)
            && (InReach(remote, now, limit) && |remote| == 18 ==> Wall(c) >= Wall(remote))
  {
    ZeroIsClean();
    FieldBounds(ZERO);
    LessTotal(cursor, cursor);
    ObservesInReach(remote, now, limit);
    hide Observe, Observes, Less, Clean, Wall;
    if InReach(remote, now, limit) {
      ObserveAdvances(cursor, if remote == [] then ZERO else remote, now);
    }
  }

  lemma ObservesInReach(remote: Bytes, now: nat, limit: nat)
    ensures Observes(remote, now, limit) <==> InReach(remote, now, limit)
  {
    if |remote| == SIZE {
      FieldBounds(remote);
    }
    hide Wall;
  }

  function DeliverOf(cursor: HLC, remote: Bytes, now: nat, limit: nat): (h: HLC)
    requires |cursor| == SIZE && now < TWO_63
    ensures |h| == SIZE
  {
    if Observes(remote, now, limit) then Observe(cursor, if remote == [] then ZERO else remote, now).value else cursor
  }

  // ----- Runs of many hosts -----

  /** A step of the system: a host submits, or the network hands it a stamp. `from` names the
      submission the message came from; None is a message no host sent. Messages may be lost,
      repeated and reordered freely. */
  datatype Step =
    | Submit(host: nat, now: nat, limit: nat, known: bool, applyOk: bool)
    | Receive(host: nat, now: nat, limit: nat, remote: Bytes, from: Source)

  datatype Source = Nobody | Event(index: nat)

  /** The cursor of host `h` after the steps. */
  function Cursor(steps: seq<Step>, h: nat): (c: HLC)
    requires forall i :: 0 <= i < |steps| ==> steps[i].now < TWO_63
    ensures |c| == SIZE
  {
    if steps == [] then ZERO
    else
      var s, before := steps[|steps| - 1], Cursor(steps[..|steps| - 1], h);
      if s.host != h then before
      else if s.Receive? then DeliverOf(before, s.remote, s.now, s.limit)
      else if s.known then TickOf(before, s.now)
      else before
  }

  /** Does the step move its host's cursor? */
  predicate Moves(s: Step)
  {
    if s.Submit? then s.known else Observes(s.remote, s.now, s.limit)
  }

  function Updates(steps: seq<Step>, h: nat): nat
  {
    if steps == [] then 0
    else Updates(steps[..|steps| - 1], h)
         + (if steps[|steps| - 1].host == h && Moves(steps[|steps| - 1]) then 1 else 0)
  }

  predicate ClocksInRange(steps: seq<Step>)
  {
    forall i :: 0 <= i < |steps| ==> steps[i].now < TWO_63
  }

  /** Messages carry the stamp of a broadcast submission made earlier in the run; stamps nobody
      sent are arbitrary, with walls below 2^63. */
  predicate NetworkDelivers(steps: seq<Step>)
    requires ClocksInRange(steps)
  {
    forall i :: 0 <= i < |steps| && steps[i].Receive? ==>
      match steps[i].from
      case Nobody => |steps[i].remote| == SIZE ==> Wall(steps[i].remote) < TWO_63
      case Event(j) => j < i && steps[j].Submit? && steps[j].known && steps[j].applyOk
                       && steps[i].remote == Cursor(steps[..j + 1], steps[j].host)
  }

  /** All clock readings are at most `m` and all drift limits at most `d`, and the walls these
      admit stay below 2^63 for the length of the run. */
  predicate Within(steps: seq<Step>, m: nat, d: nat)
  {
    && m + d + 2 + |steps| / 0x1_0000 < TWO_63
    && forall i :: 0 <= i < |steps| ==> steps[i].now <= m && steps[i].limit <= d
  }

  /** The same for the readings and limits of one host. */
  predicate HostWithin(steps: seq<Step>, h: nat, m: nat, d: nat)
  {
    forall i :: 0 <= i < |steps| && steps[i].host == h ==> steps[i].now <= m && steps[i].limit <= d
  }

  /** The clean cursor of a host and its distance from the clocks it has read. */
  predicate Bounded(c: HLC, m: nat, d: nat, n: nat)
  {
    Clean(c) && Position(c) <= (m + d) * 0x1_0000 + MAX_COUNTER + n
  }

  lemma BoundedWall(c: HLC, m: nat, d: nat, n: nat)
    requires Bounded(c, m, d, n)
    ensures Wall(c) <= m + d + 1 + n / 0x1_0000
  {
    FieldBounds(c);
  }

  /** One move of a cursor keeps the bound and strictly advances it. */
  lemma MoveKeepsBound(c: HLC, s: Step, m: nat, d: nat, n: nat)
    requires Bounded(c, m, d, n) && Moves(s) && s.now <= m && s.limit <= d && s.now < TWO_63
    requires Wall(c) + 1 < TWO_64 && (s.Receive? && |s.remote| == SIZE ==> Wall(s.remote) < TWO_63)
    ensures var c' := if s.Receive? then DeliverOf(c, s.remote, s.now, s.limit) else TickOf(c, s.now);
            Bounded(c', m, d, n + 1) && Less(c, c')
            && (s.Receive? && Clean(s.remote) ==> Less(s.remote, c'))
  {
    if s.Submit? {
      TickAdvances(c, s.now);
    } else {
      ZeroIsClean();
      var remote := if s.remote == [] then ZERO else s.remote;
      FieldBounds(remote);
      ObserveAdvances(c, remote, s.now);
    }
  }

  lemma WithinPrefix(steps: seq<Step>, m: nat, d: nat, n: nat)
    requires ClocksInRange(steps) && NetworkDelivers(steps) && Within(steps, m, d) && n <= |steps|
    ensures ClocksInRange(steps[..n]) && NetworkDelivers(steps[..n]) && Within(steps[..n], m, d)
  {
    forall i | 0 <= i < n && steps[..n][i].Receive? && steps[..n][i].from.Event?
      ensures steps[..n][..steps[i].from.index + 1] == steps[..steps[i].from.index + 1]
    {
      assert steps[i].Receive?;
    }
    assert n / 0x1_0000 <= |steps| / 0x1_0000;
  }

  lemma {:induction false} UpdatesAtMostSteps(steps: seq<Step>, h: nat)
    ensures Updates(steps, h) <= |steps|
  {
    if steps != [] {
      UpdatesAtMostSteps(steps[..|steps| - 1], h);
    }
  }

  /** The stamp a Receive step carries is below 2^63, and clean if a host sent it. */
  lemma {:induction false} StampInRange(steps: seq<Step>, i: nat, m: nat, d: nat)
    requires ClocksInRange(steps) && NetworkDelivers(steps) && Within(steps, m, d)
    requires i < |steps| && steps[i].Receive?
    ensures |steps[i].remote| == SIZE ==> Wall(steps[i].remote) < TWO_63
    ensures steps[i].from.Event? ==> Clean(steps[i].remote)
    decreases i, 1
  {
    if steps[i].from.Event? {
      var j := steps[i].from.index;
      WithinPrefix(steps, m, d, j + 1);
      DriftBound(steps[..j + 1], steps[j].host, m, d, m, d);
      UpdatesAtMostSteps(steps[..j + 1], steps[j].host);
      var n := Updates(steps[..j + 1], steps[j].host);
      BoundedWall(steps[i].remote, m, d, n);
      assert n / 0x1_0000 <= |steps| / 0x1_0000;
    }
  }

  /** Drift bound. After `n` updates a host's cursor is at most M + D nanoseconds and 65535 + n
      counter steps, where M bounds its own clock readings and D its drift limits, whatever the
      network delivered: so its wall is at most M + D + 1 + n/65536. */
  lemma {:induction false} DriftBound(steps: seq<Step>, h: nat, m: nat, d: nat, m': nat, d': nat)
    requires ClocksInRange(steps) && NetworkDelivers(steps) && Within(steps, m', d') && HostWithin(steps, h, m, d)
    requires m <= m' && d <= d'
    ensures Bounded(Cursor(steps, h), m, d, Updates(steps, h))
    ensures Wall(Cursor(steps, h)) <= m + d + 1 + Updates(steps, h) / 0x1_0000
    decreases |steps|, 0
  {
    if steps == [] {
      ZeroIsClean();
      FieldBounds(ZERO);
    } else {
      var k := |steps| - 1;
      var s, before := steps[k], steps[..k];
      WithinPrefix(steps, m', d', k);
      assert HostWithin(before, h, m, d) by {
        assert forall i :: 0 <= i < k ==> before[i] == steps[i];
      }
      DriftBound(before, h, m, d, m', d');
      if s.host == h && Moves(s) {
        var c, n := Cursor(before, h), Updates(before, h);
        UpdatesAtMostSteps(before, h);
        assert n / 0x1_0000 <= |steps| / 0x1_0000;
        if s.Receive? {
          StampInRange(steps, k, m', d');
        }
        MoveKeepsBound(c, s, m, d, n);
      }
    }
    BoundedWall(Cursor(steps, h), m, d, Updates(steps, h));
  }

  // ----- Causality -----

  /** The clock of step `i`: its host's cursor just after it. */
  function ClockOf(steps: seq<Step>, i: nat): HLC
    requires ClocksInRange(steps) && i < |steps|
  {
    Cursor(steps[..i + 1], steps[i].host)
  }

  /** `i` precedes `j` on one host, or `j` observed the message sent at `i`. */
  predicate Before(steps: seq<Step>, i: nat, j: nat)
    requires i < j < |steps|
  {
    || steps[i].host == steps[j].host
    || (steps[j].Receive? && Moves(steps[j]) && steps[j].from == Event(i))
  }

  /** Happened-before: the transitive closure of `Before`. */
  ghost predicate HappenedBefore(steps: seq<Step>, i: nat, j: nat)
    requires j < |steps|
    decreases j - i
  {
    i < j && (Before(steps, i, j)
              || exists k :: i < k < j && HappenedBefore(steps, i, k) && HappenedBefore(steps, k, j))
  }

  /** A step of the run: the cursor of a host never falls, and strictly rises when it moves. */
  lemma CursorStep(steps: seq<Step>, h: nat, m: nat, d: nat)
    requires ClocksInRange(steps) && NetworkDelivers(steps) && Within(steps, m, d) && steps != []
    ensures var k := |steps| - 1;
            var c, c' := Cursor(steps[..k], h), Cursor(steps, h);
            && (c == c' || Less(c, c'))
            && (steps[k].host == h && Moves(steps[k]) ==> Less(c, c'))
            && (steps[k].host == h && Moves(steps[k]) && steps[k].Receive? && Clean(steps[k].remote) ==>
                  Less(steps[k].remote, c'))
  {
    var k := |steps| - 1;
    if steps[k].host == h && Moves(steps[k]) {
      WithinPrefix(steps, m, d, k);
      assert HostWithin(steps[..k], h, m, d) by {
        assert forall i :: 0 <= i < k ==> steps[..k][i] == steps[i];
      }
      DriftBound(steps[..k], h, m, d, m, d);
      UpdatesAtMostSteps(steps[..k], h);
      assert Updates(steps[..k], h) / 0x1_0000 <= |steps| / 0x1_0000;
      if steps[k].Receive? {
        StampInRange(steps, k, m, d);
      }
      MoveKeepsBound(Cursor(steps[..k], h), steps[k], m, d, Updates(steps[..k], h));
    }
  }

  lemma {:induction false} CursorRises(steps: seq<Step>, h: nat, i: nat, j: nat, m: nat, d: nat)
    requires ClocksInRange(steps) && NetworkDelivers(steps) && Within(steps, m, d) && i <= j <= |steps|
    ensures Cursor(steps[..i], h) == Cursor(steps[..j], h) || Less(Cursor(steps[..i], h), Cursor(steps[..j], h))
    decreases j
  {
    if i < j {
      CursorRises(steps, h, i, j - 1, m, d);
      WithinPrefix(steps, m, d, j);
      assert steps[..j][..j - 1] == steps[..j - 1];
      CursorStep(steps[..j], h, m, d);
      Climb(Cursor(steps[..i], h), Cursor(steps[..j - 1], h), Cursor(steps[..j], h));
    }
  }

  /** One edge of happened-before: the clock does not fall, and rises into a step that moves it. */
  lemma EdgeRises(steps: seq<Step>, i: nat, j: nat, m: nat, d: nat)
    requires ClocksInRange(steps) && NetworkDelivers(steps) && Within(steps, m, d)
    requires i < j < |steps| && Before(steps, i, j)
    ensures ClockOf(steps, i) == ClockOf(steps, j) || Less(ClockOf(steps, i), ClockOf(steps, j))
    ensures Moves(steps[j]) ==> Less(ClockOf(steps, i), ClockOf(steps, j))
  {
    hide Cursor, Within, Less, ClockOf;
    StepClock(steps, j, m, d);
    if steps[i].host == steps[j].host {
      SinceOwnStep(steps, i, j, m, d);
      Climb(ClockOf(steps, i), Cursor(steps[..j], steps[j].host), ClockOf(steps, j));
    } else {
      SentClock(steps, i, j);
      StampInRange(steps, j, m, d);
    }
  }

  lemma Climb(a: HLC, b: HLC, c: HLC)
    requires (a == b || Less(a, b)) && (b == c || Less(b, c))
    ensures (a == c || Less(a, c)) && (Less(b, c) ==> Less(a, c))
  {
    if Less(a, b) && Less(b, c) {
      LessTransitive(a, b, c);
    }
  }

  /** CursorStep for one step of a run. */
  lemma StepClock(steps: seq<Step>, j: nat, m: nat, d: nat)
    requires ClocksInRange(steps) && NetworkDelivers(steps) && Within(steps, m, d) && j < |steps|
    ensures var c, c' := Cursor(steps[..j], steps[j].host), ClockOf(steps, j);
            && (c == c' || Less(c, c'))
            && (Moves(steps[j]) ==> Less(c, c'))
            && (Moves(steps[j]) && steps[j].Receive? && Clean(steps[j].remote) ==> Less(steps[j].remote, c'))
  {
    WithinPrefix(steps, m, d, j + 1);
    hide Cursor, ClocksInRange, NetworkDelivers, Within, Less;
    assert steps[..j + 1][..j] == steps[..j];
    CursorStep(steps[..j + 1], steps[j].host, m, d);
  }

  lemma SinceOwnStep(steps: seq<Step>, i: nat, j: nat, m: nat, d: nat)
    requires ClocksInRange(steps) && NetworkDelivers(steps) && Within(steps, m, d)
    requires i < j < |steps| && steps[i].host == steps[j].host
    ensures var c := Cursor(steps[..j], steps[j].host); ClockOf(steps, i) == c || Less(ClockOf(steps, i), c)
  {
    hide Cursor, ClocksInRange, NetworkDelivers, Within, Less;
    CursorRises(steps, steps[j].host, i + 1, j, m, d);
  }

  lemma SentClock(steps: seq<Step>, i: nat, j: nat)
    requires ClocksInRange(steps) && NetworkDelivers(steps) && i < j < |steps|
    requires steps[j].Receive? && steps[j].from == Event(i)
    ensures steps[j].remote == ClockOf(steps, i)
  {
    hide Cursor;
  }

  /** Causality across hosts. In any run of hosts with arbitrarily skewed or backward clocks over a
      network that drops, repeats and reorders messages, if one step happened before another and the
      later one moved its host's clock, as every submission does, the later clock is strictly greater. */
  lemma {:induction false} Causality(steps: seq<Step>, i: nat, j: nat, m: nat, d: nat)
    requires ClocksInRange(steps) && NetworkDelivers(steps) && Within(steps, m, d)
    requires j < |steps| && HappenedBefore(steps, i, j)
    ensures ClockOf(steps, i) == ClockOf(steps, j) || Less(ClockOf(steps, i), ClockOf(steps, j))
    ensures Moves(steps[j]) ==> Less(ClockOf(steps, i), ClockOf(steps, j))
    decreases j - i
  {
    if Before(steps, i, j) {
      EdgeRises(steps, i, j, m, d);
    } else {
      var k :| i < k < j && HappenedBefore(steps, i, k) && HappenedBefore(steps, k, j);
      Causality(steps, i, k, m, d);
      Causality(steps, k, j, m, d);
      if Less(ClockOf(steps, i), ClockOf(steps, k)) && Less(ClockOf(steps, k), ClockOf(steps, j)) {
        LessTransitive(ClockOf(steps, i), ClockOf(steps, k), ClockOf(steps, j));
      }
    }
  }

  /** Stamps on the wire: a submission that happened before another carries the smaller HLC. */
  lemma StampsFollowCausality(steps: seq<Step>, i: nat, j: nat, m: nat, d: nat)
    requires ClocksInRange(steps) && NetworkDelivers(steps) && Within(steps, m, d)
    requires i < |steps| && steps[i].Submit? && steps[i].known
    requires j < |steps| && steps[j].Submit? && steps[j].known && HappenedBefore(steps, i, j)
    ensures Less(ClockOf(steps, i), ClockOf(steps, j))
  {
    Causality(steps, i, j, m, d);
  }
}
