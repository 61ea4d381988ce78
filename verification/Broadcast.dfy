/** Fan-out of applied transitions to subscribers (internal/group/broadcaster.go) and the Subscribe
    stream built on it (internal/host/service.go). */
module Broadcast {
  import opened ByteStrings
  import opened Transitions

  const CAPACITY := 64

  datatype TransitionEvent = TransitionEvent(branch: nat, index: nat, transition: Transition)

  type Channel = seq<TransitionEvent>

  /** A non-blocking send with drop-oldest on a full buffer. */
  function Offer(ch: Channel, ev: TransitionEvent): (r: Channel)
    ensures |r| > 0 && r[|r| - 1] == ev && (|ch| <= CAPACITY ==> |r| <= CAPACITY)
  {
    if |ch| < CAPACITY then ch + [ev] else ch[1..] + [ev]
  }

  // ----- Broadcaster -----

  /** The subscribers in `ids` whose buffer is full. */
  ghost function FullOnes(m: map<nat, Channel>, ids: set<nat>): set<nat>
  {
    set id | id in ids && id in m && |m[id]| >= CAPACITY
  }

  lemma FullOnesAdd(m: map<nat, Channel>, ids: set<nat>, id: nat)
    requires id !in ids && id in m
    ensures |FullOnes(m, ids + {id})| == |FullOnes(m, ids)| + (if |m[id]| >= CAPACITY then 1 else 0)
  {
    if |m[id]| >= CAPACITY {
      assert FullOnes(m, ids + {id}) == FullOnes(m, ids) + {id};
    } else {
      assert FullOnes(m, ids + {id}) == FullOnes(m, ids);
    }
  }

  lemma FullOnesNext(m: map<nat, Channel>, todo: set<nat>, id: nat)
    requires id in todo && id in m
    ensures |FullOnes(m, m.Keys - (todo - {id}))|
         == |FullOnes(m, m.Keys - todo)| + (if |m[id]| >= CAPACITY then 1 else 0)
  {
    FullOnesAdd(m, m.Keys - todo, id);
    assert m.Keys - (todo - {id}) == (m.Keys - todo) + {id};
  }

  lemma FullOnesEnds(m: map<nat, Channel>)
    ensures |FullOnes(m, m.Keys - m.Keys)| == 0
    ensures FullOnes(m, m.Keys - {}) == FullOnes(m, m.Keys)
  {
    assert FullOnes(m, m.Keys - m.Keys) == {};
    assert m.Keys - {} == m.Keys;
  }

  /** The selects for one subscriber: send, or drop the oldest and send. */
  method OfferOne(ch: Channel, ev: TransitionEvent) returns (next: Channel, drops: nat)
    ensures next == Offer(ch, ev) && drops == if |ch| >= CAPACITY then 1 else 0
  {
    next, drops := ch, 0;
    if |next| >= CAPACITY {
      next := next[1..];
      drops := 1;
    }
    next := next + [ev];
  }

  /** The loop of Broadcast over the subscribers, in any order. */
  method OfferEach(subs: map<nat, Channel>, ev: TransitionEvent) returns (channels: map<nat, Channel>, lost: nat)
    ensures channels == map id | id in subs :: Offer(subs[id], ev)
    ensures lost == |FullOnes(subs, subs.Keys)|
  {
    hide Offer, FullOnes;
    FullOnesEnds(subs);
    var todo := subs.Keys;
    channels, lost := subs, 0;
    while todo != {}
      invariant todo <= subs.Keys == channels.Keys
      invariant forall id :: id in subs ==> channels[id] == if id in todo then subs[id] else Offer(subs[id], ev)
      invariant lost == |FullOnes(subs, subs.Keys - todo)|
      decreases |todo|
    {
      var id :| id in todo;
      FullOnesNext(subs, todo, id);
      var ch, drops := OfferOne(channels[id], ev);
      channels := channels[id := ch];
      lost := lost + drops;
      todo := todo - {id};
    }
  }

  class Broadcaster {
    var subs: map<nat, Channel>
    var nextID: nat
    var dropped: nat

    ghost predicate Valid()
      reads this
    {
      forall id <- subs :: id < nextID && |subs[id]| <= CAPACITY
    }

    constructor ()
      ensures Valid() && subs == map[] && nextID == 0 && dropped == 0
    {
      subs, nextID, dropped := map[], 0, 0;
    }

    /** A fresh ID with an empty channel. */
    method Subscribe() returns (id: nat)
      requires Valid()
      modifies this
      ensures Valid() && id == old(nextID) && id !in old(subs)
      ensures subs == old(subs)[id := []] && nextID == old(nextID) + 1 && dropped == old(dropped)
    {
      id := nextID;
      nextID := nextID + 1;
      subs := subs[id := []];
    }

    method Unsubscribe(id: nat)
      requires Valid()
      modifies this
      ensures Valid() && subs == old(subs) - {id} && nextID == old(nextID) && dropped == old(dropped)
    {
      if id in subs {
        subs := subs - {id};
      }
    }

    /** Broadcast: every subscriber gets the event; each full buffer loses its oldest one. */
    method Broadcast(ev: TransitionEvent)
      requires Valid()
      modifies this
      ensures Valid() && nextID == old(nextID)
      ensures subs == map id | id in old(subs) :: Offer(old(subs)[id], ev)
      ensures dropped == old(dropped) + |FullOnes(old(subs), old(subs).Keys)|
    {
      var channels, lost := OfferEach(subs, ev);
      subs, dropped := channels, dropped + lost;
    }

    /** A receive on the subscriber's channel. */
    method Receive(id: nat) returns (ev: TransitionEvent)
      requires Valid() && id in subs && subs[id] != []
      modifies this
      ensures Valid() && ev == old(subs)[id][0] && subs == old(subs)[id := old(subs)[id][1..]]
      ensures nextID == old(nextID) && dropped == old(dropped)
    {
      ev := subs[id][0];
      subs := subs[id := subs[id][1..]];
    }
  }

  /** Without receives a channel holds the newest events, at most 64 and contiguous; the newest one
      is always among them. */
  function OfferAll(ch: Channel, evs: seq<TransitionEvent>): Channel
  {
    if evs == [] then ch else Offer(OfferAll(ch, evs[..|evs| - 1]), evs[|evs| - 1])
  }

  lemma {:induction false} OfferAllKeepsNewest(ch: Channel, evs: seq<TransitionEvent>)
    requires |ch| <= CAPACITY
    ensures var all := ch + evs;
            OfferAll(ch, evs) == if |all| <= 64 then all else all[|all| - 64..]
  {
    if evs == [] {
      assert ch + evs == ch;
    } else {
      var init, last := evs[..|evs| - 1], evs[|evs| - 1];
      OfferAllKeepsNewest(ch, init);
      assert ch + evs == (ch + init) + [last];
    }
  }

  // ----- One subscriber, step by step -----

  /** Where Apply is with its current event: the three selects of Broadcast are separate steps,
      between which the subscriber may receive. */
  datatype Sender =
    | Idle
    | Pending(ev: TransitionEvent)
    | FoundFull(ev: TransitionEvent)
    | MadeRoom(ev: TransitionEvent)

  /** Where the Subscribe handler is. */
  datatype Session =
    | NotStarted
    | Registered
    | Replaying(snapshot: seq<Transition>, next: nat)
    | Live

  /** The server seen from one Subscribe call. `log` is the genesis log; `published`, `lost` and
      `base` record, for the argument only, what was pushed to the channel since it was registered,
      what was dropped from it, and the index of the first genesis transition it is offered. */
  datatype Server = Server(
    log: seq<Transition>,
    sender: Sender,
    session: Session,
    since: nat,
    channel: Channel,
    sent: seq<TransitionEvent>,
    dropped: nat,
    published: seq<TransitionEvent>,
    lost: seq<TransitionEvent>,
    base: nat)

  datatype Action =
    | ApplyGenesis(t: Transition)
    | ApplyBranch(ev: TransitionEvent)
    | TrySend
    | DropOldest
    | SendAgain
    | Register
    | ReadLog
    | Replay
    | Forward

  function Start(log: seq<Transition>, since: nat): Server
  {
    Server(log, Idle, NotStarted, since, [], [], 0, [], [], 0)
  }

  /** Which actions can happen next. Apply holds the state lock until its broadcast is over, so the log is
      read only between Applies (without a since_index it is not read); registering needs the broadcaster's
      lock only, so it may fall between an Apply's append and its broadcast, but not inside the broadcast. */
  predicate Enabled(s: Server, a: Action)
  {
    match a
    case ApplyGenesis(_) => s.sender.Idle?
    case ApplyBranch(ev) => s.sender.Idle? && ev.branch != 0
    case TrySend => s.sender.Pending?
    case DropOldest => s.sender.FoundFull?
    case SendAgain => s.sender.MadeRoom?
    case Register => s.session.NotStarted? && (s.sender.Idle? || s.sender.Pending?)
    case ReadLog => s.session.Registered? && (s.since > 0 ==> s.sender.Idle?)
    case Replay => s.session.Replaying?
    case Forward => s.session.Live? && s.channel != []
  }

  function Push(s: Server, ev: TransitionEvent): Server
  {
    s.(sender := Idle, channel := s.channel + [ev], published := s.published + [ev])
  }

  /** What a channel registered now is offered first: the transition Apply has appended but not yet
      broadcast, else the next one. */
  function FirstOffered(s: Server): nat
  {
    if s.sender.Pending? && s.sender.ev.branch == 0 then s.sender.ev.index else |s.log|
  }

  function Do(s: Server, a: Action): Server
    requires Enabled(s, a)
  {
    match a
    case ApplyGenesis(t) => s.(log := s.log + [t], sender := Pending(TransitionEvent(0, |s.log|, t)))
    case ApplyBranch(ev) => s.(sender := Pending(ev))
    case TrySend =>
      if s.session.NotStarted? then s.(sender := Idle)
      else if |s.channel| < CAPACITY then Push(s, s.sender.ev)
      else s.(sender := FoundFull(s.sender.ev))
    case DropOldest =>
      if s.channel == [] then s.(sender := MadeRoom(s.sender.ev), dropped := s.dropped + 1)
      else s.(sender := MadeRoom(s.sender.ev), dropped := s.dropped + 1,
              channel := s.channel[1..], lost := s.lost + [s.channel[0]])
    case SendAgain =>
      if |s.channel| < CAPACITY then Push(s, s.sender.ev)
      else s.(sender := Idle, lost := s.lost + [s.sender.ev])
    case Register => s.(session := Registered, channel := [], published := [], base := FirstOffered(s))
    case ReadLog => s.(session := if s.since > 0 then Replaying(s.log, s.since) else Live)
    case Replay =>
      if s.session.next < |s.session.snapshot| then
        var i := s.session.next;
        s.(sent := s.sent + [TransitionEvent(0, i, s.session.snapshot[i])], session := s.session.(next := i + 1))
      else s.(session := Live)
    case Forward => s.(sent := s.sent + [s.channel[0]], channel := s.channel[1..])
  }

  predicate Runs(s: Server, actions: seq<Action>)
    decreases |actions|
  {
    actions == []
    || (Enabled(s, actions[0]) && Runs(Do(s, actions[0]), actions[1..]))
  }

  function After(s: Server, actions: seq<Action>): Server
    requires Runs(s, actions)
    decreases |actions|
  {
    if actions == [] then s else After(Do(s, actions[0]), actions[1..])
  }

  // ----- The invariant -----

  function EventAt(s: Server, i: nat): TransitionEvent
    requires i < |s.log|
  {
    TransitionEvent(0, i, s.log[i])
  }

  /** The first genesis transition the stream is meant to hold: replay starts at since_index itself, and
      live events are not filtered by it. */
  function From(s: Server): nat
  {
    if 0 < s.since < s.base then s.since else s.base
  }

  /** The event Apply is still busy sending. */
  predicate InFlight(s: Server, ev: TransitionEvent)
  {
    !s.sender.Idle? && s.sender.ev == ev
  }

  /** An event is a genesis transition as logged, or belongs to another branch. */
  predicate Genuine(s: Server, ev: TransitionEvent)
  {
    ev.branch == 0 ==> ev.index < |s.log| && ev == EventAt(s, ev.index)
  }

  /** The channel is the newest stretch of what was published. */
  predicate NewestStretch(s: Server)
  {
    && |s.channel| <= CAPACITY && |s.channel| <= |s.published|
    && s.channel == s.published[|s.published| - |s.channel|..]
    && (s.sender.MadeRoom? ==> |s.channel| < CAPACITY)
  }

  /** Everything published is still queued, was streamed, or was lost to overflow. */
  ghost predicate Accounted(s: Server)
  {
    && (forall ev :: ev in s.published ==> ev in s.channel || ev in s.sent || ev in s.lost)
    && |s.lost| <= s.dropped
  }

  /** From registration on, every genesis transition is published or about to be. */
  predicate PublishedSince(s: Server)
  {
    s.base <= |s.log|
    && forall i :: s.base <= i < |s.log| ==> EventAt(s, i) in s.published || InFlight(s, EventAt(s, i))
  }

  /** The replay snapshot reaches at least to the registration point, and the part before `next`
      has been streamed. */
  predicate ReplayCovers(s: Server)
  {
    && s.session.Replaying?
    && s.session.snapshot <= s.log && s.base <= |s.session.snapshot| && s.since <= s.session.next
    && forall i :: s.since <= i < s.session.next && i < |s.session.snapshot| ==> EventAt(s, i) in s.sent
  }

  /** Apply broadcasts the transition it has just appended. */
  predicate SendsNewest(s: Server)
  {
    !s.sender.Idle? && s.sender.ev.branch == 0 ==> s.sender.ev.index == |s.log| - 1
  }

  /** Nothing from before the first transition offered reaches the channel, and nothing from before
      `From` the stream. */
  predicate NothingEarlier(s: Server)
  {
    && (forall ev :: ev in s.published && ev.branch == 0 ==> s.base <= ev.index)
    && (!s.sender.Idle? && s.sender.ev.branch == 0 ==> s.base <= s.sender.ev.index)
    && (forall ev :: ev in s.sent && ev.branch == 0 ==> From(s) <= ev.index)
  }

  ghost predicate Invariant(s: Server)
  {
    && (!s.sender.Idle? ==> Genuine(s, s.sender.ev)) && SendsNewest(s)
    && (forall ev :: ev in s.published || ev in s.sent ==> Genuine(s, ev))
    && (s.session.NotStarted? ==>
          s.sent == [] && s.lost == [] && s.dropped == 0 && (s.sender.Idle? || s.sender.Pending?))
    && (!s.session.NotStarted? ==> NewestStretch(s) && Accounted(s) && PublishedSince(s) && NothingEarlier(s))
    && (s.session.Registered? ==> s.sent == [])
    && (s.session.Replaying? ==> s.since > 0 && ReplayCovers(s))
    && (s.session.Live? ==> forall i :: From(s) <= i < |s.log| ==>
          EventAt(s, i) in s.sent || EventAt(s, i) in s.published || InFlight(s, EventAt(s, i)))
  }

  lemma StartInvariant(log: seq<Transition>, since: nat)
    ensures Invariant(Start(log, since))
  {
  }

  /** A new event to send leaves queue and stream alone. */
  lemma QueueKept(s: Server, s': Server)
    requires Accounted(s) && NewestStretch(s)
    requires s' == s.(log := s'.log, sender := s'.sender) && !s'.sender.MadeRoom?
    ensures Accounted(s') && NewestStretch(s')
  {
  }

  lemma GenuineKept(s: Server, s': Server, ev: TransitionEvent)
    requires Genuine(s, ev) && s.log <= s'.log
    ensures Genuine(s', ev)
  {
  }

  lemma ApplyGenesisKeeps(s: Server, t: Transition)
    requires Invariant(s) && s.sender.Idle?
    ensures Invariant(Do(s, ApplyGenesis(t)))
  {
    var s' := Do(s, ApplyGenesis(t));
    hide NewestStretch, Accounted, Genuine;
    if !s.session.NotStarted? {
      QueueKept(s, s');
    }
    assert s'.log[..|s.log|] == s.log;
    forall i | 0 <= i < |s.log| ensures EventAt(s', i) == EventAt(s, i) {
    }
    forall ev | ev in s.published || ev in s.sent ensures Genuine(s', ev) {
      GenuineKept(s, s', ev);
    }
    NewestIsGenuine(s, t);
    assert EventAt(s', |s.log|) == s'.sender.ev;
    hide EventAt;
  }

  lemma NewestIsGenuine(s: Server, t: Transition)
    requires s.sender.Idle?
    ensures var s' := Do(s, ApplyGenesis(t)); Genuine(s', s'.sender.ev)
  {
  }

  lemma ApplyBranchKeeps(s: Server, ev: TransitionEvent)
    requires Invariant(s) && s.sender.Idle? && ev.branch != 0
    ensures Invariant(Do(s, ApplyBranch(ev)))
  {
    var s' := Do(s, ApplyBranch(ev));
    assert Genuine(s', ev);
    forall x | Genuine(s, x) ensures Genuine(s', x) {
      GenuineKept(s, s', x);
    }
    assert forall i :: 0 <= i < |s.log| ==> EventAt(s', i) == EventAt(s, i);
    hide NewestStretch, Accounted, Genuine, EventAt;
    if !s.session.NotStarted? {
      QueueKept(s, s');
    }
  }

  lemma PushedStretch(p: seq<TransitionEvent>, c: seq<TransitionEvent>, ev: TransitionEvent)
    requires |c| <= |p| && c == p[|p| - |c|..]
    ensures c + [ev] == (p + [ev])[|p| - |c|..]
    ensures forall x :: x in p + [ev] <==> x in p || x == ev
    ensures forall x :: x in c + [ev] <==> x in c || x == ev
  {
  }

  lemma PushKeeps(s: Server, ev: TransitionEvent)
    requires Invariant(s) && InFlight(s, ev) && !s.session.NotStarted? && |s.channel| < CAPACITY
    ensures Invariant(Push(s, ev))
  {
    var s' := Push(s, ev);
    assert forall i :: 0 <= i < |s.log| ==> EventAt(s', i) == EventAt(s, i);
    PushedStretch(s.published, s.channel, ev);
  }

  lemma SendKeeps(s: Server, a: Action)
    requires Invariant(s) && Enabled(s, a) && (a.TrySend? || a.SendAgain?)
    ensures Invariant(Do(s, a))
  {
    if !s.session.NotStarted? && |s.channel| < CAPACITY {
      PushKeeps(s, s.sender.ev);
      hide Invariant;
    } else {
      var s' := Do(s, a);
      assert forall i :: 0 <= i < |s.log| ==> EventAt(s', i) == EventAt(s, i);
    }
  }

  lemma DropKeeps(s: Server, a: Action)
    requires Invariant(s) && Enabled(s, a) && a.DropOldest?
    ensures Invariant(Do(s, a))
  {
    var s' := Do(s, a);
    assert forall i :: 0 <= i < |s.log| ==> EventAt(s', i) == EventAt(s, i);
    if s.channel != [] {
      MoveOver(s.channel, s'.channel, s.lost, s'.lost);
    }
  }

  lemma HandlerKeeps(s: Server, a: Action)
    requires Invariant(s) && Enabled(s, a) && (a.Register? || a.ReadLog?)
    ensures Invariant(Do(s, a))
  {
    var s' := Do(s, a);
    assert forall i :: 0 <= i < |s.log| ==> EventAt(s', i) == EventAt(s, i);
  }

  lemma ReplayKeeps(s: Server, a: Action)
    requires Invariant(s) && Enabled(s, a) && a.Replay?
    ensures Invariant(Do(s, a))
  {
    var s' := Do(s, a);
    assert forall i :: 0 <= i < |s.log| ==> EventAt(s', i) == EventAt(s, i);
    assert forall ev :: Genuine(s, ev) ==> Genuine(s', ev);
    assert NewestStretch(s') && SendsNewest(s');
    if s.session.next < |s.session.snapshot| {
      var ev := EventAt(s, s.session.next);
      assert s'.sent == s.sent + [ev] && Genuine(s, ev);
      Appended(s.sent, ev);
    }
    hide NewestStretch, SendsNewest, Genuine;
  }

  lemma Appended(t: seq<TransitionEvent>, x: TransitionEvent)
    ensures forall ev :: ev in t + [x] <==> ev in t || ev == x
  {
  }

  lemma ForwardKeeps(s: Server, a: Action)
    requires Invariant(s) && Enabled(s, a) && a.Forward?
    ensures Invariant(Do(s, a))
  {
    var s' := Do(s, a);
    assert forall i :: 0 <= i < |s.log| ==> EventAt(s', i) == EventAt(s, i);
    MoveOver(s.channel, s'.channel, s.sent, s'.sent);
    assert s.channel[0] in s.published;
  }

  lemma MoveOver(c: seq<TransitionEvent>, c': seq<TransitionEvent>, t: seq<TransitionEvent>, t': seq<TransitionEvent>)
    requires c != [] && c' == c[1..] && t' == t + [c[0]]
    ensures forall ev :: ev in t' <==> ev in t || ev == c[0]
    ensures forall ev :: ev in c <==> ev == c[0] || ev in c'
  {
    assert c == [c[0]] + c';
  }

  lemma {:induction false} RunKeeps(s: Server, actions: seq<Action>)
    requires Invariant(s) && Runs(s, actions)
    ensures Invariant(After(s, actions)) && After(s, actions).since == s.since
    decreases |actions|
  {
    if actions != [] {
      var a := actions[0];
      if a.ApplyGenesis? {
        ApplyGenesisKeeps(s, a.t);
      } else if a.ApplyBranch? {
        ApplyBranchKeeps(s, a.ev);
      } else if a.TrySend? || a.SendAgain? {
        SendKeeps(s, a);
      } else if a.DropOldest? {
        DropKeeps(s, a);
      } else if a.Register? || a.ReadLog? {
        HandlerKeeps(s, a);
      } else if a.Replay? {
        ReplayKeeps(s, a);
      } else {
        ForwardKeeps(s, a);
      }
      RunKeeps(Do(s, a), actions[1..]);
    }
  }

  /** Subscribe leaves no gap. For any since_index and any interleaving of Applies with registration, log
      read, replay and live forwarding: once the handler is live, every genesis transition from `From` on
      has been streamed, is queued or on its way, or was lost to overflow; none from before it is
      streamed; and every streamed genesis event carries the transition logged at its index. */
  lemma SubscribeLeavesNoGap(log: seq<Transition>, since: nat, actions: seq<Action>, i: nat)
    requires Runs(Start(log, since), actions)
    requires var s := After(Start(log, since), actions); s.session.Live? && i < |s.log|
    ensures var s := After(Start(log, since), actions);
            var ev := EventAt(s, i);
            && (From(s) <= i ==> ev in s.sent || ev in s.channel || InFlight(s, ev) || ev in s.lost)
            && (ev in s.sent ==> From(s) <= i)
            && (forall x :: x in s.sent ==> Genuine(s, x))
            && |s.lost| <= s.dropped
  {
    StartInvariant(log, since);
    RunKeeps(Start(log, since), actions);
    var s := After(Start(log, since), actions);
    var ev := EventAt(s, i);
    assert From(s) <= i ==> ev in s.sent || ev in s.published || InFlight(s, ev);
  }

  /** A subscriber that never overflowed and has caught up has been streamed exactly the genesis
      transitions from `From` on. */
  lemma CaughtUpExactly(log: seq<Transition>, since: nat, actions: seq<Action>, i: nat)
    requires Runs(Start(log, since), actions)
    requires var s := After(Start(log, since), actions);
             s.session.Live? && s.channel == [] && s.sender.Idle? && s.dropped == 0 && i < |s.log|
    ensures var s := After(Start(log, since), actions);
            EventAt(s, i) in s.sent <==> From(s) <= i
  {
    SubscribeLeavesNoGap(log, since, actions, i);
    assert After(Start(log, since), actions).lost == [];
  }

  /** Where the stream starts, read off the moment of registration: at since_index, unless the channel is
      offered an earlier transition or there is no since_index. What is offered first is the next
      transition, or the one just appended if its broadcast was still to come. */
  lemma StreamStartsAt(log: seq<Transition>, since: nat, before: seq<Action>, after: seq<Action>)
    requires Runs(Start(log, since), before + [Register] + after)
    ensures Runs(Start(log, since), before)
    ensures var r, s := After(Start(log, since), before), After(Start(log, since), before + [Register] + after);
            var first := if r.sender.Pending? && r.sender.ev.branch == 0 then |r.log| - 1 else |r.log|;
            From(s) == if 0 < since < first then since else first
  {
    var s0 := Start(log, since);
    assert before + [Register] + after == before + ([Register] + after);
    RunsSplit(s0, before, [Register] + after);
    var r := After(s0, before);
    StartInvariant(log, since);
    RunKeeps(s0, before);
    assert ([Register] + after)[1..] == after;
    var registered := Do(r, Register);
    BaseStays(registered, after);
  }

  lemma {:induction false} RunsSplit(s: Server, a: seq<Action>, b: seq<Action>)
    requires Runs(s, a + b)
    ensures Runs(s, a) && Runs(After(s, a), b) && After(s, a + b) == After(After(s, a), b)
    decreases |a|
  {
    hide Do, Enabled;
    if a == [] {
      assert a + b == b;
    } else {
      assert (a + b)[0] == a[0] && (a + b)[1..] == a[1..] + b;
      RunsSplit(Do(s, a[0]), a[1..], b);
    }
  }

  lemma {:induction false} BaseStays(s: Server, actions: seq<Action>)
    requires Runs(s, actions) && !s.session.NotStarted?
    ensures var s' := After(s, actions);
            !s'.session.NotStarted? && s'.base == s.base && s'.since == s.since
    decreases |actions|
  {
    if actions != [] {
      BaseStays(Do(s, actions[0]), actions[1..]);
    }
  }

  /** The queue of every subscriber is always the contiguous newest events, at most 64, and the event
      being sent is never the one that is lost. */
  lemma OverflowKeepsNewest(log: seq<Transition>, since: nat, actions: seq<Action>)
    requires Runs(Start(log, since), actions)
    requires !After(Start(log, since), actions).session.NotStarted?
    ensures NewestStretch(After(Start(log, since), actions))
    ensures var s := After(Start(log, since), actions);
            Enabled(s, SendAgain) ==> Do(s, SendAgain) == Push(s, s.sender.ev)
  {
    StartInvariant(log, since);
    RunKeeps(Start(log, since), actions);
  }

  /** Without a since_index history is skipped, but not always all of it: here a transition applied
      before registration and broadcast after it is streamed. */
  lemma ZeroSinceStreamsPending(t: Transition)
    ensures var actions := [ApplyGenesis(t), Register, TrySend, ReadLog, Forward];
            && Runs(Start([], 0), actions)
            && var s := After(Start([], 0), actions);
               s.session.Live? && s.sent == [TransitionEvent(0, 0, t)] && s.base == 0
  {
    var ev := TransitionEvent(0, 0, t);
    var s0 := Start([], 0);
    var s1 := s0.(log := [t], sender := Pending(ev));
    var s2 := s1.(session := Registered);
    assert [] + [t] == [t] && Do(s0, ApplyGenesis(t)) == s1 && Do(s1, Register) == s2;
    var rest := [TrySend, ReadLog, Forward];
    var end := s2.(session := Live, sender := Idle, sent := [ev], published := [ev]);
    hide Do, Runs, After;
    PendingIsStreamed(s2, ev);
    var later := [Register, TrySend, ReadLog, Forward];
    assert later == [Register] + rest;
    OneAction(s1, Register, s2, rest, end);
    OneAction(s0, ApplyGenesis(t), s1, later, end);
  }

  lemma PendingIsStreamed(s: Server, ev: TransitionEvent)
    requires s.session.Registered? && s.since == 0 && s.channel == s.published == s.sent == []
    requires s.sender == Pending(ev)
    ensures var actions := [TrySend, ReadLog, Forward];
            Runs(s, actions)
            && After(s, actions) == s.(session := Live, sender := Idle, sent := [ev], published := [ev])
  {
    var s1 := s.(sender := Idle, channel := [ev], published := [ev]);
    var s2 := s1.(session := Live);
    var s3 := s2.(sent := [ev], channel := []);
    assert [] + [ev] == [ev] && [ev][1..] == [];
    assert Do(s, TrySend) == s1 && Do(s1, ReadLog) == s2 && Do(s2, Forward) == s3;
    assert Runs(s3, []) && After(s3, []) == s3;
    hide Do, Runs, After;
    OneAction(s2, Forward, s3, [], s3);
    var two := [ReadLog, Forward];
    assert two == [ReadLog] + [Forward] && [Forward] == [Forward] + [];
    OneAction(s1, ReadLog, s2, [Forward], s3);
    OneAction(s, TrySend, s1, two, s3);
  }

  lemma OneAction(s: Server, a: Action, s': Server, rest: seq<Action>, end: Server)
    requires Enabled(s, a) && Do(s, a) == s' && Runs(s', rest) && After(s', rest) == end
    ensures forall all :: all == [a] + rest ==> Runs(s, all) && After(s, all) == end
  {
    assert ([a] + rest)[1..] == rest;
  }
}
