/** One branch's state machine: State.Apply (internal/group/group.go:439-1190) as a function. */
module Ledger {
  import opened Basics
  import opened ByteStrings
  import opened Snapshot
  import opened KeyValue
  import opened Multisig
  import opened Equivocation
  import opened Transitions

  /** The configurable caps of a State; a cap of 0 or less is off. */
  datatype Limits = Limits(maxStewards: int, maxLogSize: int, maxKvSize: int, maxKvBytes: int,
                           maxBranches: int, maxEquivocations: int)

  datatype Env = Env(platform: Platform, limits: Limits)

  /** The per-branch fields of State. `equivocation` is None while the log is nil. */
  datatype Ledger = BranchState(
    entries: Entries,
    stewardHistory: map<Bytes32, seq<PublicKey>>,
    thresholdHistory: map<Bytes32, nat>,
    initialStewards: seq<PublicKey>,
    initialThreshold: nat,
    log: seq<Transition>,
    equivocation: Option<EqLog>)

  const FRESH := BranchState([], map[], map[], [], 0, [], None)

  function Root(p: Platform, entries: Entries): Bytes32
  {
    p.sha256(Preimage(entries))
  }

  // ----- Who may sign at a root -----

  function StewardsAt(p: Platform, l: Ledger, prior: Bytes): seq<PublicKey>
  {
    if prior == [] then
      var r := Root(p, l.entries);
      if r in l.stewardHistory then l.stewardHistory[r] else l.initialStewards
    else
      var h := Fix32(prior);
      if h in l.stewardHistory then l.stewardHistory[h] else []
  }

  function ThresholdAt(p: Platform, l: Ledger, prior: Bytes): nat
  {
    if prior == [] then
      var r := Root(p, l.entries);
      if r in l.thresholdHistory then l.thresholdHistory[r] else l.initialThreshold
    else
      var h := Fix32(prior);
      if h in l.thresholdHistory then l.thresholdHistory[h] else 0
  }

  // ----- Stage 1: clock format, prior state, limiter, equivocation -----

  /** A stage either goes on or stops Apply with an error; both may have touched the ledger. */
  datatype Stage = Go(ledger: Ledger) | Stop(why: Rejection, ledger: Ledger)

  const HLC_SIZE := 18

  function SigningKey(p: Platform, l: Ledger, t: Transition): PublicKey
  {
    SigningSteward(TransitionVerifier(p, t), StewardsAt(p, l, t.prior), Signatures(t))
  }

  function PresentationOf(p: Platform, signer: PublicKey, t: Transition): Presentation
  {
    Presentation(EqKey(signer, Fix32(t.prior)), Seen(t.hlc, p.sha256(t.canonical)))
  }

  function EqLogOf(e: Env, l: Ledger): EqLog
  {
    match l.equivocation
    case None => EmptyLog(e.limits.maxEquivocations)
    case Some(eq) => eq
  }

  function Screen(e: Env, l: Ledger, t: Transition, call: Call): Stage
  {
    if !IsCreate(t) && |t.hlc| != HLC_SIZE then Stop(BadHlcSize, l)
    else if !NamesPrior(t) then Go(l)
    else if Fix32(t.prior) != Root(e.platform, l.entries) then Stop(PriorMismatch, l)
    else
      var signer := SigningKey(e.platform, l, t);
      if signer == ZERO_KEY then Go(l)
      else if !call.limiterOk then Stop(RateLimited, l)
      else
        var p := PresentationOf(e.platform, signer, t);
        var l' := l.(equivocation := Some(Record(EqLogOf(e, l), p)));
        if Conflicts(EqLogOf(e, l), p) then Stop(EquivocationDetected, l') else Go(l')
  }

  // ----- Stage 2: signatures -----

  function PadKeys(raws: seq<Bytes>): (ks: seq<PublicKey>)
    ensures |ks| == |raws|
  {
    if raws == [] then [] else PadKeys(raws[..|raws| - 1]) + [Fix32(raws[|raws| - 1])]
  }

  function Authorize(p: Platform, l: Ledger, t: Transition): Stage
  {
    var stewards := StewardsAt(p, l, t.prior);
    if stewards == [] then
      if !IsCreate(t) then Stop(NotCreated, l)
      else if !t.payload.CreateGroup? then Stop(MissingPayload, l)
      else if t.payload.threshold == 0 then Stop(ZeroThreshold, l)
      else if t.signatures.None? || |t.signatures.value| < t.payload.threshold then Stop(InsufficientSignatures, l)
      else
        var keys := PadKeys(t.payload.stewards);
        if !Accepts(TransitionVerifier(p, t), keys, t.payload.threshold, t.signatures.value) then Stop(BadSignatures, l)
        else Go(l.(initialStewards := keys, initialThreshold := t.payload.threshold))
    else if t.signatures.None? then Stop(BadSignatures, l)
    else if !Accepts(TransitionVerifier(p, t), stewards, ThresholdAt(p, l, t.prior), t.signatures.value) then
      Stop(BadSignatures, l)
    else Go(l)
  }

  // ----- Stage 3: the gates of each transition type -----

  predicate ValidString(p: Platform, s: Bytes, min: nat, max: nat)
  {
    min <= |s| <= max && p.validUtf8(s)
  }

  /** The list without repeated keys, first occurrences kept. */
  function Dedupe(keys: seq<PublicKey>): seq<PublicKey>
  {
    if keys == [] then []
    else
      var init := Dedupe(keys[..|keys| - 1]);
      if keys[|keys| - 1] in init then init else init + [keys[|keys| - 1]]
  }

  /** prospectiveStewardsAfterAddLocked. */
  function Prospective(p: Platform, l: Ledger, key: PublicKey): seq<PublicKey>
  {
    var out := Dedupe(StewardsAt(p, l, []));
    if key in out then out else out + [key]
  }

  predicate SignedBy(v: Verifier, key: PublicKey, sigs: seq<Signature>)
  {
    exists i :: 0 <= i < |sigs| && v(key, sigs[i])
  }

  function EventGate(p: Platform, id: Bytes): Option<Rejection>
  {
    if ValidString(p, id, 1, 256) then None else Some(BadField)
  }

  /** Why the payload is refused, if it is. */
  function Gate(e: Env, l: Ledger, t: Transition, call: Call): Option<Rejection>
  {
    var p := e.platform;
    match t.payload
    case CreateGroup(name, display, _, _, peers) =>
      if !ValidString(p, name, 1, 256) || !ValidString(p, display, 1, 256) then Some(BadField)
      else if peers != [] && !call.meshOk then Some(MeshRejected)
      else None
    case AddSteward(k) =>
      if e.limits.maxStewards > 0 && |Prospective(p, l, Fix32(k))| > e.limits.maxStewards
      then Some(TooManyStewards) else None
    case RemoveSteward(_) => None
    case ChangeThreshold(n) =>
      if n == 0 then Some(ZeroThreshold)
      else if n > |StewardsAt(p, l, t.prior)| then Some(ThresholdTooHigh)
      else None
    case AddMember(_) => None
    case RemoveMember(_) => None
    case CreateEvent(id, title, location, _) =>
      if !ValidString(p, id, 1, 256) || !ValidString(p, title, 1, 1024) || !ValidString(p, location, 0, 1024)
      then Some(BadField) else None
    case UpdateEvent(id, _) => EventGate(p, id)
    case CancelEvent(id) => EventGate(p, id)
    case Rsvp(id, _) => EventGate(p, id)
    case CancelRsvp(id, _) => EventGate(p, id)
    case Attest(_, _) => None
    case Fork(_) => None
    case Migrate(host, deadline) =>
      if !ValidString(p, host, 1, 256) then Some(BadField)
      else if deadline.None? || deadline.value.seconds == 0 then Some(DeadlineMissing)
      else if DeadlineInstant(deadline.value) < call.now then Some(DeadlinePassed)
      else None
    case IssueHostCert(_, _, _, _) => None
    case RevokeHostCert(_, _, _, _) => None
    case AddHostPeer(_, ip) =>
      if |ip| != 4 && |ip| != 16 then Some(BadField) else if !call.meshOk then Some(MeshRejected) else None
    case RemoveHostPeer(_) => if !call.meshOk then Some(MeshRejected) else None
    case DeclareCustody(k, tier) =>
      if tier == 0 || Fix32(k) !in StewardsAt(p, l, []) then Some(CustodyRejected) else None
    case SlashSteward(k) =>
      if Fix32(k) !in StewardsAt(p, l, t.prior) then Some(NotASteward)
      else if t.signatures.None? then Some(BadSignatures)
      else if SignedBy(TransitionVerifier(p, t), Fix32(k), t.signatures.value) then Some(SignedOwnRemoval)
      else None
    case BranchCreate(_) => None
    case NameBind(_, name, expiry) =>
      if !ValidString(p, name, 1, 256) then Some(BadField)
      else if expiry.None? then Some(NotAfterMissing)
      else None
    case Missing(kind) => Some(if kind == OfCreateGroup then BadField else MissingPayload)
    case Unsupported => Some(UnsupportedType)
  }

  /** Nanoseconds since the epoch. */
  function DeadlineInstant(d: Deadline): int
  {
    d.seconds * 1_000_000_000 + d.nanos
  }

  /** The entries after the edits, unless a size cap stops one of them. */
  function ApplyEdits(limits: Limits, s: Entries, ws: seq<Write>): Option<Entries>
  {
    if ws == [] then Some(s)
    else
      match ApplyEdits(limits, s, ws[..|ws| - 1])
      case None => None
      case Some(s1) =>
        if Allowed(s1, ws[|ws| - 1], limits.maxKvSize, limits.maxKvBytes) then Some(Put(s1, ws[|ws| - 1])) else None
  }

  // ----- Stage 4: the tail of Apply -----

  function Without(keys: seq<PublicKey>, k: PublicKey): seq<PublicKey>
  {
    if keys == [] then []
    else Without(keys[..|keys| - 1], k) + (if keys[|keys| - 1] != k then [keys[|keys| - 1]] else [])
  }

  /** computeCurrentStewards, run after the snapshot has been replaced. */
  function NextStewards(p: Platform, l: Ledger, t: Transition): seq<PublicKey>
  {
    var current := StewardsAt(p, l, t.prior);
    match t.payload
    case CreateGroup(_, _, _, _, _) => l.initialStewards
    case AddSteward(k) => if Fix32(k) in current then current else current + [Fix32(k)]
    case RemoveSteward(k) => Without(current, Fix32(k))
    case SlashSteward(k) => Without(current, Fix32(k))
    case _ => current
  }

  /** computeCurrentThreshold. */
  function NextThreshold(l: Ledger, t: Transition): nat
  {
    if t.payload.ChangeThreshold? then t.payload.threshold
    else if t.prior != [] && Fix32(t.prior) in l.thresholdHistory then l.thresholdHistory[Fix32(t.prior)]
    else l.initialThreshold
  }

  function AppendCapped(log: seq<Transition>, t: Transition, max: int): seq<Transition>
  {
    var longer := log + [t];
    if max > 0 && |longer| > max then longer[|longer| - max..] else longer
  }

  function Commit(e: Env, l: Ledger, t: Transition, entries: Entries): Ledger
  {
    var l' := l.(entries := entries);
    var r := Root(e.platform, entries);
    l'.(stewardHistory := l.stewardHistory[r := NextStewards(e.platform, l', t)],
        thresholdHistory := l.thresholdHistory[r := NextThreshold(l, t)],
        log := AppendCapped(l.log, t, e.limits.maxLogSize))
  }

  // ----- The whole step -----

  datatype Outcome = Accepted(ledger: Ledger) | Rejected(why: Rejection, ledger: Ledger)

  /** Edits, commit and durable write, once the gate has passed. */
  function Perform(e: Env, l: Ledger, t: Transition, call: Call): Outcome
  {
    match ApplyEdits(e.limits, l.entries, Edits(t, call.nextBranch))
    case None => Rejected(KvSizeExceeded, l)
    case Some(entries) =>
      var l' := Commit(e, l, t, entries);
      if call.persistOk then Accepted(l') else Rejected(PersistFailed, l')
  }

  /** Gates, edits and commit, once the signatures have been verified. */
  function Execute(e: Env, l: Ledger, t: Transition, call: Call): Outcome
  {
    match Gate(e, l, t, call)
    case Some(why) => Rejected(why, l)
    case None => Perform(e, l, t, call)
  }

  function Step(e: Env, l: Ledger, t: Transition, call: Call): Outcome
  {
    match Screen(e, l, t, call)
    case Stop(why, l1) => Rejected(why, l1)
    case Go(l1) =>
      match Authorize(e.platform, l1, t)
      case Stop(why, l2) => Rejected(why, l2)
      case Go(l2) => Execute(e, l2, t, call)
  }

  /** Everything a ledger holds except the equivocation log and the initial set. */
  predicate SameCore(l: Ledger, l': Ledger)
  {
    && l'.entries == l.entries && l'.stewardHistory == l.stewardHistory
    && l'.thresholdHistory == l.thresholdHistory && l'.log == l.log
  }

  lemma ScreenKeepsCore(e: Env, l: Ledger, t: Transition, call: Call)
    ensures var l' := Screen(e, l, t, call).ledger;
            SameCore(l, l') && l'.initialStewards == l.initialStewards && l'.initialThreshold == l.initialThreshold
  {
  }

  lemma AuthorizeKeepsCore(p: Platform, l: Ledger, t: Transition)
    ensures SameCore(l, Authorize(p, l, t).ledger)
    ensures Authorize(p, l, t).ledger.equivocation == l.equivocation
  {
  }

  lemma ExecuteKeepsCore(e: Env, l: Ledger, t: Transition, call: Call)
    requires Execute(e, l, t, call).Rejected? && Execute(e, l, t, call).why != PersistFailed
    ensures Execute(e, l, t, call).ledger == l
  {
  }

  /** What a rejection may leave behind: the equivocation log, and the initial steward set and
      threshold, which a CREATE_GROUP assigns before its fields are checked. */
  lemma RejectionKeepsCore(e: Env, l: Ledger, t: Transition, call: Call)
    requires Step(e, l, t, call).Rejected? && Step(e, l, t, call).why != PersistFailed
    ensures SameCore(l, Step(e, l, t, call).ledger)
  {
    ScreenKeepsCore(e, l, t, call);
    var l1 := Screen(e, l, t, call).ledger;
    AuthorizeKeepsCore(e.platform, l1, t);
    if Screen(e, l, t, call).Go? && Authorize(e.platform, l1, t).Go? {
      ExecuteKeepsCore(e, Authorize(e.platform, l1, t).ledger, t, call);
    }
  }
}
