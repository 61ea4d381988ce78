/** Transitions and the key/value edits they ask for (internal/group/group.go, gates.go). */
module Transitions {
  import opened Basics
  import opened ByteStrings
  import opened Snapshot
  import opened KeyValue
  import opened Multisig

  /** Why Apply returned an error. */
  datatype Rejection =
    | UnknownBranch | TooManyBranches
    | BadHlcSize | PriorMismatch | RateLimited | EquivocationDetected
    | NotCreated | MissingPayload | ZeroThreshold | InsufficientSignatures | BadSignatures
    | BadField | TooManyStewards | ThresholdTooHigh | DeadlineMissing | DeadlinePassed
    | MeshRejected | CustodyRejected | NotASteward | SignedOwnRemoval | NotAfterMissing
    | KvSizeExceeded | UnsupportedType | PersistFailed

  /** A protobuf timestamp. */
  datatype Deadline = Deadline(seconds: int, nanos: int)

  datatype InitialPeer = InitialPeer(wgKey: Bytes, ip: Option<Bytes>)

  datatype MissingKind = OfCreateGroup | OfBranchCreate | OfAnotherType

  /** The transition type with its payload. Key fields are the raw bytes on the wire, `body`
      the deterministic marshalling of the payload, `None` an unset field. */
  datatype Payload =
    | CreateGroup(name: Bytes, displayName: Bytes, threshold: uint32, stewards: seq<Bytes>, meshPeers: seq<InitialPeer>)
    | AddSteward(steward: Bytes)
    | RemoveSteward(steward: Bytes)
    | ChangeThreshold(threshold: uint32)
    | AddMember(user: Bytes)
    | RemoveMember(user: Bytes)
    | CreateEvent(eventId: Bytes, title: Bytes, location: Bytes, body: Bytes)
    | UpdateEvent(eventId: Bytes, body: Bytes)
    | CancelEvent(eventId: Bytes)
    | Rsvp(eventId: Bytes, user: Bytes)
    | CancelRsvp(eventId: Bytes, user: Bytes)
    | Attest(toIdentity: Bytes, body: Bytes)
    | Fork(newGroupKey: Option<Bytes>)
    | Migrate(newHost: Bytes, deadline: Option<Deadline>)
    | IssueHostCert(hostname: Bytes, tlsKey: Bytes, notAfter: int, body: Bytes)
    | RevokeHostCert(hostname: Bytes, tlsKey: Bytes, notAfter: int, body: Bytes)
    | AddHostPeer(wgKey: Bytes, meshIp: Bytes)
    | RemoveHostPeer(wgKey: Bytes)
    | DeclareCustody(steward: Bytes, tier: int)
    | SlashSteward(steward: Bytes)
    | BranchCreate(reason: Bytes)
    | NameBind(directory: Bytes, name: Bytes, expiry: Option<int>)
    | Missing(kind: MissingKind)
    | Unsupported

  /** `prior` is the named prior_state hash, empty when the field is absent or empty.
      `canonical` caches the sign-bytes, as NewTransition computes them once. */
  datatype Transition = Transition(
    branch: uint32,
    prior: Bytes,
    hlc: Bytes,
    payload: Payload,
    signatures: Option<seq<Signature>>,
    canonical: Bytes,
    group: PublicKey)

  predicate IsCreate(t: Transition)
  {
    t.payload.CreateGroup? || t.payload == Missing(OfCreateGroup)
  }

  predicate IsBranchCreate(t: Transition)
  {
    t.payload.BranchCreate? || t.payload == Missing(OfBranchCreate)
  }

  predicate NamesPrior(t: Transition)
  {
    t.prior != []
  }

  function Signatures(t: Transition): seq<Signature>
  {
    match t.signatures
    case None => []
    case Some(s) => s
  }

  /** Signature verification against this transition's sign-bytes. */
  function TransitionVerifier(p: Platform, t: Transition): Verifier
  {
    VerifierFor(p, t.group, KIND_TRANSITION, t.canonical)
  }

  /** What Apply is told by its surroundings: the time, the verdicts of the rate limiter, of the
      mesh registry and of the durable log, and the next free branch ID. */
  datatype Call = Call(now: int, limiterOk: bool, meshOk: bool, persistOk: bool, nextBranch: nat)

  // ----- Storage keys -----

  const STEWARD_PREFIX: Bytes := "steward/"
  const THRESHOLD_KEY: Bytes := "threshold"

  function StewardEntry(k: PublicKey): Bytes
  {
    STEWARD_PREFIX + Hex(k)
  }

  predicate IsStewardEntry(key: Bytes)
  {
    STEWARD_PREFIX <= key
  }

  function CertKey(prefix: Bytes, hostname: Bytes, tlsKey: Bytes, notAfter: int): Bytes
  {
    prefix + hostname + "/" + Hex(tlsKey) + "/" + Decimal(notAfter)
  }

  function RsvpKey(eventId: Bytes, user: PublicKey): Bytes
  {
    "rsvp/" + eventId + "/" + Hex(user)
  }

  function NameBindKey(directory: Bytes, name: Bytes, notAfter: int): Bytes
  {
    "name_bind/" + (if directory == [] then "*" else directory) + "/" + name + "/" + Decimal(notAfter)
  }

  function BranchKey(id: nat, field: Bytes): Bytes
  {
    "branch/" + Decimal(id) + field
  }

  const SET_MARK: Bytes := [1 as char]
  const TOMBSTONE: Bytes := [0 as char]

  function Mark(key: Bytes, value: Bytes): Write
  {
    Write(key, Some(value))
  }

  function StewardWrites(raws: seq<Bytes>): (ws: seq<Write>)
    ensures |ws| == |raws|
  {
    if raws == [] then []
    else StewardWrites(raws[..|raws| - 1]) + [Mark(STEWARD_PREFIX + Hex(raws[|raws| - 1]), SET_MARK)]
  }

  function PeerWrites(peers: seq<InitialPeer>): (ws: seq<Write>)
    ensures |ws| == |peers|
  {
    if peers == [] then []
    else PeerWrites(peers[..|peers| - 1])
         + [Write("mesh_peer/" + Hex(peers[|peers| - 1].wgKey), peers[|peers| - 1].ip)]
  }

  /** The edits a transition makes once its gates have passed, in order. */
  function Edits(t: Transition, nextBranch: nat): seq<Write>
  {
    match t.payload
    case CreateGroup(name, display, _, stewards, peers) =>
      [Mark("name", name), Mark("display_name", display)] + StewardWrites(stewards) + PeerWrites(peers)
    case AddSteward(k) => [Mark(StewardEntry(Fix32(k)), SET_MARK)]
    case RemoveSteward(k) => [Write(StewardEntry(Fix32(k)), None)]
    case ChangeThreshold(n) => [Mark(THRESHOLD_KEY, BigEndian(n, 4))]
    case AddMember(u) => [Mark("member/" + Hex(Fix32(u)), SET_MARK)]
    case RemoveMember(u) => [Mark("member/" + Hex(Fix32(u)), TOMBSTONE)]
    case CreateEvent(id, _, _, body) => [Mark("event/" + id, body)]
    case UpdateEvent(id, body) => [Mark("event_patch/" + id, body)]
    case CancelEvent(id) => [Mark("event_cancelled/" + id, SET_MARK)]
    case Rsvp(id, u) => [Mark(RsvpKey(id, Fix32(u)), SET_MARK)]
    case CancelRsvp(id, u) => [Mark(RsvpKey(id, Fix32(u)), TOMBSTONE)]
    case Attest(to, body) => [Mark("attest/" + Hex(to), body)]
    case Fork(k) => [Write("fork_lineage", k)]
    case Migrate(host, deadline) =>
      [Mark("canonical_host", host),
       Mark("canonical_after", BigEndian((match deadline case None => 0 case Some(d) => d.seconds) % TWO_64, 8))]
    case IssueHostCert(h, k, na, body) => [Mark(CertKey("host_cert/", h, k, na), body)]
    case RevokeHostCert(h, k, na, body) =>
      [Mark(CertKey("host_cert_revoke/", h, k, na), body), Write(CertKey("host_cert/", h, k, na), None)]
    case AddHostPeer(k, ip) => [Mark("mesh_peer/" + Hex(k), ip)]
    case RemoveHostPeer(k) => [Mark("mesh_peer/" + Hex(k), [])]
    case DeclareCustody(k, tier) => [Mark("custody/" + Hex(k), [(tier % 256) as char])]
    case SlashSteward(k) =>
      [Write(StewardEntry(Fix32(k)), None), Mark("slashed/" + Hex(Fix32(k)), SET_MARK)]
    case BranchCreate(reason) =>
      [Mark(BranchKey(nextBranch, "/parent"), Decimal(t.branch)), Mark(BranchKey(nextBranch, "/reason"), reason)]
    case NameBind(dir, name, expiry) =>
      [Mark(NameBindKey(dir, name, match expiry case None => 0 case Some(n) => n), SET_MARK)]
    case Missing(_) => []
    case Unsupported => []
  }

  /** Keys that are neither a `steward/` entry nor the threshold, told by their first letters. */
  predicate IsOtherKey(k: Bytes)
  {
    |k| >= 2 && k[0] != 't' && (k[0] == 's' ==> k[1] != 't')
  }

  predicate OnlyOtherKeys(ws: seq<Write>)
  {
    forall i :: 0 <= i < |ws| ==> IsOtherKey(ws[i].key)
  }

  predicate WritesStewards(t: Transition)
  {
    t.payload.CreateGroup? || t.payload.AddSteward? || t.payload.RemoveSteward? || t.payload.SlashSteward?
  }

  lemma EventKeysAreOther(t: Transition, nextBranch: nat)
    requires t.payload.CreateEvent? || t.payload.UpdateEvent? || t.payload.CancelEvent? || t.payload.Rsvp?
             || t.payload.CancelRsvp? || t.payload.AddMember? || t.payload.RemoveMember? || t.payload.Attest?
    ensures OnlyOtherKeys(Edits(t, nextBranch))
  {
  }

  lemma HostKeysAreOther(t: Transition, nextBranch: nat)
    requires t.payload.Migrate? || t.payload.IssueHostCert? || t.payload.RevokeHostCert? || t.payload.AddHostPeer?
             || t.payload.RemoveHostPeer? || t.payload.DeclareCustody? || t.payload.NameBind? || t.payload.Fork?
    ensures OnlyOtherKeys(Edits(t, nextBranch))
  {
  }

  lemma BranchKeysAreOther(t: Transition, nextBranch: nat)
    requires t.payload.BranchCreate? || t.payload.Missing? || t.payload.Unsupported?
    ensures OnlyOtherKeys(Edits(t, nextBranch))
  {
  }

  lemma PrefixLetters(k: Bytes)
    requires IsOtherKey(k)
    ensures !IsStewardEntry(k) && k != THRESHOLD_KEY
  {
    assert STEWARD_PREFIX[0] == 's' && STEWARD_PREFIX[1] == 't' && THRESHOLD_KEY[0] == 't';
  }

  /** Only steward transitions touch `steward/` entries, and only CHANGE_THRESHOLD the threshold
      entry, whatever names, identifiers and keys the other payloads carry. */
  lemma OtherKeysAreSeparate(t: Transition, nextBranch: nat, w: Write)
    requires w in Edits(t, nextBranch) && !WritesStewards(t) && !t.payload.ChangeThreshold?
    ensures !IsStewardEntry(w.key) && w.key != THRESHOLD_KEY
  {
    if t.payload.BranchCreate? || t.payload.Missing? || t.payload.Unsupported? {
      BranchKeysAreOther(t, nextBranch);
    } else if t.payload.Migrate? || t.payload.IssueHostCert? || t.payload.RevokeHostCert? || t.payload.AddHostPeer?
              || t.payload.RemoveHostPeer? || t.payload.DeclareCustody? || t.payload.NameBind? || t.payload.Fork? {
      HostKeysAreOther(t, nextBranch);
    } else {
      EventKeysAreOther(t, nextBranch);
    }
    PrefixLetters(w.key);
  }

  lemma ThresholdKeyIsNotSteward()
    ensures !IsStewardEntry(THRESHOLD_KEY)
  {
    assert STEWARD_PREFIX[0] == 's' && THRESHOLD_KEY[0] == 't';
  }

  lemma StewardWritesAreNotThreshold(t: Transition, nextBranch: nat, w: Write)
    requires w in Edits(t, nextBranch) && WritesStewards(t)
    ensures w.key != THRESHOLD_KEY
  {
    if t.payload.CreateGroup? && (w in StewardWrites(t.payload.stewards) || w in PeerWrites(t.payload.meshPeers)) {
      CreateKeysAreSeparate(t.payload.stewards, t.payload.meshPeers, w);
    }
    assert THRESHOLD_KEY[0] == 't';
  }

  lemma {:induction false} CreateKeysAreSeparate(stewards: seq<Bytes>, peers: seq<InitialPeer>, w: Write)
    requires w in StewardWrites(stewards) || w in PeerWrites(peers)
    ensures w.key != THRESHOLD_KEY
  {
    if w in StewardWrites(stewards) {
      if w !in StewardWrites(stewards[..|stewards| - 1]) {
        assert w.key[0] == 's';
      } else {
        CreateKeysAreSeparate(stewards[..|stewards| - 1], peers, w);
      }
    } else if w !in PeerWrites(peers[..|peers| - 1]) {
      assert w.key[0] == 'm';
    } else {
      CreateKeysAreSeparate(stewards, peers[..|peers| - 1], w);
    }
  }

  lemma {:induction false} PeerKeysAreNotSteward(peers: seq<InitialPeer>, w: Write)
    requires w in PeerWrites(peers)
    ensures !IsStewardEntry(w.key)
  {
    if w !in PeerWrites(peers[..|peers| - 1]) {
      assert w.key[0] == 'm';
    } else {
      PeerKeysAreNotSteward(peers[..|peers| - 1], w);
    }
  }
}
