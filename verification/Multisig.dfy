/** The multisig envelope (internal/crypto/crypto.go). Ed25519 and SHA-256 are parameters. */
module Multisig {
  import opened ByteStrings

  type PublicKey = Bytes32
  type Signature = Bytes

  const ZERO_KEY: PublicKey := Zeros(32)

  /** Code the model does not see: the digest, signature verification, UTF-8 validity. */
  datatype Platform = Platform(
    sha256: Bytes -> Bytes32,
    ed25519: (PublicKey, Signature, Bytes) -> bool,
    validUtf8: Bytes -> bool)

  const KIND_TRANSITION: byte := 1 as char

  /** CanonicalSignBytes. */
  function SignBytes(p: Platform, group: PublicKey, kind: byte, payload: Bytes): Bytes
  {
    p.sha256("federated-meetup/v1/signing") + group + [kind] + BigEndian(|payload|, 8) + payload
  }

  /** What is signed: the digest of the domain string, the group key, the kind, the length of the payload
      in eight bytes, and the payload. */
  lemma SignBytesLayout(p: Platform, group: PublicKey, kind: byte, payload: Bytes)
    ensures var b := SignBytes(p, group, kind, payload);
            && |b| == 73 + |payload|
            && b[..32] == p.sha256("federated-meetup/v1/signing") && b[32..64] == group && b[64] == kind
            && b[65..73] == BigEndian(|payload|, 8) && b[73..] == payload
  {
  }

  /** A signature over one (group, kind, payload) is never a signature over another. */
  lemma SignBytesInjective(p: Platform, g1: PublicKey, k1: byte, m1: Bytes, g2: PublicKey, k2: byte, m2: Bytes)
    requires SignBytes(p, g1, k1, m1) == SignBytes(p, g2, k2, m2)
    ensures g1 == g2 && k1 == k2 && m1 == m2
  {
    var a, b := SignBytes(p, g1, k1, m1), SignBytes(p, g2, k2, m2);
    assert g1 == a[32..64] && g2 == b[32..64];
    assert k1 == a[64] && k2 == b[64];
    assert m1 == a[73..] && m2 == b[73..];
  }

  /** Does signature `sig` verify under `key` for the message being checked? */
  type Verifier = (PublicKey, Signature) -> bool

  /** crypto.Verify for one message. */
  function VerifierFor(p: Platform, group: PublicKey, kind: byte, payload: Bytes): Verifier
  {
    (k: PublicKey, s: Signature) => p.ed25519(k, s, SignBytes(p, group, kind, payload))
  }

  // ----- VerifyMultisig -----

  /** The first steward not yet credited under whom `sig` verifies. */
  function FirstMatch(v: Verifier, stewards: seq<PublicKey>, sig: Signature, verified: set<PublicKey>): set<PublicKey>
  {
    if stewards == [] then {}
    else if stewards[0] !in verified && v(stewards[0], sig) then {stewards[0]}
    else FirstMatch(v, stewards[1..], sig, verified)
  }

  /** The stewards credited after the first `|sigs|` signatures. */
  function Credited(v: Verifier, stewards: seq<PublicKey>, sigs: seq<Signature>): set<PublicKey>
  {
    if sigs == [] then {}
    else
      var before := Credited(v, stewards, sigs[..|sigs| - 1]);
      before + FirstMatch(v, stewards, sigs[|sigs| - 1], before)
  }

  predicate Accepts(v: Verifier, stewards: seq<PublicKey>, threshold: nat, sigs: seq<Signature>)
  {
    threshold > 0 && |sigs| >= threshold && |Credited(v, stewards, sigs)| >= threshold
  }

  lemma {:induction false} FirstMatchSkips(v: Verifier, stewards: seq<PublicKey>, sig: Signature,
                                            verified: set<PublicKey>, n: nat)
    requires n <= |stewards|
    requires forall j :: 0 <= j < n ==> stewards[j] in verified || !v(stewards[j], sig)
    ensures FirstMatch(v, stewards, sig, verified) == FirstMatch(v, stewards[n..], sig, verified)
  {
    if n == 0 {
      assert stewards[0..] == stewards;
    } else {
      FirstMatchSkips(v, stewards[1..], sig, verified, n - 1);
      assert stewards[1..][n - 1..] == stewards[n..];
    }
  }

  lemma FirstMatchFound(v: Verifier, stewards: seq<PublicKey>, sig: Signature, verified: set<PublicKey>, n: nat)
    requires n < |stewards| && stewards[n] !in verified && v(stewards[n], sig)
    requires forall j :: 0 <= j < n ==> stewards[j] in verified || !v(stewards[j], sig)
    ensures FirstMatch(v, stewards, sig, verified) == {stewards[n]}
  {
    FirstMatchSkips(v, stewards, sig, verified, n);
  }

  lemma FirstMatchNone(v: Verifier, stewards: seq<PublicKey>, sig: Signature, verified: set<PublicKey>)
    requires forall k <- stewards :: k in verified || !v(k, sig)
    ensures FirstMatch(v, stewards, sig, verified) == {}
  {
    FirstMatchSkips(v, stewards, sig, verified, |stewards|);
  }

  lemma CreditedNone(v: Verifier, stewards: seq<PublicKey>)
    ensures Credited(v, stewards, []) == {}
  {
  }

  lemma CreditedNext(v: Verifier, stewards: seq<PublicKey>, sigs: seq<Signature>, i: nat)
    requires i < |sigs|
    ensures var before := Credited(v, stewards, sigs[..i]);
            Credited(v, stewards, sigs[..i + 1]) == before + FirstMatch(v, stewards, sigs[i], before)
  {
    hide FirstMatch;
    assert sigs[..i + 1][..i] == sigs[..i];
  }

  /** VerifyMultisig: try each signature against each steward not yet credited. */
  method VerifyMultisig(p: Platform, stewards: seq<PublicKey>, threshold: nat, sigs: seq<Signature>,
                        group: PublicKey, kind: byte, payload: Bytes) returns (ok: bool)
    ensures ok <==> Accepts(VerifierFor(p, group, kind, payload), stewards, threshold, sigs)
  {
    if threshold == 0 || |sigs| < threshold {
      return false;
    }
    ghost var v: Verifier := VerifierFor(p, group, kind, payload);
    hide FirstMatch, Credited;
    CreditedNone(v, stewards);
    var msg := SignBytes(p, group, kind, payload);
    var verified: set<PublicKey> := {};
    var i := 0;
    while i < |sigs|
      invariant 0 <= i <= |sigs|
      invariant verified == Credited(v, stewards, sigs[..i])
    {
      CreditedNext(v, stewards, sigs, i);
      verified := CreditOne(p, stewards, sigs[i], msg, verified, v);
      i := i + 1;
    }
    assert sigs[..i] == sigs;
    return |verified| >= threshold;
  }

  /** The inner loop: credit the first steward that fits. */
  method CreditOne(p: Platform, stewards: seq<PublicKey>, sig: Signature, msg: Bytes, credited: set<PublicKey>,
                   ghost v: Verifier) returns (verified: set<PublicKey>)
    requires forall k :: v(k, sig) == p.ed25519(k, sig, msg)
    ensures verified == credited + FirstMatch(v, stewards, sig, credited)
  {
    hide FirstMatch;
    verified := credited;
    for j := 0 to |stewards|
      invariant verified == credited
      invariant forall k :: 0 <= k < j ==> stewards[k] in credited || !v(stewards[k], sig)
    {
      if stewards[j] !in verified && p.ed25519(stewards[j], sig, msg) {
        FirstMatchFound(v, stewards, sig, credited, j);
        verified := verified + {stewards[j]};
        return;
      }
    }
    FirstMatchNone(v, stewards, sig, credited);
  }

  // ----- What acceptance means -----

  /** `assign` gives each of its keys, all stewards, its own valid signature. */
  ghost predicate DistinctSigners(v: Verifier, stewards: seq<PublicKey>, sigs: seq<Signature>,
                                  assign: map<PublicKey, nat>)
  {
    && (forall k <- assign :: k in stewards && assign[k] < |sigs| && v(k, sigs[assign[k]]))
    && (forall k, l | k in assign && l in assign && k != l :: assign[k] != assign[l])
  }

  /** At least `threshold` distinct stewards, each with a valid signature of their own. */
  ghost predicate Quorum(v: Verifier, stewards: seq<PublicKey>, threshold: nat, sigs: seq<Signature>)
  {
    exists assign: map<PublicKey, nat> :: DistinctSigners(v, stewards, sigs, assign) && |assign| >= threshold
  }

  /** The stewards with at least one valid signature in the list. */
  ghost function Signers(v: Verifier, stewards: seq<PublicKey>, sigs: seq<Signature>): set<PublicKey>
  {
    set k | k in stewards && exists s :: s in sigs && v(k, s)
  }

  lemma {:induction false} FirstMatchMember(v: Verifier, stewards: seq<PublicKey>, sig: Signature,
                                             verified: set<PublicKey>)
    ensures forall k :: k in FirstMatch(v, stewards, sig, verified) ==> k in stewards && k !in verified && v(k, sig)
    ensures |FirstMatch(v, stewards, sig, verified)| <= 1
    ensures FirstMatch(v, stewards, sig, verified) == {} ==> forall k :: k in stewards ==> k in verified || !v(k, sig)
  {
    if stewards != [] {
      FirstMatchMember(v, stewards[1..], sig, verified);
    }
  }

  /** The assignment the greedy loop builds. */
  ghost function Assignment(v: Verifier, stewards: seq<PublicKey>, sigs: seq<Signature>): (a: map<PublicKey, nat>)
  {
    if sigs == [] then map[]
    else
      var n := |sigs| - 1;
      var before := Assignment(v, stewards, sigs[..n]);
      before + (map k | k in FirstMatch(v, stewards, sigs[n], Credited(v, stewards, sigs[..n])) :: n)
  }

  lemma {:induction false} AssignmentIsDistinct(v: Verifier, stewards: seq<PublicKey>, sigs: seq<Signature>)
    ensures Assignment(v, stewards, sigs).Keys == Credited(v, stewards, sigs)
    ensures DistinctSigners(v, stewards, sigs, Assignment(v, stewards, sigs))
  {
    if sigs != [] {
      var n := |sigs| - 1;
      AssignmentIsDistinct(v, stewards, sigs[..n]);
      FirstMatchMember(v, stewards, sigs[n], Credited(v, stewards, sigs[..n]));
      var before, a := Assignment(v, stewards, sigs[..n]), Assignment(v, stewards, sigs);
      forall k | k in a
        ensures k in stewards && a[k] < |sigs| && v(k, sigs[a[k]])
        ensures k in before ==> a[k] == before[k] < n
        ensures k !in before ==> a[k] == n && k in FirstMatch(v, stewards, sigs[n], Credited(v, stewards, sigs[..n]))
      {
      }
      forall k, l | k in a && l in a && k != l
        ensures a[k] != a[l]
      {
        if k !in before && l !in before {
          AtMostOne(FirstMatch(v, stewards, sigs[n], Credited(v, stewards, sigs[..n])), k, l);
        }
      }
    }
  }

  lemma AtMostOne(s: set<PublicKey>, k: PublicKey, l: PublicKey)
    requires |s| <= 1 && k in s && l in s
    ensures k == l
  {
    assert |s - {k}| == 0;
    assert l == k || l in s - {k};
  }

  /** Accepting proves a quorum: threshold-many distinct stewards signed. */
  lemma AcceptsImpliesQuorum(v: Verifier, stewards: seq<PublicKey>, threshold: nat, sigs: seq<Signature>)
    requires Accepts(v, stewards, threshold, sigs)
    ensures threshold > 0 && Quorum(v, stewards, threshold, sigs)
  {
    var a := Assignment(v, stewards, sigs);
    AssignmentIsDistinct(v, stewards, sigs);
    assert |a| == |a.Keys|;
  }

  ghost predicate OneKeyPerSignature(v: Verifier, stewards: seq<PublicKey>, sigs: seq<Signature>)
  {
    forall s, k, l :: s in sigs && k in stewards && l in stewards && v(k, s) && v(l, s) ==> k == l
  }

  lemma {:induction false} CreditedIsSigners(v: Verifier, stewards: seq<PublicKey>, sigs: seq<Signature>)
    requires OneKeyPerSignature(v, stewards, sigs)
    ensures Credited(v, stewards, sigs) == Signers(v, stewards, sigs)
  {
    if sigs != [] {
      var n := |sigs| - 1;
      var init, last := sigs[..n], sigs[n];
      assert sigs == init + [last];
      CreditedIsSigners(v, stewards, init);
      var before := Credited(v, stewards, init);
      FirstMatchMember(v, stewards, last, before);
      var now := FirstMatch(v, stewards, last, before);
      forall k
        ensures k in before + now <==> k in Signers(v, stewards, sigs)
      {
        if k in now {
          assert last in sigs && v(k, last);
        }
        if k in stewards && v(k, last) && k !in before {
          assert now != {};
          var l :| l in now;
          assert l == k;
        }
      }
    }
  }

  lemma {:induction false} FewerCreditedThanSignatures(v: Verifier, stewards: seq<PublicKey>, sigs: seq<Signature>)
    ensures |Credited(v, stewards, sigs)| <= |sigs|
  {
    if sigs != [] {
      var n := |sigs| - 1;
      FewerCreditedThanSignatures(v, stewards, sigs[..n]);
      var before := Credited(v, stewards, sigs[..n]);
      var now := FirstMatch(v, stewards, sigs[n], before);
      FirstMatchMember(v, stewards, sigs[n], before);
      assert before !! now;
    }
  }

  /** When a signature verifies under at most one key, the greedy loop is exact: it accepts
      exactly when the threshold is positive and that many distinct stewards signed. */
  lemma AcceptsExactly(v: Verifier, stewards: seq<PublicKey>, threshold: nat, sigs: seq<Signature>)
    requires OneKeyPerSignature(v, stewards, sigs)
    ensures Accepts(v, stewards, threshold, sigs) <==> threshold > 0 && |Signers(v, stewards, sigs)| >= threshold
  {
    CreditedIsSigners(v, stewards, sigs);
    FewerCreditedThanSignatures(v, stewards, sigs);
  }

  /** Hence neither the order of either list nor repetitions in it matter. */
  lemma AcceptsIgnoresOrder(v: Verifier, stewards: seq<PublicKey>, stewards': seq<PublicKey>, threshold: nat,
                            sigs: seq<Signature>, sigs': seq<Signature>)
    requires OneKeyPerSignature(v, stewards, sigs)
    requires forall k :: k in stewards <==> k in stewards'
    requires forall s :: s in sigs <==> s in sigs'
    ensures Accepts(v, stewards, threshold, sigs) <==> Accepts(v, stewards', threshold, sigs')
  {
    assert Signers(v, stewards, sigs) == Signers(v, stewards', sigs');
    AcceptsExactly(v, stewards, threshold, sigs);
    AcceptsExactly(v, stewards', threshold, sigs');
  }

  /** Without that property the greedy loop can refuse a list that does hold a quorum: if both
      keys accept the first signature and only the first key accepts the second one, the loop
      spends the first signature on the first key and finds nothing left for the second key. */
  lemma GreedyCanMissQuorum(a: PublicKey, b: PublicKey, s: Signature, r: Signature)
    requires a != b && s != r
    ensures var v: Verifier := (k, x) => (x == s && (k == a || k == b)) || (x == r && k == a);
            Quorum(v, [a, b], 2, [s, r]) && !Accepts(v, [a, b], 2, [s, r])
  {
    var v: Verifier := (k, x) => (x == s && (k == a || k == b)) || (x == r && k == a);
    var assign: map<PublicKey, nat> := map[a := 1, b := 0];
    TwoKeys(a, b, assign);
    assert DistinctSigners(v, [a, b], [s, r], assign);
    CreditedTwo(v, [a, b], s, r);
    FirstMatchTwo(v, a, b, s, {});
    FirstMatchTwo(v, a, b, r, {a});
    hide Credited, FirstMatch;
    assert {} + {a} + {} == {a};
  }

  lemma TwoKeys(a: PublicKey, b: PublicKey, assign: map<PublicKey, nat>)
    requires a != b && assign == map[a := 1, b := 0]
    ensures |assign| == 2
  {
    assert assign.Keys == {a, b};
    assert |assign.Keys| == |assign|;
  }

  lemma CreditedTwo(v: Verifier, stewards: seq<PublicKey>, s: Signature, r: Signature)
    ensures var first := FirstMatch(v, stewards, s, {});
            Credited(v, stewards, [s, r]) == first + FirstMatch(v, stewards, r, first)
  {
    hide FirstMatch, Credited;
    var sigs := [s, r];
    assert sigs[..0] == [] && sigs[..1] == [s] && sigs[..2] == sigs;
    CreditedNone(v, stewards);
    CreditedNext(v, stewards, sigs, 0);
    CreditedNext(v, stewards, sigs, 1);
    assert {} + FirstMatch(v, stewards, s, {}) == FirstMatch(v, stewards, s, {});
  }

  lemma FirstMatchTwo(v: Verifier, a: PublicKey, b: PublicKey, sig: Signature, done: set<PublicKey>)
    ensures FirstMatch(v, [a, b], sig, done)
         == if a !in done && v(a, sig) then {a} else if b !in done && v(b, sig) then {b} else {}
  {
    assert [a, b][1..] == [b] && [b][1..] == [];
    assert FirstMatch(v, [], sig, done) == {};
  }

  // ----- findSigningSteward -----

  /** The first steward, in list order, under whom `sig` verifies. */
  function SignerOf(v: Verifier, stewards: seq<PublicKey>, sig: Signature): PublicKey
  {
    if stewards == [] then ZERO_KEY
    else if v(stewards[0], sig) then stewards[0]
    else SignerOf(v, stewards[1..], sig)
  }

  predicate AnyVerifies(v: Verifier, stewards: seq<PublicKey>, sig: Signature)
  {
    exists k :: k in stewards && v(k, sig)
  }

  /** The steward the first verifying signature is attributed to; the zero key if there is none. */
  function SigningSteward(v: Verifier, stewards: seq<PublicKey>, sigs: seq<Signature>): PublicKey
  {
    if sigs == [] then ZERO_KEY
    else if AnyVerifies(v, stewards, sigs[0]) then SignerOf(v, stewards, sigs[0])
    else SigningSteward(v, stewards, sigs[1..])
  }

  /** Without stewards no signature is attributed to anyone. */
  lemma {:induction false} NobodySigns(v: Verifier, sigs: seq<Signature>)
    ensures SigningSteward(v, [], sigs) == ZERO_KEY
  {
    if sigs != [] {
      assert !AnyVerifies(v, [], sigs[0]);
      NobodySigns(v, sigs[1..]);
    }
  }

  /** The i-th signature is the first that verifies under any steward, and the j-th steward the first under
      whom it does. */
  ghost predicate FirstAttribution(v: Verifier, stewards: seq<PublicKey>, sigs: seq<Signature>, i: nat, j: nat)
  {
    && i < |sigs| && j < |stewards| && v(stewards[j], sigs[i])
    && (forall m, k :: 0 <= m < i && k in stewards ==> !v(k, sigs[m]))
    && (forall m :: 0 <= m < j ==> !v(stewards[m], sigs[i]))
  }

  /** Whom a list of signatures is attributed to. */
  lemma {:induction false} AttributedExactly(
    v: Verifier, stewards: seq<PublicKey>, sigs: seq<Signature>, i: nat, j: nat)
    ensures FirstAttribution(v, stewards, sigs, i, j) ==> SigningSteward(v, stewards, sigs) == stewards[j]
    ensures (forall m, k :: 0 <= m < |sigs| && k in stewards ==> !v(k, sigs[m])) ==>
              SigningSteward(v, stewards, sigs) == ZERO_KEY
  {
    if FirstAttribution(v, stewards, sigs, i, j) {
      SigningStewardSkips(v, stewards, sigs, i);
      SignerOfAt(v, stewards, sigs[i], j);
      assert sigs[i..][0] == sigs[i] && stewards[j] in stewards;
    }
    if forall m, k :: 0 <= m < |sigs| && k in stewards ==> !v(k, sigs[m]) {
      SigningStewardSkips(v, stewards, sigs, |sigs|);
    }
  }

  lemma {:induction false} SignerOfAt(v: Verifier, stewards: seq<PublicKey>, sig: Signature, n: nat)
    requires n < |stewards| && v(stewards[n], sig)
    requires forall j :: 0 <= j < n ==> !v(stewards[j], sig)
    ensures SignerOf(v, stewards, sig) == stewards[n]
  {
    if n > 0 {
      SignerOfAt(v, stewards[1..], sig, n - 1);
    }
  }

  lemma {:induction false} SigningStewardSkips(v: Verifier, stewards: seq<PublicKey>, sigs: seq<Signature>, n: nat)
    requires n <= |sigs|
    requires forall i :: 0 <= i < n ==> !AnyVerifies(v, stewards, sigs[i])
    ensures SigningSteward(v, stewards, sigs) == SigningSteward(v, stewards, sigs[n..])
  {
    if n == 0 {
      assert sigs[0..] == sigs;
    } else {
      SigningStewardSkips(v, stewards, sigs[1..], n - 1);
      assert sigs[1..][n - 1..] == sigs[n..];
    }
  }

  /** findSigningSteward. The `matched` table of the source is always empty when it is read. */
  method FindSigningSteward(p: Platform, stewards: seq<PublicKey>, sigs: seq<Signature>,
                            group: PublicKey, payload: Bytes) returns (k: PublicKey)
    ensures k == SigningSteward(VerifierFor(p, group, KIND_TRANSITION, payload), stewards, sigs)
  {
    ghost var v: Verifier := VerifierFor(p, group, KIND_TRANSITION, payload);
    var i := 0;
    while i < |sigs|
      invariant 0 <= i <= |sigs|
      invariant forall x :: 0 <= x < i ==> !AnyVerifies(v, stewards, sigs[x])
    {
      var j := 0;
      while j < |stewards|
        invariant 0 <= j <= |stewards|
        invariant forall x :: 0 <= x < j ==> !v(stewards[x], sigs[i])
      {
        if p.ed25519(stewards[j], sigs[i], SignBytes(p, group, KIND_TRANSITION, payload)) {
          SigningStewardSkips(v, stewards, sigs, i);
          SignerOfAt(v, stewards, sigs[i], j);
          assert AnyVerifies(v, stewards, sigs[i..][0]) by { assert v(stewards[j], sigs[i]); }
          return stewards[j];
        }
        j := j + 1;
      }
      i := i + 1;
    }
    SigningStewardSkips(v, stewards, sigs, |sigs|);
    return ZERO_KEY;
  }
}
