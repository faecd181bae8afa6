/** Verification of a BEEFY finality proof against a validator set. */
module BeefyProof {
  import opened Common
  import opened BeefyTypes
  import opened BeefyRounds
  import opened BeefyAgreement

  function ValidSignatures(
      validators: seq<AuthorityId>, signatures: seq<Option<Signature>>, c: Commitment, verify: Verifier): nat
    requires |validators| == |signatures|
  {
    if validators == [] then 0 else
      (if signatures[0].Some? && verify(validators[0], signatures[0].value, c) then 1 else 0)
      + ValidSignatures(validators[1..], signatures[1..], c, verify)
  }

  predicate Accepts(target: Number, vs: ValidatorSet, proof: FinalityProof, verify: Verifier) {
    && |proof.signatures| == |vs.validators|
    && proof.commitment.validatorSetId == vs.id
    && proof.commitment.blockNumber == target
    && ValidSignatures(vs.validators, proof.signatures, proof.commitment, verify) >= Threshold(|vs.validators|)
  }

  lemma CollectCons(validators: seq<AuthorityId>, votes: map<AuthorityId, Signature>)
    requires validators != []
    ensures Collect(validators, votes)[1..] == Collect(validators[1..], votes)
  {
  }

  lemma IntersectCons(keys: set<AuthorityId>, v: AuthorityId, rest: set<AuthorityId>)
    ensures |keys * ({v} + rest)| <= |keys * rest| + (if v in keys then 1 else 0)
  {
    if v in keys {
      assert keys * ({v} + rest) == (keys * rest) + {v};
    } else {
      assert keys * ({v} + rest) == keys * rest;
    }
  }

  /** Each signer fills at least one slot, so the count is at least the number of distinct signers. */
  lemma {:induction false} CollectedCount(
      validators: seq<AuthorityId>, votes: map<AuthorityId, Signature>, c: Commitment, verify: Verifier)
    requires forall id :: id in votes ==> verify(id, votes[id], c)
    ensures ValidSignatures(validators, Collect(validators, votes), c, verify) >= |votes.Keys * Members(validators)|
  {
    if validators == [] {
      assert votes.Keys * Members(validators) == {};
    } else {
      CollectedCount(validators[1..], votes, c, verify);
      CollectCons(validators, votes);
      MembersCons(validators);
      IntersectCons(votes.Keys, validators[0], Members(validators[1..]));
    }
  }

  ghost predicate VotesVerify(r: Rounds, verify: Verifier) {
    forall round, id :: round in r.rounds && id in r.rounds[round].votes ==>
      verify(id, r.rounds[round].votes[id], Commitment(round.payload, round.number, r.validatorSet.id))
  }

  /**
    The proof that a concluded round gives is accepted for its block by the session's own set,
    even when the set lists a key twice.
   */
  lemma ConcludedProofIsAccepted(r: Rounds, round: Round, verify: Verifier)
    requires Valid(r) && VotesVerify(r, verify) && IsDone(r, round)
    ensures var proof := FinalityProof(
                           Commitment(round.payload, round.number, r.validatorSet.id),
                           TryConclude(r, round).1.value);
            Accepts(round.number, r.validatorSet, proof, verify)
  {
    var votes := r.rounds[round].votes;
    assert TrackerOk(r, round);
    CollectedCount(
      r.validatorSet.validators, votes, Commitment(round.payload, round.number, r.validatorSet.id), verify);
    assert votes.Keys * Members(r.validatorSet.validators) == votes.Keys;
  }

  // ---- what acceptance proves ----

  ghost predicate Distinct(validators: seq<AuthorityId>) {
    forall i, j :: 0 <= i < j < |validators| ==> validators[i] != validators[j]
  }

  /** The keys with a valid signature in some slot. */
  ghost function Signers(
      validators: seq<AuthorityId>, signatures: seq<Option<Signature>>, c: Commitment, verify: Verifier)
    : set<AuthorityId>
    requires |validators| == |signatures|
  {
    set i | 0 <= i < |validators| && signatures[i].Some? && verify(validators[i], signatures[i].value, c)
      :: validators[i]
  }

  lemma SignersCons(
      validators: seq<AuthorityId>, signatures: seq<Option<Signature>>, c: Commitment, verify: Verifier)
    requires |validators| == |signatures| && validators != []
    ensures Signers(validators, signatures, c, verify) ==
              Signers(validators[1..], signatures[1..], c, verify)
              + if signatures[0].Some? && verify(validators[0], signatures[0].value, c) then {validators[0]} else {}
  {
    var rest, sigs := validators[1..], signatures[1..];
    forall id | id in Signers(validators, signatures, c, verify)
      ensures id in Signers(rest, sigs, c, verify)
           || (signatures[0].Some? && verify(validators[0], signatures[0].value, c) && id == validators[0])
    {
      var i :| 0 <= i < |validators| && signatures[i].Some? && verify(validators[i], signatures[i].value, c)
               && id == validators[i];
      if i > 0 {
        assert rest[i - 1] == id && sigs[i - 1] == signatures[i];
      }
    }
    forall id | id in Signers(rest, sigs, c, verify)
      ensures id in Signers(validators, signatures, c, verify)
    {
      var i :| 0 <= i < |rest| && sigs[i].Some? && verify(rest[i], sigs[i].value, c) && id == rest[i];
      assert validators[i + 1] == id && signatures[i + 1] == sigs[i];
    }
  }

  lemma {:induction false} DistinctCount(
      validators: seq<AuthorityId>, signatures: seq<Option<Signature>>, c: Commitment, verify: Verifier)
    requires |validators| == |signatures| && Distinct(validators)
    ensures |Signers(validators, signatures, c, verify)| == ValidSignatures(validators, signatures, c, verify)
  {
    if validators == [] {
      assert Signers(validators, signatures, c, verify) == {};
    } else {
      DistinctCount(validators[1..], signatures[1..], c, verify);
      SignersCons(validators, signatures, c, verify);
      assert validators[0] !in Signers(validators[1..], signatures[1..], c, verify);
    }
  }

  /** The slots from `lo` on with a valid signature. */
  ghost function ValidSlots(
      validators: seq<AuthorityId>, signatures: seq<Option<Signature>>, c: Commitment, verify: Verifier, lo: nat)
    : set<nat>
    requires |validators| == |signatures|
  {
    set i | lo <= i < |validators| && signatures[i].Some? && verify(validators[i], signatures[i].value, c)
  }

  /** The count is one of slots. */
  lemma {:induction false} SlotsCount(
      validators: seq<AuthorityId>, signatures: seq<Option<Signature>>, c: Commitment, verify: Verifier, lo: nat)
    requires |validators| == |signatures| && lo <= |validators|
    ensures |ValidSlots(validators, signatures, c, verify, lo)|
         == ValidSignatures(validators[lo..], signatures[lo..], c, verify)
    decreases |validators| - lo
  {
    var slots := ValidSlots(validators, signatures, c, verify, lo);
    if lo == |validators| {
      assert slots == {};
    } else {
      SlotsCount(validators, signatures, c, verify, lo + 1);
      assert validators[lo..][1..] == validators[lo + 1..] && signatures[lo..][1..] == signatures[lo + 1..];
      var more := ValidSlots(validators, signatures, c, verify, lo + 1);
      assert slots == more + if signatures[lo].Some? && verify(validators[lo], signatures[lo].value, c) then {lo} else {};
    }
  }

  /** Acceptance is a count of slots; over a set without repeated keys, of signers. */
  lemma AcceptsExactly(target: Number, vs: ValidatorSet, proof: FinalityProof, verify: Verifier)
    requires |proof.signatures| == |vs.validators|
    ensures
      var slots := ValidSlots(vs.validators, proof.signatures, proof.commitment, verify, 0);
      && (Accepts(target, vs, proof, verify) <==>
          proof.commitment.validatorSetId == vs.id && proof.commitment.blockNumber == target
          && |slots| >= Threshold(|vs.validators|))
      && (Distinct(vs.validators) ==> |slots| == |Signers(vs.validators, proof.signatures, proof.commitment, verify)|)
  {
    SlotsCount(vs.validators, proof.signatures, proof.commitment, verify, 0);
    assert vs.validators[0..] == vs.validators && proof.signatures[0..] == proof.signatures;
    if Distinct(vs.validators) {
      DistinctCount(vs.validators, proof.signatures, proof.commitment, verify);
    }
  }

  /** Over a set without repeated keys, an accepted proof carries a quorum of distinct signers. */
  lemma AcceptedProofHasQuorum(target: Number, vs: ValidatorSet, proof: FinalityProof, verify: Verifier)
    requires Accepts(target, vs, proof, verify) && Distinct(vs.validators)
    ensures var signers := Signers(vs.validators, proof.signatures, proof.commitment, verify);
            signers <= Members(vs.validators) && |signers| >= Threshold(|vs.validators|)
  {
    DistinctCount(vs.validators, proof.signatures, proof.commitment, verify);
  }

  // ---- a repeated key ----

  lemma {:induction false} SubsetWith(s: set<AuthorityId>, x: AuthorityId, k: nat) returns (d: set<AuthorityId>)
    requires x in s && 1 <= k <= |s|
    ensures x in d && d <= s && |d| == k
  {
    if k == |s| {
      d := s;
    } else {
      assert s != {x};
      var y :| y in s && y != x;
      d := SubsetWith(s - {y}, x, k);
    }
  }

  ghost predicate AllSigned(signatures: seq<Option<Signature>>) {
    forall i :: 0 <= i < |signatures| ==> signatures[i].Some?
  }

  /** The signatures that verify are those of the given keys. */
  ghost predicate VerifiesFor(verify: Verifier, c: Commitment, keys: set<AuthorityId>) {
    forall id, signature :: verify(id, signature, c) <==> id in keys
  }

  /** With every slot filled, each of the keys fills at least one. */
  lemma {:induction false} KeysFillSlots(
      validators: seq<AuthorityId>, signatures: seq<Option<Signature>>, c: Commitment, verify: Verifier,
      keys: set<AuthorityId>)
    requires |validators| == |signatures| && AllSigned(signatures) && VerifiesFor(verify, c, keys)
    ensures ValidSignatures(validators, signatures, c, verify) >= |keys * Members(validators)|
    ensures Members(validators) <= keys ==> ValidSignatures(validators, signatures, c, verify) == |validators|
  {
    if validators == [] {
      assert keys * Members(validators) == {};
    } else {
      KeysFillSlots(validators[1..], signatures[1..], c, verify, keys);
      MembersCons(validators);
      IntersectCons(keys, validators[0], Members(validators[1..]));
    }
  }

  /** One of the keys listed twice fills one slot more. */
  lemma {:induction false} RepeatedKeyFillsMore(
      validators: seq<AuthorityId>, signatures: seq<Option<Signature>>, c: Commitment, verify: Verifier,
      keys: set<AuthorityId>, i: nat, j: nat)
    requires |validators| == |signatures| && AllSigned(signatures) && VerifiesFor(verify, c, keys)
    requires i < j < |validators| && validators[i] == validators[j] && validators[i] in keys
    ensures ValidSignatures(validators, signatures, c, verify) >= |keys * Members(validators)| + 1
    decreases |validators|
  {
    var rest, sigs := validators[1..], signatures[1..];
    MembersCons(validators);
    if i == 0 {
      KeysFillSlots(rest, sigs, c, verify, keys);
      assert rest[j - 1] == validators[0];
      assert Members(validators) == Members(rest);
    } else {
      RepeatedKeyFillsMore(rest, sigs, c, verify, keys, i - 1, j - 1);
      IntersectCons(keys, validators[0], Members(rest));
    }
  }

  /** A set that lists a key twice accepts a proof with one signer too few. */
  lemma RepeatedKeyFakesQuorum(target: Number, vs: ValidatorSet, i: nat, j: nat)
      returns (proof: FinalityProof, verify: Verifier)
    requires i < j < |vs.validators| && vs.validators[i] == vs.validators[j]
    ensures Accepts(target, vs, proof, verify)
    ensures |Signers(vs.validators, proof.signatures, proof.commitment, verify)| < Threshold(|vs.validators|)
  {
    var n, members := |vs.validators|, Members(vs.validators);
    var t := Threshold(n);
    var c := Commitment(0, target, vs.id);
    var signatures: seq<Option<Signature>> := seq(n, _ => Some(0));
    proof := FinalityProof(c, signatures);
    var keys := members;
    if |members| >= t {
      keys := SubsetWith(members, vs.validators[i], t - 1);
    }
    verify := (id, _, _) => id in keys;
    KeysFillSlots(vs.validators, signatures, c, verify, keys);
    RepeatedKeyFillsMore(vs.validators, signatures, c, verify, keys, i, j);
    assert keys * members == keys;
    SubsetSize(Signers(vs.validators, signatures, c, verify), keys);
  }

  ghost predicate QuorumAssured(target: Number, vs: ValidatorSet) {
    forall proof: FinalityProof, verify: Verifier :: Accepts(target, vs, proof, verify) ==>
      |Signers(vs.validators, proof.signatures, proof.commitment, verify)| >= Threshold(|vs.validators|)
  }

  /** Acceptance proves a quorum of distinct signers exactly for the sets that list no key twice. */
  lemma AcceptanceProvesQuorum(target: Number, vs: ValidatorSet)
    ensures QuorumAssured(target, vs) <==> Distinct(vs.validators)
  {
    if Distinct(vs.validators) {
      forall proof: FinalityProof, verify: Verifier | Accepts(target, vs, proof, verify)
        ensures |Signers(vs.validators, proof.signatures, proof.commitment, verify)| >= Threshold(|vs.validators|)
      {
        AcceptedProofHasQuorum(target, vs, proof, verify);
      }
    } else {
      var i, j :| 0 <= i < j < |vs.validators| && vs.validators[i] == vs.validators[j];
      var proof, verify := RepeatedKeyFakesQuorum(target, vs, i, j);
    }
  }

  // ---- votes that do not verify ----

  /** The slots whose keys have a counted vote that verifies over the session's own commitment. */
  ghost function GoodSlots(r: Rounds, round: Round, verify: Verifier): set<nat> {
    set i | 0 <= i < |r.validatorSet.validators| && r.validatorSet.validators[i] in GoodVotes(r, round, verify)
  }

  /** Those votes, by key. */
  ghost function GoodVotes(r: Rounds, round: Round, verify: Verifier): set<AuthorityId> {
    set id | id in TrackerOf(r, round).votes &&
      verify(id, TrackerOf(r, round).votes[id], Commitment(round.payload, round.number, r.validatorSet.id))
  }

  /**
    The proof a concluded round gives is accepted exactly when as many slots as the threshold belong to
    counted votes that verify over the commitment that names the session's set. Slots are keys where no
    key is repeated.
   */
  lemma ConcludedProofExact(r: Rounds, round: Round, verify: Verifier)
    requires Valid(r) && IsDone(r, round)
    ensures var proof := FinalityProof(
                           Commitment(round.payload, round.number, r.validatorSet.id),
                           TryConclude(r, round).1.value);
            Accepts(round.number, r.validatorSet, proof, verify) <==>
              |GoodSlots(r, round, verify)| >= Threshold(|r.validatorSet.validators|)
    ensures Distinct(r.validatorSet.validators) ==> |GoodSlots(r, round, verify)| == |GoodVotes(r, round, verify)|
  {
    var validators, votes := r.validatorSet.validators, r.rounds[round].votes;
    var c := Commitment(round.payload, round.number, r.validatorSet.id);
    var signatures := Collect(validators, votes);
    assert TrackerOk(r, round);
    AcceptsExactly(round.number, r.validatorSet, FinalityProof(c, signatures), verify);
    assert GoodSlots(r, round, verify) == ValidSlots(validators, signatures, c, verify, 0);
    forall id | id in GoodVotes(r, round, verify)
      ensures id in Signers(validators, signatures, c, verify)
    {
      var i :| 0 <= i < |validators| && validators[i] == id;
      assert signatures[i] == Some(votes[id]);
    }
    assert GoodVotes(r, round, verify) == Signers(validators, signatures, c, verify);
  }
}
