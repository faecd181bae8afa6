/** Two sessions over one validator set agree, as long as few enough validators sign twice. */
module BeefyAgreement {
  import opened Common
  import opened BeefyTypes
  import opened BeefyRounds

  /** The members that signed two different payloads for one block. */
  ghost function Equivocators(validators: seq<AuthorityId>, number: Number, signed: Signed): set<AuthorityId> {
    set id | id in Members(validators) && Equivocates(id, number, signed)
  }

  ghost predicate Equivocates(id: AuthorityId, number: Number, signed: Signed) {
    exists p, q :: p != q && signed(id, p, number) && signed(id, q, number)
  }

  lemma {:induction false} MembersBound(validators: seq<AuthorityId>)
    ensures |Members(validators)| <= |validators|
  {
    if validators == [] {
      assert Members(validators) == {};
    } else {
      MembersBound(validators[1..]);
      MembersCons(validators);
    }
  }

  lemma MembersCons(validators: seq<AuthorityId>)
    requires validators != []
    ensures Members(validators) == {validators[0]} + Members(validators[1..])
  {
  }

  lemma Overlap(a: set<AuthorityId>, b: set<AuthorityId>, all: set<AuthorityId>)
    requires a <= all && b <= all
    ensures |a * b| >= |a| + |b| - |all|
  {
    SubsetSize(a + b, all);
    assert |a + b| == |a| + |b| - |a * b|;
  }

  lemma {:induction false} SubsetSize(a: set<AuthorityId>, b: set<AuthorityId>)
    requires a <= b
    ensures |a| <= |b|
  {
    if a != {} {
      var x :| x in a;
      SubsetSize(a - {x}, b - {x});
    }
  }

  /** How many members must sign twice before two payloads can both reach the threshold. */
  function SplitBound(validators: seq<AuthorityId>): int {
    2 * Threshold(|validators|) - |Members(validators)|
  }

  /** The tolerated number of faulty validators is below the bound, and just below it for n = 3f + 1 distinct keys. */
  lemma FaultsAreTolerated(validators: seq<AuthorityId>)
    requires |validators| >= 1
    ensures (|validators| - 1) / 3 < SplitBound(validators)
    ensures |Members(validators)| == |validators| ==>
              (SplitBound(validators) == (|validators| - 1) / 3 + 1 <==> |validators| % 3 == 1)
  {
    MembersBound(validators);
  }

  lemma QuorumsOverlap(validators: seq<AuthorityId>, p: Round, q: Round, signed: Signed)
    requires Certified(validators, p, signed) && Certified(validators, q, signed)
    requires p.number == q.number && p.payload != q.payload
    ensures |Equivocators(validators, p.number, signed)| >= SplitBound(validators)
  {
    var a :| Backed(a, validators, p, signed);
    var b :| Backed(b, validators, q, signed);
    Overlap(a, b, Members(validators));
    var both := Equivocators(validators, p.number, signed);
    forall id | id in a * b
      ensures id in both
    {
      assert signed(id, p.payload, p.number) && signed(id, q.payload, p.number);
    }
    SubsetSize(a * b, both);
  }

  /**
    Agreement: with fewer equivocators than the bound, and so with at most `(n - 1) / 3` of the `n`
    validators, no two sessions over the set conclude different payloads for a block, whatever
    votes each sees.
   */
  lemma SessionsAgree(
      validatorSet: ValidatorSet, signed: Signed,
      start1: Number, events1: seq<Event>, start2: Number, events2: seq<Event>, i: nat, j: nat)
    requires Authentic(events1, signed) && Authentic(events2, signed)
    requires i < |ApplyAll(Begin(start1, validatorSet), events1).won|
    requires j < |ApplyAll(Begin(start2, validatorSet), events2).won|
    ensures var p := ApplyAll(Begin(start1, validatorSet), events1).won[i];
            var q := ApplyAll(Begin(start2, validatorSet), events2).won[j];
            var equivocators := |Equivocators(validatorSet.validators, p.number, signed)|;
            p.number == q.number ==>
              && (equivocators < SplitBound(validatorSet.validators) ==> p == q)
              && (equivocators <= (|validatorSet.validators| - 1) / 3 && validatorSet.validators != [] ==> p == q)
  {
    RunKeepsOk(Begin(start1, validatorSet), events1, validatorSet.validators, signed);
    RunKeepsOk(Begin(start2, validatorSet), events2, validatorSet.validators, signed);
    var p := ApplyAll(Begin(start1, validatorSet), events1).won[i];
    var q := ApplyAll(Begin(start2, validatorSet), events2).won[j];
    if validatorSet.validators != [] {
      FaultsAreTolerated(validatorSet.validators);
    }
    if p.number == q.number && p.payload != q.payload {
      QuorumsOverlap(validatorSet.validators, p, q, signed);
    }
  }
}
