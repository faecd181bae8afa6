/**
  The bound on equivocators is tight for every validator set that can conclude at all: with that many,
  two sessions over the set conclude different payloads.
 */
module BeefySplit {
  import opened Common
  import opened BeefyTypes
  import opened BeefyRounds
  import opened BeefyAgreement

  lemma {:induction false} SubsetOfSize(s: set<AuthorityId>, k: nat) returns (d: set<AuthorityId>)
    requires k <= |s|
    ensures d <= s && |d| == k
  {
    if k == |s| {
      d := s;
    } else {
      var x :| x in s;
      d := SubsetOfSize(s - {x}, k);
    }
  }

  // ---- votes of a set of members ----

  /** Each of the members votes for the round, then the round is tried. */
  ghost function VoteRun(p: Round, ids: set<AuthorityId>): seq<Event>
    decreases ids
  {
    if ids == {} then [TryRound(p)]
    else
      var id :| id in ids;
      [Vote(p, id, 0, false)] + VoteRun(p, ids - {id})
  }

  lemma {:induction false} RunIsAuthentic(p: Round, ids: set<AuthorityId>, signed: Signed)
    requires forall id :: id in ids ==> signed(id, p.payload, p.number)
    ensures Authentic(VoteRun(p, ids), signed)
    decreases ids
  {
    if ids != {} {
      var id :| id in ids && VoteRun(p, ids) == [Vote(p, id, 0, false)] + VoteRun(p, ids - {id});
      RunIsAuthentic(p, ids - {id}, signed);
    }
  }

  /** Enough votes of different members win the round. */
  lemma {:induction false} VotesWin(s: Session, p: Round, ids: set<AuthorityId>)
    requires !Stale(s.rounds, p.number) && ids <= Members(s.rounds.validatorSet.validators)
    requires ids !! TrackerOf(s.rounds, p).votes.Keys
    requires |TrackerOf(s.rounds, p).votes| + |ids| >= Threshold(|s.rounds.validatorSet.validators|)
    requires ids == {} ==> p in s.rounds.rounds
    ensures ApplyAll(s, VoteRun(p, ids)).won == s.won + [p]
    decreases ids
  {
    if ids == {} {
      assert IsDone(s.rounds, p);
      assert VoteRun(p, ids)[1..] == [];
    } else {
      var id :| id in ids && VoteRun(p, ids) == [Vote(p, id, 0, false)] + VoteRun(p, ids - {id});
      var next := Apply(s, Vote(p, id, 0, false));
      assert Counts(s.rounds, p, id);
      assert TrackerOf(next.rounds, p).votes == TrackerOf(s.rounds, p).votes[id := 0];
      assert VoteRun(p, ids)[1..] == VoteRun(p, ids - {id});
      VotesWin(next, p, ids - {id});
    }
  }

  // ---- two quorums with the smallest overlap ----

  /** Two sets of `t` members of `all` that share no more than they must. */
  lemma SmallestOverlap(all: set<AuthorityId>, t: nat) returns (a: set<AuthorityId>, b: set<AuthorityId>)
    requires t <= |all| <= 2 * t
    ensures a <= all && b <= all && |a| == t && |b| == t && |a * b| == 2 * t - |all|
  {
    a := SubsetOfSize(all, t);
    var rest := all - a;
    assert |rest| == |all| - t;
    var shared := SubsetOfSize(a, 2 * t - |all|);
    b := rest + shared;
    assert a * b == shared;
    assert |b| == |rest| + |shared|;
  }

  function Both(a: set<AuthorityId>, p: Payload, b: set<AuthorityId>, q: Payload): Signed {
    (id, payload, _) => (payload == p && id in a) || (payload == q && id in b)
  }

  lemma BothEquivocate(
      validators: seq<AuthorityId>, a: set<AuthorityId>, p: Payload, b: set<AuthorityId>, q: Payload, number: Number)
    requires a <= Members(validators) && b <= Members(validators) && p != q
    ensures Equivocators(validators, number, Both(a, p, b, q)) == a * b
  {
    var signed := Both(a, p, b, q);
    forall id | id in a * b
      ensures Equivocates(id, number, signed)
    {
      assert signed(id, p, number) && signed(id, q, number);
    }
  }

  /**
    Whenever a round can be concluded at all, as many equivocators as the bound says are enough: some
    signatures and two authentic runs conclude any two payloads for any block.
   */
  lemma BoundIsTight(vs: ValidatorSet, start: Number, p: Round, q: Round)
      returns (signed: Signed, events1: seq<Event>, events2: seq<Event>)
    requires 1 <= Threshold(|vs.validators|) <= |Members(vs.validators)|
    requires start <= p.number && p.number == q.number && p.payload != q.payload
    ensures Authentic(events1, signed) && Authentic(events2, signed)
    ensures |Equivocators(vs.validators, p.number, signed)| == SplitBound(vs.validators)
    ensures ApplyAll(Begin(start, vs), events1).won == [p] && ApplyAll(Begin(start, vs), events2).won == [q]
  {
    var t := Threshold(|vs.validators|);
    MembersBound(vs.validators);
    var a, b := SmallestOverlap(Members(vs.validators), t);
    signed := Both(a, p.payload, b, q.payload);
    BothEquivocate(vs.validators, a, p.payload, b, q.payload, p.number);
    events1, events2 := VoteRun(p, a), VoteRun(q, b);
    RunIsAuthentic(p, a, signed);
    RunIsAuthentic(q, b, signed);
    VotesWin(Begin(start, vs), p, a);
    VotesWin(Begin(start, vs), q, b);
  }

  /** With too many repeated keys no run ever concludes a round. */
  lemma TooFewMembersNeverConclude(vs: ValidatorSet, start: Number, events: seq<Event>)
    requires Threshold(|vs.validators|) > |Members(vs.validators)|
    ensures ApplyAll(Begin(start, vs), events).won == []
  {
    var signed: Signed := (_, _, _) => true;
    RunKeepsOk(Begin(start, vs), events, vs.validators, signed);
    var won := ApplyAll(Begin(start, vs), events).won;
    if won != [] {
      assert Certified(vs.validators, won[0], signed);
      var signers :| Backed(signers, vs.validators, won[0], signed);
      SubsetSize(signers, Members(vs.validators));
    }
  }
}
