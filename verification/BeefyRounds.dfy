/** Values that BEEFY voters exchange. Keys, payloads and signatures are opaque, so plain numbers do. */
module BeefyTypes {
  import opened Common

  /** Block numbers are `u32`, as the database keys of this client are. */
  type Number = U32
  type AuthorityId = nat
  type Payload = nat
  type Signature = nat

  datatype ValidatorSet = ValidatorSet(validators: seq<AuthorityId>, id: nat)

  datatype Round = Round(payload: Payload, number: Number)

  datatype Commitment = Commitment(payload: Payload, blockNumber: Number, validatorSetId: nat)

  datatype VoteMessage = VoteMessage(commitment: Commitment, id: AuthorityId, signature: Signature)

  datatype FinalityProof = FinalityProof(commitment: Commitment, signatures: seq<Option<Signature>>)

  /** Whether a signature by a key over an encoded commitment is valid. */
  type Verifier = (AuthorityId, Signature, Commitment) -> bool

  /** `Some(n) <= best`, where no best block is below every block. */
  predicate AtMost(n: Number, best: Option<Number>) {
    best.Some? && n <= best.value
  }
}

/** Vote counting within one session. */
module BeefyRounds {
  import opened Common
  import opened BeefyTypes

  datatype RoundTracker = RoundTracker(selfVote: bool, votes: map<AuthorityId, Signature>)

  datatype Rounds = Rounds(
    rounds: map<Round, RoundTracker>,
    sessionStart: Number,
    validatorSet: ValidatorSet,
    mandatoryDone: bool,
    bestDone: Option<Number>)

  function Threshold(authorities: nat): nat {
    var faulty := (if authorities == 0 then 0 else authorities - 1) / 3;
    authorities - faulty
  }

  function NewRounds(sessionStart: Number, validatorSet: ValidatorSet): Rounds {
    Rounds(map[], sessionStart, validatorSet, false, None)
  }

  function TrackerOf(r: Rounds, round: Round): RoundTracker {
    if round in r.rounds then r.rounds[round] else RoundTracker(false, map[])
  }

  predicate ShouldSelfVote(r: Rounds, round: Round) {
    !AtMost(round.number, r.bestDone) && !TrackerOf(r, round).selfVote
  }

  predicate Stale(r: Rounds, number: Number) {
    number < r.sessionStart || AtMost(number, r.bestDone)
  }

  /** Whether the vote is counted: a live round, a member of the set, and not a repeat. */
  predicate Counts(r: Rounds, round: Round, id: AuthorityId) {
    && !Stale(r, round.number)
    && id in r.validatorSet.validators
    && id !in TrackerOf(r, round).votes
  }

  function AddVote(r: Rounds, round: Round, id: AuthorityId, signature: Signature, selfVote: bool): Rounds {
    if !Counts(r, round, id) then r else
      var t := TrackerOf(r, round);
      r.(rounds := r.rounds[round := RoundTracker(t.selfVote || selfVote, t.votes[id := signature])])
  }

  function Conclude(r: Rounds, number: Number): Rounds {
    r.(rounds := map k | k in r.rounds && k.number > number :: r.rounds[k],
       mandatoryDone := r.mandatoryDone || number == r.sessionStart,
       bestDone := if AtMost(number, r.bestDone) then r.bestDone else Some(number))
  }

  predicate IsDone(r: Rounds, round: Round) {
    round in r.rounds && |r.rounds[round].votes| >= Threshold(|r.validatorSet.validators|)
  }

  /** One entry per validator, in the order of the set: its signature if it voted. */
  function Collect(validators: seq<AuthorityId>, votes: map<AuthorityId, Signature>): (s: seq<Option<Signature>>)
    ensures |s| == |validators|
  {
    seq(|validators|, i requires 0 <= i < |validators| =>
      if validators[i] in votes then Some(votes[validators[i]]) else None)
  }

  function TryConclude(r: Rounds, round: Round): (Rounds, Option<seq<Option<Signature>>>) {
    if IsDone(r, round) then
      (Conclude(r.(rounds := r.rounds - {round}), round.number),
       Some(Collect(r.validatorSet.validators, r.rounds[round].votes)))
    else
      (r, None)
  }

  // ---- what every operation keeps ----

  function Members(validators: seq<AuthorityId>): set<AuthorityId> {
    set id | id in validators
  }

  ghost predicate TrackerOk(r: Rounds, round: Round)
    requires round in r.rounds
  {
    !Stale(r, round.number) && r.rounds[round].votes.Keys <= Members(r.validatorSet.validators)
  }

  /** Only live rounds are kept, and only members of the set are counted. */
  ghost predicate Valid(r: Rounds) {
    forall round :: round in r.rounds ==> TrackerOk(r, round)
  }

  lemma AddVoteKeeps(r: Rounds, round: Round, id: AuthorityId, signature: Signature, selfVote: bool)
    requires Valid(r)
    ensures Valid(AddVote(r, round, id, signature, selfVote))
  {
    var r' := AddVote(r, round, id, signature, selfVote);
    forall k | k in r'.rounds
      ensures TrackerOk(r', k)
    {
      if k in r.rounds {
        assert TrackerOk(r, k);
      }
    }
  }

  lemma ConcludeKeeps(r: Rounds, number: Number)
    requires Valid(r)
    ensures Valid(Conclude(r, number))
  {
    var r' := Conclude(r, number);
    forall k | k in r'.rounds
      ensures TrackerOk(r', k)
    {
      assert TrackerOk(r, k);
    }
  }

  lemma TryConcludeKeeps(r: Rounds, round: Round)
    requires Valid(r)
    ensures Valid(TryConclude(r, round).0)
  {
    if IsDone(r, round) {
      var dropped := r.(rounds := r.rounds - {round});
      forall k | k in dropped.rounds
        ensures TrackerOk(dropped, k)
      {
        assert TrackerOk(r, k);
      }
      ConcludeKeeps(dropped, round.number);
    }
  }

  // ---- runs of one session, and agreement between two of them ----

  datatype Event =
    | Vote(round: Round, id: AuthorityId, signature: Signature, selfVote: bool)
    | TryRound(round: Round)
    | Concluded(number: Number)

  /** The session and the rounds `try_conclude` has succeeded for, oldest first. */
  datatype Session = Session(rounds: Rounds, won: seq<Round>)

  function Apply(s: Session, e: Event): Session {
    match e
    case Vote(round, id, signature, selfVote) =>
      s.(rounds := AddVote(s.rounds, round, id, signature, selfVote))
    case TryRound(round) =>
      Session(TryConclude(s.rounds, round).0, if IsDone(s.rounds, round) then s.won + [round] else s.won)
    case Concluded(number) => s.(rounds := Conclude(s.rounds, number))
  }

  function ApplyAll(s: Session, events: seq<Event>): Session
    decreases |events|
  {
    if events == [] then s else ApplyAll(Apply(s, events[0]), events[1..])
  }

  /** Who signed which payload for which block. */
  type Signed = (AuthorityId, Payload, Number) -> bool

  /** Every vote of the run was signed by the key it names. */
  ghost predicate Authentic(events: seq<Event>, signed: Signed) {
    forall e :: e in events && e.Vote? ==> signed(e.id, e.round.payload, e.round.number)
  }

  ghost predicate Backed(signers: set<AuthorityId>, validators: seq<AuthorityId>, round: Round, signed: Signed) {
    && signers <= Members(validators)
    && |signers| >= Threshold(|validators|)
    && forall id :: id in signers ==> signed(id, round.payload, round.number)
  }

  ghost predicate Certified(validators: seq<AuthorityId>, round: Round, signed: Signed) {
    exists signers :: Backed(signers, validators, round, signed)
  }

  ghost predicate VotesSigned(r: Rounds, signed: Signed) {
    forall round, id :: round in r.rounds && id in r.rounds[round].votes ==>
      signed(id, round.payload, round.number)
  }

  ghost predicate Increasing(won: seq<Round>) {
    forall i, j :: 0 <= i < j < |won| ==> won[i].number < won[j].number
  }

  ghost predicate SessionOk(s: Session, validators: seq<AuthorityId>, signed: Signed) {
    && Valid(s.rounds) && s.rounds.validatorSet.validators == validators
    && VotesSigned(s.rounds, signed)
    && WonOk(s.won, s.rounds.bestDone, validators, signed)
  }

  /** A session that has won nothing wrong, whatever rounds it keeps. */
  ghost predicate WonOk(won: seq<Round>, bestDone: Option<Number>, validators: seq<AuthorityId>, signed: Signed) {
    && Increasing(won)
    && (forall i :: 0 <= i < |won| ==> AtMost(won[i].number, bestDone))
    && (forall i :: 0 <= i < |won| ==> Certified(validators, won[i], signed))
  }

  lemma DoneIsCertified(r: Rounds, round: Round, signed: Signed)
    requires Valid(r) && VotesSigned(r, signed) && IsDone(r, round)
    ensures Certified(r.validatorSet.validators, round, signed) && !Stale(r, round.number)
  {
    assert TrackerOk(r, round);
    assert Backed(r.rounds[round].votes.Keys, r.validatorSet.validators, round, signed);
  }

  lemma WonGrows(won: seq<Round>, r: Rounds, round: Round, signed: Signed)
    requires WonOk(won, r.bestDone, r.validatorSet.validators, signed)
    requires Certified(r.validatorSet.validators, round, signed) && !Stale(r, round.number)
    ensures WonOk(won + [round], Some(round.number), r.validatorSet.validators, signed)
  {
    var more := won + [round];
    forall i | 0 <= i < |more|
      ensures AtMost(more[i].number, Some(round.number)) && Certified(r.validatorSet.validators, more[i], signed)
      ensures i < |won| ==> more[i].number < round.number
    {
      assert i < |won| ==> AtMost(won[i].number, r.bestDone);
    }
  }

  lemma TryRoundKeepsOk(s: Session, round: Round, validators: seq<AuthorityId>, signed: Signed)
    requires SessionOk(s, validators, signed)
    ensures SessionOk(Apply(s, TryRound(round)), validators, signed)
  {
    TryConcludeKeeps(s.rounds, round);
    if IsDone(s.rounds, round) {
      DoneIsCertified(s.rounds, round, signed);
      WonGrows(s.won, s.rounds, round, signed);
    }
  }

  lemma ApplyKeepsOk(s: Session, e: Event, validators: seq<AuthorityId>, signed: Signed)
    requires SessionOk(s, validators, signed)
    requires e.Vote? ==> signed(e.id, e.round.payload, e.round.number)
    ensures SessionOk(Apply(s, e), validators, signed)
  {
    match e
    case Vote(round, id, signature, selfVote) => AddVoteKeeps(s.rounds, round, id, signature, selfVote);
    case TryRound(round) => TryRoundKeepsOk(s, round, validators, signed);
    case Concluded(number) => ConcludeKeeps(s.rounds, number);
  }

  lemma {:induction false} RunKeepsOk(s: Session, events: seq<Event>, validators: seq<AuthorityId>, signed: Signed)
    requires SessionOk(s, validators, signed) && Authentic(events, signed)
    ensures SessionOk(ApplyAll(s, events), validators, signed)
    decreases |events|
  {
    if events != [] {
      assert events[0] in events;
      ApplyKeepsOk(s, events[0], validators, signed);
      assert forall e :: e in events[1..] ==> e in events;
      RunKeepsOk(Apply(s, events[0]), events[1..], validators, signed);
    }
  }

  function Begin(start: Number, validatorSet: ValidatorSet): Session {
    Session(NewRounds(start, validatorSet), [])
  }

  /** A session concludes rounds in strictly increasing order, so at most one payload per block. */
  lemma ConclusionsIncrease(start: Number, validatorSet: ValidatorSet, events: seq<Event>)
    ensures var won := ApplyAll(Begin(start, validatorSet), events).won;
            && Increasing(won)
            && forall i, j :: 0 <= i < |won| && 0 <= j < |won| && won[i].number == won[j].number ==> won[i] == won[j]
  {
    var signed := (_, _, _) => true;
    RunKeepsOk(Begin(start, validatorSet), events, validatorSet.validators, signed);
  }

  // ---- what has been concluded ----

  /** The number that an event concludes in the session. */
  ghost function ConcludedBy(s: Session, e: Event): Option<Number> {
    match e
    case Vote(_, _, _, _) => None
    case TryRound(round) => if IsDone(s.rounds, round) then Some(round.number) else None
    case Concluded(number) => Some(number)
  }

  ghost function AllConcluded(s: Session, events: seq<Event>): set<Number>
    decreases |events|
  {
    if events == [] then {}
    else
      var first := ConcludedBy(s, events[0]);
      (if first.Some? then {first.value} else {}) + AllConcluded(Apply(s, events[0]), events[1..])
  }

  /** A number is the best of those concluded, on top of what was best before. */
  ghost predicate BestOf(before: Option<Number>, numbers: set<Number>, best: Option<Number>) {
    && (best == before || (best.Some? && best.value in numbers))
    && (before.Some? ==> AtMost(before.value, best))
    && (forall n :: n in numbers ==> AtMost(n, best))
  }

  lemma ConcludesOne(s: Session, e: Event)
    ensures
      var r, r', first := s.rounds, Apply(s, e).rounds, ConcludedBy(s, e);
      && r'.sessionStart == r.sessionStart
      && (r'.mandatoryDone <==> r.mandatoryDone || first == Some(r.sessionStart))
      && BestOf(r.bestDone, if first.Some? then {first.value} else {}, r'.bestDone)
  {
  }

  lemma BestChains(a: Option<Number>, b: Option<Number>, c: Option<Number>, first: set<Number>, rest: set<Number>)
    requires BestOf(a, first, b) && BestOf(b, rest, c)
    ensures BestOf(a, first + rest, c)
  {
  }

  lemma {:induction false} ConcludesFrom(s: Session, events: seq<Event>)
    ensures
      var s', numbers := ApplyAll(s, events), AllConcluded(s, events);
      && s'.rounds.sessionStart == s.rounds.sessionStart
      && (s'.rounds.mandatoryDone <==> s.rounds.mandatoryDone || s.rounds.sessionStart in numbers)
      && BestOf(s.rounds.bestDone, numbers, s'.rounds.bestDone)
    decreases |events|
  {
    if events != [] {
      var next, first := Apply(s, events[0]), ConcludedBy(s, events[0]);
      var numbers := if first.Some? then {first.value} else {};
      ConcludesOne(s, events[0]);
      ConcludesFrom(next, events[1..]);
      BestChains(
        s.rounds.bestDone, next.rounds.bestDone, ApplyAll(s, events).rounds.bestDone,
        numbers, AllConcluded(next, events[1..]));
    }
  }

  /** A session's mandatory block is done exactly when it was concluded, and its best block is the highest concluded. */
  lemma SessionConcludesExactly(start: Number, validatorSet: ValidatorSet, events: seq<Event>)
    ensures
      var s := Begin(start, validatorSet);
      var r, numbers := ApplyAll(s, events).rounds, AllConcluded(s, events);
      && (r.mandatoryDone <==> start in numbers)
      && (r.bestDone.None? <==> numbers == {})
      && (r.bestDone.Some? ==> r.bestDone.value in numbers && forall n :: n in numbers ==> n <= r.bestDone.value)
  {
    var s := Begin(start, validatorSet);
    ConcludesFrom(s, events);
    if AllConcluded(s, events) != {} {
      var n :| n in AllConcluded(s, events);
    }
  }

  // ---- the local vote ----

  ghost predicate SelfVoted(r: Rounds, round: Round) {
    AtMost(round.number, r.bestDone) || TrackerOf(r, round).selfVote
  }

  lemma {:induction false} SelfVotedStays(s: Session, events: seq<Event>, round: Round)
    requires SelfVoted(s.rounds, round)
    ensures SelfVoted(ApplyAll(s, events).rounds, round)
    decreases |events|
  {
    if events != [] {
      SelfVotedStays(Apply(s, events[0]), events[1..], round);
    }
  }

  /** Once a local vote has been counted for a round, the session never asks for another one. */
  lemma NoSecondSelfVote(
      s: Session, round: Round, id: AuthorityId, signature: Signature, events: seq<Event>)
    requires Counts(s.rounds, round, id)
    ensures !ShouldSelfVote(ApplyAll(Apply(s, Vote(round, id, signature, true)), events).rounds, round)
  {
    SelfVotedStays(Apply(s, Vote(round, id, signature, true)), events, round);
  }
}
