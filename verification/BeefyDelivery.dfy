/**
  Nothing the BEEFY worker is given gets lost: over every run a vote that came in is counted, waiting,
  stale, or not a member's, and a block with enough votes is final once its number is accepted.
 */
module BeefyDelivery {
  import opened Common
  import opened BeefyTypes
  import opened BeefyRounds
  import opened BeefyAgreement
  import opened BeefyTarget
  import opened BeefyWorkerModel
  import opened BeefySafety
  import opened BeefyReplay

  // ---- what a vote or a justification can become ----

  /** In reach of the front session, and stale, not a member's, or with that member's vote counted. */
  ghost predicate Handled(w: Worker, round: Round, id: AuthorityId) {
    && w.sessions != [] && round.number <= AcceptedEnd(w)
    && (|| round.number < w.sessions[0].sessionStart
        || AtMost(round.number, w.sessions[0].bestDone)
        || id !in w.sessions[0].validatorSet.validators
        || (round in w.sessions[0].rounds && id in w.sessions[0].rounds[round].votes))
  }

  ghost predicate Waiting(w: Worker, vote: VoteMessage) {
    var number := vote.commitment.blockNumber;
    number in w.pendingVotes && vote in w.pendingVotes[number]
  }

  function RoundOf(vote: VoteMessage): Round {
    Round(vote.commitment.payload, vote.commitment.blockNumber)
  }

  ghost predicate Accounted(w: Worker, vote: VoteMessage) {
    Waiting(w, vote) || Handled(w, RoundOf(vote), vote.id)
  }

  /** Final, or of a session that is over. */
  ghost predicate Past(w: Worker, number: Number) {
    AtMost(number, w.bestBeefy) || (w.sessions != [] && number < w.sessions[0].sessionStart)
  }

  ghost predicate JustificationAccounted(w: Worker, number: Number) {
    number in w.pendingJustifications || Past(w, number)
  }

  // ---- what every handler keeps ----

  /** No round is left that has enough votes, and what a session has concluded is final. */
  ghost predicate Clean(w: Worker) {
    forall i :: 0 <= i < |w.sessions| ==> SessionClean(w.sessions[i], w.bestBeefy)
  }

  ghost predicate SessionClean(r: Rounds, best: Option<Number>) {
    && (forall round :: round in r.rounds ==> |r.rounds[round].votes| < Threshold(|r.validatorSet.validators|))
    && (r.bestDone.Some? ==> AtMost(r.bestDone.value, best))
  }

  /** A new best block is a published one. */
  ghost predicate Shown(w: Worker, w': Worker) {
    && w.published <= w'.published
    && (w'.bestBeefy == w.bestBeefy || (w'.bestBeefy.Some? && IsPublished(w', w'.bestBeefy.value)))
  }

  lemma ShownChains(a: Worker, b: Worker, c: Worker)
    requires Shown(a, b) && Shown(b, c)
    ensures Shown(a, c)
  {
    if c.bestBeefy == b.bestBeefy && b.bestBeefy != a.bestBeefy {
      var i :| 0 <= i < |b.published| && b.published[i].commitment.blockNumber == b.bestBeefy.value;
      assert c.published[i] == b.published[i];
    }
  }

  /** The front session stays, or its mandatory block is final and a later one has taken over. */
  ghost predicate Follows(w: Worker, w': Worker) {
    && w.sessions != [] && w'.sessions != [] && w'.bestGrandpa == w.bestGrandpa && Shown(w, w')
    && w'.minBlockDelta == w.minBlockDelta
    && (w.bestBeefy.Some? ==> AtMost(w.bestBeefy.value, w'.bestBeefy))
    && (if w'.sessions[0].sessionStart == w.sessions[0].sessionStart then
          && w'.sessions[0].validatorSet == w.sessions[0].validatorSet
          && (w.sessions[0].mandatoryDone ==> w'.sessions[0].mandatoryDone)
        else
          && w.sessions[0].sessionStart < w'.sessions[0].sessionStart
          && !w.sessions[0].mandatoryDone && AtMost(w.sessions[0].sessionStart, w'.bestBeefy))
  }

  ghost predicate Keeps(w: Worker, w': Worker) {
    && Follows(w, w')
    && w'.pendingVotes == w.pendingVotes && w'.pendingJustifications == w.pendingJustifications
    && forall round, id :: Handled(w, round, id) ==> Handled(w', round, id)
  }

  lemma KeepsChains(a: Worker, b: Worker, c: Worker)
    requires Keeps(a, b) && Keeps(b, c)
    ensures Keeps(a, c)
  {
    ShownChains(a, b, c);
  }

  lemma FollowsChains(a: Worker, b: Worker, c: Worker)
    requires Follows(a, b) && Follows(b, c)
    ensures Follows(a, c)
  {
    ShownChains(a, b, c);
  }

  lemma KeepsItself(w: Worker)
    requires w.sessions != []
    ensures Keeps(w, w)
  {
  }

  // ---- finalizing ----

  lemma FinalizeBest(w: Worker, proof: FinalityProof)
    requires w.sessions != []
    ensures var w' := Finalize(w, proof);
            && AtMost(proof.commitment.blockNumber, w'.bestBeefy)
            && (w.bestBeefy.Some? ==> AtMost(w.bestBeefy.value, w'.bestBeefy))
            && w'.bestGrandpa == w.bestGrandpa && w'.minBlockDelta == w.minBlockDelta && Shown(w, w')
            && w'.pendingVotes == w.pendingVotes && w'.pendingJustifications == w.pendingJustifications
  {
    var w' := Finalize(w, proof);
    if w'.published != w.published {
      assert w'.published[|w.published|] == proof;
    }
  }

  lemma ConcludeClean(r: Rounds, best: Option<Number>, number: Number, best': Option<Number>)
    requires SessionClean(r, best) && AtMost(number, best') && (best.Some? ==> AtMost(best.value, best'))
    ensures SessionClean(Conclude(r, number), best')
  {
  }

  lemma FinalizeClean(w: Worker, proof: FinalityProof)
    requires Inv(w) && Clean(w) && Acceptable(w, proof.commitment.blockNumber)
    ensures Clean(Finalize(w, proof))
  {
    var number := proof.commitment.blockNumber;
    var w' := Finalize(w, proof);
    FinalizeSessions(w, proof);
    FinalizeBest(w, proof);
    ConcludeClean(w.sessions[0], w.bestBeefy, number, w'.bestBeefy);
    forall i | 0 <= i < |w'.sessions|
      ensures SessionClean(w'.sessions[i], w'.bestBeefy)
    {
      assert w'.sessions[i] == Conclude(w.sessions[0], number) || SessionClean(w.sessions[i + 1], w.bestBeefy);
    }
  }

  lemma FinalizeFollows(w: Worker, proof: FinalityProof)
    requires Inv(w) && Acceptable(w, proof.commitment.blockNumber)
    ensures Follows(w, Finalize(w, proof))
  {
    FinalizeSessions(w, proof);
    FinalizeBest(w, proof);
  }

  lemma FinalizeHandled(w: Worker, proof: FinalityProof, round: Round, id: AuthorityId)
    requires Inv(w) && Acceptable(w, proof.commitment.blockNumber) && Handled(w, round, id)
    ensures Handled(Finalize(w, proof), round, id)
  {
    FinalizeSessions(w, proof);
    FinalizeKeeps(w, proof);
  }

  lemma FinalizeDelivers(w: Worker, proof: FinalityProof)
    requires Inv(w) && Clean(w) && Acceptable(w, proof.commitment.blockNumber)
    ensures Clean(Finalize(w, proof)) && Keeps(w, Finalize(w, proof))
    ensures AtMost(proof.commitment.blockNumber, Finalize(w, proof).bestBeefy)
  {
    FinalizeClean(w, proof);
    FinalizeFollows(w, proof);
    FinalizeBest(w, proof);
    forall round, id | Handled(w, round, id)
      ensures Handled(Finalize(w, proof), round, id)
    {
      FinalizeHandled(w, proof, round, id);
    }
  }

  /** The block that is finalized is behind its session afterwards. */
  lemma FinalizedIsHandled(w: Worker, proof: FinalityProof, round: Round, id: AuthorityId)
    requires Inv(w) && Acceptable(w, proof.commitment.blockNumber) && round.number == proof.commitment.blockNumber
    ensures Handled(Finalize(w, proof), round, id)
  {
    FinalizeSessions(w, proof);
    FinalizeKeeps(w, proof);
  }

  // ---- counting a vote ----

  ghost predicate SameSession(w: Worker, front: Rounds)
    requires w.sessions != []
  {
    var was := w.sessions[0];
    && SameFront(w, front) && front.validatorSet == was.validatorSet && front.bestDone == was.bestDone
    && (forall round, id :: round in was.rounds && id in was.rounds[round].votes ==>
          round in front.rounds && id in front.rounds[round].votes)
  }

  lemma ReplacedKeeps(w: Worker, front: Rounds)
    requires Inv(w) && w.sessions != [] && SameSession(w, front)
    ensures Keeps(w, w.(sessions := w.sessions[0 := front]))
  {
  }

  lemma AddedSameSession(w: Worker, round: Round, id: AuthorityId, signature: Signature, selfVote: bool)
    requires Inv(w) && w.sessions != [] && Counts(w.sessions[0], round, id)
    ensures SameSession(w, AddVote(w.sessions[0], round, id, signature, selfVote))
  {
    AddVoteKeeps(w.sessions[0], round, id, signature, selfVote);
  }

  lemma AddedClean(w: Worker, round: Round, id: AuthorityId, signature: Signature, selfVote: bool)
    requires w.sessions != [] && Clean(w) && Counts(w.sessions[0], round, id)
    requires !IsDone(AddVote(w.sessions[0], round, id, signature, selfVote), round)
    ensures Clean(w.(sessions := w.sessions[0 := AddVote(w.sessions[0], round, id, signature, selfVote)]))
  {
    assert SessionClean(w.sessions[0], w.bestBeefy);
  }

  /** With the round done, concluding takes it out again with everything below. */
  lemma DoneClean(w: Worker, round: Round, id: AuthorityId, signature: Signature, selfVote: bool)
    requires Inv(w) && Clean(w) && w.sessions != [] && round.number <= AcceptedEnd(w)
    requires Counts(w.sessions[0], round, id)
    requires IsDone(AddVote(w.sessions[0], round, id, signature, selfVote), round)
    ensures Clean(HandleVote(w, round, id, signature, selfVote))
  {
    var added := AddVote(w.sessions[0], round, id, signature, selfVote);
    var w1 := w.(sessions := w.sessions[0 := added]);
    var w' := HandleVote(w, round, id, signature, selfVote);
    AddVoteKeeps(w.sessions[0], round, id, signature, selfVote);
    ReplaceFront(w, added);
    HandleVoteFinalizes(w, round, id, signature, selfVote);
    FinalizeSessions(w1, ProofOf(added, round));
    FinalizeBest(w1, ProofOf(added, round));
    assert SessionClean(w.sessions[0], w.bestBeefy);
    assert SessionClean(Conclude(added, round.number), w'.bestBeefy);
    forall i | 0 <= i < |w'.sessions|
      ensures SessionClean(w'.sessions[i], w'.bestBeefy)
    {
      assert w'.sessions[i] == Conclude(added, round.number) || SessionClean(w.sessions[i + 1], w.bestBeefy);
    }
  }

  /** A vote in reach is counted or has a reason not to be, and whatever was accounted for stays so. */
  lemma HandleVoteDelivers(w: Worker, round: Round, id: AuthorityId, signature: Signature, selfVote: bool)
    requires Inv(w) && Clean(w) && w.sessions != [] && round.number <= AcceptedEnd(w)
    ensures
      var w' := HandleVote(w, round, id, signature, selfVote);
      Clean(w') && Keeps(w, w') && Handled(w', round, id)
  {
    if !Counts(w.sessions[0], round, id) {
      KeepsItself(w);
    } else {
      var added := AddVote(w.sessions[0], round, id, signature, selfVote);
      var w1 := w.(sessions := w.sessions[0 := added]);
      AddedSameSession(w, round, id, signature, selfVote);
      ReplaceFront(w, added);
      ReplacedKeeps(w, added);
      if IsDone(added, round) {
        DoneClean(w, round, id, signature, selfVote);
        HandleVoteFinalizes(w, round, id, signature, selfVote);
        DoneKeeps(w1, ProofOf(added, round), round, id);
        KeepsChains(w, w1, Finalize(w1, ProofOf(added, round)));
      } else {
        AddedClean(w, round, id, signature, selfVote);
      }
    }
  }

  lemma DoneKeeps(w: Worker, proof: FinalityProof, round: Round, id: AuthorityId)
    requires Inv(w) && Acceptable(w, proof.commitment.blockNumber) && round.number == proof.commitment.blockNumber
    ensures Keeps(w, Finalize(w, proof)) && Handled(Finalize(w, proof), round, id)
  {
    FinalizeFollows(w, proof);
    FinalizeBest(w, proof);
    FinalizedIsHandled(w, proof, round, id);
    forall r, i | Handled(w, r, i)
      ensures Handled(Finalize(w, proof), r, i)
    {
      FinalizeHandled(w, proof, r, i);
    }
  }

  // ---- batches ----

  lemma {:induction false} FinalizeAllDelivers(w: Worker, due: map<Number, FinalityProof>)
    requires Inv(w) && Clean(w) && w.sessions != []
    requires forall k :: k in due ==> due[k].commitment.blockNumber == k && Acceptable(w, k)
    ensures var w' := FinalizeAll(w, due);
            Clean(w') && Keeps(w, w') && forall k :: k in due ==> AtMost(k, w'.bestBeefy)
    decreases |due|
  {
    if due == map[] {
      KeepsItself(w);
    } else {
      var k := LeastKey(due);
      var next, rest := Finalize(w, due[k]), due - {k};
      FinalizeKeeps(w, due[k]);
      FinalizeDelivers(w, due[k]);
      FinalizeSessions(w, due[k]);
      assert rest.Keys == due.Keys - {k};
      if Lagging(w.sessions) {
        assert forall j :: j in due ==> j == k;
        assert rest == map[];
      }
      FinalizeAllDelivers(next, rest);
      KeepsChains(w, next, FinalizeAll(next, rest));
    }
  }

  lemma HandleOne(w: Worker, v: VoteMessage)
    requires Inv(w) && Clean(w) && w.sessions != [] && v.commitment.blockNumber <= AcceptedEnd(w)
    ensures
      var w' := Handle(w, v);
      && Inv(w') && Clean(w') && w'.sessions != [] && Keeps(w, w') && Handled(w', RoundOf(v), v.id)
      && AcceptedEnd(w) <= AcceptedEnd(w')
  {
    HandleVoteKeeps(w, RoundOf(v), v.id, v.signature, false);
    HandleVoteDelivers(w, RoundOf(v), v.id, v.signature, false);
  }

  lemma {:induction false} HandleVotesDelivers(w: Worker, votes: seq<VoteMessage>, number: Number)
    requires Inv(w) && Clean(w) && w.sessions != [] && VotesFor(votes, number) && number <= AcceptedEnd(w)
    ensures var w' := HandleVotes(w, votes);
            Clean(w') && Keeps(w, w') && forall v :: v in votes ==> Handled(w', RoundOf(v), v.id)
    decreases |votes|
  {
    if votes == [] {
      KeepsItself(w);
    } else {
      var v, rest := votes[0], votes[1..];
      var next := Handle(w, v);
      HandleOne(w, v);
      HandleVotesDelivers(next, rest, number);
      KeepsChains(w, next, HandleVotes(w, votes));
      forall u | u in votes
        ensures Handled(HandleVotes(w, votes), RoundOf(u), u.id)
      {
        if u == v {
          assert Handled(next, RoundOf(v), v.id);
        } else {
          assert votes == [v] + rest;
        }
      }
    }
  }

  lemma {:induction false} HandleAllDelivers(w: Worker, due: map<Number, seq<VoteMessage>>)
    requires Inv(w) && Clean(w) && w.sessions != []
    requires forall k :: k in due ==> VotesFor(due[k], k) && k <= AcceptedEnd(w)
    ensures var w' := HandleAll(w, due);
            && Clean(w') && Keeps(w, w')
            && forall k, v :: k in due && v in due[k] ==> Handled(w', RoundOf(v), v.id)
    decreases |due|
  {
    if due == map[] {
      KeepsItself(w);
    } else {
      var k := LeastKey(due);
      var next, rest := HandleVotes(w, due[k]), due - {k};
      HandleVotesKeeps(w, due[k], k);
      HandleVotesDelivers(w, due[k], k);
      assert rest.Keys == due.Keys - {k};
      HandleAllDelivers(next, rest);
      KeepsChains(w, next, HandleAll(next, rest));
      forall j, v | j in due && v in due[j]
        ensures Handled(HandleAll(w, due), RoundOf(v), v.id)
      {
        if j == k {
          assert Handled(next, RoundOf(v), v.id);
        } else {
          assert j in rest && rest[j] == due[j];
        }
      }
    }
  }

  // ---- replay ----

  lemma ReplayJustificationsDelivers(w: Worker)
    requires Inv(w) && Clean(w) && w.sessions != []
    ensures var w' := ReplayJustifications(w);
            && Clean(w') && Follows(w, w') && AcceptedEnd(w) <= AcceptedEnd(w') && w'.pendingVotes == w.pendingVotes
            && w'.pendingJustifications == StillPending(w.pendingJustifications, AcceptedEnd(w))
            && (forall k :: k in w.pendingJustifications && k !in w'.pendingJustifications ==> Past(w', k))
            && (forall round, id :: Handled(w, round, id) ==> Handled(w', round, id))
  {
    if w.pendingJustifications != map[] {
      var (start, end) := AcceptedInterval(w).value;
      var kept := w.(pendingJustifications := StillPending(w.pendingJustifications, end));
      var due := ToHandle(w.pendingJustifications, start, end);
      assert Inv(kept);
      FinalizeAllDelivers(kept, due);
      FinalizeAllKeeps(kept, due);
      assert forall round, id :: Handled(w, round, id) ==> Handled(kept, round, id);
    }
  }

  lemma ReplayVotesDelivers(w: Worker)
    requires Inv(w) && Clean(w) && w.sessions != []
    ensures var w' := ReplayVotes(w);
            && Clean(w') && Follows(w, w')
            && w'.pendingJustifications == w.pendingJustifications
            && w'.pendingVotes == StillPending(w.pendingVotes, AcceptedEnd(w))
            && (forall round, id :: Handled(w, round, id) ==> Handled(w', round, id))
  {
    if w.pendingVotes != map[] {
      var (start, end) := AcceptedInterval(w).value;
      var kept := w.(pendingVotes := StillPending(w.pendingVotes, end));
      assert Inv(kept);
      HandleAllDelivers(kept, ToHandle(w.pendingVotes, start, end));
      assert forall round, id :: Handled(w, round, id) ==> Handled(kept, round, id);
    }
  }

  /** A vote that replay takes out of the buffer is handled. */
  lemma ReplayedVoteHandled(w: Worker, vote: VoteMessage)
    requires Inv(w) && Clean(w) && w.sessions != [] && Waiting(w, vote)
    ensures Accounted(ReplayVotes(w), vote)
  {
    var (start, end) := AcceptedInterval(w).value;
    var number := vote.commitment.blockNumber;
    var kept := w.(pendingVotes := StillPending(w.pendingVotes, end));
    var due := ToHandle(w.pendingVotes, start, end);
    assert Inv(kept);
    HandleAllDelivers(kept, due);
    if number in due {
      assert vote in due[number];
    } else if number !in StillPending(w.pendingVotes, end) {
      assert Handled(kept, RoundOf(vote), vote.id);
    }
  }

  lemma ReplayDelivers(w: Worker)
    requires Inv(w) && Clean(w) && w.sessions != []
    ensures var w' := Replay(w); Inv(w') && Clean(w') && w'.sessions != [] && Follows(w, w')
  {
    ReplayJustificationsKeeps(w);
    ReplayJustificationsDelivers(w);
    ReplayVotesKeeps(ReplayJustifications(w));
    ReplayVotesDelivers(ReplayJustifications(w));
    FollowsChains(w, ReplayJustifications(w), Replay(w));
  }

  lemma ReplayAccounts(w: Worker, vote: VoteMessage)
    requires Inv(w) && Clean(w) && w.sessions != [] && Accounted(w, vote)
    ensures Accounted(Replay(w), vote)
  {
    var mid := ReplayJustifications(w);
    ReplayJustificationsKeeps(w);
    ReplayJustificationsDelivers(w);
    ReplayVotesDelivers(mid);
    if Waiting(mid, vote) {
      ReplayedVoteHandled(mid, vote);
    }
  }

  lemma PastStays(w: Worker, w': Worker, number: Number)
    requires Follows(w, w') && Past(w, number)
    ensures Past(w', number)
  {
  }

  lemma ReplayAccountsJustification(w: Worker, number: Number)
    requires Inv(w) && Clean(w) && w.sessions != [] && JustificationAccounted(w, number)
    ensures JustificationAccounted(Replay(w), number)
  {
    var mid := ReplayJustifications(w);
    ReplayJustificationsKeeps(w);
    ReplayJustificationsDelivers(w);
    ReplayVotesDelivers(mid);
    if Past(w, number) {
      PastStays(w, mid, number);
    }
    if Past(mid, number) {
      PastStays(mid, Replay(w), number);
    }
  }

  // ---- triage ----

  /** The old list of a number, or none. */
  function Buffered(w: Worker, number: Number): seq<VoteMessage> {
    if number in w.pendingVotes then w.pendingVotes[number] else []
  }

  /**
    An incoming vote in the accepted interval is handled; above it, it is put last in the buffer of its
    number and nothing else changes; otherwise nothing does.
   */
  lemma TriageVoteExact(w: Worker, vote: VoteMessage)
    requires w.sessions != []
    ensures
      var w', number := TriageVote(w, vote), vote.commitment.blockNumber;
      if w.sessions[0].sessionStart <= number <= AcceptedEnd(w) then
        w' == HandleVote(w, RoundOf(vote), vote.id, vote.signature, false)
      else if number > AcceptedEnd(w) then
        && w' == w.(pendingVotes := w'.pendingVotes)
        && forall k :: Buffered(w', k) == if k == number then Buffered(w, k) + [vote] else Buffered(w, k)
      else
        w' == w
  {
  }

  /** The same for a justification, except that the first one buffered for a number stays. */
  lemma TriageJustificationExact(w: Worker, proof: FinalityProof)
    requires w.sessions != []
    ensures
      var w', number := TriageJustification(w, proof), proof.commitment.blockNumber;
      if w.sessions[0].sessionStart <= number <= AcceptedEnd(w) then
        w' == Finalize(w, proof)
      else if number > AcceptedEnd(w) then
        && w' == w.(pendingJustifications := w'.pendingJustifications)
        && w'.pendingJustifications.Keys == w.pendingJustifications.Keys + {number}
        && (number !in w.pendingJustifications ==> w'.pendingJustifications[number] == proof)
        && (forall k :: k in w.pendingJustifications ==> w'.pendingJustifications[k] == w.pendingJustifications[k])
      else
        w' == w
  {
  }

  lemma TriageVoteDelivers(w: Worker, vote: VoteMessage)
    requires Inv(w) && Clean(w) && w.sessions != []
    ensures var w' := TriageVote(w, vote); Clean(w') && Follows(w, w') && Accounted(w', vote)
    ensures forall v :: Accounted(w, v) ==> Accounted(TriageVote(w, vote), v)
    ensures TriageVote(w, vote).pendingJustifications == w.pendingJustifications
  {
    var w' := TriageVote(w, vote);
    if TriageRound(w, vote.commitment.blockNumber) == Some(Process) {
      HandleVoteDelivers(w, RoundOf(vote), vote.id, vote.signature, false);
    } else {
      assert forall round, id :: Handled(w, round, id) ==> Handled(w', round, id);
    }
  }

  lemma TriageJustificationDelivers(w: Worker, proof: FinalityProof)
    requires Inv(w) && Clean(w) && w.sessions != []
    ensures var w' := TriageJustification(w, proof);
            && Clean(w') && Follows(w, w') && w'.pendingVotes == w.pendingVotes
            && JustificationAccounted(w', proof.commitment.blockNumber)
            && w.pendingJustifications.Keys <= w'.pendingJustifications.Keys
            && (forall round, id :: Handled(w, round, id) ==> Handled(w', round, id))
  {
    var w' := TriageJustification(w, proof);
    if TriageRound(w, proof.commitment.blockNumber) == Some(Process) {
      FinalizeDelivers(w, proof);
    } else {
      assert forall round, id :: Handled(w, round, id) ==> Handled(w', round, id);
    }
  }

  // ---- the local vote ----

  lemma TargetInReach(w: Worker, target: Number)
    requires Inv(w) && VotingTarget(w) == Some(target)
    ensures target <= AcceptedEnd(w)
  {
  }

  /**
    A complete ballot for the voting target, by a member that has not voted on it, is counted as the
    worker's own vote, unless it makes the block final.
   */
  lemma LocalVoteCounted(w: Worker, target: Number, payload: Payload, id: AuthorityId, signature: Signature)
    requires Inv(w) && w.sessions != [] && VotingTarget(w) == Some(target)
    requires
      var round, front := Round(payload, target), w.sessions[0];
      !TrackerOf(front, round).selfVote && Counts(front, round, id)
    ensures
      var w' := TryToVote(w, Ballot(Some(payload), Some(id), Some(signature)));
      || AtMost(target, w'.bestBeefy)
      || (var tracker := TrackerOf(w'.sessions[0], Round(payload, target));
          tracker.selfVote && id in tracker.votes && tracker.votes[id] == signature)
  {
    var round := Round(payload, target);
    var added := AddVote(w.sessions[0], round, id, signature, true);
    assert TryToVote(w, Ballot(Some(payload), Some(id), Some(signature))) == HandleVote(w, round, id, signature, true);
    if IsDone(added, round) {
      HandleVoteFinalizes(w, round, id, signature, true);
      FinalizeBest(w.(sessions := w.sessions[0 := added]), ProofOf(added, round));
    }
  }

  /** Without a target or with a part of the ballot missing, nothing is cast. */
  lemma NoVoteCast(w: Worker, ballot: Ballot)
    requires VotingTarget(w).None? || ballot.payload.None? || ballot.id.None? || ballot.signature.None?
    ensures TryToVote(w, ballot) == w
  {
  }

  lemma TryToVoteDelivers(w: Worker, ballot: Ballot)
    requires Inv(w) && Clean(w) && w.sessions != []
    ensures Clean(TryToVote(w, ballot)) && Keeps(w, TryToVote(w, ballot))
  {
    if TryToVote(w, ballot) == w {
      KeepsItself(w);
    } else {
      var target := VotingTarget(w).value;
      TargetInReach(w, target);
      HandleVoteDelivers(w, Round(ballot.payload.value, target), ballot.id.value, ballot.signature.value, true);
    }
  }

  // ---- finality notifications ----

  lemma InitSessionDelivers(w: Worker, headers: seq<Header>, above: Number)
    requires Inv(w) && Clean(w) && AscendingAbove(headers, above, w.bestGrandpa) && StartsBelow(w, headers)
    requires w.bestBeefy.Some? ==> w.bestBeefy.value <= above
    requires headers != [] && w.sessions != []
    ensures var w' := InitSession(w, headers[0]);
            && Clean(w') && w'.sessions != [] && w'.bestBeefy == w.bestBeefy && w'.published == w.published
            && w'.pendingVotes == w.pendingVotes && w'.pendingJustifications == w.pendingJustifications
            && w.sessions[0].sessionStart <= w'.sessions[0].sessionStart && w'.minBlockDelta == w.minBlockDelta
            && (forall round, id :: Handled(w, round, id) && round.number <= above ==> Handled(w', round, id))
  {
    var h := headers[0];
    if h.change.Some? {
      AddSessionState(w.sessions, NewRounds(h.number, h.change.value));
    }
  }

  lemma {:induction false} InitSessionsDelivers(w: Worker, headers: seq<Header>, above: Number)
    requires Inv(w) && Clean(w) && AscendingAbove(headers, above, w.bestGrandpa) && StartsBelow(w, headers)
    requires w.bestBeefy.Some? ==> w.bestBeefy.value <= above
    requires w.sessions != []
    ensures var w' := InitSessions(w, headers);
            && Clean(w') && w'.sessions != [] && w'.bestBeefy == w.bestBeefy && w'.published == w.published
            && w'.pendingVotes == w.pendingVotes && w'.pendingJustifications == w.pendingJustifications
            && w.sessions[0].sessionStart <= w'.sessions[0].sessionStart && w'.minBlockDelta == w.minBlockDelta
            && (forall round, id :: Handled(w, round, id) && round.number <= above ==> Handled(w', round, id))
    decreases |headers|
  {
    if headers != [] {
      InitSessionKeeps(w, headers, above);
      InitSessionDelivers(w, headers, above);
      InitSessionsDelivers(InitSession(w, headers[0]), headers[1..], above);
    }
  }

  lemma ReachIsBounded(w: Worker, round: Round, id: AuthorityId)
    requires Inv(w) && Handled(w, round, id)
    ensures round.number <= w.bestGrandpa
  {
  }

  lemma FinalityDelivers(w: Worker, route: seq<Header>, header: Header)
    requires Inv(w) && Clean(w) && w.sessions != []
    requires header.number > w.bestGrandpa ==>
               AscendingAbove(route + [header], w.bestGrandpa, header.number)
    ensures var w' := HandleFinality(w, route, header);
            && Clean(w') && w'.sessions != [] && w'.bestBeefy == w.bestBeefy && w'.published == w.published
            && w'.pendingVotes == w.pendingVotes && w'.pendingJustifications == w.pendingJustifications
            && w.sessions[0].sessionStart <= w'.sessions[0].sessionStart && w'.minBlockDelta == w.minBlockDelta
            && (forall round, id :: Handled(w, round, id) ==> Handled(w', round, id))
  {
    if header.number > w.bestGrandpa {
      var moved := w.(bestGrandpa := header.number);
      assert Inv(moved);
      InitSessionsDelivers(moved, route + [header], w.bestGrandpa);
      forall round, id | Handled(w, round, id)
        ensures Handled(HandleFinality(w, route, header), round, id)
      {
        ReachIsBounded(w, round, id);
        assert Handled(moved, round, id);
      }
    }
  }

  lemma {:induction false} InitSessionsGrandpa(w: Worker, headers: seq<Header>)
    ensures InitSessions(w, headers).bestGrandpa == w.bestGrandpa
    decreases |headers|
  {
    if headers != [] {
      InitSessionsGrandpa(InitSession(w, headers[0]), headers[1..]);
    }
  }

  /** A notification moves best GRANDPA up to its header, and an old one changes nothing. */
  lemma FinalityAdvances(w: Worker, route: seq<Header>, header: Header)
    ensures HandleFinality(w, route, header).bestGrandpa == Max(w.bestGrandpa, header.number)
    ensures header.number <= w.bestGrandpa ==> HandleFinality(w, route, header) == w
  {
    if header.number > w.bestGrandpa {
      InitSessionsGrandpa(w.(bestGrandpa := header.number), route + [header]);
    }
  }

  // ---- whole runs ----

  ghost predicate Good(w: Worker) {
    Inv(w) && Clean(w) && w.sessions != []
  }

  lemma StepDelivers(w: Worker, e: BeefySafety.Event)
    requires Good(w) && Expected(w, e)
    ensures Good(Step(w, e)) && Shown(w, Step(w, e)) && Step(w, e).minBlockDelta == w.minBlockDelta
    ensures forall v :: Accounted(w, v) ==> Accounted(Step(w, e), v)
    ensures forall n :: JustificationAccounted(w, n) ==> JustificationAccounted(Step(w, e), n)
  {
    StepKeeps(w, e);
    match e
    case Finality(route, header) => FinalityDelivers(w, route, header);
    case IncomingVote(vote) => TriageVoteDelivers(w, vote);
    case IncomingJustification(proof) => TriageJustificationDelivers(w, proof);
    case LocalVote(ballot) => TryToVoteDelivers(w, ballot);
    case ReplayPending =>
      ReplayDelivers(w);
      forall v | Accounted(w, v)
        ensures Accounted(Replay(w), v)
      {
        ReplayAccounts(w, v);
      }
      forall n | JustificationAccounted(w, n)
        ensures JustificationAccounted(Replay(w), n)
      {
        ReplayAccountsJustification(w, n);
      }
  }

  /**
    Over every run, a vote that came in is waiting for its number to be accepted, or is counted, stale,
    or not a member's.
   */
  lemma {:induction false} RunAccounts(world: World, events: seq<BeefySafety.Event>, vote: VoteMessage)
    requires Good(world.worker) && RunExpected(world, events)
    requires Accounted(world.worker, vote) || IncomingVote(vote) in events
    ensures Good(Run(world, events).worker) && Accounted(Run(world, events).worker, vote)
    decreases |events|
  {
    if events != [] {
      StepDelivers(world.worker, events[0]);
      if events[0] == IncomingVote(vote) {
        TriageVoteDelivers(world.worker, vote);
      } else {
        assert events == [events[0]] + events[1..];
      }
      RunAccounts(Next(world, events[0]), events[1..], vote);
    }
  }

  lemma {:induction false} RunAccountsJustification(world: World, events: seq<BeefySafety.Event>, proof: FinalityProof)
    requires Good(world.worker) && RunExpected(world, events)
    requires JustificationAccounted(world.worker, proof.commitment.blockNumber) || IncomingJustification(proof) in events
    ensures Good(Run(world, events).worker)
    ensures JustificationAccounted(Run(world, events).worker, proof.commitment.blockNumber)
    decreases |events|
  {
    if events != [] {
      StepDelivers(world.worker, events[0]);
      if events[0] == IncomingJustification(proof) {
        TriageJustificationDelivers(world.worker, proof);
      } else {
        assert events == [events[0]] + events[1..];
      }
      RunAccountsJustification(Next(world, events[0]), events[1..], proof);
    }
  }

  /**
    What a voter votes on: the mandatory block of its front session until that is final, then the block a
    power of two above best BEEFY, or the minimum delta if that is more.
   */
  lemma VotingTargetExact(w: Worker, k: nat)
    requires Good(w)
    ensures
      var start := w.sessions[0].sessionStart;
      if !AtMost(start, w.bestBeefy) then
        VotingTarget(w) == Some(start)
      else
        RoundsUpTo((w.bestGrandpa - w.bestBeefy.value + 1) % U32_LIMIT / 2, k) ==>
          var step := if w.minBlockDelta >= Pow2(k) then w.minBlockDelta else Pow2(k);
          var target := (w.bestBeefy.value + step) % U32_LIMIT;
          VotingTarget(w) == if target <= w.bestGrandpa then Some(target) else None
  {
    var start := w.sessions[0].sessionStart;
    if !AtMost(start, w.bestBeefy) {
      MandatoryTarget(w.bestGrandpa, w.bestBeefy, start, w.minBlockDelta);
    } else if RoundsUpTo((w.bestGrandpa - w.bestBeefy.value + 1) % U32_LIMIT / 2, k) {
      PowerOfTwoTarget(w.bestGrandpa, w.bestBeefy.value, start, w.minBlockDelta, k);
    }
  }

  /** The minimum delta of a running voter is the configured one, and at least one. */
  lemma DeltaIsConfigured(
      w: Worker, finalized: Number, minDelta: U32, ancestors: seq<Ancestor>, active: ValidatorSet,
      events: seq<BeefySafety.Event>)
    requires 0 < |ancestors| <= U32_LIMIT && (active.id != GENESIS_AUTHORITY_SET_ID || |ancestors| >= 2)
    requires InitializeVoter(NewWorker(finalized, minDelta), ancestors, active) == Some(w)
    requires RunExpected(World(w, {}), events)
    ensures Run(World(w, {}), events).worker.minBlockDelta == if minDelta == 0 then 1 else minDelta
  {
    StartIsGood(finalized, minDelta, ancestors, active);
    RunStaysGood(World(w, {}), events);
  }

  // ---- enough votes make a block final ----

  /** A voter that starts up safely starts with nothing undelivered. */
  lemma StartIsGood(finalized: Number, minDelta: U32, ancestors: seq<Ancestor>, active: ValidatorSet)
    requires 0 < |ancestors| <= U32_LIMIT && (active.id != GENESIS_AUTHORITY_SET_ID || |ancestors| >= 2)
    requires InitializeVoter(NewWorker(finalized, minDelta), ancestors, active).Some?
    ensures Good(InitializeVoter(NewWorker(finalized, minDelta), ancestors, active).value)
  {
    InitializeExact(finalized, minDelta, ancestors, active);
  }

  /** Replay leaves nothing of the accepted interval behind, but for the largest number. */
  lemma ReplayEmptiesInterval(w: Worker, number: Number)
    requires Good(w) && number <= AcceptedEnd(w) && number < MAX_NUMBER
    ensures number !in Replay(w).pendingVotes && number !in Replay(w).pendingJustifications
  {
    ReplayJustificationsKeeps(w);
    ReplayJustificationsDelivers(w);
    ReplayVotesDelivers(ReplayJustifications(w));
  }

  lemma PastIsFinal(w: Worker, w': Worker, number: Number)
    requires Inv(w) && Follows(w, w') && Acceptable(w, number) && Past(w', number)
    ensures AtMost(number, w'.bestBeefy)
  {
  }

  /** A session that still has the block ahead of it has counted the votes that were handled. */
  lemma HandledAreCounted(w: Worker, round: Round, voters: set<AuthorityId>)
    requires w.sessions != [] && w.sessions[0].sessionStart <= round.number
    requires !AtMost(round.number, w.sessions[0].bestDone) && voters != {}
    requires voters <= Members(w.sessions[0].validatorSet.validators)
    requires forall id :: id in voters ==> Handled(w, round, id)
    ensures round in w.sessions[0].rounds && |voters| <= |w.sessions[0].rounds[round].votes|
  {
    var id :| id in voters;
    assert Handled(w, round, id);
    SubsetSize(voters, w.sessions[0].rounds[round].votes.Keys);
  }

  ghost predicate Received(events: seq<BeefySafety.Event>, round: Round, id: AuthorityId) {
    exists vote :: IncomingVote(vote) in events && RoundOf(vote) == round && vote.id == id
  }

  /**
    The mandatory block of the front session, or any block up to best GRANDPA once that one is final or, in
    the last session, a justification for it is waiting.
   */
  ghost predicate InReach(w: Worker, number: Number) {
    && w.sessions != []
    && var start := w.sessions[0].sessionStart;
       || number == start
       || (start <= number <= w.bestGrandpa
           && (AtMost(start, w.bestBeefy) || (|w.sessions| == 1 && start in w.pendingJustifications && start < MAX_NUMBER)))
  }

  lemma {:induction false} LastSessionStays(w: Worker, due: map<Number, FinalityProof>)
    requires Inv(w) && |w.sessions| == 1
    requires forall k :: k in due ==> due[k].commitment.blockNumber == k && Acceptable(w, k)
    ensures FinalizeAll(w, due).sessions != []
    ensures FinalizeAll(w, due).sessions[0].sessionStart == w.sessions[0].sessionStart
    decreases |due|
  {
    if due != map[] {
      var k := LeastKey(due);
      FinalizeKeeps(w, due[k]);
      FinalizeSessions(w, due[k]);
      assert (due - {k}).Keys == due.Keys - {k};
      LastSessionStays(Finalize(w, due[k]), due - {k});
    }
  }

  /** Justifications come first, so that votes waiting behind them are reached. */
  lemma ReachedAfterJustifications(w: Worker, number: Number)
    requires Good(w) && InReach(w, number)
    ensures var j := ReplayJustifications(w);
            && j.sessions != []
            && (AtMost(number, j.bestBeefy)
                || (Acceptable(j, number) && j.sessions[0].validatorSet == w.sessions[0].validatorSet))
  {
    var j, start := ReplayJustifications(w), w.sessions[0].sessionStart;
    ReplayJustificationsKeeps(w);
    ReplayJustificationsDelivers(w);
    if !AtMost(start, w.bestBeefy) && number != start {
      var end := AcceptedEnd(w);
      var due := ToHandle(w.pendingJustifications, start, end);
      var kept := w.(pendingJustifications := StillPending(w.pendingJustifications, end));
      assert Inv(kept) && start in due;
      LastSessionStays(kept, due);
      FinalizeAllDelivers(kept, due);
    }
  }

  ghost predicate AllAccounted(w: Worker, round: Round, voters: set<AuthorityId>) {
    forall id :: id in voters ==> exists vote :: Accounted(w, vote) && RoundOf(vote) == round && vote.id == id
  }

  lemma QuorumReplayed(w: Worker, round: Round, voters: set<AuthorityId>)
    requires Good(w) && Acceptable(w, round.number) && round.number < MAX_NUMBER
    requires
      var validators := w.sessions[0].validatorSet.validators;
      voters <= Members(validators) && |voters| >= Threshold(|validators|) && voters != {}
    requires AllAccounted(w, round, voters)
    ensures AtMost(round.number, ReplayVotes(w).bestBeefy)
  {
    var w' := ReplayVotes(w);
    ReplayVotesKeeps(w);
    ReplayVotesDelivers(w);
    if !AtMost(round.number, w'.bestBeefy) {
      if Past(w', round.number) {
        PastIsFinal(w, w', round.number);
      }
      forall id | id in voters
        ensures Handled(w', round, id)
      {
        var vote :| Accounted(w, vote) && RoundOf(vote) == round && vote.id == id;
        if Waiting(w, vote) {
          ReplayedVoteHandled(w, vote);
        }
      }
      assert SessionClean(w'.sessions[0], w'.bestBeefy);
      HandledAreCounted(w', round, voters);
    }
  }

  lemma VotersAccounted(world: World, events: seq<BeefySafety.Event>, round: Round, voters: set<AuthorityId>)
    requires Good(world.worker) && RunExpected(world, events)
    requires forall id :: id in voters ==> Received(events, round, id)
    ensures Good(Run(world, events).worker)
    ensures AllAccounted(ReplayJustifications(Run(world, events).worker), round, voters)
  {
    var w := Run(world, events).worker;
    RunStaysGood(world, events);
    ReplayJustificationsDelivers(w);
    forall id | id in voters
      ensures exists vote :: Accounted(ReplayJustifications(w), vote) && RoundOf(vote) == round && vote.id == id
    {
      var vote :| IncomingVote(vote) in events && RoundOf(vote) == round && vote.id == id;
      RunAccounts(world, events, vote);
      assert Accounted(ReplayJustifications(w), vote);
    }
  }

  /**
    When as many members of the front session as the threshold have sent a vote for a block, at any time
    in the run and in any order, and the block is in reach now, it is final after one replay.
   */
  lemma QuorumIsFinal(world: World, events: seq<BeefySafety.Event>, round: Round, voters: set<AuthorityId>)
    requires Good(world.worker) && RunExpected(world, events)
    requires InReach(Run(world, events).worker, round.number) && round.number < MAX_NUMBER
    requires
      var validators := Run(world, events).worker.sessions[0].validatorSet.validators;
      voters <= Members(validators) && |voters| >= Threshold(|validators|) && voters != {}
    requires forall id :: id in voters ==> Received(events, round, id)
    ensures FinalFrom(world.worker, Replay(Run(world, events).worker), round.number)
  {
    var w := Run(world, events).worker;
    var j := ReplayJustifications(w);
    RunStaysGood(world, events);
    VotersAccounted(world, events, round, voters);
    ReplayJustificationsKeeps(w);
    ReplayJustificationsDelivers(w);
    ReplayVotesDelivers(j);
    ReachedAfterJustifications(w, round.number);
    if !AtMost(round.number, j.bestBeefy) {
      QuorumReplayed(j, round, voters);
    }
    ReplayDelivers(w);
    ShownIsFinal(world.worker, w, Replay(w), round.number);
  }

  /** The block was final when the run began, or a proof for it or for a later one is published. */
  ghost predicate FinalFrom(start: Worker, w: Worker, number: Number) {
    AtMost(number, start.bestBeefy) || exists n :: number <= n && IsPublished(w, n)
  }

  lemma ShownIsFinal(start: Worker, mid: Worker, w: Worker, number: Number)
    requires Shown(start, mid) && Shown(mid, w) && AtMost(number, w.bestBeefy)
    ensures FinalFrom(start, w, number)
  {
    ShownChains(start, mid, w);
  }

  /** A justification that came in makes its block final in the same way. */
  lemma JustificationIsFinal(world: World, events: seq<BeefySafety.Event>, proof: FinalityProof)
    requires Good(world.worker) && RunExpected(world, events) && IncomingJustification(proof) in events
    requires
      var w, number := Run(world, events).worker, proof.commitment.blockNumber;
      && w.sessions != []
      && var start := w.sessions[0].sessionStart;
         number == start || (AtMost(start, w.bestBeefy) && start <= number <= w.bestGrandpa)
    requires proof.commitment.blockNumber < MAX_NUMBER
    ensures FinalFrom(world.worker, Replay(Run(world, events).worker), proof.commitment.blockNumber)
  {
    var w, number := Run(world, events).worker, proof.commitment.blockNumber;
    RunAccountsJustification(world, events, proof);
    RunStaysGood(world, events);
    ReplayDelivers(w);
    ReplayAccountsJustification(w, number);
    ReplayEmptiesInterval(w, number);
    PastIsFinal(w, Replay(w), number);
    ShownIsFinal(world.worker, w, Replay(w), number);
  }

  lemma {:induction false} RunStaysGood(world: World, events: seq<BeefySafety.Event>)
    requires Good(world.worker) && RunExpected(world, events)
    ensures Good(Run(world, events).worker) && Shown(world.worker, Run(world, events).worker)
    ensures Run(world, events).worker.minBlockDelta == world.worker.minBlockDelta
    decreases |events|
  {
    if events != [] {
      StepDelivers(world.worker, events[0]);
      RunStaysGood(Next(world, events[0]), events[1..]);
      ShownChains(world.worker, Step(world.worker, events[0]), Run(world, events).worker);
    }
  }
}
