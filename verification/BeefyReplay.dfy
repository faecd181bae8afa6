/** Replay of buffered items against triage, start-up, and the proofs that handled votes assemble. */
module BeefyReplay {
  import opened Common
  import opened BeefyTypes
  import opened BeefyRounds
  import opened BeefyProof
  import opened BeefyTarget
  import opened BeefyWorkerModel
  import opened BeefySafety

  const MAX_NUMBER: Number := 0xFFFF_FFFF

  // ---- replay agrees with triage ----

  /** Buffered items are split three ways: none is lost, none is in two parts, none changes. */
  lemma ReplaySplits<T>(pending: map<Number, T>, start: Number, end: Number, k: Number)
    requires k in pending && start <= end
    ensures k in ToHandle(pending, start, end) ==>
              ToHandle(pending, start, end)[k] == pending[k] && k !in StillPending(pending, end)
    ensures k in StillPending(pending, end) ==> StillPending(pending, end)[k] == pending[k]
    ensures k !in ToHandle(pending, start, end) && k !in StillPending(pending, end) <==>
              k < start && k < SaturatingSucc(end)
  {
  }

  /**
    A buffered item is handled exactly when triage of its number says so, kept exactly when it
    says to enqueue, and dropped exactly when it says to drop. The one exception is the largest
    number of all when the interval reaches it: triage would process it, replay keeps it.
   */
  lemma ReplayAgreesWithTriage<T>(w: Worker, pending: map<Number, T>, k: Number)
    requires w.sessions != [] && k in pending && w.sessions[0].sessionStart <= AcceptedEnd(w)
    ensures var (start, end) := AcceptedInterval(w).value;
            && ((k == MAX_NUMBER && end == MAX_NUMBER) <==>
                (k in ToHandle(pending, start, end) <==> TriageRound(w, k) != Some(Process)))
            && (!(k == MAX_NUMBER && end == MAX_NUMBER) ==>
                && (k in StillPending(pending, end) <==> TriageRound(w, k) == Some(Enqueue))
                && (k !in ToHandle(pending, start, end) && k !in StillPending(pending, end)
                    <==> TriageRound(w, k) == Some(Drop)))
  {
  }

  // ---- a batch is counted in the session it was let in for ----

  /** Only the front session may change or leave; every later one is exactly as it was. */
  ghost predicate LaterUntouched(sessions: seq<Rounds>, sessions': seq<Rounds>) {
    && sessions != [] && sessions' != []
    && (sessions' == sessions[1..] || sessions'[1..] == sessions[1..])
  }

  lemma FinalizeTouchesFront(w: Worker, proof: FinalityProof)
    requires Inv(w) && Acceptable(w, proof.commitment.blockNumber)
    ensures LaterUntouched(w.sessions, Finalize(w, proof).sessions)
    ensures w.sessions[0].mandatoryDone ==>
              Finalize(w, proof).sessions[0].sessionStart == w.sessions[0].sessionStart
  {
    FinalizeSessions(w, proof);
  }

  lemma HandleVoteTouchesFront(w: Worker, round: Round, id: AuthorityId, signature: Signature, selfVote: bool)
    requires Inv(w) && w.sessions != [] && round.number <= AcceptedEnd(w)
    ensures LaterUntouched(w.sessions, HandleVote(w, round, id, signature, selfVote).sessions)
    ensures round.number < w.sessions[0].sessionStart ==> HandleVote(w, round, id, signature, selfVote) == w
  {
    if Counts(w.sessions[0], round, id) {
      var added := AddVote(w.sessions[0], round, id, signature, selfVote);
      AddVoteKeeps(w.sessions[0], round, id, signature, selfVote);
      var w1 := w.(sessions := w.sessions[0 := added]);
      ReplaceFront(w, added);
      assert w1.sessions[1..] == w.sessions[1..];
      if IsDone(added, round) {
        HandleVoteFinalizes(w, round, id, signature, selfVote);
        FinalizeTouchesFront(w1, ProofOf(added, round));
      }
    }
  }

  ghost predicate Later(w: Worker, number: Number) {
    w.sessions != [] && number < w.sessions[0].sessionStart
  }

  lemma {:induction false} StaleVotesIgnored(w: Worker, votes: seq<VoteMessage>, number: Number)
    requires Later(w, number) && VotesFor(votes, number)
    ensures HandleVotes(w, votes) == w
    decreases |votes|
  {
    if votes != [] {
      assert Handle(w, votes[0]) == w;
      StaleVotesIgnored(w, votes[1..], number);
    }
  }

  /** Every buffered vote of a batch counts in the front session it was let in for, or nowhere. */
  lemma {:induction false} BatchStaysInSession(w: Worker, votes: seq<VoteMessage>, number: Number)
    requires Inv(w) && w.sessions != [] && VotesFor(votes, number) && number <= AcceptedEnd(w)
    ensures LaterUntouched(w.sessions, HandleVotes(w, votes).sessions)
    decreases |votes|
  {
    if votes != [] {
      var v := votes[0];
      var round := Round(v.commitment.payload, number);
      var next := Handle(w, v);
      HandleVoteTouchesFront(w, round, v.id, v.signature, false);
      HandleVoteKeeps(w, round, v.id, v.signature, false);
      if next.sessions[1..] == w.sessions[1..] {
        BatchStaysInSession(next, votes[1..], number);
      } else {
        assert Lagging(w.sessions);
        assert next.sessions[0] == w.sessions[1];
        StaleVotesIgnored(next, votes[1..], number);
      }
    }
  }

  lemma {:induction false} DueVotesStayInSession(w: Worker, due: map<Number, seq<VoteMessage>>)
    requires Inv(w) && w.sessions != []
    requires forall k :: k in due ==> VotesFor(due[k], k) && Acceptable(w, k)
    ensures LaterUntouched(w.sessions, HandleAll(w, due).sessions)
    decreases |due|
  {
    if due != map[] {
      var k := LeastKey(due);
      var next, rest := HandleVotes(w, due[k]), due - {k};
      assert rest.Keys == due.Keys - {k};
      BatchStaysInSession(w, due[k], k);
      HandleVotesKeeps(w, due[k], k);
      if Lagging(w.sessions) {
        assert forall j :: j in due ==> j == k;
        assert rest == map[];
      } else {
        UpToDateStays(w, due[k], k);
        DueVotesStayInSession(next, rest);
      }
    }
  }

  lemma {:induction false} UpToDateStays(w: Worker, votes: seq<VoteMessage>, number: Number)
    requires Inv(w) && UpToDate(w.sessions) && VotesFor(votes, number) && number <= AcceptedEnd(w)
    ensures var w' := HandleVotes(w, votes);
            && UpToDate(w'.sessions) && w'.sessions[0].sessionStart == w.sessions[0].sessionStart
            && w'.bestGrandpa == w.bestGrandpa
    decreases |votes|
  {
    if votes != [] {
      var v := votes[0];
      var round := Round(v.commitment.payload, number);
      HandleVoteKeeps(w, round, v.id, v.signature, false);
      UpToDateStep(w, round, v.id, v.signature);
      UpToDateStays(Handle(w, v), votes[1..], number);
    }
  }

  lemma UpToDateStep(w: Worker, round: Round, id: AuthorityId, signature: Signature)
    requires UpToDate(w.sessions)
    ensures var w' := HandleVote(w, round, id, signature, false);
            && UpToDate(w'.sessions) && w'.sessions[0].sessionStart == w.sessions[0].sessionStart
            && w'.bestGrandpa == w.bestGrandpa
  {
  }

  /**
    Replaying the buffered votes never touches a session other than the one at the front when
    the replay began, even if the batch itself moves the queue on; what stays buffered is
    exactly what lies past the interval.
   */
  lemma ReplayVotesStaysInSession(w: Worker)
    requires Inv(w) && w.sessions != []
    ensures LaterUntouched(w.sessions, ReplayVotes(w).sessions)
    ensures ReplayVotes(w).pendingVotes == StillPending(w.pendingVotes, AcceptedEnd(w))
  {
    ReplayVotesKeeps(w);
    if w.pendingVotes != map[] {
      var (start, end) := AcceptedInterval(w).value;
      var kept := w.(pendingVotes := StillPending(w.pendingVotes, end));
      assert Inv(kept);
      DueVotesStayInSession(kept, ToHandle(w.pendingVotes, start, end));
    }
  }

  // ---- start-up ----

  /**
    What initialization owes its caller: the notified header is at least block 1 when the genesis set
    is active, since that session starts at block 1. Exactly then the voter is safe.
   */
  lemma InitializeExact(finalized: Number, minDelta: U32, ancestors: seq<Ancestor>, active: ValidatorSet)
    requires 0 < |ancestors| <= U32_LIMIT
    requires InitializeVoter(NewWorker(finalized, minDelta), ancestors, active).Some?
    ensures var w := InitializeVoter(NewWorker(finalized, minDelta), ancestors, active).value;
            && (Inv(w) <==> active.id != GENESIS_AUTHORITY_SET_ID || |ancestors| >= 2)
            && KnownOk(World(w, {w.sessions[0].sessionStart}), w.bestBeefy)
  {
    var w := InitializeVoter(NewWorker(finalized, minDelta), ancestors, active).value;
    if active.id != GENESIS_AUTHORITY_SET_ID {
      var n := WalkBack(ancestors, |ancestors| - 1).value;
      if ancestors[n].justified {
        ConcludeKeeps(NewRounds(n, active), n);
        assert UpToDate(w.sessions);
      }
    }
    if !w.sessions[0].mandatoryDone {
      assert w.sessions[0].sessionStart == w.sessions[0].sessionStart && !w.sessions[0].mandatoryDone;
    }
  }

  ghost predicate LastAnchor(ancestors: seq<Ancestor>, n: nat) {
    && n < |ancestors| && (ancestors[n].justified || ancestors[n].change.Some?)
    && forall i :: n < i < |ancestors| ==> !ancestors[i].justified && ancestors[i].change.None?
  }

  /**
    Where a voter starts: best GRANDPA is the notified header. Under the genesis set it starts its session
    at block 1; otherwise at the last block that has a BEEFY justification, which is then final, or that
    announces a set; it fails exactly when there is no such block.
   */
  lemma InitializesExactly(finalized: Number, minDelta: U32, ancestors: seq<Ancestor>, active: ValidatorSet, n: nat)
    requires 0 < |ancestors| <= U32_LIMIT
    ensures
      var r := InitializeVoter(NewWorker(finalized, minDelta), ancestors, active);
      && (r.Some? ==>
            && r.value.bestGrandpa == |ancestors| - 1 && |r.value.sessions| == 1 && r.value.published == []
            && r.value.pendingVotes == map[] && r.value.pendingJustifications == map[])
      && (if active.id == 0 then
            && r.Some? && r.value.bestBeefy == None && r.value.sessions[0] == Rounds(map[], 1, active, false, None)
          else
            && (r.None? <==> forall i :: 0 <= i < |ancestors| ==> !LastAnchor(ancestors, i))
            && (LastAnchor(ancestors, n) ==>
                  && r.Some?
                  && (ancestors[n].justified ==>
                        r.value.bestBeefy == Some(n) && r.value.sessions[0] == Rounds(map[], n, active, true, Some(n)))
                  && (!ancestors[n].justified ==>
                        && r.value.bestBeefy == None
                        && r.value.sessions[0] == Rounds(map[], n, ancestors[n].change.value, false, None))))
  {
    if active.id != 0 {
      var found := WalkBack(ancestors, |ancestors| - 1);
      if found.Some? {
        assert LastAnchor(ancestors, found.value);
      }
    }
  }

  /** The safety of whole runs, from start-up on. */
  lemma VoterRunIsSafe(
      finalized: Number, minDelta: U32, ancestors: seq<Ancestor>, active: ValidatorSet, events: seq<BeefySafety.Event>)
    requires 0 < |ancestors| <= U32_LIMIT
    requires InitializeVoter(NewWorker(finalized, minDelta), ancestors, active).Some?
    requires active.id != GENESIS_AUTHORITY_SET_ID || |ancestors| >= 2
    requires var w := InitializeVoter(NewWorker(finalized, minDelta), ancestors, active).value;
             RunExpected(World(w, {w.sessions[0].sessionStart}), events)
    ensures var w := InitializeVoter(NewWorker(finalized, minDelta), ancestors, active).value;
            var end := Run(World(w, {w.sessions[0].sessionStart}), events);
            && (UpToDate(end.worker.sessions) || Lagging(end.worker.sessions) || end.worker.sessions == [])
            && PublishedOk(end.worker)
            && (forall n: Number :: IsPublished(end.worker, n) ==> n <= end.worker.bestGrandpa)
            && (forall s, n :: s in end.known && IsPublished(end.worker, n) && s < n ==>
                  IsPublished(end.worker, s) || w.bestBeefy == Some(s))
  {
    InitializeExact(finalized, minDelta, ancestors, active);
    var w := InitializeVoter(NewWorker(finalized, minDelta), ancestors, active).value;
    var world := World(w, {w.sessions[0].sessionStart});
    RunIsSafe(world, events, w.bestBeefy);
    RunKeeps(world, events, w.bestBeefy);
  }

  // ---- assembled proofs ----

  lemma VotesStayVerified(r: Rounds, round: Round, id: AuthorityId, signature: Signature, selfVote: bool, verify: Verifier)
    requires VotesVerify(r, verify)
    requires Counts(r, round, id) ==>
               verify(id, signature, Commitment(round.payload, round.number, r.validatorSet.id))
    ensures VotesVerify(AddVote(r, round, id, signature, selfVote), verify)
  {
  }

  /**
    A proof that `handle_vote` publishes is accepted by the set of the session it was counted in,
    provided each counted vote was signed over the commitment that names that set.
   */
  lemma PublishedProofIsAccepted(
      w: Worker, round: Round, id: AuthorityId, signature: Signature, selfVote: bool, verify: Verifier)
    requires w.sessions != [] && Valid(w.sessions[0]) && VotesVerify(w.sessions[0], verify)
    requires Counts(w.sessions[0], round, id) ==>
               verify(id, signature, Commitment(round.payload, round.number, w.sessions[0].validatorSet.id))
    ensures var w' := HandleVote(w, round, id, signature, selfVote);
            w'.published != w.published ==>
              && |w'.published| == |w.published| + 1
              && w'.published[..|w.published|] == w.published
              && Accepts(round.number, w.sessions[0].validatorSet, w'.published[|w.published|], verify)
  {
    if Counts(w.sessions[0], round, id) {
      var added := AddVote(w.sessions[0], round, id, signature, selfVote);
      AddVoteKeeps(w.sessions[0], round, id, signature, selfVote);
      VotesStayVerified(w.sessions[0], round, id, signature, selfVote, verify);
      if IsDone(added, round) {
        ConcludedProofIsAccepted(added, round, verify);
      }
    }
  }

  /**
    In general such a proof is accepted exactly when as many slots as the threshold belong to counted
    votes, the new one included, that verify over that commitment.
   */
  lemma PublishedProofExact(
      w: Worker, round: Round, id: AuthorityId, signature: Signature, selfVote: bool, verify: Verifier)
    requires w.sessions != [] && Valid(w.sessions[0])
    ensures var w' := HandleVote(w, round, id, signature, selfVote);
            var added := AddVote(w.sessions[0], round, id, signature, selfVote);
            w'.published != w.published ==>
              && |w'.published| == |w.published| + 1
              && w'.published[..|w.published|] == w.published
              && (Accepts(round.number, w.sessions[0].validatorSet, w'.published[|w.published|], verify) <==>
                  |GoodSlots(added, round, verify)| >= Threshold(|w.sessions[0].validatorSet.validators|))
  {
    if Counts(w.sessions[0], round, id) {
      var added := AddVote(w.sessions[0], round, id, signature, selfVote);
      AddVoteKeeps(w.sessions[0], round, id, signature, selfVote);
      if IsDone(added, round) {
        ConcludedProofExact(added, round, verify);
      }
    }
  }

  ghost predicate EventsVerify(events: seq<BeefyRounds.Event>, vs: ValidatorSet, verify: Verifier) {
    forall e :: e in events && e.Vote? ==>
      verify(e.id, e.signature, Commitment(e.round.payload, e.round.number, vs.id))
  }

  lemma {:induction false} SessionStaysVerified(
      s: Session, events: seq<BeefyRounds.Event>, vs: ValidatorSet, verify: Verifier)
    requires Valid(s.rounds) && s.rounds.validatorSet == vs && VotesVerify(s.rounds, verify)
    requires EventsVerify(events, vs, verify)
    ensures var s' := ApplyAll(s, events);
            Valid(s'.rounds) && s'.rounds.validatorSet == vs && VotesVerify(s'.rounds, verify)
    decreases |events|
  {
    if events != [] {
      var e := events[0];
      assert e in events;
      match e {
        case Vote(round, id, signature, selfVote) =>
          AddVoteKeeps(s.rounds, round, id, signature, selfVote);
          VotesStayVerified(s.rounds, round, id, signature, selfVote, verify);
        case TryRound(round) => TryConcludeKeeps(s.rounds, round);
        case Concluded(number) => ConcludeKeeps(s.rounds, number);
      }
      assert forall e' :: e' in events[1..] ==> e' in events;
      SessionStaysVerified(Apply(s, e), events[1..], vs, verify);
    }
  }

  /** In every run of a session over such votes, whatever round is done yields an accepted proof. */
  lemma SessionProofsAreAccepted(
      start: Number, vs: ValidatorSet, events: seq<BeefyRounds.Event>, round: Round, verify: Verifier)
    requires EventsVerify(events, vs, verify)
    requires IsDone(ApplyAll(Begin(start, vs), events).rounds, round)
    ensures Accepts(round.number, vs, ProofOf(ApplyAll(Begin(start, vs), events).rounds, round), verify)
  {
    SessionStaysVerified(Begin(start, vs), events, vs, verify);
    ConcludedProofIsAccepted(ApplyAll(Begin(start, vs), events).rounds, round, verify);
  }

  /** Without that proviso it fails: a vote signed for another set is counted and spoils the proof. */
  lemma ForeignSetIdSpoilsProof()
    ensures var vs := ValidatorSet([9], 2);
            var verify: Verifier := (id: AuthorityId, _: Signature, c: Commitment) => id == 9 && c.validatorSetId == 1;
            var w := Worker(8, None, map[], map[], [NewRounds(8, vs)], 1, []);
            var vote := VoteMessage(Commitment(3, 8, 1), 9, 4);
            var w' := TriageVote(w, vote);
            && Inv(w) && verify(vote.id, vote.signature, vote.commitment)
            && |w'.published| == 1 && !Accepts(8, vs, w'.published[0], verify)
  {
    var vs := ValidatorSet([9], 2);
    var verify: Verifier := (id: AuthorityId, _: Signature, c: Commitment) => id == 9 && c.validatorSetId == 1;
    var w := Worker(8, None, map[], map[], [NewRounds(8, vs)], 1, []);
    var round := Round(3, 8);
    var added := AddVote(w.sessions[0], round, 9, 4, false);
    assert added.rounds[round].votes == map[9 := 4];
    assert IsDone(added, round);
    var w' := TriageVote(w, VoteMessage(Commitment(3, 8, 1), 9, 4));
    assert w'.published == [ProofOf(added, round)];
    var proof := w'.published[0];
    assert ValidSignatures([9][1..], proof.signatures[1..], proof.commitment, verify) == 0;
    assert ValidSignatures([9], proof.signatures, proof.commitment, verify) == 0;
  }
}
