/**
  Where published proofs come from, over whole runs of the worker. Every vote is counted in the session
  whose validator set governs its block, so every published proof is a justification the worker was
  given or is assembled, for that set, from votes that were cast.
 */
module BeefyProvenance {
  import opened Common
  import opened BeefyTypes
  import opened BeefyRounds
  import opened BeefyAgreement
  import opened BeefyProof
  import opened BeefyWorkerModel
  import opened BeefySafety
  import opened BeefyReplay

  /** The validator set that governs each block of the chain. */
  type Sets = Number -> ValidatorSet

  /** The votes that anybody cast, and the justifications that the node was given. */
  type Cast = VoteMessage -> bool
  type Given = FinalityProof -> bool

  // ---- sessions and the chain ----

  /** Block `n` lies in session `i`: from its start up to the start of the next. */
  ghost predicate InSession(sessions: seq<Rounds>, i: nat, n: Number) {
    && i < |sessions| && sessions[i].sessionStart <= n
    && (i + 1 < |sessions| ==> n < sessions[i + 1].sessionStart)
  }

  /** Up to a block, each session votes with the set of its blocks. */
  ghost predicate Governs(sessions: seq<Rounds>, sets: Sets, upTo: Number) {
    forall i: nat, n: Number :: InSession(sessions, i, n) && n <= upTo ==> sets(n) == sessions[i].validatorSet
  }

  ghost predicate SameShape(a: seq<Rounds>, b: seq<Rounds>) {
    && |a| == |b|
    && forall i :: 0 <= i < |a| ==> a[i].sessionStart == b[i].sessionStart && a[i].validatorSet == b[i].validatorSet
  }

  lemma SameShapeGoverns(a: seq<Rounds>, b: seq<Rounds>, sets: Sets, upTo: Number)
    requires SameShape(a, b) && Governs(a, sets, upTo)
    ensures Governs(b, sets, upTo)
  {
    forall i: nat, n: Number | InSession(b, i, n) && n <= upTo
      ensures sets(n) == b[i].validatorSet
    {
      assert InSession(a, i, n);
    }
  }

  lemma TailGoverns(sessions: seq<Rounds>, sets: Sets, upTo: Number)
    requires sessions != [] && Governs(sessions, sets, upTo)
    ensures Governs(sessions[1..], sets, upTo)
  {
    forall i: nat, n: Number | InSession(sessions[1..], i, n) && n <= upTo
      ensures sets(n) == sessions[1..][i].validatorSet
    {
      assert InSession(sessions, i + 1, n);
    }
  }

  /** Whatever the worker accepts is governed by the set of the front session. */
  lemma FrontGoverns(w: Worker, sets: Sets, n: Number)
    requires Inv(w) && Acceptable(w, n) && Governs(w.sessions, sets, w.bestGrandpa)
    ensures sets(n) == w.sessions[0].validatorSet
  {
    assert InSession(w.sessions, 0, n);
  }

  // ---- new sessions ----

  ghost function ChangeAt(headers: seq<Header>, n: Number): Option<ValidatorSet> {
    if headers == [] then None
    else if headers[0].number == n then headers[0].change
    else ChangeAt(headers[1..], n)
  }

  /** The governing set changes exactly where a header announces it. */
  ghost predicate SetsFollow(sets: Sets, headers: seq<Header>, above: Number, last: Number) {
    forall n: Number :: above < n <= last ==> Follows(sets, headers, n)
  }

  ghost predicate Follows(sets: Sets, headers: seq<Header>, n: Number)
    requires n > 0
  {
    sets(n) == match ChangeAt(headers, n)
               case None => sets(n - 1)
               case Some(vs) => vs
  }

  ghost predicate StartsUpTo(sessions: seq<Rounds>, above: Number) {
    forall i :: 0 <= i < |sessions| ==> sessions[i].sessionStart <= above
  }

  lemma {:induction false} SetStays(sets: Sets, headers: seq<Header>, above: Number, last: Number)
    requires above <= last && SetsFollow(sets, headers, above, last)
    requires forall n: Number :: above < n <= last ==> ChangeAt(headers, n).None?
    ensures sets(last) == sets(above)
    decreases last
  {
    if above < last {
      assert Follows(sets, headers, last);
      SetStays(sets, headers, above, last - 1);
    }
  }

  /** While nothing is announced the last session goes on. */
  lemma QuietGoverns(sessions: seq<Rounds>, sets: Sets, headers: seq<Header>, above: Number, last: Number)
    requires above <= last && Governs(sessions, sets, above) && StartsUpTo(sessions, above)
    requires SetsFollow(sets, headers, above, last)
    requires forall n: Number :: above < n <= last ==> ChangeAt(headers, n).None?
    ensures Governs(sessions, sets, last)
  {
    forall i: nat, n: Number | InSession(sessions, i, n) && n <= last
      ensures sets(n) == sessions[i].validatorSet
    {
      if n > above {
        SetStays(sets, headers, above, n);
        assert InSession(sessions, i, above);
      }
    }
  }

  lemma {:induction false} NoChangeBelow(headers: seq<Header>, n: Number)
    requires forall i :: 0 <= i < |headers| ==> n < headers[i].number
    ensures ChangeAt(headers, n).None?
  {
    if headers != [] {
      NoChangeBelow(headers[1..], n);
    }
  }

  lemma RestFollows(sets: Sets, headers: seq<Header>, above: Number, last: Number)
    requires headers != [] && above < headers[0].number <= last && SetsFollow(sets, headers, above, last)
    ensures SetsFollow(sets, headers[1..], headers[0].number, last)
  {
    forall n: Number | headers[0].number < n <= last
      ensures Follows(sets, headers[1..], n)
    {
      assert Follows(sets, headers, n);
    }
  }

  /** A new session at its own block. */
  lemma AddedGoverns(sessions: seq<Rounds>, sets: Sets, start: Number, vs: ValidatorSet)
    requires start > 0 && QueueOk(sessions) && Governs(sessions, sets, start - 1) && StartsUpTo(sessions, start - 1)
    requires sets(start) == vs
    ensures
      var added := AddSession(sessions, NewRounds(start, vs));
      Governs(added, sets, start) && StartsUpTo(added, start)
  {
    var newest := NewRounds(start, vs);
    var added := AddSession(sessions, newest);
    AddSessionState(sessions, newest);
    var offset := |added| - 1;
    assert added[offset] == newest;
    forall i: nat, n: Number | InSession(added, i, n) && n <= start
      ensures sets(n) == added[i].validatorSet
    {
      if i < offset {
        assert added == sessions + [newest];
        assert InSession(sessions, i, n);
      }
    }
  }

  lemma {:induction false} InitSessionsGoverns(w: Worker, headers: seq<Header>, above: Number, sets: Sets)
    requires Inv(w) && AscendingAbove(headers, above, w.bestGrandpa) && above <= w.bestGrandpa
    requires w.bestBeefy.Some? ==> w.bestBeefy.value <= above
    requires StartsUpTo(w.sessions, above) && Governs(w.sessions, sets, above)
    requires SetsFollow(sets, headers, above, w.bestGrandpa)
    ensures Governs(InitSessions(w, headers).sessions, sets, w.bestGrandpa)
    decreases |headers|
  {
    if headers == [] {
      QuietGoverns(w.sessions, sets, headers, above, w.bestGrandpa);
    } else {
      var h, rest := headers[0], headers[1..];
      var next := InitSession(w, h);
      assert StartsBelow(w, headers);
      InitSessionKeeps(w, headers, above);
      forall n: Number | above < n <= h.number - 1
        ensures ChangeAt(headers, n).None?
      {
        NoChangeBelow(headers, n);
      }
      QuietGoverns(w.sessions, sets, headers, above, h.number - 1);
      assert Follows(sets, headers, h.number);
      if h.change.Some? {
        AddedGoverns(w.sessions, sets, h.number, h.change.value);
      } else {
        SilentHeaderGoverns(w.sessions, sets, headers, above);
      }
      RestFollows(sets, headers, above, w.bestGrandpa);
      InitSessionsGoverns(next, rest, h.number, sets);
    }
  }

  lemma SilentHeaderGoverns(sessions: seq<Rounds>, sets: Sets, headers: seq<Header>, above: Number)
    requires headers != [] && above < headers[0].number && headers[0].change.None?
    requires forall i :: 0 < i < |headers| ==> headers[0].number < headers[i].number
    requires Governs(sessions, sets, above) && StartsUpTo(sessions, above)
    requires SetsFollow(sets, headers, above, headers[0].number)
    ensures Governs(sessions, sets, headers[0].number)
  {
    forall n: Number | above < n <= headers[0].number
      ensures ChangeAt(headers, n).None?
    {
      if n < headers[0].number {
        NoChangeBelow(headers, n);
      }
    }
    QuietGoverns(sessions, sets, headers, above, headers[0].number);
  }

  // ---- where votes and proofs come from ----

  /** A vote with this signature was cast for the round, whatever validator set it names. */
  ghost predicate Origin(cast: Cast, round: Round, id: AuthorityId, signature: Signature) {
    exists setId: nat :: cast(VoteMessage(Commitment(round.payload, round.number, setId), id, signature))
  }

  ghost predicate SessionFrom(r: Rounds, cast: Cast) {
    forall round, id :: round in r.rounds && id in r.rounds[round].votes ==>
      Origin(cast, round, id, r.rounds[round].votes[id])
  }

  /** The keys whose slots are filled. */
  ghost function Voters(validators: seq<AuthorityId>, signatures: seq<Option<Signature>>): set<AuthorityId>
    requires |validators| == |signatures|
  {
    set i | 0 <= i < |validators| && signatures[i].Some? :: validators[i]
  }

  ghost predicate SlotFrom(
      cast: Cast, round: Round, validators: seq<AuthorityId>, signatures: seq<Option<Signature>>, i: nat)
    requires |validators| == |signatures| && i < |validators|
  {
    signatures[i].Some? ==> Origin(cast, round, validators[i], signatures[i].value)
  }

  /** Put together for a validator set from votes that were cast, by enough of its keys. */
  ghost predicate Assembled(proof: FinalityProof, vs: ValidatorSet, cast: Cast) {
    var round := Round(proof.commitment.payload, proof.commitment.blockNumber);
    && proof.commitment.validatorSetId == vs.id
    && |proof.signatures| == |vs.validators|
    && (forall i :: 0 <= i < |vs.validators| ==> SlotFrom(cast, round, vs.validators, proof.signatures, i))
    && |Voters(vs.validators, proof.signatures)| >= Threshold(|vs.validators|)
  }

  ghost predicate ProofSourced(proof: FinalityProof, sets: Sets, cast: Cast, given: Given) {
    given(proof) || Assembled(proof, sets(proof.commitment.blockNumber), cast)
  }

  ghost predicate BuffersFrom(w: Worker, cast: Cast, given: Given) {
    && (forall k :: k in w.pendingVotes ==> AllCast(w.pendingVotes[k], cast))
    && (forall k :: k in w.pendingJustifications ==> given(w.pendingJustifications[k]))
  }

  ghost predicate AllCast(votes: seq<VoteMessage>, cast: Cast) {
    forall i :: 0 <= i < |votes| ==> cast(votes[i])
  }

  ghost predicate SessionsFrom(sessions: seq<Rounds>, cast: Cast) {
    forall i :: 0 <= i < |sessions| ==> SessionFrom(sessions[i], cast)
  }

  ghost predicate AllSourced(published: seq<FinalityProof>, sets: Sets, cast: Cast, given: Given) {
    forall i :: 0 <= i < |published| ==> ProofSourced(published[i], sets, cast, given)
  }

  ghost predicate Sourced(w: Worker, sets: Sets, cast: Cast, given: Given) {
    && Governs(w.sessions, sets, w.bestGrandpa)
    && SessionsFrom(w.sessions, cast) && BuffersFrom(w, cast, given)
    && AllSourced(w.published, sets, cast, given)
  }

  // ---- finalizing and voting ----

  lemma FinalizeSourced(w: Worker, proof: FinalityProof, sets: Sets, cast: Cast, given: Given)
    requires Inv(w) && Acceptable(w, proof.commitment.blockNumber) && Sourced(w, sets, cast, given)
    requires ProofSourced(proof, sets, cast, given)
    ensures Sourced(Finalize(w, proof), sets, cast, given)
  {
    var w' := Finalize(w, proof);
    FinalizeSessions(w, proof);
    if w.sessions[0].mandatoryDone || |w.sessions| == 1 {
      SameShapeGoverns(w.sessions, w'.sessions, sets, w.bestGrandpa);
    } else {
      TailGoverns(w.sessions, sets, w.bestGrandpa);
    }
  }

  lemma AddedVoteFrom(r: Rounds, round: Round, id: AuthorityId, signature: Signature, selfVote: bool, cast: Cast)
    requires SessionFrom(r, cast) && (Counts(r, round, id) ==> Origin(cast, round, id, signature))
    ensures SessionFrom(AddVote(r, round, id, signature, selfVote), cast)
  {
  }

  lemma DoneProofIsAssembled(r: Rounds, round: Round, cast: Cast)
    requires Valid(r) && SessionFrom(r, cast) && IsDone(r, round)
    ensures Assembled(ProofOf(r, round), r.validatorSet, cast)
  {
    var validators, votes := r.validatorSet.validators, r.rounds[round].votes;
    var signatures := Collect(validators, votes);
    assert TrackerOk(r, round);
    forall id | id in votes
      ensures id in Voters(validators, signatures)
    {
      var i :| 0 <= i < |validators| && validators[i] == id;
      assert signatures[i].Some?;
    }
    assert Voters(validators, signatures) == votes.Keys;
  }

  /** The front session with the vote counted, before anything is concluded. */
  lemma CountedVoteSourced(w: Worker, added: Rounds, sets: Sets, cast: Cast, given: Given)
    requires w.sessions != [] && Sourced(w, sets, cast, given) && SessionFrom(added, cast)
    requires added.sessionStart == w.sessions[0].sessionStart && added.validatorSet == w.sessions[0].validatorSet
    ensures Sourced(w.(sessions := w.sessions[0 := added]), sets, cast, given)
  {
    SameShapeGoverns(w.sessions, w.sessions[0 := added], sets, w.bestGrandpa);
  }

  lemma HandleVoteSourced(
      w: Worker, round: Round, id: AuthorityId, signature: Signature, selfVote: bool, sets: Sets, cast: Cast, given: Given)
    requires Inv(w) && w.sessions != [] && round.number <= AcceptedEnd(w) && Sourced(w, sets, cast, given)
    requires Counts(w.sessions[0], round, id) ==> Origin(cast, round, id, signature)
    ensures Sourced(HandleVote(w, round, id, signature, selfVote), sets, cast, given)
  {
    if Counts(w.sessions[0], round, id) {
      var added := AddVote(w.sessions[0], round, id, signature, selfVote);
      AddVoteKeeps(w.sessions[0], round, id, signature, selfVote);
      AddedVoteFrom(w.sessions[0], round, id, signature, selfVote, cast);
      CountedVoteSourced(w, added, sets, cast, given);
      if IsDone(added, round) {
        HandleVoteFinalizes(w, round, id, signature, selfVote);
        DoneVoteSourced(w, added, round, sets, cast, given);
      }
    }
  }

  lemma DoneVoteSourced(w: Worker, added: Rounds, round: Round, sets: Sets, cast: Cast, given: Given)
    requires Inv(w) && w.sessions != [] && SameFront(w, added) && SessionFrom(added, cast) && IsDone(added, round)
    requires Acceptable(w, round.number) && Sourced(w.(sessions := w.sessions[0 := added]), sets, cast, given)
    ensures Sourced(Finalize(w.(sessions := w.sessions[0 := added]), ProofOf(added, round)), sets, cast, given)
  {
    var w1 := w.(sessions := w.sessions[0 := added]);
    ReplaceFront(w, added);
    DoneProofIsAssembled(added, round, cast);
    FrontGoverns(w1, sets, round.number);
    FinalizeSourced(w1, ProofOf(added, round), sets, cast, given);
  }

  lemma HandleSourced(w: Worker, vote: VoteMessage, sets: Sets, cast: Cast, given: Given)
    requires Inv(w) && w.sessions != [] && vote.commitment.blockNumber <= AcceptedEnd(w)
    requires Sourced(w, sets, cast, given) && cast(vote)
    ensures Sourced(Handle(w, vote), sets, cast, given)
  {
    var round := Round(vote.commitment.payload, vote.commitment.blockNumber);
    assert vote == VoteMessage(
      Commitment(round.payload, round.number, vote.commitment.validatorSetId), vote.id, vote.signature);
    HandleVoteSourced(w, round, vote.id, vote.signature, false, sets, cast, given);
  }

  // ---- buffered items ----

  lemma {:induction false} FinalizeAllSourced(
      w: Worker, due: map<Number, FinalityProof>, sets: Sets, cast: Cast, given: Given)
    requires Inv(w) && w.sessions != [] && Sourced(w, sets, cast, given)
    requires forall k :: k in due ==> due[k].commitment.blockNumber == k && Acceptable(w, k) && given(due[k])
    ensures Sourced(FinalizeAll(w, due), sets, cast, given)
    decreases |due|
  {
    if due != map[] {
      var k := LeastKey(due);
      var next, rest := Finalize(w, due[k]), due - {k};
      FinalizeKeeps(w, due[k]);
      FinalizeSessions(w, due[k]);
      FinalizeSourced(w, due[k], sets, cast, given);
      assert rest.Keys == due.Keys - {k};
      if Lagging(w.sessions) {
        assert forall j :: j in due ==> j == k;
        assert rest == map[];
      }
      FinalizeAllSourced(next, rest, sets, cast, given);
    }
  }

  lemma {:induction false} HandleVotesSourced(
      w: Worker, votes: seq<VoteMessage>, number: Number, sets: Sets, cast: Cast, given: Given)
    requires Inv(w) && w.sessions != [] && VotesFor(votes, number) && number <= AcceptedEnd(w)
    requires Sourced(w, sets, cast, given) && AllCast(votes, cast)
    ensures Sourced(HandleVotes(w, votes), sets, cast, given)
    decreases |votes|
  {
    if votes != [] {
      var v := votes[0];
      HandleVoteKeeps(w, Round(v.commitment.payload, number), v.id, v.signature, false);
      HandleSourced(w, v, sets, cast, given);
      HandleVotesSourced(Handle(w, v), votes[1..], number, sets, cast, given);
    }
  }

  lemma {:induction false} HandleAllSourced(
      w: Worker, due: map<Number, seq<VoteMessage>>, sets: Sets, cast: Cast, given: Given)
    requires Inv(w) && w.sessions != [] && Sourced(w, sets, cast, given)
    requires forall k :: k in due ==> VotesFor(due[k], k) && k <= AcceptedEnd(w) && AllCast(due[k], cast)
    ensures Sourced(HandleAll(w, due), sets, cast, given)
    decreases |due|
  {
    if due != map[] {
      var k := LeastKey(due);
      var next, rest := HandleVotes(w, due[k]), due - {k};
      HandleVotesKeeps(w, due[k], k);
      HandleVotesSourced(w, due[k], k, sets, cast, given);
      assert rest.Keys == due.Keys - {k};
      HandleAllSourced(next, rest, sets, cast, given);
    }
  }

  lemma ReplayJustificationsSourced(w: Worker, sets: Sets, cast: Cast, given: Given)
    requires Inv(w) && Sourced(w, sets, cast, given)
    ensures Sourced(ReplayJustifications(w), sets, cast, given)
  {
    if w.sessions != [] && w.pendingJustifications != map[] {
      var (start, end) := AcceptedInterval(w).value;
      var kept := w.(pendingJustifications := StillPending(w.pendingJustifications, end));
      assert Inv(kept);
      assert Sourced(kept, sets, cast, given);
      FinalizeAllSourced(kept, ToHandle(w.pendingJustifications, start, end), sets, cast, given);
    }
  }

  lemma ReplayVotesSourced(w: Worker, sets: Sets, cast: Cast, given: Given)
    requires Inv(w) && Sourced(w, sets, cast, given)
    ensures Sourced(ReplayVotes(w), sets, cast, given)
  {
    if w.sessions != [] && w.pendingVotes != map[] {
      var (start, end) := AcceptedInterval(w).value;
      var kept := w.(pendingVotes := StillPending(w.pendingVotes, end));
      assert Inv(kept);
      assert Sourced(kept, sets, cast, given);
      HandleAllSourced(kept, ToHandle(w.pendingVotes, start, end), sets, cast, given);
    }
  }

  // ---- steps and runs ----

  /** Votes were cast, justifications given, and announcements agree with the chain. */
  ghost predicate EventSourced(w: Worker, e: BeefySafety.Event, sets: Sets, cast: Cast, given: Given) {
    match e
    case Finality(route, header) =>
      header.number > w.bestGrandpa ==> SetsFollow(sets, route + [header], w.bestGrandpa, header.number)
    case IncomingVote(vote) => cast(vote)
    case IncomingJustification(proof) => given(proof)
    case ReplayPending => true
    case LocalVote(ballot) => BallotCast(w, ballot, cast)
  }

  /** The local vote names the set of the front session. */
  ghost predicate BallotCast(w: Worker, ballot: Ballot, cast: Cast) {
    var target := VotingTarget(w);
    target.Some? && ballot.payload.Some? && ballot.id.Some? && ballot.signature.Some? ==>
      cast(VoteMessage(
        Commitment(ballot.payload.value, target.value, w.sessions[0].validatorSet.id),
        ballot.id.value, ballot.signature.value))
  }

  lemma FinalitySourced(w: Worker, route: seq<Header>, header: Header, sets: Sets, cast: Cast, given: Given)
    requires Inv(w) && Sourced(w, sets, cast, given) && header.number > w.bestGrandpa
    requires AscendingAbove(route + [header], w.bestGrandpa, header.number)
    requires SetsFollow(sets, route + [header], w.bestGrandpa, header.number)
    ensures Sourced(HandleFinality(w, route, header), sets, cast, given)
  {
    var moved := w.(bestGrandpa := header.number);
    InitSessionsGoverns(moved, route + [header], w.bestGrandpa, sets);
    InitSessionsFrom(moved, route + [header], cast);
  }

  lemma {:induction false} InitSessionsFrom(w: Worker, headers: seq<Header>, cast: Cast)
    requires SessionsFrom(w.sessions, cast)
    ensures
      var w' := InitSessions(w, headers);
      && SessionsFrom(w'.sessions, cast)
      && w'.pendingVotes == w.pendingVotes && w'.pendingJustifications == w.pendingJustifications
      && w'.published == w.published && w'.bestGrandpa == w.bestGrandpa
    decreases |headers|
  {
    if headers != [] {
      if headers[0].change.Some? {
        UnfinishedFrom(w.sessions + [NewRounds(headers[0].number, headers[0].change.value)], cast);
      }
      InitSessionsFrom(InitSession(w, headers[0]), headers[1..], cast);
    }
  }

  lemma {:induction false} UnfinishedFrom(sessions: seq<Rounds>, cast: Cast)
    requires SessionsFrom(sessions, cast)
    ensures SessionsFrom(Unfinished(sessions), cast)
  {
    if sessions != [] {
      UnfinishedFrom(sessions[1..], cast);
    }
  }

  lemma TryToVoteSourced(w: Worker, ballot: Ballot, sets: Sets, cast: Cast, given: Given)
    requires Inv(w) && Sourced(w, sets, cast, given) && BallotCast(w, ballot, cast)
    ensures Sourced(TryToVote(w, ballot), sets, cast, given)
  {
    var target := VotingTarget(w);
    if target.Some? && TryToVote(w, ballot) != w {
      var round := Round(ballot.payload.value, target.value);
      assert Origin(cast, round, ballot.id.value, ballot.signature.value);
      TargetIsAcceptable(w, target.value);
      HandleVoteSourced(w, round, ballot.id.value, ballot.signature.value, true, sets, cast, given);
    }
  }

  lemma TargetIsAcceptable(w: Worker, target: Number)
    requires Inv(w) && VotingTarget(w) == Some(target)
    ensures w.sessions != [] && target <= AcceptedEnd(w)
  {
  }

  lemma StepSourced(w: Worker, e: BeefySafety.Event, sets: Sets, cast: Cast, given: Given)
    requires Inv(w) && Expected(w, e) && Sourced(w, sets, cast, given) && EventSourced(w, e, sets, cast, given)
    ensures Sourced(Step(w, e), sets, cast, given)
  {
    match e
    case Finality(route, header) =>
      if header.number > w.bestGrandpa {
        FinalitySourced(w, route, header, sets, cast, given);
      }
    case IncomingVote(vote) =>
      if TriageRound(w, vote.commitment.blockNumber) == Some(Process) {
        HandleSourced(w, vote, sets, cast, given);
      }
    case IncomingJustification(proof) =>
      if TriageRound(w, proof.commitment.blockNumber) == Some(Process) {
        FinalizeSourced(w, proof, sets, cast, given);
      }
    case ReplayPending =>
      ReplayJustificationsKeeps(w);
      ReplayJustificationsSourced(w, sets, cast, given);
      ReplayVotesSourced(ReplayJustifications(w), sets, cast, given);
    case LocalVote(ballot) => TryToVoteSourced(w, ballot, sets, cast, given);
  }

  ghost predicate RunSourced(world: World, events: seq<BeefySafety.Event>, sets: Sets, cast: Cast, given: Given)
    decreases |events|
  {
    events != [] ==>
      && EventSourced(world.worker, events[0], sets, cast, given)
      && RunSourced(Next(world, events[0]), events[1..], sets, cast, given)
  }

  lemma {:induction false} RunStaysSourced(
      world: World, events: seq<BeefySafety.Event>, sets: Sets, cast: Cast, given: Given)
    requires Inv(world.worker) && RunExpected(world, events)
    requires Sourced(world.worker, sets, cast, given) && RunSourced(world, events, sets, cast, given)
    ensures Sourced(Run(world, events).worker, sets, cast, given)
    decreases |events|
  {
    if events != [] {
      StepKeeps(world.worker, events[0]);
      StepSourced(world.worker, events[0], sets, cast, given);
      RunStaysSourced(Next(world, events[0]), events[1..], sets, cast, given);
    }
  }

  // ---- acceptance ----

  /** A cast signature verifies over exactly the commitments it was cast for. */
  ghost predicate SignaturesMean(cast: Cast, verify: Verifier) {
    forall v: VoteMessage, c: Commitment :: cast(v) ==>
      (verify(v.id, v.signature, c) <==> cast(VoteMessage(c, v.id, v.signature)))
  }

  /** The filled slots that hold votes for the proof's very commitment, validator set included. */
  ghost function NamingSlots(proof: FinalityProof, vs: ValidatorSet, cast: Cast): set<nat>
    requires |proof.signatures| == |vs.validators|
  {
    set i | 0 <= i < |vs.validators| && proof.signatures[i].Some?
            && cast(VoteMessage(proof.commitment, vs.validators[i], proof.signatures[i].value))
  }

  /** The keys of those slots. */
  ghost function NamingVoters(proof: FinalityProof, vs: ValidatorSet, cast: Cast): set<AuthorityId>
    requires |proof.signatures| == |vs.validators|
  {
    set i | i in NamingSlots(proof, vs, cast) :: vs.validators[i]
  }

  lemma {:induction false} SignersFillSlots(
      validators: seq<AuthorityId>, signatures: seq<Option<Signature>>, c: Commitment, verify: Verifier)
    requires |validators| == |signatures|
    ensures |Signers(validators, signatures, c, verify)| <= ValidSignatures(validators, signatures, c, verify)
  {
    if validators == [] {
      assert Signers(validators, signatures, c, verify) == {};
    } else {
      SignersFillSlots(validators[1..], signatures[1..], c, verify);
      SignersCons(validators, signatures, c, verify);
    }
  }

  lemma NamingVotersSign(proof: FinalityProof, vs: ValidatorSet, cast: Cast, verify: Verifier)
    requires Assembled(proof, vs, cast) && SignaturesMean(cast, verify)
    ensures NamingVoters(proof, vs, cast) == Signers(vs.validators, proof.signatures, proof.commitment, verify)
    ensures NamingSlots(proof, vs, cast) == ValidSlots(vs.validators, proof.signatures, proof.commitment, verify, 0)
  {
    var round := Round(proof.commitment.payload, proof.commitment.blockNumber);
    forall i | 0 <= i < |vs.validators| && proof.signatures[i].Some?
      ensures verify(vs.validators[i], proof.signatures[i].value, proof.commitment) <==>
              cast(VoteMessage(proof.commitment, vs.validators[i], proof.signatures[i].value))
    {
      assert SlotFrom(cast, round, vs.validators, proof.signatures, i);
      var setId: nat :| cast(VoteMessage(
        Commitment(round.payload, round.number, setId), vs.validators[i], proof.signatures[i].value));
    }
  }

  /** An assembled proof is accepted exactly when enough of its votes name the validator set. */
  lemma AssembledExact(proof: FinalityProof, vs: ValidatorSet, cast: Cast, verify: Verifier)
    requires Assembled(proof, vs, cast) && SignaturesMean(cast, verify)
    ensures Accepts(proof.commitment.blockNumber, vs, proof, verify) <==>
            |NamingSlots(proof, vs, cast)| >= Threshold(|vs.validators|)
    ensures Distinct(vs.validators) ==> |NamingSlots(proof, vs, cast)| == |NamingVoters(proof, vs, cast)|
  {
    NamingVotersSign(proof, vs, cast, verify);
    AcceptsExactly(proof.commitment.blockNumber, vs, proof, verify);
  }

  /** Every vote names the set that governs its block. */
  ghost predicate VotesName(cast: Cast, sets: Sets) {
    forall v: VoteMessage :: cast(v) ==> v.commitment.validatorSetId == sets(v.commitment.blockNumber).id
  }

  /** When all votes do, it is accepted, even if the set repeats a key. */
  lemma AssembledAccepted(proof: FinalityProof, sets: Sets, cast: Cast, verify: Verifier)
    requires Assembled(proof, sets(proof.commitment.blockNumber), cast)
    requires SignaturesMean(cast, verify) && VotesName(cast, sets)
    ensures Accepts(proof.commitment.blockNumber, sets(proof.commitment.blockNumber), proof, verify)
  {
    var vs := sets(proof.commitment.blockNumber);
    var round := Round(proof.commitment.payload, proof.commitment.blockNumber);
    NamingVotersSign(proof, vs, cast, verify);
    SignersFillSlots(vs.validators, proof.signatures, proof.commitment, verify);
    forall i | 0 <= i < |vs.validators| && proof.signatures[i].Some?
      ensures cast(VoteMessage(proof.commitment, vs.validators[i], proof.signatures[i].value))
    {
      assert SlotFrom(cast, round, vs.validators, proof.signatures, i);
      var setId: nat :| cast(VoteMessage(
        Commitment(round.payload, round.number, setId), vs.validators[i], proof.signatures[i].value));
      assert Commitment(round.payload, round.number, setId) == proof.commitment;
    }
    assert NamingVoters(proof, vs, cast) == Voters(vs.validators, proof.signatures);
  }

  // ---- whole runs from start-up ----

  /** The governing set changes exactly where a block announces it, and only the first set is the genesis set. */
  ghost predicate SetAt(sets: Sets, ancestors: seq<Ancestor>, n: Number)
    requires n < |ancestors|
  {
    match ancestors[n].change
    case None => n > 0 ==> sets(n) == sets(n - 1)
    case Some(vs) => sets(n) == vs && (n > 0 ==> vs.id != GENESIS_AUTHORITY_SET_ID)
  }

  /** The chain a voter is initialized on: the sets up to its last block, and the set active there. */
  ghost predicate ChainSets(sets: Sets, ancestors: seq<Ancestor>, active: ValidatorSet)
    requires 0 < |ancestors| <= U32_LIMIT
  {
    sets(|ancestors| - 1) == active && forall n: Number :: n < |ancestors| ==> SetAt(sets, ancestors, n)
  }

  /** An initialized voter and the chain it is on. */
  ghost predicate Started(
      w: Worker, finalized: Number, minDelta: U32, ancestors: seq<Ancestor>, active: ValidatorSet, sets: Sets)
  {
    && 0 < |ancestors| <= U32_LIMIT && (active.id != GENESIS_AUTHORITY_SET_ID || |ancestors| >= 2)
    && InitializeVoter(NewWorker(finalized, minDelta), ancestors, active) == Some(w)
    && ChainSets(sets, ancestors, active)
  }

  /** Above the last announcement the active set governs. */
  lemma {:induction false} ActiveGoverns(sets: Sets, ancestors: seq<Ancestor>, active: ValidatorSet, n: Number)
    requires 0 < |ancestors| <= U32_LIMIT && ChainSets(sets, ancestors, active) && n < |ancestors|
    requires forall i :: n < i < |ancestors| ==> ancestors[i].change.None?
    ensures sets(n) == active
    decreases |ancestors| - n
  {
    if n + 1 < |ancestors| {
      ActiveGoverns(sets, ancestors, active, n + 1);
      assert SetAt(sets, ancestors, n + 1);
    }
  }

  /** Under the genesis set nothing was announced. */
  lemma {:induction false} GenesisGoverns(sets: Sets, ancestors: seq<Ancestor>, active: ValidatorSet, n: Number)
    requires 0 < |ancestors| <= U32_LIMIT && ChainSets(sets, ancestors, active) && n < |ancestors|
    requires active.id == GENESIS_AUTHORITY_SET_ID
    ensures sets(n) == active && forall i :: n < i < |ancestors| ==> ancestors[i].change.None?
    decreases |ancestors| - n
  {
    if n + 1 < |ancestors| {
      GenesisGoverns(sets, ancestors, active, n + 1);
      assert SetAt(sets, ancestors, n + 1);
    }
  }

  /** The session a voter starts with votes with the set of its blocks. */
  lemma StartGoverns(
      w: Worker, finalized: Number, minDelta: U32, ancestors: seq<Ancestor>, active: ValidatorSet, sets: Sets)
    requires Started(w, finalized, minDelta, ancestors, active, sets)
    ensures Governs(w.sessions, sets, w.bestGrandpa)
  {
    forall i: nat, n: Number | InSession(w.sessions, i, n) && n <= w.bestGrandpa
      ensures sets(n) == w.sessions[i].validatorSet
    {
      if active.id == GENESIS_AUTHORITY_SET_ID {
        GenesisGoverns(sets, ancestors, active, n);
      } else {
        var anchor := WalkBack(ancestors, |ancestors| - 1).value;
        assert forall j :: anchor < j < |ancestors| ==> !Anchor(ancestors[j]);
        ActiveGoverns(sets, ancestors, active, n);
        ActiveGoverns(sets, ancestors, active, anchor);
        assert SetAt(sets, ancestors, anchor);
      }
    }
  }

  lemma StartIsSourced(
      w: Worker, finalized: Number, minDelta: U32, ancestors: seq<Ancestor>, active: ValidatorSet, sets: Sets,
      cast: Cast, given: Given)
    requires Started(w, finalized, minDelta, ancestors, active, sets)
    ensures Inv(w) && Sourced(w, sets, cast, given) && w.published == []
  {
    InitializeExact(finalized, minDelta, ancestors, active);
    StartGoverns(w, finalized, minDelta, ancestors, active, sets);
  }

  /**
    Over every run from start-up, with justifications that were verified when given, a published proof
    is accepted by the set that governs its block exactly when it is such a justification, or when votes
    that name that set fill as many slots as the threshold.
   */
  lemma RunProofsExact(
      w: Worker, finalized: Number, minDelta: U32, ancestors: seq<Ancestor>, active: ValidatorSet,
      events: seq<BeefySafety.Event>, sets: Sets, cast: Cast, given: Given, verify: Verifier, i: nat)
    requires Started(w, finalized, minDelta, ancestors, active, sets)
    requires
      var world := World(w, {w.sessions[0].sessionStart});
      && RunExpected(world, events) && RunSourced(world, events, sets, cast, given)
      && i < |Run(world, events).worker.published|
    requires SignaturesMean(cast, verify)
    requires forall p: FinalityProof :: given(p) ==>
               Accepts(p.commitment.blockNumber, sets(p.commitment.blockNumber), p, verify)
    ensures
      var proof := Run(World(w, {w.sessions[0].sessionStart}), events).worker.published[i];
      var vs := sets(proof.commitment.blockNumber);
      && |proof.signatures| == |vs.validators|
      && (Accepts(proof.commitment.blockNumber, vs, proof, verify) <==>
          given(proof) || |NamingSlots(proof, vs, cast)| >= Threshold(|vs.validators|))
  {
    var world := World(w, {w.sessions[0].sessionStart});
    StartIsSourced(w, finalized, minDelta, ancestors, active, sets, cast, given);
    RunStaysSourced(world, events, sets, cast, given);
    var proof := Run(world, events).worker.published[i];
    assert ProofSourced(proof, sets, cast, given);
    if !given(proof) {
      AssembledExact(proof, sets(proof.commitment.blockNumber), cast, verify);
    }
  }

  /** Hence, when every vote names the set that governs its block, every published proof is accepted. */
  lemma RunProofsAreAccepted(
      w: Worker, finalized: Number, minDelta: U32, ancestors: seq<Ancestor>, active: ValidatorSet,
      events: seq<BeefySafety.Event>, sets: Sets, cast: Cast, given: Given, verify: Verifier, i: nat)
    requires Started(w, finalized, minDelta, ancestors, active, sets)
    requires
      var world := World(w, {w.sessions[0].sessionStart});
      && RunExpected(world, events) && RunSourced(world, events, sets, cast, given)
      && i < |Run(world, events).worker.published|
    requires SignaturesMean(cast, verify) && VotesName(cast, sets)
    requires forall p: FinalityProof :: given(p) ==>
               Accepts(p.commitment.blockNumber, sets(p.commitment.blockNumber), p, verify)
    ensures
      var proof := Run(World(w, {w.sessions[0].sessionStart}), events).worker.published[i];
      Accepts(proof.commitment.blockNumber, sets(proof.commitment.blockNumber), proof, verify)
  {
    var world := World(w, {w.sessions[0].sessionStart});
    StartIsSourced(w, finalized, minDelta, ancestors, active, sets, cast, given);
    RunStaysSourced(world, events, sets, cast, given);
    var proof := Run(world, events).worker.published[i];
    assert ProofSourced(proof, sets, cast, given);
    if !given(proof) {
      AssembledAccepted(proof, sets, cast, verify);
    }
  }
}
