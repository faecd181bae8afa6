/** The BEEFY voter as it runs: objects with mutable fields, proved against the step system. */
module BeefyWorker {
  import opened Common
  import opened BeefyTypes
  import opened BeefyRounds
  import opened BeefyTarget
  import opened BeefyWorkerModel

  class VotingRounds {
    var rounds: map<Round, RoundTracker>
    const sessionStart: Number
    const validatorSet: ValidatorSet
    var mandatoryDone: bool
    var bestDone: Option<Number>

    ghost function View(): Rounds
      reads this
    {
      Rounds(rounds, sessionStart, validatorSet, mandatoryDone, bestDone)
    }

    constructor (sessionStart: Number, validatorSet: ValidatorSet)
      ensures View() == NewRounds(sessionStart, validatorSet)
    {
      this.rounds := map[];
      this.sessionStart := sessionStart;
      this.validatorSet := validatorSet;
      this.mandatoryDone := false;
      this.bestDone := None;
    }

    method ShouldSelfVote(round: Round) returns (r: bool)
      ensures r == BeefyRounds.ShouldSelfVote(View(), round)
    {
      r := !AtMost(round.number, bestDone) && !(round in rounds && rounds[round].selfVote);
    }

    method AddVote(round: Round, id: AuthorityId, signature: Signature, selfVote: bool) returns (counted: bool)
      modifies this`rounds
      ensures counted == Counts(old(View()), round, id)
      ensures View() == BeefyRounds.AddVote(old(View()), round, id, signature, selfVote)
    {
      if round.number < sessionStart || AtMost(round.number, bestDone) {
        return false;
      }
      if id !in validatorSet.validators {
        return false;
      }
      var tracker := if round in rounds then rounds[round] else RoundTracker(false, map[]);
      if id in tracker.votes {
        return false;
      }
      tracker := RoundTracker(tracker.selfVote || selfVote, tracker.votes[id := signature]);
      rounds := rounds[round := tracker];
      return true;
    }

    method Conclude(number: Number)
      modifies this
      ensures View() == BeefyRounds.Conclude(old(View()), number)
    {
      rounds := map k | k in rounds && k.number > number :: rounds[k];
      mandatoryDone := mandatoryDone || number == sessionStart;
      if !AtMost(number, bestDone) {
        bestDone := Some(number);
      }
    }

    method TryConclude(round: Round) returns (signatures: Option<seq<Option<Signature>>>)
      modifies this
      ensures (View(), signatures) == BeefyRounds.TryConclude(old(View()), round)
    {
      if round !in rounds || |rounds[round].votes| < Threshold(|validatorSet.validators|) {
        return None;
      }
      var votes := rounds[round].votes;
      rounds := rounds - {round};
      Conclude(round.number);
      var collected: seq<Option<Signature>> := [];
      var validators := validatorSet.validators;
      for i := 0 to |validators|
        invariant collected == Collect(validators, votes)[..i]
      {
        var signature := if validators[i] in votes then Some(votes[validators[i]]) else None;
        assert Collect(validators, votes)[i] == signature;
        collected := collected + [signature];
      }
      assert Collect(validators, votes)[..|validators|] == Collect(validators, votes);
      return Some(collected);
    }
  }

  /** What the objects of a queue stand for. */
  ghost function Views(sessions: seq<VotingRounds>): (v: seq<Rounds>)
    reads sessions
    ensures |v| == |sessions|
  {
    seq(|sessions|, i requires 0 <= i < |sessions| reads sessions => sessions[i].View())
  }

  ghost predicate NoAlias(sessions: seq<VotingRounds>) {
    forall i, j :: 0 <= i < j < |sessions| ==> sessions[i] != sessions[j]
  }

  lemma {:induction false} UnfinishedSnoc(sessions: seq<Rounds>, last: Rounds)
    ensures Unfinished(sessions + [last]) ==
              Unfinished(sessions) + if last.mandatoryDone then [] else [last]
  {
    var all := sessions + [last];
    if sessions == [] {
      assert all[1..] == [];
    } else {
      UnfinishedSnoc(sessions[1..], last);
      assert all[1..] == sessions[1..] + [last];
    }
  }

  /** The sessions whose mandatory block is not done, in order. */
  method RetainUnfinished(queue: seq<VotingRounds>) returns (kept: seq<VotingRounds>)
    requires NoAlias(queue)
    ensures Views(kept) == Unfinished(Views(queue)) && NoAlias(kept)
    ensures forall j :: 0 <= j < |kept| ==> kept[j] in queue
  {
    kept := [];
    ghost var all := Views(queue);
    for i := 0 to |queue|
      invariant Views(kept) == Unfinished(all[..i])
      invariant NoAlias(kept)
      invariant forall j :: 0 <= j < |kept| ==> kept[j] in queue[..i]
    {
      UnfinishedSnoc(all[..i], all[i]);
      assert all[..i + 1] == all[..i] + [all[i]];
      assert forall s :: s in queue[..i] ==> s in queue[..i + 1] && s != queue[i];
      if !queue[i].mandatoryDone {
        assert Views(kept + [queue[i]]) == Views(kept) + [all[i]];
        kept := kept + [queue[i]];
      }
    }
    assert all[..|queue|] == all;
  }

  class Worker {
    var bestGrandpa: Number
    var bestBeefy: Option<Number>
    var pendingVotes: map<Number, seq<VoteMessage>>
    var pendingJustifications: map<Number, FinalityProof>
    var sessions: seq<VotingRounds>
    const minBlockDelta: U32
    var published: seq<FinalityProof>

    ghost predicate Owned()
      reads this
    {
      NoAlias(sessions)
    }

    ghost function View(): BeefyWorkerModel.Worker
      reads this, sessions
    {
      BeefyWorkerModel.Worker(
        bestGrandpa, bestBeefy, pendingVotes, pendingJustifications, Views(sessions), minBlockDelta, published)
    }

    /** The queue holds only session objects it held before. */
    twostate predicate FromOld()
      reads this
    {
      forall i :: 0 <= i < |sessions| ==> sessions[i] in old(sessions)
    }

    twostate predicate FromOldOrNew()
      reads this
    {
      forall i :: 0 <= i < |sessions| ==> sessions[i] in old(sessions) || fresh(sessions[i])
    }

    constructor (finalized: Number, minBlockDelta: U32)
      ensures Owned() && sessions == []
      ensures View() == NewWorker(finalized, minBlockDelta)
    {
      bestGrandpa := finalized;
      bestBeefy := None;
      pendingVotes := map[];
      pendingJustifications := map[];
      sessions := [];
      this.minBlockDelta := if minBlockDelta >= 1 then minBlockDelta else 1;
      published := [];
    }

    /** Keeps the oracle in one of its three states; no session object changes. */
    method TryPrune()
      requires Owned()
      modifies this`sessions
      ensures Owned() && FromOld()
      ensures View() == old(View()).(sessions := Pruned(old(View()).sessions))
    {
      if |sessions| > 1 {
        sessions := RetainUnfinished(sessions);
      }
    }

    method InitSessionAt(validatorSet: ValidatorSet, newSessionStart: Number)
      requires Owned()
      modifies this`sessions
      ensures Owned() && FromOldOrNew()
      ensures View() == old(View()).(
                sessions := AddSession(old(View()).sessions, NewRounds(newSessionStart, validatorSet)))
    {
      ghost var before := Views(sessions);
      var rounds := new VotingRounds(newSessionStart, validatorSet);
      sessions := sessions + [rounds];
      assert Views(sessions) == before + [NewRounds(newSessionStart, validatorSet)];
      TryPrune();
    }

    method HandleFinalityNotification(route: seq<Header>, header: Header)
      requires Owned()
      modifies this
      ensures Owned() && FromOldOrNew()
      ensures View() == HandleFinality(old(View()), route, header)
    {
      if header.number > bestGrandpa {
        bestGrandpa := header.number;
        ghost var start := View();
        var headers := route + [header];
        for i := 0 to |headers|
          invariant Owned() && FromOldOrNew()
          invariant InitSessions(start, headers) == InitSessions(View(), headers[i..])
        {
          assert headers[i..][1..] == headers[i + 1..];
          if headers[i].change.Some? {
            InitSessionAt(headers[i].change.value, headers[i].number);
          }
        }
      }
    }

    /** Concludes the block in the front session, prunes, and publishes a better proof. */
    method Finalize(proof: FinalityProof) returns (initialized: bool)
      requires Owned()
      modifies this, sessions
      ensures Owned() && FromOld()
      ensures initialized == (old(sessions) != [])
      ensures View() == BeefyWorkerModel.Finalize(old(View()), proof)
    {
      if sessions == [] {
        return false;
      }
      var number := proof.commitment.blockNumber;
      ghost var before := Views(sessions);
      sessions[0].Conclude(number);
      assert Views(sessions) == before[0 := BeefyRounds.Conclude(before[0], number)];
      TryPrune();
      if !AtMost(number, bestBeefy) {
        bestBeefy := Some(number);
        published := published + [proof];
      }
      return true;
    }

    method HandleVote(round: Round, id: AuthorityId, signature: Signature, selfVote: bool)
      returns (initialized: bool)
      requires Owned()
      modifies this, sessions
      ensures Owned() && FromOld()
      ensures initialized == (old(sessions) != [])
      ensures View() == BeefyWorkerModel.HandleVote(old(View()), round, id, signature, selfVote)
    {
      if sessions == [] {
        return false;
      }
      var front := sessions[0];
      ghost var before := Views(sessions);
      var counted := front.AddVote(round, id, signature, selfVote);
      ghost var added := front.View();
      assert Views(sessions) == before[0 := added];
      if counted {
        var signatures := front.TryConclude(round);
        assert Views(sessions) == before[0 := BeefyRounds.TryConclude(added, round).0];
        if signatures.Some? {
          var commitment := Commitment(round.payload, round.number, front.validatorSet.id);
          var _ := Finalize(FinalityProof(commitment, signatures.value));
        }
      }
      return true;
    }

    method TriageIncomingVote(vote: VoteMessage)
      requires Owned()
      modifies this, sessions
      ensures Owned() && FromOld()
      ensures View() == TriageVote(old(View()), vote)
    {
      var number := vote.commitment.blockNumber;
      var action := Triage(number);
      match action
      case Some(Process) =>
        var _ := HandleVote(
          Round(vote.commitment.payload, number), vote.id, vote.signature, false);
      case Some(Enqueue) =>
        var buffered := if number in pendingVotes then pendingVotes[number] else [];
        pendingVotes := pendingVotes[number := buffered + [vote]];
      case _ =>
    }

    method TriageIncomingJustification(proof: FinalityProof)
      requires Owned()
      modifies this, sessions
      ensures Owned() && FromOld()
      ensures View() == TriageJustification(old(View()), proof)
    {
      var number := proof.commitment.blockNumber;
      var action := Triage(number);
      match action
      case Some(Process) =>
        var _ := Finalize(proof);
      case Some(Enqueue) =>
        if number !in pendingJustifications {
          pendingJustifications := pendingJustifications[number := proof];
        }
      case _ =>
    }

    method Interval() returns (r: Option<(Number, Number)>)
      ensures r == AcceptedInterval(View())
    {
      if sessions == [] {
        return None;
      }
      if sessions[0].mandatoryDone {
        return Some((sessions[0].sessionStart, bestGrandpa));
      }
      return Some((sessions[0].sessionStart, sessions[0].sessionStart));
    }

    method Triage(number: Number) returns (action: Option<RoundAction>)
      ensures action == TriageRound(View(), number)
    {
      var interval := Interval();
      match interval
      case None => return None;
      case Some((start, end)) =>
        return Some(if start <= number <= end then Process else if number > end then Enqueue else Drop);
    }

    method ReplayJustifications(start: Number, end: Number)
      requires Owned() && AcceptedInterval(View()) == Some((start, end))
      modifies this, sessions
      ensures Owned() && FromOld()
      ensures View() == BeefyWorkerModel.ReplayJustifications(old(View()))
    {
      if pendingJustifications == map[] {
        return;
      }
      var due := ToHandle(pendingJustifications, start, end);
      pendingJustifications := StillPending(pendingJustifications, end);
      ghost var kept, all := View(), due;
      while due != map[]
        invariant Owned() && FromOld()
        invariant FinalizeAll(kept, all) == FinalizeAll(View(), due)
        decreases |due|
      {
        var k := LeastKey(due);
        assert (due - {k}).Keys == due.Keys - {k};
        var _ := Finalize(due[k]);
        due := due - {k};
      }
    }

    method ReplayVotes(start: Number, end: Number)
      requires Owned() && AcceptedInterval(View()) == Some((start, end))
      modifies this, sessions
      ensures Owned() && FromOld()
      ensures View() == BeefyWorkerModel.ReplayVotes(old(View()))
    {
      if pendingVotes == map[] {
        return;
      }
      var due := ToHandle(pendingVotes, start, end);
      pendingVotes := StillPending(pendingVotes, end);
      ghost var kept, all := View(), due;
      while due != map[]
        invariant Owned() && FromOld()
        invariant HandleAll(kept, all) == HandleAll(View(), due)
        decreases |due|
      {
        var k := LeastKey(due);
        assert (due - {k}).Keys == due.Keys - {k};
        HandleBatch(due[k]);
        due := due - {k};
      }
    }

    method HandleBatch(votes: seq<VoteMessage>)
      requires Owned()
      modifies this, sessions
      ensures Owned() && FromOld()
      ensures View() == HandleVotes(old(View()), votes)
    {
      for i := 0 to |votes|
        invariant Owned() && FromOld()
        invariant HandleVotes(old(View()), votes) == HandleVotes(View(), votes[i..])
      {
        var v := votes[i];
        assert votes[i..][1..] == votes[i + 1..];
        var _ := HandleVote(
          Round(v.commitment.payload, v.commitment.blockNumber), v.id, v.signature, false);
      }
    }

    /** Handles the buffered items that now land in the interval, justifications first. */
    method TryPendingJustifAndVotes()
      requires Owned()
      modifies this, sessions
      ensures Owned() && FromOld()
      ensures View() == Replay(old(View()))
    {
      var interval := Interval();
      if interval.Some? {
        ReplayJustifications(interval.value.0, interval.value.1);
      }
      var updated := Interval();
      if updated.Some? {
        ReplayVotes(updated.value.0, updated.value.1);
      }
    }

    method TryToVote(ballot: Ballot)
      requires Owned()
      modifies this, sessions
      ensures Owned() && FromOld()
      ensures View() == BeefyWorkerModel.TryToVote(old(View()), ballot)
    {
      if sessions == [] {
        return;
      }
      var target := VoteTarget(bestGrandpa, bestBeefy, sessions[0].sessionStart, minBlockDelta);
      if target.None? || ballot.payload.None? {
        return;
      }
      var round := Round(ballot.payload.value, target.value);
      var should := sessions[0].ShouldSelfVote(round);
      if should && ballot.id.Some? && ballot.signature.Some? {
        var _ := HandleVote(round, ballot.id.value, ballot.signature.value, true);
      }
    }

    /** Walks back from the notified header; `ok` is false where the client would go down. */
    method InitializeVoter(ancestors: seq<Ancestor>, active: ValidatorSet) returns (ok: bool)
      requires Owned() && 0 < |ancestors| <= U32_LIMIT
      modifies this
      ensures ok <==> BeefyWorkerModel.InitializeVoter(old(View()), ancestors, active).Some?
      ensures ok ==> Owned() && Some(View()) == BeefyWorkerModel.InitializeVoter(old(View()), ancestors, active)
    {
      if sessions != [] {
        return true;
      }
      bestGrandpa := |ancestors| - 1;
      assert forall r: Rounds :: AddSession([], r) == [r];
      if active.id == GENESIS_AUTHORITY_SET_ID {
        InitSessionAt(active, 1);
        return true;
      }
      var n := |ancestors| - 1;
      while !ancestors[n].justified && ancestors[n].change.None?
        invariant 0 <= n < |ancestors|
        invariant WalkBack(ancestors, |ancestors| - 1) == WalkBack(ancestors, n)
        invariant View() == old(View()).(bestGrandpa := |ancestors| - 1) && sessions == []
        decreases n
      {
        if n == 0 {
          return false;
        }
        n := n - 1;
      }
      if ancestors[n].justified {
        InitSessionAt(active, n);
        assert Views(sessions) == [NewRounds(n, active)];
        assert sessions[0].View() == Views(sessions)[0];
        sessions[0].Conclude(n);
        bestBeefy := Some(n);
        assert Views(sessions) == [BeefyRounds.Conclude(NewRounds(n, active), n)];
      } else {
        InitSessionAt(ancestors[n].change.value, n);
      }
      return true;
    }
  }
}
