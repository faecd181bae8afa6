/**
  Safety of the BEEFY worker over whole runs: the session queue stays in one of its three
  states, published blocks strictly increase and never pass GRANDPA, and no known mandatory
  block is skipped.
 */
module BeefySafety {
  import opened Common
  import opened BeefyTypes
  import opened BeefyRounds
  import opened BeefyTarget
  import opened BeefyWorkerModel

  // ---- the three queue states ----

  ghost predicate UpToDate(sessions: seq<Rounds>) {
    |sessions| == 1 && sessions[0].mandatoryDone
  }

  ghost predicate AllPending(sessions: seq<Rounds>) {
    && (forall i :: 0 <= i < |sessions| ==> !sessions[i].mandatoryDone)
    && (forall i, j :: 0 <= i < j < |sessions| ==> sessions[i].sessionStart < sessions[j].sessionStart)
  }

  ghost predicate Lagging(sessions: seq<Rounds>) {
    |sessions| >= 1 && AllPending(sessions)
  }

  ghost predicate QueueOk(sessions: seq<Rounds>) {
    sessions == [] || UpToDate(sessions) || Lagging(sessions)
  }

  // ---- the worker invariant ----

  ghost predicate SessionsOk(w: Worker) {
    forall i :: 0 <= i < |w.sessions| ==> Valid(w.sessions[i]) && w.sessions[i].sessionStart <= w.bestGrandpa
  }

  /** BEEFY is behind every pending mandatory block, and has passed a finished session's start. */
  ghost predicate BestOk(w: Worker) {
    && (w.bestBeefy.Some? ==> w.bestBeefy.value <= w.bestGrandpa)
    && (Lagging(w.sessions) ==> !AtMost(w.sessions[0].sessionStart, w.bestBeefy))
    && (UpToDate(w.sessions) ==> AtMost(w.sessions[0].sessionStart, w.bestBeefy))
  }

  ghost predicate PublishedOk(w: Worker) {
    && (forall i :: 0 <= i < |w.published| ==> AtMost(w.published[i].commitment.blockNumber, w.bestBeefy))
    && (forall i, j :: 0 <= i < j < |w.published| ==>
          w.published[i].commitment.blockNumber < w.published[j].commitment.blockNumber)
  }

  ghost predicate BuffersOk(w: Worker) {
    && (forall k :: k in w.pendingJustifications ==> w.pendingJustifications[k].commitment.blockNumber == k)
    && (forall k :: k in w.pendingVotes ==> VotesFor(w.pendingVotes[k], k))
  }

  ghost predicate VotesFor(votes: seq<VoteMessage>, number: Number) {
    forall i :: 0 <= i < |votes| ==> votes[i].commitment.blockNumber == number
  }

  ghost predicate Inv(w: Worker) {
    QueueOk(w.sessions) && SessionsOk(w) && BestOk(w) && PublishedOk(w) && BuffersOk(w)
  }

  // ---- pruning ----

  lemma {:induction false} UnfinishedKeepsPending(sessions: seq<Rounds>)
    requires forall i :: 0 <= i < |sessions| ==> !sessions[i].mandatoryDone
    ensures Unfinished(sessions) == sessions
  {
    if sessions != [] {
      UnfinishedKeepsPending(sessions[1..]);
    }
  }

  lemma PruneAfterFront(sessions: seq<Rounds>, front: Rounds)
    requires Lagging(sessions) && front.mandatoryDone
    ensures Pruned(sessions[0 := front]) == if |sessions| == 1 then [front] else sessions[1..]
  {
    var updated := sessions[0 := front];
    if |sessions| > 1 {
      assert updated[1..] == sessions[1..];
      UnfinishedKeepsPending(sessions[1..]);
    }
  }

  lemma AddSessionState(sessions: seq<Rounds>, rounds: Rounds)
    requires QueueOk(sessions) && !rounds.mandatoryDone
    ensures AddSession(sessions, rounds) == if UpToDate(sessions) then [rounds] else sessions + [rounds]
  {
    var all := sessions + [rounds];
    if UpToDate(sessions) {
      assert all[1..] == [rounds];
      UnfinishedKeepsPending([rounds]);
    } else if |all| > 1 {
      UnfinishedKeepsPending(all);
    }
  }

  // ---- how one step moves the worker ----

  ghost predicate InQueue(w: Worker, start: Number) {
    exists i :: 0 <= i < |w.sessions| && !w.sessions[i].mandatoryDone && w.sessions[i].sessionStart == start
  }

  ghost predicate IsPublished(w: Worker, number: Number) {
    exists i :: 0 <= i < |w.published| && w.published[i].commitment.blockNumber == number
  }

  /** Nothing published is taken back, and a mandatory block leaves the queue only by being published. */
  ghost predicate Progress(w: Worker, w': Worker) {
    && w.published <= w'.published
    && (forall s :: InQueue(w, s) ==> InQueue(w', s) || IsPublished(w', s))
  }

  /** Handling finalized items: GRANDPA and the buffers stand still, the accepted interval only grows. */
  ghost predicate Advances(w: Worker, w': Worker) {
    && Progress(w, w')
    && w'.bestGrandpa == w.bestGrandpa
    && w'.pendingVotes == w.pendingVotes && w'.pendingJustifications == w.pendingJustifications
    && w.sessions != [] && w'.sessions != []
    && w.sessions[0].sessionStart <= w'.sessions[0].sessionStart
    && AcceptedEnd(w) <= AcceptedEnd(w')
  }

  lemma ProgressChains(a: Worker, b: Worker, c: Worker)
    requires Progress(a, b) && Progress(b, c)
    ensures Progress(a, c)
  {
    forall s | InQueue(a, s)
      ensures InQueue(c, s) || IsPublished(c, s)
    {
      if IsPublished(b, s) {
        var i :| 0 <= i < |b.published| && b.published[i].commitment.blockNumber == s;
        assert c.published[i] == b.published[i];
      }
    }
  }

  lemma AdvancesChains(a: Worker, b: Worker, c: Worker)
    requires Advances(a, b) && Advances(b, c)
    ensures Advances(a, c)
  {
    ProgressChains(a, b, c);
  }

  lemma AdvancesItself(w: Worker)
    requires w.sessions != []
    ensures Advances(w, w)
  {
  }

  // ---- finalize ----

  ghost predicate Acceptable(w: Worker, number: Number) {
    w.sessions != [] && w.sessions[0].sessionStart <= number <= AcceptedEnd(w)
  }

  function FinalizedSessions(w: Worker, number: Number): seq<Rounds>
    requires w.sessions != []
  {
    var front := Conclude(w.sessions[0], number);
    if w.sessions[0].mandatoryDone || |w.sessions| == 1 then [front] else w.sessions[1..]
  }

  lemma FinalizeSessions(w: Worker, proof: FinalityProof)
    requires QueueOk(w.sessions) && Acceptable(w, proof.commitment.blockNumber)
    ensures Finalize(w, proof).sessions == FinalizedSessions(w, proof.commitment.blockNumber)
  {
    var front := Conclude(w.sessions[0], proof.commitment.blockNumber);
    if Lagging(w.sessions) {
      PruneAfterFront(w.sessions, front);
    }
  }

  lemma FinalizePublishes(w: Worker, proof: FinalityProof)
    requires Inv(w) && Acceptable(w, proof.commitment.blockNumber)
    ensures PublishedOk(Finalize(w, proof))
    ensures !w.sessions[0].mandatoryDone ==> Finalize(w, proof).published == w.published + [proof]
    ensures w.published <= Finalize(w, proof).published
  {
  }

  lemma FinalizeProgress(w: Worker, proof: FinalityProof)
    requires Inv(w) && Acceptable(w, proof.commitment.blockNumber)
    ensures Progress(w, Finalize(w, proof))
  {
    var w' := Finalize(w, proof);
    FinalizeSessions(w, proof);
    FinalizePublishes(w, proof);
    forall s | InQueue(w, s)
      ensures InQueue(w', s) || IsPublished(w', s)
    {
      var i :| 0 <= i < |w.sessions| && !w.sessions[i].mandatoryDone && w.sessions[i].sessionStart == s;
      assert Lagging(w.sessions);
      if i == 0 {
        assert w'.published[|w.published|] == proof;
      } else {
        assert w'.sessions[i - 1] == w.sessions[i];
      }
    }
  }

  /** Finalizing an accepted block keeps the invariant and never loses a pending mandatory block. */
  lemma FinalizeKeeps(w: Worker, proof: FinalityProof)
    requires Inv(w) && Acceptable(w, proof.commitment.blockNumber)
    ensures Inv(Finalize(w, proof)) && Advances(w, Finalize(w, proof))
  {
    FinalizeSessions(w, proof);
    FinalizePublishes(w, proof);
    FinalizeProgress(w, proof);
    ConcludeKeeps(w.sessions[0], proof.commitment.blockNumber);
    assert Lagging(w.sessions) ==> !w.sessions[0].mandatoryDone;
  }

  // ---- votes ----

  ghost predicate SameFront(w: Worker, front: Rounds)
    requires w.sessions != []
  {
    && Valid(front)
    && front.sessionStart == w.sessions[0].sessionStart
    && front.mandatoryDone == w.sessions[0].mandatoryDone
  }

  lemma ReplaceFront(w: Worker, front: Rounds)
    requires Inv(w) && w.sessions != [] && SameFront(w, front)
    ensures Inv(w.(sessions := w.sessions[0 := front]))
    ensures Advances(w, w.(sessions := w.sessions[0 := front]))
  {
    var w' := w.(sessions := w.sessions[0 := front]);
    forall s | InQueue(w, s)
      ensures InQueue(w', s)
    {
      var i :| 0 <= i < |w.sessions| && !w.sessions[i].mandatoryDone && w.sessions[i].sessionStart == s;
      assert !w'.sessions[i].mandatoryDone && w'.sessions[i].sessionStart == s;
    }
  }

  lemma ConcludeTwice(r: Rounds, round: Round)
    ensures Conclude(Conclude(r.(rounds := r.rounds - {round}), round.number), round.number) ==
              Conclude(r, round.number)
  {
    assert (map k | k in r.rounds - {round} && k.number > round.number :: (r.rounds - {round})[k]) ==
           (map k | k in r.rounds && k.number > round.number :: r.rounds[k]);
  }

  /** Concluding in `try_conclude` and again in `finalize` is finalizing with the vote added. */
  lemma HandleVoteFinalizes(w: Worker, round: Round, id: AuthorityId, signature: Signature, selfVote: bool)
    requires w.sessions != [] && Counts(w.sessions[0], round, id)
    requires IsDone(AddVote(w.sessions[0], round, id, signature, selfVote), round)
    ensures var added := AddVote(w.sessions[0], round, id, signature, selfVote);
            HandleVote(w, round, id, signature, selfVote) ==
              Finalize(w.(sessions := w.sessions[0 := added]), ProofOf(added, round))
  {
    var added := AddVote(w.sessions[0], round, id, signature, selfVote);
    ConcludeTwice(added, round);
    var tried := TryConclude(added, round).0;
    assert w.sessions[0 := tried][0 := Conclude(tried, round.number)] ==
           w.sessions[0 := added][0 := Conclude(added, round.number)];
  }

  /** A vote for a block up to the end of the accepted interval keeps the invariant. */
  lemma HandleVoteKeeps(w: Worker, round: Round, id: AuthorityId, signature: Signature, selfVote: bool)
    requires Inv(w) && w.sessions != [] && round.number <= AcceptedEnd(w)
    ensures var w' := HandleVote(w, round, id, signature, selfVote); Inv(w') && Advances(w, w')
  {
    if !Counts(w.sessions[0], round, id) {
      AdvancesItself(w);
    } else {
      var added := AddVote(w.sessions[0], round, id, signature, selfVote);
      AddVoteKeeps(w.sessions[0], round, id, signature, selfVote);
      var w1 := w.(sessions := w.sessions[0 := added]);
      ReplaceFront(w, added);
      if IsDone(added, round) {
        HandleVoteFinalizes(w, round, id, signature, selfVote);
        FinalizeKeeps(w1, ProofOf(added, round));
        AdvancesChains(w, w1, Finalize(w1, ProofOf(added, round)));
      }
    }
  }

  // ---- finality notifications ----

  /** The route lists ascending blocks above the old best GRANDPA block, up to the new one. */
  ghost predicate AscendingAbove(headers: seq<Header>, above: Number, last: Number) {
    && (forall i :: 0 <= i < |headers| ==> above < headers[i].number <= last)
    && (forall i, j :: 0 <= i < j < |headers| ==> headers[i].number < headers[j].number)
  }

  ghost predicate StartsBelow(w: Worker, headers: seq<Header>) {
    forall i, j :: 0 <= i < |w.sessions| && 0 <= j < |headers| ==>
      w.sessions[i].sessionStart < headers[j].number
  }

  /** The mandatory blocks the headers announce. */
  ghost function Announced(headers: seq<Header>): set<Number> {
    set i | 0 <= i < |headers| && headers[i].change.Some? :: headers[i].number
  }

  lemma AddSessionKeeps(w: Worker, start: Number, vs: ValidatorSet)
    requires Inv(w) && start <= w.bestGrandpa && !AtMost(start, w.bestBeefy)
    requires forall i :: 0 <= i < |w.sessions| ==> w.sessions[i].sessionStart < start
    ensures var w' := w.(sessions := AddSession(w.sessions, NewRounds(start, vs)));
            Inv(w') && Progress(w, w') && InQueue(w', start)
  {
    var added := NewRounds(start, vs);
    AddSessionState(w.sessions, added);
    var w' := w.(sessions := AddSession(w.sessions, added));
    assert w'.sessions[|w'.sessions| - 1] == added;
    forall s | InQueue(w, s)
      ensures InQueue(w', s)
    {
      var i :| 0 <= i < |w.sessions| && !w.sessions[i].mandatoryDone && w.sessions[i].sessionStart == s;
      assert !UpToDate(w.sessions);
      assert w'.sessions[i] == w.sessions[i];
    }
  }

  lemma InitSessionKeeps(w: Worker, headers: seq<Header>, above: Number)
    requires Inv(w) && AscendingAbove(headers, above, w.bestGrandpa) && StartsBelow(w, headers)
    requires w.bestBeefy.Some? ==> w.bestBeefy.value <= above
    requires headers != []
    ensures var w' := InitSession(w, headers[0]);
            && Inv(w') && Progress(w, w') && StartsBelow(w', headers[1..])
            && (headers[0].change.Some? ==> InQueue(w', headers[0].number))
  {
    var h := headers[0];
    if h.change.Some? {
      AddSessionKeeps(w, h.number, h.change.value);
      AddSessionState(w.sessions, NewRounds(h.number, h.change.value));
    }
  }

  lemma AnnouncedCons(headers: seq<Header>)
    requires headers != []
    ensures Announced(headers) ==
              Announced(headers[1..]) + if headers[0].change.Some? then {headers[0].number} else {}
  {
    var rest := headers[1..];
    forall s | s in Announced(headers)
      ensures s in Announced(rest) || (headers[0].change.Some? && s == headers[0].number)
    {
      var i :| 0 <= i < |headers| && headers[i].change.Some? && headers[i].number == s;
      if i > 0 {
        assert rest[i - 1] == headers[i];
      }
    }
    forall s | s in Announced(rest)
      ensures s in Announced(headers)
    {
      var i :| 0 <= i < |rest| && rest[i].change.Some? && rest[i].number == s;
      assert headers[i + 1] == rest[i];
    }
  }

  lemma {:induction false} InitSessionsKeeps(w: Worker, headers: seq<Header>, above: Number)
    requires Inv(w) && AscendingAbove(headers, above, w.bestGrandpa) && StartsBelow(w, headers)
    requires w.bestBeefy.Some? ==> w.bestBeefy.value <= above
    ensures var w' := InitSessions(w, headers);
            && Inv(w') && Progress(w, w')
            && w'.bestGrandpa == w.bestGrandpa && w'.bestBeefy == w.bestBeefy && w'.published == w.published
            && forall s :: s in Announced(headers) ==> InQueue(w', s)
    decreases |headers|
  {
    if headers != [] {
      var next, rest := InitSession(w, headers[0]), headers[1..];
      InitSessionKeeps(w, headers, above);
      InitSessionsKeeps(next, rest, above);
      ProgressChains(w, next, InitSessions(next, rest));
      AnnouncedCons(headers);
      if headers[0].change.Some? {
        NotPublishedAbove(InitSessions(next, rest), headers[0].number);
      }
    }
  }

  lemma NotPublishedAbove(w: Worker, s: Number)
    requires PublishedOk(w) && !AtMost(s, w.bestBeefy)
    ensures !IsPublished(w, s)
  {
  }

  lemma HandleFinalityKeeps(w: Worker, route: seq<Header>, header: Header)
    requires Inv(w)
    requires header.number > w.bestGrandpa ==>
               AscendingAbove(route + [header], w.bestGrandpa, header.number)
    ensures var w' := HandleFinality(w, route, header);
            && Inv(w') && Progress(w, w')
            && (header.number > w.bestGrandpa ==>
                  forall s :: s in Announced(route + [header]) ==> InQueue(w', s))
  {
    if header.number > w.bestGrandpa {
      var moved := w.(bestGrandpa := header.number);
      assert Progress(w, moved);
      InitSessionsKeeps(moved, route + [header], w.bestGrandpa);
      ProgressChains(w, moved, InitSessions(moved, route + [header]));
    }
  }

  // ---- replay ----

  lemma {:induction false} FinalizeAllKeeps(w: Worker, due: map<Number, FinalityProof>)
    requires Inv(w) && w.sessions != []
    requires forall k :: k in due ==> due[k].commitment.blockNumber == k && Acceptable(w, k)
    ensures Inv(FinalizeAll(w, due)) && Advances(w, FinalizeAll(w, due))
    decreases |due|
  {
    if due == map[] {
      AdvancesItself(w);
    } else {
      var k := LeastKey(due);
      var next, rest := Finalize(w, due[k]), due - {k};
      FinalizeKeeps(w, due[k]);
      FinalizeSessions(w, due[k]);
      assert rest.Keys == due.Keys - {k};
      if Lagging(w.sessions) {
        assert forall j :: j in due ==> j == k;
        assert rest == map[];
      }
      FinalizeAllKeeps(next, rest);
      AdvancesChains(w, next, FinalizeAll(next, rest));
    }
  }

  lemma {:induction false} HandleVotesKeeps(w: Worker, votes: seq<VoteMessage>, number: Number)
    requires Inv(w) && w.sessions != [] && VotesFor(votes, number) && number <= AcceptedEnd(w)
    ensures Inv(HandleVotes(w, votes)) && Advances(w, HandleVotes(w, votes))
    decreases |votes|
  {
    if votes == [] {
      AdvancesItself(w);
    } else {
      var v := votes[0];
      HandleVoteKeeps(w, Round(v.commitment.payload, number), v.id, v.signature, false);
      HandleVotesKeeps(Handle(w, v), votes[1..], number);
      AdvancesChains(w, Handle(w, v), HandleVotes(w, votes));
    }
  }

  lemma {:induction false} HandleAllKeeps(w: Worker, due: map<Number, seq<VoteMessage>>)
    requires Inv(w) && w.sessions != []
    requires forall k :: k in due ==> VotesFor(due[k], k) && k <= AcceptedEnd(w)
    ensures Inv(HandleAll(w, due)) && Advances(w, HandleAll(w, due))
    decreases |due|
  {
    if due == map[] {
      AdvancesItself(w);
    } else {
      var k := LeastKey(due);
      var next, rest := HandleVotes(w, due[k]), due - {k};
      HandleVotesKeeps(w, due[k], k);
      assert rest.Keys == due.Keys - {k};
      HandleAllKeeps(next, rest);
      AdvancesChains(w, next, HandleAll(next, rest));
    }
  }

  lemma ReplayJustificationsKeeps(w: Worker)
    requires Inv(w)
    ensures Inv(ReplayJustifications(w)) && Progress(w, ReplayJustifications(w))
  {
    if w.sessions != [] && w.pendingJustifications != map[] {
      var (start, end) := AcceptedInterval(w).value;
      var kept := w.(pendingJustifications := StillPending(w.pendingJustifications, end));
      assert Inv(kept) && Progress(w, kept);
      FinalizeAllKeeps(kept, ToHandle(w.pendingJustifications, start, end));
      ProgressChains(w, kept, ReplayJustifications(w));
    }
  }

  lemma ReplayVotesKeeps(w: Worker)
    requires Inv(w)
    ensures Inv(ReplayVotes(w)) && Progress(w, ReplayVotes(w))
    ensures w.sessions != [] ==>
              ReplayVotes(w).pendingVotes == StillPending(w.pendingVotes, AcceptedEnd(w))
  {
    if w.sessions != [] && w.pendingVotes != map[] {
      var (start, end) := AcceptedInterval(w).value;
      var kept := w.(pendingVotes := StillPending(w.pendingVotes, end));
      assert Inv(kept) && Progress(w, kept);
      HandleAllKeeps(kept, ToHandle(w.pendingVotes, start, end));
      ProgressChains(w, kept, ReplayVotes(w));
    }
  }

  lemma ReplayKeeps(w: Worker)
    requires Inv(w)
    ensures Inv(Replay(w)) && Progress(w, Replay(w))
  {
    ReplayJustificationsKeeps(w);
    ReplayVotesKeeps(ReplayJustifications(w));
    ProgressChains(w, ReplayJustifications(w), Replay(w));
  }

  // ---- incoming items and the local vote ----

  lemma TriageVoteKeeps(w: Worker, vote: VoteMessage)
    requires Inv(w)
    ensures Inv(TriageVote(w, vote)) && Progress(w, TriageVote(w, vote))
  {
    if TriageRound(w, vote.commitment.blockNumber) == Some(Process) {
      HandleVoteKeeps(
        w, Round(vote.commitment.payload, vote.commitment.blockNumber), vote.id, vote.signature, false);
    }
  }

  lemma TriageJustificationKeeps(w: Worker, proof: FinalityProof)
    requires Inv(w)
    ensures Inv(TriageJustification(w, proof)) && Progress(w, TriageJustification(w, proof))
  {
    if TriageRound(w, proof.commitment.blockNumber) == Some(Process) {
      FinalizeKeeps(w, proof);
    }
  }

  lemma TryToVoteKeeps(w: Worker, ballot: Ballot)
    requires Inv(w)
    ensures Inv(TryToVote(w, ballot)) && Progress(w, TryToVote(w, ballot))
  {
    var target := VotingTarget(w);
    if target.Some? && TryToVote(w, ballot) != w {
      HandleVoteKeeps(
        w, Round(ballot.payload.value, target.value), ballot.id.value, ballot.signature.value, true);
    }
  }

  // ---- whole runs ----

  datatype Event =
    | Finality(route: seq<Header>, header: Header)
    | IncomingVote(vote: VoteMessage)
    | IncomingJustification(proof: FinalityProof)
    | ReplayPending
    | LocalVote(ballot: Ballot)

  /** The worker and the mandatory blocks it has been told of so far. */
  datatype World = World(worker: Worker, known: set<Number>)

  ghost predicate Expected(w: Worker, e: Event) {
    e.Finality? && e.header.number > w.bestGrandpa ==>
      AscendingAbove(e.route + [e.header], w.bestGrandpa, e.header.number)
  }

  ghost function Step(w: Worker, e: Event): Worker {
    match e
    case Finality(route, header) => HandleFinality(w, route, header)
    case IncomingVote(vote) => TriageVote(w, vote)
    case IncomingJustification(proof) => TriageJustification(w, proof)
    case ReplayPending => Replay(w)
    case LocalVote(ballot) => TryToVote(w, ballot)
  }

  ghost function Next(world: World, e: Event): World {
    World(
      Step(world.worker, e),
      if e.Finality? && e.header.number > world.worker.bestGrandpa
      then world.known + Announced(e.route + [e.header]) else world.known)
  }

  ghost function Run(world: World, events: seq<Event>): World
    decreases |events|
  {
    if events == [] then world else Run(Next(world, events[0]), events[1..])
  }

  ghost predicate RunExpected(world: World, events: seq<Event>)
    decreases |events|
  {
    events != [] ==> Expected(world.worker, events[0]) && RunExpected(Next(world, events[0]), events[1..])
  }

  /** Every mandatory block the worker knows of is waiting, published, or the one it started from. */
  ghost predicate KnownOk(world: World, base: Option<Number>) {
    forall s :: s in world.known ==>
      InQueue(world.worker, s) || IsPublished(world.worker, s) || base == Some(s)
  }

  lemma StepKeeps(w: Worker, e: Event)
    requires Inv(w) && Expected(w, e)
    ensures Inv(Step(w, e)) && Progress(w, Step(w, e))
  {
    match e
    case Finality(route, header) => HandleFinalityKeeps(w, route, header);
    case IncomingVote(vote) => TriageVoteKeeps(w, vote);
    case IncomingJustification(proof) => TriageJustificationKeeps(w, proof);
    case ReplayPending => ReplayKeeps(w);
    case LocalVote(ballot) => TryToVoteKeeps(w, ballot);
  }

  lemma NextKeeps(world: World, e: Event, base: Option<Number>)
    requires Inv(world.worker) && KnownOk(world, base) && Expected(world.worker, e)
    ensures Inv(Next(world, e).worker) && KnownOk(Next(world, e), base)
    ensures world.worker.published <= Next(world, e).worker.published
  {
    StepKeeps(world.worker, e);
    var next := Next(world, e);
    if e.Finality? {
      HandleFinalityKeeps(world.worker, e.route, e.header);
    }
    forall s | s in next.known
      ensures InQueue(next.worker, s) || IsPublished(next.worker, s) || base == Some(s)
    {
      if s in world.known && IsPublished(world.worker, s) {
        var i :| 0 <= i < |world.worker.published| && world.worker.published[i].commitment.blockNumber == s;
        assert next.worker.published[i] == world.worker.published[i];
      }
    }
  }

  lemma {:induction false} RunKeeps(world: World, events: seq<Event>, base: Option<Number>)
    requires Inv(world.worker) && KnownOk(world, base) && RunExpected(world, events)
    ensures Inv(Run(world, events).worker) && KnownOk(Run(world, events), base)
    ensures world.worker.published <= Run(world, events).worker.published
    decreases |events|
  {
    if events != [] {
      NextKeeps(world, events[0], base);
      RunKeeps(Next(world, events[0]), events[1..], base);
    }
  }

  lemma QueuedIsAhead(w: Worker, s: Number, n: Number)
    requires Inv(w) && InQueue(w, s) && IsPublished(w, n)
    ensures n < s
  {
    var i :| 0 <= i < |w.sessions| && !w.sessions[i].mandatoryDone && w.sessions[i].sessionStart == s;
    assert Lagging(w.sessions);
    assert i > 0 ==> w.sessions[0].sessionStart < w.sessions[i].sessionStart;
  }

  lemma MandatoryFirst(world: World, base: Option<Number>, s: Number, n: Number)
    requires Inv(world.worker) && KnownOk(world, base)
    requires s in world.known && IsPublished(world.worker, n) && s < n
    ensures IsPublished(world.worker, s) || base == Some(s)
  {
    if InQueue(world.worker, s) {
      QueuedIsAhead(world.worker, s, n);
    }
  }

  /**
    Over every run from an initialized voter: the queue is in one of its three states, published
    numbers strictly increase and stay at or below best GRANDPA, and a known mandatory block below
    a published block has itself been published (or is the block the voter started from).
   */
  lemma RunIsSafe(world: World, events: seq<Event>, base: Option<Number>)
    requires Inv(world.worker) && KnownOk(world, base) && RunExpected(world, events)
    ensures var end := Run(world, events);
            && QueueOk(end.worker.sessions)
            && (forall i, j :: 0 <= i < j < |end.worker.published| ==>
                  end.worker.published[i].commitment.blockNumber < end.worker.published[j].commitment.blockNumber)
            && (forall n: Number :: IsPublished(end.worker, n) ==> n <= end.worker.bestGrandpa)
            && (forall s, n :: s in end.known && IsPublished(end.worker, n) && s < n ==>
                  IsPublished(end.worker, s) || base == Some(s))
  {
    RunKeeps(world, events, base);
    var end := Run(world, events);
    forall s, n | s in end.known && IsPublished(end.worker, n) && s < n
      ensures IsPublished(end.worker, s) || base == Some(s)
    {
      MandatoryFirst(end, base, s, n);
    }
  }
}
