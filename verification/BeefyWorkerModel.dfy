/**
  The BEEFY worker as a step system on values: finality notifications, incoming votes and
  justifications, replay of buffered items, and the local vote. `published` is the log of the
  finality proofs sent to the RPC subscribers.
 */
module BeefyWorkerModel {
  import opened Common
  import opened BeefyTypes
  import opened BeefyRounds
  import opened BeefyTarget

  datatype Worker = Worker(
    bestGrandpa: Number,
    bestBeefy: Option<Number>,
    pendingVotes: map<Number, seq<VoteMessage>>,
    pendingJustifications: map<Number, FinalityProof>,
    sessions: seq<Rounds>,
    minBlockDelta: U32,
    published: seq<FinalityProof>)

  /** A finalized header and the validator set it announces, if any. */
  datatype Header = Header(number: Number, change: Option<ValidatorSet>)

  datatype RoundAction = Drop | Process | Enqueue

  // ---- the voter oracle ----

  function Unfinished(sessions: seq<Rounds>): seq<Rounds> {
    if sessions == [] then []
    else (if sessions[0].mandatoryDone then [] else [sessions[0]]) + Unfinished(sessions[1..])
  }

  function Pruned(sessions: seq<Rounds>): seq<Rounds> {
    if |sessions| > 1 then Unfinished(sessions) else sessions
  }

  function AddSession(sessions: seq<Rounds>, rounds: Rounds): seq<Rounds> {
    Pruned(sessions + [rounds])
  }

  /** The last block of the accepted interval; its first is the start of the front session. */
  function AcceptedEnd(w: Worker): Number
    requires w.sessions != []
  {
    if w.sessions[0].mandatoryDone then w.bestGrandpa else w.sessions[0].sessionStart
  }

  /** `None` stands for the error of a voter that has no session yet. */
  function AcceptedInterval(w: Worker): Option<(Number, Number)> {
    if w.sessions == [] then None else Some((w.sessions[0].sessionStart, AcceptedEnd(w)))
  }

  function TriageRound(w: Worker, round: Number): Option<RoundAction> {
    match AcceptedInterval(w)
    case None => None
    case Some((start, end)) =>
      if start <= round <= end then Some(Process) else if round > end then Some(Enqueue) else Some(Drop)
  }

  function VotingTarget(w: Worker): Option<Number> {
    if w.sessions == [] then None
    else VoteTarget(w.bestGrandpa, w.bestBeefy, w.sessions[0].sessionStart, w.minBlockDelta)
  }

  // ---- handlers; a handler that returns `UninitSession` leaves the worker alone ----

  function InitSession(w: Worker, h: Header): Worker {
    match h.change
    case None => w
    case Some(vs) => w.(sessions := AddSession(w.sessions, NewRounds(h.number, vs)))
  }

  function InitSessions(w: Worker, headers: seq<Header>): Worker
    decreases |headers|
  {
    if headers == [] then w else InitSessions(InitSession(w, headers[0]), headers[1..])
  }

  function HandleFinality(w: Worker, route: seq<Header>, header: Header): Worker {
    if header.number > w.bestGrandpa then
      InitSessions(w.(bestGrandpa := header.number), route + [header])
    else
      w
  }

  function Finalize(w: Worker, proof: FinalityProof): Worker {
    if w.sessions == [] then w else
      var number := proof.commitment.blockNumber;
      var pruned := w.(sessions := Pruned(w.sessions[0 := Conclude(w.sessions[0], number)]));
      if AtMost(number, w.bestBeefy) then pruned
      else pruned.(bestBeefy := Some(number), published := w.published + [proof])
  }

  function ProofOf(r: Rounds, round: Round): FinalityProof
    requires IsDone(r, round)
  {
    FinalityProof(Commitment(round.payload, round.number, r.validatorSet.id), TryConclude(r, round).1.value)
  }

  function HandleVote(w: Worker, round: Round, id: AuthorityId, signature: Signature, selfVote: bool): Worker {
    if w.sessions == [] || !Counts(w.sessions[0], round, id) then w else
      var added := AddVote(w.sessions[0], round, id, signature, selfVote);
      if IsDone(added, round) then
        Finalize(w.(sessions := w.sessions[0 := TryConclude(added, round).0]), ProofOf(added, round))
      else
        w.(sessions := w.sessions[0 := added])
  }

  function Handle(w: Worker, vote: VoteMessage): Worker {
    HandleVote(
      w, Round(vote.commitment.payload, vote.commitment.blockNumber), vote.id, vote.signature, false)
  }

  function TriageVote(w: Worker, vote: VoteMessage): Worker {
    var number := vote.commitment.blockNumber;
    match TriageRound(w, number)
    case Some(Process) => Handle(w, vote)
    case Some(Enqueue) =>
      var buffered := if number in w.pendingVotes then w.pendingVotes[number] else [];
      w.(pendingVotes := w.pendingVotes[number := buffered + [vote]])
    case _ => w
  }

  function TriageJustification(w: Worker, proof: FinalityProof): Worker {
    var number := proof.commitment.blockNumber;
    match TriageRound(w, number)
    case Some(Process) => Finalize(w, proof)
    case Some(Enqueue) =>
      if number in w.pendingJustifications then w
      else w.(pendingJustifications := w.pendingJustifications[number := proof])
    case _ => w
  }

  // ---- replay of buffered items ----

  function SaturatingSucc(n: Number): Number {
    if n + 1 < U32_LIMIT then n + 1 else n
  }

  function StillPending<T>(pending: map<Number, T>, end: Number): map<Number, T> {
    map k | k in pending && SaturatingSucc(end) <= k :: pending[k]
  }

  function ToHandle<T>(pending: map<Number, T>, start: Number, end: Number): map<Number, T> {
    map k | k in pending && start <= k < SaturatingSucc(end) :: pending[k]
  }

  ghost predicate IsLeast(k: Number, keys: set<Number>) {
    k in keys && forall j :: j in keys ==> k <= j
  }

  lemma {:induction false} FindLeast(keys: set<Number>) returns (k: Number)
    requires keys != {}
    ensures IsLeast(k, keys)
  {
    k :| k in keys;
    if keys != {k} {
      var l := FindLeast(keys - {k});
      assert forall j :: j in keys ==> j == k || j in keys - {k};
      if l <= k {
        k := l;
      }
    }
  }

  lemma LeastKeyExists(keys: set<Number>)
    requires keys != {}
    ensures exists k :: IsLeast(k, keys)
  {
    var k := FindLeast(keys);
  }

  /** The first key a `BTreeMap` iterates over. */
  function LeastKey<T>(m: map<Number, T>): (k: Number)
    requires m != map[]
    ensures IsLeast(k, m.Keys)
  {
    assert m.Keys != {};
    LeastKeyExists(m.Keys);
    var k :| k in m.Keys && forall j :: j in m.Keys ==> k <= j;
    k
  }

  function FinalizeAll(w: Worker, due: map<Number, FinalityProof>): Worker
    decreases |due|
  {
    if due == map[] then w else
      var k := LeastKey(due);
      assert |due - {k}| < |due| by { assert (due - {k}).Keys == due.Keys - {k}; }
      FinalizeAll(Finalize(w, due[k]), due - {k})
  }

  function HandleVotes(w: Worker, votes: seq<VoteMessage>): Worker
    decreases |votes|
  {
    if votes == [] then w else HandleVotes(Handle(w, votes[0]), votes[1..])
  }

  function HandleAll(w: Worker, due: map<Number, seq<VoteMessage>>): Worker
    decreases |due|
  {
    if due == map[] then w else
      var k := LeastKey(due);
      assert |due - {k}| < |due| by { assert (due - {k}).Keys == due.Keys - {k}; }
      HandleAll(HandleVotes(w, due[k]), due - {k})
  }

  function ReplayJustifications(w: Worker): Worker {
    match AcceptedInterval(w)
    case None => w
    case Some((start, end)) =>
      if w.pendingJustifications == map[] then w
      else FinalizeAll(
        w.(pendingJustifications := StillPending(w.pendingJustifications, end)),
        ToHandle(w.pendingJustifications, start, end))
  }

  function ReplayVotes(w: Worker): Worker {
    match AcceptedInterval(w)
    case None => w
    case Some((start, end)) =>
      if w.pendingVotes == map[] then w
      else HandleAll(w.(pendingVotes := StillPending(w.pendingVotes, end)), ToHandle(w.pendingVotes, start, end))
  }

  function Replay(w: Worker): Worker {
    ReplayVotes(ReplayJustifications(w))
  }

  // ---- the local vote ----

  /** What the node finds when it tries to vote: a payload for the target, a local key, a signature. */
  datatype Ballot = Ballot(payload: Option<Payload>, id: Option<AuthorityId>, signature: Option<Signature>)

  function TryToVote(w: Worker, ballot: Ballot): Worker {
    match VotingTarget(w)
    case None => w
    case Some(target) =>
      if ballot.payload.None? || !ShouldSelfVote(w.sessions[0], Round(ballot.payload.value, target))
         || ballot.id.None? || ballot.signature.None?
      then w
      else HandleVote(w, Round(ballot.payload.value, target), ballot.id.value, ballot.signature.value, true)
  }

  // ---- start-up ----

  /** What the walk back from the notified header finds at one ancestor. */
  datatype Ancestor = Ancestor(justified: bool, change: Option<ValidatorSet>)

  predicate Anchor(a: Ancestor) {
    a.justified || a.change.Some?
  }

  const GENESIS_AUTHORITY_SET_ID := 0

  function NewWorker(finalized: Number, minBlockDelta: U32): Worker {
    Worker(finalized, None, map[], map[], [], if minBlockDelta >= 1 then minBlockDelta else 1, [])
  }

  /** The last block at or below `n` with a BEEFY justification or a set change. */
  function WalkBack(ancestors: seq<Ancestor>, n: nat): (r: Option<nat>)
    requires n < |ancestors|
    ensures r.Some? ==> r.value <= n && Anchor(ancestors[r.value])
    ensures forall i :: (if r.Some? then r.value + 1 else 0) <= i <= n ==> !Anchor(ancestors[i])
  {
    if Anchor(ancestors[n]) then Some(n)
    else if n == 0 then None
    else WalkBack(ancestors, n - 1)
  }

  /** `ancestors[i]` describes block `i`; `None` is the panic when the walk runs off the chain. */
  function InitializeVoter(w: Worker, ancestors: seq<Ancestor>, active: ValidatorSet): Option<Worker>
    requires 0 < |ancestors| <= U32_LIMIT
  {
    var header := |ancestors| - 1;
    if w.sessions != [] then Some(w)
    else if active.id == GENESIS_AUTHORITY_SET_ID then
      Some(w.(bestGrandpa := header, sessions := [NewRounds(1, active)]))
    else
      match WalkBack(ancestors, header)
      case None => None
      case Some(n) => Some(InitAt(w.(bestGrandpa := header), n, ancestors[n], active))
  }

  function InitAt(w: Worker, n: Number, at: Ancestor, active: ValidatorSet): Worker
    requires Anchor(at)
  {
    if at.justified then
      w.(sessions := [Conclude(NewRounds(n, active), n)], bestBeefy := Some(n))
    else
      w.(sessions := [NewRounds(n, at.change.value)])
  }
}
