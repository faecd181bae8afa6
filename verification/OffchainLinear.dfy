/**
  Compare-and-set is linearizable: into the history of invocations, answers and plain writes, moments
  can be put at which the calls take effect, each between its invocation and its answer, such that in
  that order they are a sequential run. The database of that order is the real one, but for a key whose
  plain write a call has overwritten, and until the next plain write of it.
 */
module OffchainLinear {
  import opened Common
  import opened OffchainCas

  // ---- the sequential meaning ----

  /** One event after another; `None` if an answer is not the one a sequential run gives. */
  ghost function Replay(db: map<Bytes, Value>, lin: seq<Event>): Option<map<Bytes, Value>>
    decreases |lin|
  {
    if lin == [] then Some(db)
    else match Replay(db, lin[..|lin| - 1])
      case None => None
      case Some(now) => Effect(now, lin[|lin| - 1])
  }

  ghost function Effect(now: map<Bytes, Value>, event: Event): Option<map<Bytes, Value>> {
    match event
    case Took(_, op, isSet) =>
      if isSet != (Lookup(now, Key(op)) == op.expected) then None
      else Some(if isSet then now[Key(op) := op.update] else now)
    case Plain(key, value) => Some(Store(now, key, value))
    case _ => Some(now)
  }

  /** The history without the moments of effect. */
  ghost function Erased(lin: seq<Event>): seq<Event>
    decreases |lin|
  {
    if lin == [] then []
    else Erased(lin[..|lin| - 1]) + if lin[|lin| - 1].Took? then [] else [lin[|lin| - 1]]
  }

  /** Where a thread is in its call, judging by the events alone. */
  datatype Phase = Resting | Open(op: Op) | Taken(op: Op, isSet: bool) | Broken

  ghost function NextPhase(phase: Phase, event: Event, t: Tid): Phase {
    match event
    case Invoked(u, op) => if u != t then phase else if phase.Resting? then Open(op) else Broken
    case Took(u, op, isSet) => if u != t then phase else if phase == Open(op) then Taken(op, isSet) else Broken
    case Answered(u, isSet) =>
      if u != t then phase else if phase.Taken? && phase.isSet == isSet then Resting else Broken
    case Plain(_, _) => phase
  }

  ghost function PhaseOf(lin: seq<Event>, t: Tid): Phase
    decreases |lin|
  {
    if lin == [] then Resting else NextPhase(PhaseOf(lin[..|lin| - 1], t), lin[|lin| - 1], t)
  }

  lemma Appended(db: map<Bytes, Value>, lin: seq<Event>, event: Event, t: Tid)
    ensures PhaseOf(lin + [event], t) == NextPhase(PhaseOf(lin, t), event, t)
    ensures Erased(lin + [event]) == Erased(lin) + if event.Took? then [] else [event]
    ensures Replay(db, lin).Some? ==> Replay(db, lin + [event]) == Effect(Replay(db, lin).value, event)
  {
    assert (lin + [event])[..|lin|] == lin;
  }

  // ---- putting a moment in ----

  ghost function Inserted(lin: seq<Event>, p: nat, event: Event): seq<Event>
    requires p <= |lin|
  {
    lin[..p] + [event] + lin[p..]
  }

  ghost predicate ByThread(event: Event, t: Tid) {
    !event.Plain? && event.t == t
  }

  ghost predicate QuietFrom(lin: seq<Event>, p: nat, t: Tid) {
    forall j :: p <= j < |lin| ==> !ByThread(lin[j], t)
  }

  lemma InsertedInit(lin: seq<Event>, p: nat, event: Event)
    requires p < |lin|
    ensures
      var last := |lin| - 1;
      && Inserted(lin, p, event) == Inserted(lin[..last], p, event) + [lin[last]]
      && Inserted(lin, p, event)[..|lin|] == Inserted(lin[..last], p, event)
  {
    var last := |lin| - 1;
    assert lin[p..] == lin[..last][p..] + [lin[last]];
  }

  lemma {:induction false} InsertedErased(lin: seq<Event>, p: nat, event: Event)
    requires p <= |lin| && event.Took?
    ensures Erased(Inserted(lin, p, event)) == Erased(lin)
    decreases |lin|
  {
    if p == |lin| {
      assert Inserted(lin, p, event) == lin + [event];
      Appended(map[], lin, event, 0);
    } else {
      InsertedInit(lin, p, event);
      InsertedErased(lin[..|lin| - 1], p, event);
    }
  }

  /** Only the phase of the call itself moves on. */
  lemma {:induction false} InsertedPhase(lin: seq<Event>, p: nat, event: Event, t: Tid)
    requires p <= |lin| && event.Took? && (event.t == t ==> QuietFrom(lin, p, t))
    ensures PhaseOf(Inserted(lin, p, event), t) ==
            if event.t == t then NextPhase(PhaseOf(lin[..p], t), event, t) else PhaseOf(lin, t)
    decreases |lin|
  {
    if p == |lin| {
      assert lin[..p] == lin && Inserted(lin, p, event) == lin + [event];
      Appended(map[], lin, event, t);
    } else {
      var last := |lin| - 1;
      InsertedInit(lin, p, event);
      assert lin[..last][..p] == lin[..p];
      InsertedPhase(lin[..last], p, event, t);
      Appended(map[], Inserted(lin[..last], p, event), lin[last], t);
      assert event.t == t ==> !ByThread(lin[last], t);
    }
  }

  /** Equal but for one key. */
  ghost predicate AgreeOff(a: map<Bytes, Value>, b: map<Bytes, Value>, key: Bytes) {
    forall k: Bytes :: k != key ==> Lookup(a, k) == Lookup(b, k)
  }

  lemma SameMaps(a: map<Bytes, Value>, b: map<Bytes, Value>, key: Bytes)
    requires AgreeOff(a, b, key) && Lookup(a, key) == Lookup(b, key)
    ensures a == b
  {
    forall k: Bytes
      ensures k in a <==> k in b
      ensures k in a ==> a[k] == b[k]
    {
      assert Lookup(a, k) == Lookup(b, k);
    }
  }

  /** One event, seen with and without a call that took effect before. */
  lemma EffectAgrees(a: map<Bytes, Value>, b: map<Bytes, Value>, key: Bytes, event: Event)
    requires AgreeOff(a, b, key) && (event.Took? ==> Key(event.op) != key) && Effect(b, event).Some?
    ensures
      && Effect(a, event).Some? && AgreeOff(Effect(a, event).value, Effect(b, event).value, key)
      && var a', b' := Lookup(Effect(a, event).value, key), Lookup(Effect(b, event).value, key);
         a' == b' || (a' == Lookup(a, key) && b' == Lookup(b, key))
  {
    if event.Took? {
      assert Lookup(a, Key(event.op)) == Lookup(b, Key(event.op));
    }
    forall k: Bytes | k != key
      ensures Lookup(Effect(a, event).value, k) == Lookup(Effect(b, event).value, k)
    {
      assert Lookup(a, k) == Lookup(b, k);
    }
  }

  ghost predicate OthersFrom(lin: seq<Event>, p: nat, key: Bytes) {
    forall j :: p <= j < |lin| && lin[j].Took? ==> Key(lin[j].op) != key
  }

  /** With a successful call put in at `p`, the rest goes on as before, but for the call's key until that is written. */
  lemma {:induction false} InsertedReplay(db: map<Bytes, Value>, lin: seq<Event>, p: nat, t: Tid, op: Op)
    requires p <= |lin| && OthersFrom(lin, p, Key(op)) && Replay(db, lin).Some?
    requires Replay(db, lin[..p]).Some? && Lookup(Replay(db, lin[..p]).value, Key(op)) == op.expected
    ensures
      var a, b := Replay(db, Inserted(lin, p, Took(t, op, true))), Replay(db, lin).value;
      && a.Some? && AgreeOff(a.value, b, Key(op))
      && (Lookup(a.value, Key(op)) == Lookup(b, Key(op))
          || (Lookup(a.value, Key(op)) == Some(op.update) && Lookup(b, Key(op)) == op.expected))
    decreases |lin|
  {
    var event := Took(t, op, true);
    if p == |lin| {
      assert lin[..p] == lin && Inserted(lin, p, event) == lin + [event];
      Appended(db, lin, event, t);
    } else {
      var last := |lin| - 1;
      InsertedInit(lin, p, event);
      assert lin[..last][..p] == lin[..p];
      InsertedReplay(db, lin[..last], p, t, op);
      var a, b := Replay(db, Inserted(lin[..last], p, event)).value, Replay(db, lin[..last]).value;
      Appended(db, Inserted(lin[..last], p, event), lin[last], t);
      EffectAgrees(a, b, Key(op), lin[last]);
    }
  }

  // ---- the invariant ----

  ghost predicate Matches(pc: Pc, phase: Phase) {
    match pc
    case Idle => phase == Resting
    case Called(op) => phase == Open(op)
    case Handle(op, _) => phase == Open(op)
    case Locked(op, _) => phase == Open(op)
    case Got(op, _, found) => phase == if found == op.expected then Open(op) else Taken(op, false)
    case Written(op, _, isSet) => phase == Taken(op, isSet)
    case Released(op, _, isSet) => phase == Taken(op, isSet)
    case Returned(op, isSet) => phase == Taken(op, isSet)
  }

  ghost predicate PhaseOk(s: State, lin: seq<Event>, t: Tid) {
    Matches(PcOf(s, t), PhaseOf(lin, t))
  }

  /** From `p` on, where the key still held what the call expects, nobody else's call touched the key. */
  ghost predicate WindowAt(db: map<Bytes, Value>, lin: seq<Event>, t: Tid, op: Op, p: nat) {
    && p <= |lin| && PhaseOf(lin[..p], t) == Open(op) && QuietFrom(lin, p, t) && OthersFrom(lin, p, Key(op))
    && Replay(db, lin[..p]).Some? && Lookup(Replay(db, lin[..p]).value, Key(op)) == op.expected
  }

  ghost predicate WindowOk(s: State, db: map<Bytes, Value>, lin: seq<Event>, t: Tid) {
    Poised(PcOf(s, t)) ==> exists p :: WindowAt(db, lin, t, PcOf(s, t).op, p)
  }

  /** `lin` explains the state, and gives the database `now`. */
  ghost predicate Explains(s: State, db: map<Bytes, Value>, now: map<Bytes, Value>, lin: seq<Event>) {
    && Erased(lin) == s.events && Replay(db, lin) == Some(now)
    && (forall t: Tid :: PhaseOk(s, lin, t))
    && (forall t: Tid :: WindowOk(s, db, lin, t))
  }

  ghost predicate Protocol(s: State) {
    HandlesOk(s) && EntriesOk(s) && LocksOk(s) && OwnersOk(s)
  }

  /** A call that finds what it expects, at this moment, in the order of effects. */
  ghost predicate Finds(now: map<Bytes, Value>, op: Op) {
    Lookup(now, Key(op)) == op.expected
  }

  /** What a step does to the database of the order: a write whose value was taken away has had its effect before. */
  ghost function Ordered(s: State, now: map<Bytes, Value>, step: Step): map<Bytes, Value>
    requires Enabled(s, step)
  {
    match step
    case Write(t) =>
      var op := PcOf(s, t).op;
      if Poised(PcOf(s, t)) && Finds(now, op) then now[Key(op) := op.update] else now
    case PlainSet(key, value) => Store(now, key, value)
    case _ => now
  }

  /** The one thing asked of a run: a call finds what it expects exactly if it does so in the order. */
  ghost predicate Allowed(s: State, now: map<Bytes, Value>, step: Step) {
    Enabled(s, step) && (step.Get? ==> (Finds(s.db, PcOf(s, step.t).op) <==> Finds(now, PcOf(s, step.t).op)))
  }

  // ---- windows stay open ----

  lemma WindowGrows(db: map<Bytes, Value>, lin: seq<Event>, event: Event, t: Tid, op: Op, p: nat)
    requires WindowAt(db, lin, t, op, p) && !ByThread(event, t) && (event.Took? ==> Key(event.op) != Key(op))
    ensures WindowAt(db, lin + [event], t, op, p)
  {
    assert (lin + [event])[..p] == lin[..p];
  }

  /** A call for another key put in before the window. */
  lemma WindowMoves(db: map<Bytes, Value>, lin: seq<Event>, u: Tid, other: Op, q: nat, t: Tid, op: Op, p: nat)
    requires WindowAt(db, lin, t, op, p) && WindowAt(db, lin, u, other, q) && u != t && Key(other) != Key(op) && q < p
    ensures
      var pre := Inserted(lin, q, Took(u, other, true))[..p + 1];
      && PhaseOf(pre, t) == Open(op)
      && Replay(db, pre).Some? && Lookup(Replay(db, pre).value, Key(op)) == op.expected
  {
    var pre := lin[..p];
    assert Inserted(lin, q, Took(u, other, true))[..p + 1] == Inserted(pre, q, Took(u, other, true));
    assert pre[..q] == lin[..q];
    InsertedPhase(pre, q, Took(u, other, true), t);
    InsertedReplay(db, pre, q, u, other);
  }

  /** Another thread's call put in, for another key. */
  lemma WindowShifts(db: map<Bytes, Value>, lin: seq<Event>, u: Tid, other: Op, q: nat, t: Tid, op: Op, p: nat)
    requires WindowAt(db, lin, t, op, p) && WindowAt(db, lin, u, other, q) && u != t && Key(other) != Key(op)
    ensures WindowAt(db, Inserted(lin, q, Took(u, other, true)), t, op, if p <= q then p else p + 1)
  {
    if p <= q {
      assert Inserted(lin, q, Took(u, other, true))[..p] == lin[..p];
    } else {
      WindowMoves(db, lin, u, other, q, t, op, p);
    }
  }

  /** Poised threads are in the section of their key, so a call on that key is by another thread or none. */
  lemma PoisedAlone(s: State, t: Tid, u: Tid)
    requires Protocol(s) && Poised(PcOf(s, t)) && InSection(PcOf(s, u)) && t != u
    ensures Key(PcOf(s, t).op) != Key(PcOf(s, u).op)
  {
    if Key(PcOf(s, t).op) == Key(PcOf(s, u).op) {
      MutualExclusion(s, t, u);
    }
  }

  // ---- every step can be explained ----

  /** The event a step adds at the end, if any. */
  ghost function EventOf(s: State, step: Step): Option<Event>
    requires Enabled(s, step)
  {
    match step
    case Call(t, op) => Some(Invoked(t, op))
    case Get(t) =>
      var op := PcOf(s, t).op;
      if Lookup(s.db, Key(op)) == op.expected then None else Some(Took(t, op, false))
    case Write(t) => if Poised(PcOf(s, t)) then Some(Took(t, PcOf(s, t).op, true)) else None
    case Return(t) => Some(Answered(t, PcOf(s, t).isSet))
    case PlainSet(key, value) => Some(Plain(key, value))
    case _ => None
  }

  ghost function Extended(s: State, lin: seq<Event>, step: Step): seq<Event>
    requires Enabled(s, step)
  {
    var e := EventOf(s, step);
    if e.Some? then lin + [e.value] else lin
  }

  /** A poised thread's write comes last in the order if what it found is there; else before what took it away. */
  ghost predicate ComesLast(s: State, now: map<Bytes, Value>, step: Step) {
    step.Write? && Poised(PcOf(s, step.t)) ==> Finds(now, PcOf(s, step.t).op)
  }

  lemma EventFits(s: State, now: map<Bytes, Value>, step: Step)
    requires Allowed(s, now, step) && ComesLast(s, now, step)
    ensures
      var e, s' := EventOf(s, step), Apply(s, step);
      if e.Some? then
        && Effect(now, e.value) == Some(Ordered(s, now, step))
        && s'.events == s.events + if e.value.Took? then [] else [e.value]
      else
        Ordered(s, now, step) == now && s'.events == s.events
  {
  }

  lemma ExtendedReplays(s: State, db: map<Bytes, Value>, now: map<Bytes, Value>, lin: seq<Event>, step: Step)
    requires Erased(lin) == s.events && Replay(db, lin) == Some(now)
    requires Allowed(s, now, step) && ComesLast(s, now, step)
    ensures Erased(Extended(s, lin, step)) == Apply(s, step).events
    ensures Replay(db, Extended(s, lin, step)) == Some(Ordered(s, now, step))
  {
    EventFits(s, now, step);
    var e := EventOf(s, step);
    if e.Some? {
      Appended(db, lin, e.value, 0);
    }
  }

  lemma OwnPcMatches(s: State, step: Step, phase: Phase)
    requires Enabled(s, step) && !step.PlainSet? && Matches(PcOf(s, step.t), phase)
    ensures
      var e := EventOf(s, step);
      Matches(PcOf(Apply(s, step), step.t), if e.Some? then NextPhase(phase, e.value, step.t) else phase)
  {
  }

  lemma OtherPcSame(s: State, step: Step, t: Tid)
    requires Enabled(s, step) && (step.PlainSet? || step.t != t)
    ensures PcOf(Apply(s, step), t) == PcOf(s, t)
    ensures EventOf(s, step).Some? ==> !ByThread(EventOf(s, step).value, t)
  {
  }

  lemma ExtendedPhase(s: State, lin: seq<Event>, step: Step, t: Tid)
    requires Enabled(s, step) && PhaseOk(s, lin, t)
    ensures PhaseOk(Apply(s, step), Extended(s, lin, step), t)
  {
    var e := EventOf(s, step);
    if e.Some? {
      Appended(map[], lin, e.value, t);
    }
    if step.PlainSet? || step.t != t {
      OtherPcSame(s, step, t);
    } else {
      OwnPcMatches(s, step, PhaseOf(lin, t));
    }
  }

  lemma OtherWindowExtends(s: State, db: map<Bytes, Value>, lin: seq<Event>, step: Step, t: Tid)
    requires Protocol(s) && Enabled(s, step) && (step.PlainSet? || step.t != t) && WindowOk(s, db, lin, t)
    ensures WindowOk(Apply(s, step), db, Extended(s, lin, step), t)
  {
    OtherPcSame(s, step, t);
    var e := EventOf(s, step);
    if Poised(PcOf(s, t)) {
      var op := PcOf(s, t).op;
      var p :| WindowAt(db, lin, t, op, p);
      if e.Some? {
        if e.value.Took? {
          PoisedAlone(s, t, step.t);
        }
        WindowGrows(db, lin, e.value, t, op, p);
      }
      assert WindowAt(db, Extended(s, lin, step), t, op, p);
    }
  }

  /** A thread becomes poised by its read alone, and its window opens there. */
  lemma OwnWindowExtends(s: State, db: map<Bytes, Value>, now: map<Bytes, Value>, lin: seq<Event>, step: Step)
    requires Allowed(s, now, step) && !step.PlainSet? && PhaseOk(s, lin, step.t) && Replay(db, lin) == Some(now)
    ensures WindowOk(Apply(s, step), db, Extended(s, lin, step), step.t)
  {
    if Poised(PcOf(Apply(s, step), step.t)) {
      assert step.Get?;
      assert lin[..|lin|] == lin;
      assert WindowAt(db, Extended(s, lin, step), step.t, PcOf(s, step.t).op, |lin|);
    }
  }

  lemma ExtendedExplains(s: State, db: map<Bytes, Value>, now: map<Bytes, Value>, lin: seq<Event>, step: Step)
    requires Protocol(s) && Explains(s, db, now, lin) && Allowed(s, now, step) && ComesLast(s, now, step)
    ensures Explains(Apply(s, step), db, Ordered(s, now, step), Extended(s, lin, step))
  {
    ExtendedReplays(s, db, now, lin, step);
    forall t: Tid
      ensures PhaseOk(Apply(s, step), Extended(s, lin, step), t)
      ensures WindowOk(Apply(s, step), db, Extended(s, lin, step), t)
    {
      assert PhaseOk(s, lin, t) && WindowOk(s, db, lin, t);
      ExtendedPhase(s, lin, step, t);
      if step.PlainSet? || step.t != t {
        OtherWindowExtends(s, db, lin, step, t);
      } else {
        OwnWindowExtends(s, db, now, lin, step);
      }
    }
  }

  /** A plain write has taken away what the thread found: the call took effect before it. */
  lemma InsertedExplains(s: State, db: map<Bytes, Value>, now: map<Bytes, Value>, lin: seq<Event>, t: Tid, p: nat)
    requires Protocol(s) && Explains(s, db, now, lin) && Poised(PcOf(s, t)) && !Finds(now, PcOf(s, t).op)
    requires WindowAt(db, lin, t, PcOf(s, t).op, p)
    ensures Explains(WriteStep(s, t), db, now, Inserted(lin, p, Took(t, PcOf(s, t).op, true)))
  {
    var op, s' := PcOf(s, t).op, WriteStep(s, t);
    var event := Took(t, op, true);
    var lin' := Inserted(lin, p, event);
    InsertedErased(lin, p, event);
    InsertedReplay(db, lin, p, t, op);
    SameMaps(Replay(db, lin').value, now, Key(op));
    forall u: Tid
      ensures PhaseOk(s', lin', u) && WindowOk(s', db, lin', u)
    {
      assert PhaseOk(s, lin, u) && WindowOk(s, db, lin, u);
      InsertedPhase(lin, p, event, u);
      if u != t && Poised(PcOf(s, u)) {
        PoisedAlone(s, u, t);
        var q :| WindowAt(db, lin, u, PcOf(s, u).op, q);
        WindowShifts(db, lin, t, op, p, u, PcOf(s, u).op, q);
      }
    }
  }

  /** Every allowed step can be explained, given that everything before it is. */
  lemma StepExplained(s: State, db: map<Bytes, Value>, now: map<Bytes, Value>, lin: seq<Event>, step: Step)
    returns (lin': seq<Event>)
    requires Protocol(s) && Explains(s, db, now, lin) && Allowed(s, now, step)
    ensures Explains(Apply(s, step), db, Ordered(s, now, step), lin')
  {
    if ComesLast(s, now, step) {
      ExtendedExplains(s, db, now, lin, step);
      lin' := Extended(s, lin, step);
    } else {
      assert WindowOk(s, db, lin, step.t);
      var p :| WindowAt(db, lin, step.t, PcOf(s, step.t).op, p);
      InsertedExplains(s, db, now, lin, step.t, p);
      lin' := Inserted(lin, p, Took(step.t, PcOf(s, step.t).op, true));
    }
  }

  // ---- when the order gives the real database ----

  /** Overwriting a value that is neither what the thread found nor what it writes. */
  ghost predicate Overwrites(s: State, now: map<Bytes, Value>, t: Tid) {
    var pc := PcOf(s, t);
    Poised(pc) && !Finds(now, pc.op) && Lookup(now, Key(pc.op)) != Some(pc.op.update)
  }

  ghost predicate WritesKey(s: State, step: Step, key: Bytes) {
    step.Write? && Poised(PcOf(s, step.t)) && Key(PcOf(s, step.t).op) == key
  }

  /**
    A key has its real value in the order's database after a plain write of it, and after a call's write
    exactly when that did not overwrite another plain write; other steps change nothing about it.
   */
  lemma InStepExactly(s: State, now: map<Bytes, Value>, step: Step, key: Bytes)
    requires Enabled(s, step)
    ensures Lookup(Apply(s, step).db, key) == Lookup(Ordered(s, now, step), key) <==>
            if step.PlainSet? && step.key == key then true
            else if WritesKey(s, step, key) then !Overwrites(s, now, step.t)
            else Lookup(s.db, key) == Lookup(now, key)
  {
  }

  // ---- whole runs ----

  ghost predicate RunEnabled(s: State, steps: seq<Step>)
    decreases |steps|
  {
    steps != [] ==> Enabled(s, steps[0]) && RunEnabled(Apply(s, steps[0]), steps[1..])
  }

  ghost function Run(s: State, steps: seq<Step>): State
    requires RunEnabled(s, steps)
    decreases |steps|
  {
    if steps == [] then s else Run(Apply(s, steps[0]), steps[1..])
  }

  ghost predicate RunAllowed(s: State, now: map<Bytes, Value>, steps: seq<Step>)
    requires RunEnabled(s, steps)
    decreases |steps|
  {
    steps != [] ==> Allowed(s, now, steps[0]) && RunAllowed(Apply(s, steps[0]), Ordered(s, now, steps[0]), steps[1..])
  }

  /** The database of the order after the run. */
  ghost function RunOrdered(s: State, now: map<Bytes, Value>, steps: seq<Step>): map<Bytes, Value>
    requires RunEnabled(s, steps)
    decreases |steps|
  {
    if steps == [] then now else RunOrdered(Apply(s, steps[0]), Ordered(s, now, steps[0]), steps[1..])
  }

  lemma ProtocolKept(s: State, step: Step)
    requires Protocol(s) && Enabled(s, step)
    ensures Protocol(Apply(s, step))
  {
    LockMapKept(s, step);
    OwnersKept(s, step);
  }

  lemma {:induction false} RunKeepsProtocol(s: State, steps: seq<Step>)
    requires Protocol(s) && RunEnabled(s, steps)
    ensures Protocol(Run(s, steps))
    decreases |steps|
  {
    if steps != [] {
      ProtocolKept(s, steps[0]);
      RunKeepsProtocol(Apply(s, steps[0]), steps[1..]);
    }
  }

  lemma InitialProtocol(db: map<Bytes, Value>)
    ensures Protocol(Initial(db))
  {
    var s := Initial(db);
    assert forall t: Tid :: HandleOk(s, t) && SectionOk(s, t);
    assert forall l: LockId :: OwnerOk(s, l);
  }

  lemma {:induction false} RunExplained(
      s: State, db: map<Bytes, Value>, now: map<Bytes, Value>, lin: seq<Event>, steps: seq<Step>)
    returns (lin': seq<Event>)
    requires Protocol(s) && Explains(s, db, now, lin) && RunEnabled(s, steps) && RunAllowed(s, now, steps)
    ensures Explains(Run(s, steps), db, RunOrdered(s, now, steps), lin')
    decreases |steps|
  {
    if steps == [] {
      lin' := lin;
    } else {
      lin' := StepExplained(s, db, now, lin, steps[0]);
      ProtocolKept(s, steps[0]);
      lin' := RunExplained(Apply(s, steps[0]), db, Ordered(s, now, steps[0]), lin', steps[1..]);
    }
  }

  // ---- linearizability ----

  lemma {:induction false} OpenMeans(lin: seq<Event>, t: Tid) returns (i: nat)
    requires PhaseOf(lin, t).Open?
    ensures i < |lin| && lin[i] == Invoked(t, PhaseOf(lin, t).op) && QuietFrom(lin, i + 1, t)
    decreases |lin|
  {
    var last := |lin| - 1;
    if ByThread(lin[last], t) {
      i := last;
    } else {
      i := OpenMeans(lin[..last], t);
    }
  }

  lemma {:induction false} TakenMeans(lin: seq<Event>, t: Tid) returns (i: nat, j: nat)
    requires PhaseOf(lin, t).Taken?
    ensures i < j < |lin| && lin[i] == Invoked(t, PhaseOf(lin, t).op)
    ensures lin[j] == Took(t, PhaseOf(lin, t).op, PhaseOf(lin, t).isSet)
    ensures QuietFrom(lin, j + 1, t) && (forall k :: i < k < j ==> !ByThread(lin[k], t))
    decreases |lin|
  {
    var last := |lin| - 1;
    if ByThread(lin[last], t) {
      j := last;
      i := OpenMeans(lin[..last], t);
    } else {
      i, j := TakenMeans(lin[..last], t);
    }
  }

  lemma {:induction false} BrokenStays(lin: seq<Event>, n: nat, t: Tid)
    requires n <= |lin| && PhaseOf(lin, t) != Broken
    ensures PhaseOf(lin[..n], t) != Broken
    decreases |lin|
  {
    if n == |lin| {
      assert lin[..n] == lin;
    } else {
      var last := |lin| - 1;
      BrokenStays(lin[..last], n, t);
      assert lin[..last][..n] == lin[..n];
    }
  }

  /** The answer at `n` is that of the thread's call at `i`, which took effect once in between, at `j`. */
  ghost predicate Bracketed(lin: seq<Event>, i: nat, j: nat, n: nat)
    requires n < |lin| && lin[n].Answered?
  {
    && i < j < n && lin[i].Invoked? && lin[i].t == lin[n].t && lin[j] == Took(lin[n].t, lin[i].op, lin[n].isSet)
    && (forall k :: i < k < n && k != j ==> !ByThread(lin[k], lin[n].t))
  }

  lemma AnswerBracketed(s: State, db: map<Bytes, Value>, now: map<Bytes, Value>, lin: seq<Event>, n: nat)
    requires Explains(s, db, now, lin) && n < |lin| && lin[n].Answered?
    ensures exists i, j :: Bracketed(lin, i, j, n)
  {
    var t := lin[n].t;
    assert PhaseOk(s, lin, t);
    BrokenStays(lin, n + 1, t);
    var before := lin[..n];
    assert lin[..n + 1] == before + [lin[n]];
    Appended(db, before, lin[n], t);
    var i, j := TakenMeans(before, t);
    assert forall k :: j < k < n ==> before[k] == lin[k];
    assert Bracketed(lin, i, j, n);
  }

  /**
    The history of every allowed run has moments of effect: each answer comes after its call took effect
    with that very result, which comes after it was invoked; and in that order the effects are a
    sequential run from the initial database to that of the order.
   */
  lemma Linearizable(db: map<Bytes, Value>, steps: seq<Step>) returns (lin: seq<Event>)
    requires RunEnabled(Initial(db), steps) && RunAllowed(Initial(db), db, steps)
    ensures Erased(lin) == Run(Initial(db), steps).events
    ensures Replay(db, lin) == Some(RunOrdered(Initial(db), db, steps))
    ensures forall n :: 0 <= n < |lin| && lin[n].Answered? ==> exists i, j :: Bracketed(lin, i, j, n)
  {
    InitialProtocol(db);
    lin := [];
    assert Explains(Initial(db), db, db, lin) by {
      assert forall t: Tid :: PhaseOk(Initial(db), lin, t) && WindowOk(Initial(db), db, lin, t);
    }
    lin := RunExplained(Initial(db), db, db, lin, steps);
    forall n | 0 <= n < |lin| && lin[n].Answered?
      ensures exists i, j :: Bracketed(lin, i, j, n)
    {
      AnswerBracketed(Run(Initial(db), steps), db, RunOrdered(Initial(db), db, steps), lin, n);
    }
  }

  // ---- which writes can be explained ----

  /** One event with a call taken before it: the two runs agree on its key afterwards, or nothing there has changed. */
  lemma EffectMerges(a: map<Bytes, Value>, b: map<Bytes, Value>, key: Bytes, event: Event)
    requires Effect(a, event).Some? && Effect(b, event).Some?
    requires AgreeOff(a, b, key)
    ensures
      var a', b' := Effect(a, event).value, Effect(b, event).value;
      && AgreeOff(a', b', key)
      && (Lookup(a', key) == Lookup(b', key) || (Lookup(a', key) == Lookup(a, key) && Lookup(b', key) == Lookup(b, key)))
  {
    if event.Took? && Key(event.op) != key {
      assert Lookup(a, Key(event.op)) == Lookup(b, Key(event.op));
    }
    forall k: Bytes | k != key
      ensures Lookup(Effect(a, event).value, k) == Lookup(Effect(b, event).value, k)
    {
      assert Lookup(a, k) == Lookup(b, k);
    }
  }

  /**
    Wherever a successful call is put in: if that run stands, its key ends as without the call, or still
    holds the call's value where it held the expected one.
   */
  lemma {:induction false} InsertedMeans(db: map<Bytes, Value>, lin: seq<Event>, p: nat, t: Tid, op: Op)
    requires p <= |lin| && Replay(db, lin).Some? && Replay(db, Inserted(lin, p, Took(t, op, true))).Some?
    ensures
      var a, b := Replay(db, Inserted(lin, p, Took(t, op, true))).value, Replay(db, lin).value;
      && AgreeOff(a, b, Key(op))
      && (Lookup(a, Key(op)) == Lookup(b, Key(op))
          || (Lookup(a, Key(op)) == Some(op.update) && Lookup(b, Key(op)) == op.expected))
    decreases |lin|
  {
    var event := Took(t, op, true);
    if p == |lin| {
      assert Inserted(lin, p, event) == lin + [event];
      Appended(db, lin, event, t);
    } else {
      var last := |lin| - 1;
      InsertedInit(lin, p, event);
      InsertedMeans(db, lin[..last], p, t, op);
      var a, b := Replay(db, Inserted(lin[..last], p, event)).value, Replay(db, lin[..last]).value;
      Appended(db, Inserted(lin[..last], p, event), lin[last], t);
      EffectMerges(a, b, Key(op), lin[last]);
    }
  }

  ghost predicate Fits(s: State, db: map<Bytes, Value>, lin: seq<Event>, t: Tid, p: nat)
    requires PcOf(s, t).Got? && p <= |lin|
  {
    Replay(db, Inserted(lin, p, Took(t, PcOf(s, t).op, true))) == Some(WriteStep(s, t).db)
  }

  /**
    In any order that explains the run so far, a poised thread's write has a place that gives the real
    database exactly when it does not overwrite a value that is neither what it found nor what it writes.
   */
  lemma WriteExact(s: State, db: map<Bytes, Value>, lin: seq<Event>, t: Tid)
    requires Protocol(s) && Explains(s, db, s.db, lin) && Poised(PcOf(s, t))
    ensures (exists p :: 0 <= p <= |lin| && Fits(s, db, lin, t, p)) <==> !Overwrites(s, s.db, t)
  {
    var op := PcOf(s, t).op;
    if Finds(s.db, op) {
      assert Inserted(lin, |lin|, Took(t, op, true)) == lin + [Took(t, op, true)];
      Appended(db, lin, Took(t, op, true), t);
      assert Fits(s, db, lin, t, |lin|);
    } else if !Overwrites(s, s.db, t) {
      assert WindowOk(s, db, lin, t);
      var p :| WindowAt(db, lin, t, op, p);
      InsertedExplains(s, db, s.db, lin, t, p);
      assert WriteStep(s, t).db == s.db;
      assert Fits(s, db, lin, t, p);
    }
    if p :| 0 <= p <= |lin| && Fits(s, db, lin, t, p) {
      InsertedMeans(db, lin, p, t, op);
      assert Lookup(WriteStep(s, t).db, Key(op)) == Some(op.update);
    }
  }

  /** A plain write spares a thread that is about to write if it leaves there what the thread found. */
  ghost predicate Spares(s: State, key: Bytes, value: Option<Value>) {
    forall t: Tid :: !Disturbs(s, t, key, value)
  }

  ghost predicate Disturbs(s: State, t: Tid, key: Bytes, value: Option<Value>) {
    Poised(PcOf(s, t)) && Key(PcOf(s, t).op) == key && value != PcOf(s, t).op.expected
  }

  ghost predicate RunSparing(s: State, steps: seq<Step>)
    requires RunEnabled(s, steps)
    decreases |steps|
  {
    steps != [] ==>
      && (steps[0].PlainSet? ==> Spares(s, steps[0].key, steps[0].value))
      && RunSparing(Apply(s, steps[0]), steps[1..])
  }

  /** What a poised thread has found is still there. */
  ghost predicate ReadOk(s: State, t: Tid) {
    var pc := PcOf(s, t);
    Poised(pc) ==> Lookup(s.db, Key(pc.op)) == pc.op.expected
  }

  lemma ReadKept(s: State, step: Step, t: Tid)
    requires Protocol(s) && ReadOk(s, t) && Enabled(s, step)
    requires step.PlainSet? ==> !Disturbs(s, t, step.key, step.value)
    ensures ReadOk(Apply(s, step), t)
  {
    if step.Write? && step.t != t && Poised(PcOf(s, t)) {
      PoisedAlone(s, t, step.t);
    }
  }

  lemma SparingStepInStep(s: State, step: Step)
    requires Enabled(s, step) && (step.Write? ==> ReadOk(s, step.t))
    ensures Allowed(s, s.db, step) && Ordered(s, s.db, step) == Apply(s, step).db
  {
  }

  /**
    Runs whose plain writes spare the threads about to write are allowed, and their order gives the real
    database; runs of calls alone are among them.
   */
  lemma {:induction false} SparingRunsAllowed(s: State, steps: seq<Step>)
    requires Protocol(s) && (forall t: Tid :: ReadOk(s, t)) && RunEnabled(s, steps) && RunSparing(s, steps)
    ensures RunAllowed(s, s.db, steps) && RunOrdered(s, s.db, steps) == Run(s, steps).db
    decreases |steps|
  {
    if steps != [] {
      var s' := Apply(s, steps[0]);
      forall t: Tid
        ensures ReadOk(s', t)
      {
        assert ReadOk(s, t);
        ReadKept(s, steps[0], t);
      }
      assert steps[0].Write? ==> ReadOk(s, steps[0].t);
      SparingStepInStep(s, steps[0]);
      ProtocolKept(s, steps[0]);
      SparingRunsAllowed(s', steps[1..]);
    }
  }

  // ---- the lock map ----

  /** At any time all references to a key's lock are to one lock, and the map has an entry exactly for the keys in use. */
  lemma LockMapExact(db: map<Bytes, Value>, steps: seq<Step>, key: Bytes)
    requires RunEnabled(Initial(db), steps)
    ensures
      var s := Run(Initial(db), steps);
      && (key in s.locks <==> Used(s, key))
      && (forall t: Tid, u: Tid :: Uses(s, t, key) && Uses(s, u, key) ==> PcOf(s, t).lock == PcOf(s, u).lock)
  {
    InitialProtocol(db);
    RunKeepsProtocol(Initial(db), steps);
    var s := Run(Initial(db), steps);
    forall t: Tid | Uses(s, t, key)
      ensures key in s.locks && PcOf(s, t).lock == s.locks[key]
    {
      assert HandleOk(s, t);
    }
  }

  /** Once every thread has returned, the lock map is empty and no lock is held. */
  lemma QuiescentMapEmpty(db: map<Bytes, Value>, steps: seq<Step>)
    requires RunEnabled(Initial(db), steps)
    requires forall t: Tid :: !HasHandle(PcOf(Run(Initial(db), steps), t))
    ensures Run(Initial(db), steps).locks == map[] && Run(Initial(db), steps).owner == map[]
  {
    InitialProtocol(db);
    RunKeepsProtocol(Initial(db), steps);
    var s := Run(Initial(db), steps);
    assert forall key :: key in s.locks ==> Used(s, key);
    forall l: LockId
      ensures l !in s.owner
    {
      assert OwnerOk(s, l);
    }
  }

  /** The step a thread takes next, if it is not waiting for a lock. */
  function NextStep(pc: Pc, t: Tid): Step
    requires !pc.Idle?
  {
    match pc
    case Called(_) => Acquire(t)
    case Handle(_, _) => LockKey(t)
    case Locked(_, _) => Get(t)
    case Got(_, _, _) => Write(t)
    case Written(_, _, _) => Unlock(t)
    case Released(_, _, _) => Cleanup(t)
    case Returned(_, _) => Return(t)
  }

  /** No deadlock: while a call is under way some thread can go on. */
  lemma SomeoneMoves(db: map<Bytes, Value>, steps: seq<Step>, t: Tid) returns (u: Tid)
    requires RunEnabled(Initial(db), steps) && !PcOf(Run(Initial(db), steps), t).Idle?
    ensures
      var s := Run(Initial(db), steps);
      !PcOf(s, u).Idle? && Enabled(s, NextStep(PcOf(s, u), u))
  {
    InitialProtocol(db);
    RunKeepsProtocol(Initial(db), steps);
    var s := Run(Initial(db), steps);
    var pc := PcOf(s, t);
    if pc.Handle? && pc.lock in s.owner {
      assert OwnerOk(s, pc.lock);
      u := s.owner[pc.lock];
    } else {
      u := t;
    }
  }

  // ---- an example ----

  const SWAP := Op([], [1], None, [7])

  /** A thread has found that key 1 is absent, as it expects, and is about to set it. */
  const MIDWAY := State(map[], map[[1] := 0], map[0 := 0], map[0 := Got(SWAP, 0, None)], 1, [Invoked(0, SWAP)])

  lemma MidwayReached()
    ensures
      var steps := [Call(0, SWAP), Acquire(0), LockKey(0), Get(0)];
      RunEnabled(Initial(map[]), steps) && Run(Initial(map[]), steps) == MIDWAY
  {
    var steps := [Call(0, SWAP), Acquire(0), LockKey(0), Get(0)];
    assert Key(SWAP) == [1];
    var s1 := Apply(Initial(map[]), steps[0]);
    var s2 := Apply(s1, steps[1]);
    var s3 := Apply(s2, steps[2]);
    assert Apply(s3, steps[3]) == MIDWAY;
    assert steps[1..][1..] == steps[2..] && steps[2..][1..] == steps[3..] && steps[3..][1..] == [];
    assert Run(s3, steps[3..]) == Run(MIDWAY, []);
    assert Run(s2, steps[2..]) == Run(s3, steps[3..]);
  }

  lemma MidwayExplained()
    ensures Protocol(MIDWAY) && Explains(MIDWAY, map[], map[], [Invoked(0, SWAP)])
  {
    var lin := [Invoked(0, SWAP)];
    assert Key(SWAP) == [1] && lin[..0] == [] && lin[..1] == lin;
    forall t: Tid
      ensures HandleOk(MIDWAY, t) && SectionOk(MIDWAY, t) && PhaseOk(MIDWAY, lin, t) && WindowOk(MIDWAY, map[], lin, t)
    {
      assert PhaseOf([], t) == Resting;
      assert t == 0 ==> WindowAt(map[], lin, t, SWAP, 1);
    }
    assert forall l: LockId :: OwnerOk(MIDWAY, l);
    assert Uses(MIDWAY, 0, [1]);
  }

  const OVERWRITTEN := MIDWAY.(db := map[[1] := [9]], events := [Invoked(0, SWAP), Plain([1], Some([9]))])

  lemma OverwrittenExplained()
    ensures Apply(MIDWAY, PlainSet([1], Some([9]))) == OVERWRITTEN
    ensures Protocol(OVERWRITTEN) && Explains(OVERWRITTEN, map[], OVERWRITTEN.db, OVERWRITTEN.events)
  {
    var write := PlainSet([1], Some([9]));
    MidwayExplained();
    ExtendedExplains(MIDWAY, map[], map[], MIDWAY.events, write);
    ProtocolKept(MIDWAY, write);
    assert Extended(MIDWAY, MIDWAY.events, write) == OVERWRITTEN.events;
  }

  /** A plain write of another value in between is lost, although the call reports success. */
  lemma PlainWriteBetweenIsLost()
    ensures
      var steps := [Call(0, SWAP), Acquire(0), LockKey(0), Get(0)];
      && RunEnabled(Initial(map[]), steps)
      && Apply(Run(Initial(map[]), steps), PlainSet([1], Some([9]))) == OVERWRITTEN
    ensures WriteStep(OVERWRITTEN, 0).db == map[[1] := [7]] && PcOf(WriteStep(OVERWRITTEN, 0), 0).isSet
    ensures forall p :: 0 <= p <= 2 ==> !Fits(OVERWRITTEN, map[], OVERWRITTEN.events, 0, p)
  {
    MidwayReached();
    OverwrittenExplained();
    assert Key(SWAP) == [1] && Lookup(OVERWRITTEN.db, [1]) == Some([9]);
    WriteExact(OVERWRITTEN, map[], OVERWRITTEN.events, 0);
  }
}
