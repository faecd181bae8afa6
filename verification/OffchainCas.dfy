/**
  Compare-and-set on the offchain database: any number of threads, each taking a per-key lock that
  is created on demand and removed by the last one to use it. Steps of threads interleave freely.
 */
module OffchainCas {
  import opened Common

  type Bytes = seq<Byte>
  type Value = Bytes
  type Tid = nat
  type LockId = nat

  /** The database key is the prefix followed by the item's key. */
  function Concatenate(prefix: Bytes, key: Bytes): Bytes {
    prefix + key
  }

  datatype Op = Op(prefix: Bytes, item: Bytes, expected: Option<Value>, update: Value)

  function Key(op: Op): Bytes {
    Concatenate(op.prefix, op.item)
  }

  /** Where a thread is in `compare_and_set`. */
  datatype Pc =
    | Idle
    | Called(op: Op)
    | Handle(op: Op, lock: LockId)
    | Locked(op: Op, lock: LockId)
    | Got(op: Op, lock: LockId, found: Option<Value>)
    | Written(op: Op, lock: LockId, isSet: bool)
    | Released(op: Op, lock: LockId, isSet: bool)
    | Returned(op: Op, isSet: bool)

  /** Holds a reference to the key's lock. */
  predicate HasHandle(pc: Pc) {
    pc.Handle? || pc.Locked? || pc.Got? || pc.Written? || pc.Released?
  }

  /** Holds the lock itself. */
  predicate InSection(pc: Pc) {
    pc.Locked? || pc.Got? || pc.Written?
  }

  /** What the outside sees of calls and plain writes; `Took` is the moment a call is said to take effect. */
  datatype Event =
    | Invoked(t: Tid, op: Op)
    | Answered(t: Tid, isSet: bool)
    | Plain(key: Bytes, value: Option<Value>)
    | Took(t: Tid, op: Op, isSet: bool)

  datatype State = State(
    db: map<Bytes, Value>,
    locks: map<Bytes, LockId>,
    owner: map<LockId, Tid>,
    pcs: map<Tid, Pc>,
    next: LockId,
    events: seq<Event>)

  function PcOf(s: State, t: Tid): Pc {
    if t in s.pcs then s.pcs[t] else Idle
  }

  function Lookup(db: map<Bytes, Value>, key: Bytes): Option<Value> {
    if key in db then Some(db[key]) else None
  }

  function Store(db: map<Bytes, Value>, key: Bytes, value: Option<Value>): map<Bytes, Value> {
    match value
    case Some(v) => db[key := v]
    case None => db - {key}
  }

  function Initial(db: map<Bytes, Value>): State {
    State(db, map[], map[], map[], 0, [])
  }

  // ---- the steps ----

  datatype Step =
    | Call(t: Tid, op: Op)
    | Acquire(t: Tid)
    | LockKey(t: Tid)
    | Get(t: Tid)
    | Write(t: Tid)
    | Unlock(t: Tid)
    | Cleanup(t: Tid)
    | Return(t: Tid)
    | PlainSet(key: Bytes, value: Option<Value>)

  predicate Enabled(s: State, step: Step) {
    match step
    case Call(t, _) => PcOf(s, t).Idle?
    case Acquire(t) => PcOf(s, t).Called?
    case LockKey(t) => PcOf(s, t).Handle? && PcOf(s, t).lock !in s.owner
    case Get(t) => PcOf(s, t).Locked?
    case Write(t) => PcOf(s, t).Got?
    case Unlock(t) => PcOf(s, t).Written?
    case Cleanup(t) => PcOf(s, t).Released?
    case Return(t) => PcOf(s, t).Returned?
    case PlainSet(_, _) => true
  }

  function Move(s: State, t: Tid, pc: Pc): State {
    s.(pcs := s.pcs[t := pc])
  }

  /** Under the map's mutex: the entry's lock, or a new one. */
  function AcquireStep(s: State, t: Tid): State
    requires PcOf(s, t).Called?
  {
    var op := PcOf(s, t).op;
    if Key(op) in s.locks then Move(s, t, Handle(op, s.locks[Key(op)]))
    else Move(s, t, Handle(op, s.next)).(locks := s.locks[Key(op) := s.next], next := s.next + 1)
  }

  function WriteStep(s: State, t: Tid): State
    requires PcOf(s, t).Got?
  {
    var pc := PcOf(s, t);
    var isSet := pc.found == pc.op.expected;
    Move(s, t, Written(pc.op, pc.lock, isSet)).(db := if isSet then s.db[Key(pc.op) := pc.op.update] else s.db)
  }

  /** No thread refers to the lock: the map's own reference is the only one. */
  ghost predicate Unshared(s: State, lock: LockId) {
    forall t: Tid :: !Refers(s, t, lock)
  }

  ghost predicate Refers(s: State, t: Tid, lock: LockId) {
    HasHandle(PcOf(s, t)) && PcOf(s, t).lock == lock
  }

  /** Under the map's mutex: drops the reference, then the entry if nobody else refers to it. */
  ghost function CleanupStep(s: State, t: Tid): State
    requires PcOf(s, t).Released?
  {
    var pc := PcOf(s, t);
    var dropped := Move(s, t, Returned(pc.op, pc.isSet));
    if Key(pc.op) in s.locks && Unshared(dropped, s.locks[Key(pc.op)])
    then dropped.(locks := s.locks - {Key(pc.op)})
    else dropped
  }

  ghost function Apply(s: State, step: Step): State
    requires Enabled(s, step)
  {
    match step
    case Call(t, op) => Move(s, t, Called(op)).(events := s.events + [Invoked(t, op)])
    case Acquire(t) => AcquireStep(s, t)
    case LockKey(t) =>
      var pc := PcOf(s, t);
      Move(s, t, Locked(pc.op, pc.lock)).(owner := s.owner[pc.lock := t])
    case Get(t) =>
      var pc := PcOf(s, t);
      Move(s, t, Got(pc.op, pc.lock, Lookup(s.db, Key(pc.op))))
    case Write(t) => WriteStep(s, t)
    case Unlock(t) =>
      var pc := PcOf(s, t);
      Move(s, t, Released(pc.op, pc.lock, pc.isSet)).(owner := s.owner - {pc.lock})
    case Cleanup(t) => CleanupStep(s, t)
    case Return(t) => Move(s, t, Idle).(events := s.events + [Answered(t, PcOf(s, t).isSet)])
    case PlainSet(key, value) => s.(db := Store(s.db, key, value), events := s.events + [Plain(key, value)])
  }

  /**
    A call reads and writes the database under its prefix followed by its item's key: a read notes what
    is there, and a write changes that key alone, if the call found what it expects.
   */
  lemma CallTouchesItsKey(s: State, t: Tid, key: Bytes)
    ensures PcOf(s, t).Locked? ==>
              var op, s' := PcOf(s, t).op, Apply(s, Get(t));
              s'.db == s.db && PcOf(s', t).Got? && PcOf(s', t).op == op
              && PcOf(s', t).found == Lookup(s.db, op.prefix + op.item)
    ensures PcOf(s, t).Got? ==>
              var pc, s' := PcOf(s, t), Apply(s, Write(t));
              Lookup(s'.db, key) ==
                if key == pc.op.prefix + pc.op.item && pc.found == pc.op.expected then Some(pc.op.update)
                else Lookup(s.db, key)
  {
  }

  // ---- what every step keeps ----

  /** Whoever refers to a lock refers to the one in the map. */
  ghost predicate HandlesOk(s: State) {
    forall t: Tid :: HandleOk(s, t)
  }

  ghost predicate HandleOk(s: State, t: Tid) {
    var pc := PcOf(s, t);
    HasHandle(pc) ==> Key(pc.op) in s.locks && s.locks[Key(pc.op)] == pc.lock
  }

  ghost predicate Uses(s: State, t: Tid, key: Bytes) {
    HasHandle(PcOf(s, t)) && Key(PcOf(s, t).op) == key
  }

  ghost predicate Used(s: State, key: Bytes) {
    exists t: Tid :: Uses(s, t, key)
  }

  /** An entry is there only while somebody uses it. */
  ghost predicate EntriesOk(s: State) {
    forall key :: key in s.locks ==> Used(s, key)
  }

  ghost predicate LocksOk(s: State) {
    && (forall key :: key in s.locks ==> s.locks[key] < s.next)
    && (forall a, b :: a in s.locks && b in s.locks && s.locks[a] == s.locks[b] ==> a == b)
  }

  /** A thread is in the section of a lock exactly when it owns the lock. */
  ghost predicate OwnersOk(s: State) {
    && (forall t: Tid :: SectionOk(s, t))
    && (forall l: LockId :: OwnerOk(s, l))
  }

  ghost predicate SectionOk(s: State, t: Tid) {
    var pc := PcOf(s, t);
    InSection(pc) ==> pc.lock in s.owner && s.owner[pc.lock] == t
  }

  ghost predicate OwnerOk(s: State, l: LockId) {
    l in s.owner ==> InSection(PcOf(s, s.owner[l])) && PcOf(s, s.owner[l]).lock == l
  }

  /** About to write, having found what it expects. */
  ghost predicate Poised(pc: Pc) {
    pc.Got? && pc.found == pc.op.expected
  }

  /** Only thread `t` has moved. */
  ghost predicate Moved(s: State, s': State, t: Tid) {
    forall u: Tid :: u != t ==> PcOf(s', u) == PcOf(s, u)
  }

  ghost predicate SameHandle(a: Pc, b: Pc) {
    HasHandle(a) == HasHandle(b) && (HasHandle(a) ==> a.op == b.op && a.lock == b.lock)
  }

  ghost predicate SameSection(a: Pc, b: Pc) {
    InSection(a) == InSection(b) && (InSection(a) ==> a.op == b.op && a.lock == b.lock)
  }

  // ---- the lock map ----

  lemma SameHandleKeeps(s: State, s': State, t: Tid)
    requires HandlesOk(s) && EntriesOk(s) && s'.locks == s.locks
    requires Moved(s, s', t) && SameHandle(PcOf(s, t), PcOf(s', t))
    ensures HandlesOk(s') && EntriesOk(s')
  {
    forall u: Tid
      ensures HandleOk(s', u)
    {
      assert HandleOk(s, u) && (u == t || PcOf(s', u) == PcOf(s, u));
    }
    forall key | key in s'.locks
      ensures Used(s', key)
    {
      assert Used(s, key);
      var u: Tid :| Uses(s, u, key);
      assert Uses(s', u, key);
    }
  }

  lemma AcquireKeepsHandles(s: State, t: Tid)
    requires HandlesOk(s) && PcOf(s, t).Called?
    ensures HandlesOk(AcquireStep(s, t)) && Moved(s, AcquireStep(s, t), t)
  {
    var s' := AcquireStep(s, t);
    forall u: Tid
      ensures HandleOk(s', u)
    {
      assert HandleOk(s, u);
    }
  }

  lemma AcquireKeepsEntries(s: State, t: Tid)
    requires EntriesOk(s) && PcOf(s, t).Called?
    ensures EntriesOk(AcquireStep(s, t))
  {
    var s' := AcquireStep(s, t);
    assert Uses(s', t, Key(PcOf(s, t).op));
    forall key | key in s.locks
      ensures Used(s', key)
    {
      assert Used(s, key);
      var u: Tid :| Uses(s, u, key);
      assert Uses(s', u, key);
    }
  }

  /** A lock in the map is unshared exactly when no handle on its key is left. */
  lemma UnsharedMeans(s: State, key: Bytes)
    requires HandlesOk(s) && LocksOk(s) && key in s.locks
    ensures Unshared(s, s.locks[key]) <==> !Used(s, key)
  {
    forall t: Tid
      ensures Refers(s, t, s.locks[key]) <==> Uses(s, t, key)
    {
      assert HandleOk(s, t);
    }
  }

  ghost function Dropped(s: State, t: Tid): State
    requires PcOf(s, t).Released?
  {
    Move(s, t, Returned(PcOf(s, t).op, PcOf(s, t).isSet))
  }

  lemma DroppedHandles(s: State, t: Tid)
    requires HandlesOk(s) && PcOf(s, t).Released?
    ensures HandlesOk(Dropped(s, t)) && Moved(s, Dropped(s, t), t)
  {
    forall u: Tid
      ensures HandleOk(Dropped(s, t), u)
    {
      assert HandleOk(s, u);
    }
  }

  lemma CleanupKeepsHandles(s: State, t: Tid)
    requires HandlesOk(s) && LocksOk(s) && PcOf(s, t).Released?
    ensures HandlesOk(CleanupStep(s, t)) && LocksOk(CleanupStep(s, t)) && Moved(s, CleanupStep(s, t), t)
  {
    var key := Key(PcOf(s, t).op);
    var dropped, s' := Dropped(s, t), CleanupStep(s, t);
    DroppedHandles(s, t);
    assert HandleOk(s, t);
    UnsharedMeans(dropped, key);
    forall u: Tid
      ensures HandleOk(s', u)
    {
      assert HandleOk(dropped, u) && PcOf(s', u) == PcOf(dropped, u);
      assert Uses(dropped, u, key) ==> Used(dropped, key);
    }
  }

  lemma CleanupKeepsEntries(s: State, t: Tid)
    requires HandlesOk(s) && LocksOk(s) && EntriesOk(s) && PcOf(s, t).Released?
    ensures EntriesOk(CleanupStep(s, t))
  {
    var dropped, s' := Dropped(s, t), CleanupStep(s, t);
    DroppedHandles(s, t);
    forall key | key in s'.locks
      ensures Used(s', key)
    {
      UnsharedMeans(dropped, key);
      assert Used(s, key);
      if key == Key(PcOf(s, t).op) {
        assert Used(dropped, key);
        var u: Tid :| Uses(dropped, u, key);
        assert Uses(s', u, key);
      } else {
        var u: Tid :| Uses(s, u, key);
        assert Uses(s', u, key);
      }
    }
  }

  // ---- the locks themselves ----

  lemma SameSectionKeeps(s: State, s': State, t: Tid)
    requires OwnersOk(s) && s'.owner == s.owner && Moved(s, s', t) && SameSection(PcOf(s, t), PcOf(s', t))
    ensures OwnersOk(s')
  {
    forall u: Tid
      ensures SectionOk(s', u)
    {
      assert SectionOk(s, u) && (u == t || PcOf(s', u) == PcOf(s, u));
    }
    forall l: LockId
      ensures OwnerOk(s', l)
    {
      assert OwnerOk(s, l) && (l in s.owner ==> s.owner[l] == t || PcOf(s', s.owner[l]) == PcOf(s, s.owner[l]));
    }
  }

  lemma LockKeepsOwners(s: State, t: Tid)
    requires OwnersOk(s) && Enabled(s, LockKey(t))
    ensures OwnersOk(Apply(s, LockKey(t))) && Moved(s, Apply(s, LockKey(t)), t)
  {
    var s' := Apply(s, LockKey(t));
    forall u: Tid
      ensures SectionOk(s', u)
    {
      assert SectionOk(s, u);
    }
    forall l: LockId
      ensures OwnerOk(s', l)
    {
      assert OwnerOk(s, l);
    }
  }

  lemma UnlockKeepsOwners(s: State, t: Tid)
    requires OwnersOk(s) && Enabled(s, Unlock(t))
    ensures OwnersOk(Apply(s, Unlock(t))) && Moved(s, Apply(s, Unlock(t)), t)
  {
    var s' := Apply(s, Unlock(t));
    assert SectionOk(s, t);
    forall u: Tid
      ensures SectionOk(s', u)
    {
      assert SectionOk(s, u);
    }
    forall l: LockId
      ensures OwnerOk(s', l)
    {
      assert OwnerOk(s, l);
    }
  }

  /** At most one thread at a time is between taking and releasing the lock of a key. */
  lemma MutualExclusion(s: State, t: Tid, u: Tid)
    requires HandlesOk(s) && OwnersOk(s)
    requires InSection(PcOf(s, t)) && InSection(PcOf(s, u)) && Key(PcOf(s, t).op) == Key(PcOf(s, u).op)
    ensures t == u
  {
    assert HandleOk(s, t) && HandleOk(s, u);
    assert SectionOk(s, t) && SectionOk(s, u);
  }

  lemma OtherStepsKeepHandles(s: State, step: Step)
    requires Enabled(s, step) && !step.Acquire? && !step.Cleanup? && !step.PlainSet?
    ensures
      var s' := Apply(s, step);
      && s'.locks == s.locks && s'.next == s.next && Moved(s, s', step.t)
      && SameHandle(PcOf(s, step.t), PcOf(s', step.t))
  {
  }

  /** The lock map is touched by `Acquire` and `Cleanup` only, the locks by `LockKey` and `Unlock` only. */
  lemma LockMapKept(s: State, step: Step)
    requires HandlesOk(s) && EntriesOk(s) && LocksOk(s) && Enabled(s, step)
    ensures HandlesOk(Apply(s, step)) && EntriesOk(Apply(s, step)) && LocksOk(Apply(s, step))
  {
    var s' := Apply(s, step);
    match step {
      case PlainSet(_, _) => SameHandleKeeps(s, s', 0);
      case Acquire(t) =>
        AcquireKeepsHandles(s, t);
        AcquireKeepsEntries(s, t);
      case Cleanup(t) =>
        CleanupKeepsHandles(s, t);
        CleanupKeepsEntries(s, t);
      case _ =>
        OtherStepsKeepHandles(s, step);
        SameHandleKeeps(s, s', step.t);
    }
  }

  lemma OwnersKept(s: State, step: Step)
    requires OwnersOk(s) && Enabled(s, step)
    ensures OwnersOk(Apply(s, step))
  {
    var s' := Apply(s, step);
    match step {
      case PlainSet(_, _) => SameSectionKeeps(s, s', 0);
      case LockKey(t) => LockKeepsOwners(s, t);
      case Unlock(t) => UnlockKeepsOwners(s, t);
      case _ => SameSectionKeeps(s, s', step.t);
    }
  }
}
