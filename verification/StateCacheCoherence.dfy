/**
  The shared cache never answers with a value of another fork: whatever it admits for a block is
  exactly what that block's uncached state holds.
 */
module StateCacheCoherence {
  import opened Common
  import opened StateCacheModel

  // ---- the uncached truth ----

  datatype Block = Block(number: nat, parent: Hash, changes: Changes)

  /** Every block that will ever be committed, with its one change set. */
  type Tree = map<Hash, Block>

  /** Only a block of number zero has no parent, and numbers grow from parent to child. */
  ghost predicate WellFormed(t: Tree) {
    && (forall h :: h in t && t[h].number > 0 ==> t[h].parent in t)
    && (forall h :: h in t && t[h].parent in t ==> t[t[h].parent].number < t[h].number)
  }

  /** The value of a key in the state after block `h`. */
  ghost function StateAt(t: Tree, h: Hash, key: StorageKey): Option<Value>
    requires WellFormed(t) && h in t
    decreases t[h].number
  {
    if key in t[h].changes then t[h].changes[key]
    else if t[h].number == 0 then None
    else StateAt(t, t[h].parent, key)
  }

  /** `a` is `h` or one of its ancestors. */
  ghost predicate OnPath(t: Tree, a: Hash, h: Hash)
    requires WellFormed(t) && h in t
    decreases t[h].number
  {
    a == h || (t[h].number > 0 && OnPath(t, a, t[h].parent))
  }

  lemma {:induction false} OnPathNumbers(t: Tree, a: Hash, h: Hash)
    requires WellFormed(t) && h in t && OnPath(t, a, h)
    ensures a in t && t[a].number <= t[h].number && (t[a].number == t[h].number ==> a == h)
    decreases t[h].number
  {
    if a != h {
      OnPathNumbers(t, a, t[h].parent);
    }
  }

  lemma {:induction false} OnPathTransitive(t: Tree, a: Hash, b: Hash, h: Hash)
    requires WellFormed(t) && h in t && OnPath(t, b, h) && b in t && OnPath(t, a, b)
    ensures OnPath(t, a, h)
    decreases t[h].number
  {
    if b != h {
      OnPathTransitive(t, a, b, t[h].parent);
    }
  }

  lemma {:induction false} PathIsLinear(t: Tree, a: Hash, b: Hash, h: Hash)
    requires WellFormed(t) && h in t && OnPath(t, a, h) && OnPath(t, b, h) && a in t && b in t
    requires t[a].number <= t[b].number
    ensures OnPath(t, a, b)
    decreases t[h].number
  {
    if b != h {
      if a == h {
        OnPathNumbers(t, b, h);
        assert false;
      }
      PathIsLinear(t, a, b, t[h].parent);
    }
  }

  /** Between an ancestor and a block, a key nobody in between changes keeps its value. */
  lemma {:induction false} ValueDownPath(t: Tree, a: Hash, h: Hash, key: StorageKey)
    requires WellFormed(t) && h in t && a in t && OnPath(t, a, h)
    requires forall d :: d in t && OnPath(t, d, h) && t[d].number > t[a].number ==> key !in t[d].changes
    ensures StateAt(t, a, key) == StateAt(t, h, key)
    decreases t[h].number
  {
    if a != h {
      OnPathNumbers(t, a, h);
      OnPathNumbers(t, a, t[h].parent);
      assert OnPath(t, h, h);
      ValueDownPath(t, a, t[h].parent, key);
    }
  }

  /** Blocks on the path of `h` and not on that of `other`. */
  ghost predicate OnlyOn(t: Tree, d: Hash, h: Hash, other: Hash)
    requires WellFormed(t) && h in t && other in t
  {
    OnPath(t, d, h) && !OnPath(t, d, other)
  }

  ghost predicate Untouched(t: Tree, h: Hash, other: Hash, key: StorageKey)
    requires WellFormed(t) && h in t && other in t
  {
    forall d :: d in t && OnlyOn(t, d, h, other) ==> key !in t[d].changes
  }

  lemma SelfNotOnLower(t: Tree, h: Hash, other: Hash)
    requires WellFormed(t) && h in t && other in t && h != other && t[h].number >= t[other].number
    ensures OnlyOn(t, h, h, other)
  {
    if OnPath(t, h, other) {
      OnPathNumbers(t, h, other);
    }
  }

  lemma ParentUntouched(t: Tree, h: Hash, other: Hash, key: StorageKey)
    requires WellFormed(t) && h in t && other in t && t[h].number > 0
    requires OnlyOn(t, h, h, other) && Untouched(t, h, other, key) && Untouched(t, other, h, key)
    ensures Untouched(t, t[h].parent, other, key) && Untouched(t, other, t[h].parent, key)
  {
    var p := t[h].parent;
    forall d | d in t && OnlyOn(t, d, p, other)
      ensures key !in t[d].changes
    {
      assert OnlyOn(t, d, h, other);
    }
    forall d | d in t && OnlyOn(t, d, other, p)
      ensures key !in t[d].changes
    {
      assert OnlyOn(t, d, other, h);
    }
  }

  /** A key changed by no block on one path only has one value at the end of both. */
  lemma {:induction false} SameValue(t: Tree, h: Hash, other: Hash, key: StorageKey)
    requires WellFormed(t) && h in t && other in t
    requires Untouched(t, h, other, key) && Untouched(t, other, h, key)
    ensures StateAt(t, h, key) == StateAt(t, other, key)
    decreases t[h].number + t[other].number
  {
    if h != other {
      if t[h].number >= t[other].number {
        SelfNotOnLower(t, h, other);
        assert key !in t[h].changes;
        if t[h].number > 0 {
          ParentUntouched(t, h, other, key);
          SameValue(t, t[h].parent, other, key);
        } else {
          SelfNotOnLower(t, other, h);
        }
      } else {
        SelfNotOnLower(t, other, h);
        assert key !in t[other].changes;
        ParentUntouched(t, other, h, key);
        SameValue(t, h, t[other].parent, key);
      }
    }
  }

  // ---- what the cache is kept to ----

  /** How values are digested. */
  type Digester = Value -> Digest

  function DigestOf(v: Option<Value>, digest: Digester): Option<Digest> {
    match v
    case None => None
    case Some(x) => Some(digest(x))
  }

  /** Cached values are those of the best block. */
  ghost predicate ValuesOk(t: Tree, c: Cache, best: Hash, digest: Digester)
    requires WellFormed(t) && best in t
  {
    && (forall key :: key in c.storage ==> c.storage[key] == StateAt(t, best, key))
    && (forall key :: key in c.hashes ==> c.hashes[key] == DigestOf(StateAt(t, best, key), digest))
  }

  ghost predicate Recorded(t: Tree, m: BlockChanges) {
    && m.hash in t
    && m.number == t[m.hash].number && m.parent == t[m.hash].parent && m.keys == t[m.hash].changes.Keys
  }

  ghost predicate Ordered(mods: seq<BlockChanges>) {
    forall i, j :: 0 <= i < j < |mods| ==> mods[i].number >= mods[j].number
  }

  ghost predicate Listed(mods: seq<BlockChanges>, h: Hash) {
    exists i :: 0 <= i < |mods| && mods[i].hash == h
  }

  /** The entry that decides a block's flag: the first one with its hash. */
  ghost predicate IsFirst(mods: seq<BlockChanges>, i: int) {
    0 <= i < |mods| && forall j :: 0 <= j < i ==> mods[j].hash != mods[i].hash
  }

  /** Every block above `h` on the path to `best` that changes state is listed, but for `pending`. */
  ghost predicate CoveredAbove(t: Tree, mods: seq<BlockChanges>, h: Hash, best: Hash, pending: set<Hash>)
    requires WellFormed(t) && best in t && h in t
  {
    forall d :: d in t && d !in pending && OnPath(t, d, best) && t[d].number > t[h].number
      ==> t[d].changes == map[] || Listed(mods, d)
  }

  ghost predicate FlagOk(t: Tree, mods: seq<BlockChanges>, i: int, best: Hash, pending: set<Hash>)
    requires WellFormed(t) && best in t && 0 <= i < |mods| && mods[i].hash in t
  {
    IsFirst(mods, i) && mods[i].isCanon ==>
      OnPath(t, mods[i].hash, best) && CoveredAbove(t, mods, mods[i].hash, best, pending)
  }

  ghost predicate AllRecorded(t: Tree, mods: seq<BlockChanges>) {
    forall i :: 0 <= i < |mods| ==> Recorded(t, mods[i])
  }

  ghost predicate ModsOk(t: Tree, mods: seq<BlockChanges>, best: Hash, pending: set<Hash>)
    requires WellFormed(t) && best in t
  {
    && AllRecorded(t, mods)
    && Ordered(mods)
    && (forall i {:trigger FlagOk(t, mods, i, best, pending)} :: 0 <= i < |mods| ==>
          FlagOk(t, mods, i, best, pending))
  }

  ghost predicate Coherent(t: Tree, c: Cache, best: Hash, digest: Digester)
    requires WellFormed(t) && best in t
  {
    ValuesOk(t, c, best, digest) && ModsOk(t, c.modifications, best, {})
  }

  // ---- what is admitted ----

  /** Where parent links of the first `k` entries, in list order, lead from `p`. */
  ghost function Reached(p: Hash, mods: seq<BlockChanges>, k: nat): Hash
    requires k <= |mods|
    decreases k
  {
    if k == 0 then p
    else if mods[k - 1].hash == Reached(p, mods, k - 1) then mods[k - 1].parent
    else Reached(p, mods, k - 1)
  }

  /** Entry `k` is a canonical block reached from `p`, and no entry before it has the key. */
  ghost predicate Admits(key: StorageKey, p: Hash, mods: seq<BlockChanges>, k: nat) {
    && k < |mods| && mods[k].isCanon && mods[k].hash == Reached(p, mods, k)
    && forall j :: 0 <= j < k ==> key !in mods[j].keys
  }

  ghost predicate Admitted(key: StorageKey, p: Hash, mods: seq<BlockChanges>, from: nat) {
    exists k: nat :: from <= k && Admits(key, p, mods, k)
  }

  /** The scan has come as far as `i` and has not seen the key. */
  lemma {:induction false} ScanFrom(key: StorageKey, p: Hash, mods: seq<BlockChanges>, i: nat)
    requires i <= |mods| && forall j :: 0 <= j < i ==> key !in mods[j].keys
    ensures AllowedFrom(key, Reached(p, mods, i), mods[i..]) <==> Admitted(key, p, mods, i)
    decreases |mods| - i
  {
    if i < |mods| {
      var m, at := mods[i], Reached(p, mods, i);
      assert mods[i..][0] == m && mods[i..][1..] == mods[i + 1..];
      if m.hash == at && m.isCanon {
        assert Admits(key, p, mods, i);
      } else if key !in m.keys {
        ScanFrom(key, p, mods, i + 1);
        assert !Admits(key, p, mods, i);
      }
    }
  }

  /**
    A key is admitted for `p` exactly when some canonical entry is reached from `p` through the parent
    links before it, and no entry before it has the key.
   */
  lemma AdmittedExactly(key: StorageKey, p: Hash, mods: seq<BlockChanges>)
    ensures IsAllowed(key, Some(p), mods) <==> exists k: nat :: Admits(key, p, mods, k)
    ensures !IsAllowed(key, None, mods)
  {
    ScanFrom(key, p, mods, 0);
    assert mods[0..] == mods;
  }

  lemma {:induction false} NotReachedBefore(p: Hash, mods: seq<BlockChanges>, k: nat)
    requires k <= |mods| && forall j :: 0 <= j < k ==> mods[j].hash != p
    ensures Reached(p, mods, k) == p
    decreases k
  {
    if k > 0 {
      NotReachedBefore(p, mods, k - 1);
    }
  }

  /** For a block that is itself listed as canonical: what no entry before it has. */
  lemma AdmittedForListed(key: StorageKey, p: Hash, mods: seq<BlockChanges>, i: nat)
    requires IsFirst(mods, i) && mods[i].hash == p && mods[i].isCanon
    ensures IsAllowed(key, Some(p), mods) <==> forall j :: 0 <= j < i ==> key !in mods[j].keys
  {
    AdmittedExactly(key, p, mods);
    NotReachedBefore(p, mods, i);
    if forall j :: 0 <= j < i ==> key !in mods[j].keys {
      assert Admits(key, p, mods, i);
    }
    forall k: nat | Admits(key, p, mods, k)
      ensures i <= k
    {
      if k < i {
        NotReachedBefore(p, mods, k);
      }
    }
  }

  // ---- what is admitted is right ----

  /**
    The scan of the remaining entries, from position `k`: everything seen so far left `key`
    alone, and `at` is an ancestor of the block asked for with the same value.
   */
  lemma {:induction false} AllowedMeans(
      t: Tree, mods: seq<BlockChanges>, best: Hash, key: StorageKey, at: Hash, k: nat)
    requires WellFormed(t) && best in t && at in t && ModsOk(t, mods, best, {}) && k <= |mods|
    requires forall j :: 0 <= j < k ==> key !in mods[j].keys && mods[j].hash != at
    requires AllowedFrom(key, at, mods[k..])
    ensures StateAt(t, at, key) == StateAt(t, best, key)
    decreases |mods| - k
  {
    var m := mods[k];
    assert mods[k..][1..] == mods[k + 1..];
    assert FlagOk(t, mods, k, best, {});
    if m.hash == at && m.isCanon {
      CanonMeans(t, mods, best, key, k);
    } else if m.hash == at {
      AllowedFromNeedsParent(t, mods, key, k);
      assert Recorded(t, m);
      forall j | 0 <= j < k + 1
        ensures mods[j].hash != m.parent
      {
        assert Recorded(t, mods[j]);
        assert j < k ==> mods[j].number >= mods[k].number;
      }
      AllowedMeans(t, mods, best, key, m.parent, k + 1);
    } else {
      AllowedMeans(t, mods, best, key, at, k + 1);
    }
  }

  lemma CanonMeans(t: Tree, mods: seq<BlockChanges>, best: Hash, key: StorageKey, k: nat)
    requires WellFormed(t) && best in t && ModsOk(t, mods, best, {}) && k < |mods| && mods[k].isCanon
    requires forall j :: 0 <= j < k ==> key !in mods[j].keys && mods[j].hash != mods[k].hash
    ensures StateAt(t, mods[k].hash, key) == StateAt(t, best, key)
  {
    var at := mods[k].hash;
    assert FlagOk(t, mods, k, best, {});
    assert Recorded(t, mods[k]);
    forall d | d in t && OnPath(t, d, best) && t[d].number > t[at].number
      ensures key !in t[d].changes
    {
      if t[d].changes != map[] {
        assert Listed(mods, d);
        var j :| 0 <= j < |mods| && mods[j].hash == d;
        assert Recorded(t, mods[j]);
        if k < j {
          assert mods[k].number >= mods[j].number;
        }
      }
    }
    ValueDownPath(t, at, best, key);
  }

  /** The scan only moves past a block whose parent is a known block, or it ends in refusal. */
  lemma AllowedFromNeedsParent(t: Tree, mods: seq<BlockChanges>, key: StorageKey, k: nat)
    requires WellFormed(t) && k < |mods|
    requires AllRecorded(t, mods)
    requires !mods[k].isCanon && AllowedFrom(key, mods[k].hash, mods[k..])
    ensures mods[k].parent in t && key !in mods[k].keys
  {
    assert mods[k..][1..] == mods[k + 1..];
    ScanFindsParent(t, mods, key, mods[k].parent, k + 1);
  }

  lemma {:induction false} ScanFindsParent(t: Tree, mods: seq<BlockChanges>, key: StorageKey, at: Hash, k: nat)
    requires k <= |mods| && AllRecorded(t, mods)
    requires AllowedFrom(key, at, mods[k..])
    ensures at in t
    ensures exists j :: k <= j < |mods| && mods[j].hash == at
    decreases |mods| - k
  {
    assert mods[k..][1..] == mods[k + 1..];
    if mods[k].hash != at {
      ScanFindsParent(t, mods, key, at, k + 1);
    }
  }

  /**
    A key admitted for block `p` and present in the shared cache has exactly the value, or the
    digest, that the state of `p` holds.
   */
  lemma AdmittedIsExact(t: Tree, c: Cache, best: Hash, digest: Digester, key: StorageKey, p: Hash)
    requires WellFormed(t) && best in t && p in t && Coherent(t, c, best, digest)
    requires IsAllowed(key, Some(p), c.modifications)
    ensures key in c.storage ==> c.storage[key] == StateAt(t, p, key)
    ensures key in c.hashes ==> c.hashes[key] == DigestOf(StateAt(t, p, key), digest)
  {
    assert c.modifications[0..] == c.modifications;
    AllowedMeans(t, c.modifications, best, key, p, 0);
  }

  // ---- marking blocks ----

  ghost predicate SameButFlags(mods: seq<BlockChanges>, mods': seq<BlockChanges>) {
    && |mods'| == |mods|
    && forall i :: 0 <= i < |mods| ==> mods'[i] == mods[i].(isCanon := mods'[i].isCanon)
  }

  ghost predicate Purged(t: Tree, c: Cache, c': Cache, hashes: seq<Hash>) {
    && (forall key :: key in c'.storage ==>
          key in c.storage && c'.storage[key] == c.storage[key] && KeptBy(t, hashes, key))
    && (forall key :: key in c'.hashes ==>
          key in c.hashes && c'.hashes[key] == c.hashes[key] && KeptBy(t, hashes, key))
  }

  /** Nothing else goes: what none of the blocks changed stays. */
  ghost predicate Spared(t: Tree, c: Cache, c': Cache, hashes: seq<Hash>) {
    && (forall key :: key in c.storage && KeptBy(t, hashes, key) ==> key in c'.storage)
    && (forall key :: key in c.hashes && KeptBy(t, hashes, key) ==> key in c'.hashes)
  }

  ghost predicate KeptBy(t: Tree, hashes: seq<Hash>, key: StorageKey) {
    forall h :: h in hashes && h in t ==> key !in t[h].changes
  }

  ghost predicate Flagged(mods: seq<BlockChanges>, mods': seq<BlockChanges>, hashes: seq<Hash>, canon: bool)
    requires |mods| == |mods'|
  {
    forall i :: IsFirst(mods, i) ==>
      mods'[i].isCanon == if mods[i].hash in hashes then canon else mods[i].isCanon
  }

  lemma FirstStays(mods: seq<BlockChanges>, mods': seq<BlockChanges>, i: int)
    requires SameButFlags(mods, mods')
    ensures IsFirst(mods, i) <==> IsFirst(mods', i)
  {
  }

  lemma MarkBlockMeans(t: Tree, c: Cache, hash: Hash, canon: bool)
    requires AllRecorded(t, c.modifications) && MarkBlock(c, hash, canon).Some?
    ensures Marked(t, c, MarkBlock(c, hash, canon).value, [hash], canon)
  {
    var i := FindBlock(c.modifications, hash).value;
    assert Recorded(t, c.modifications[i]);
  }

  /** What marking the blocks `hashes` did. */
  ghost predicate Marked(t: Tree, c: Cache, c': Cache, hashes: seq<Hash>, canon: bool) {
    && SameButFlags(c.modifications, c'.modifications)
    && Purged(t, c, c', hashes) && Spared(t, c, c', hashes)
    && Flagged(c.modifications, c'.modifications, hashes, canon)
    && AllListed(c.modifications, hashes)
  }

  ghost predicate AllListed(mods: seq<BlockChanges>, hashes: seq<Hash>) {
    forall h :: h in hashes ==> Listed(mods, h)
  }

  lemma {:induction false} MarkAllMeans(t: Tree, c: Cache, hashes: seq<Hash>, canon: bool)
    requires AllRecorded(t, c.modifications) && MarkAll(c, hashes, canon).Some?
    ensures Marked(t, c, MarkAll(c, hashes, canon).value, hashes, canon)
    decreases |hashes|
  {
    if hashes != [] {
      var mid := MarkFirst(t, c, hashes, canon);
      MarkAllMeans(t, mid, hashes[1..], canon);
      assert hashes == [hashes[0]] + hashes[1..];
      MarkedChains(t, c, mid, MarkAll(c, hashes, canon).value, hashes[0], hashes[1..], canon);
    }
  }

  /** Marking finds every block exactly when all are listed. */
  lemma {:induction false} MarkAllKnown(c: Cache, hashes: seq<Hash>, canon: bool)
    ensures MarkAll(c, hashes, canon).Some? <==> AllListed(c.modifications, hashes)
    decreases |hashes|
  {
    if hashes != [] {
      assert hashes == [hashes[0]] + hashes[1..];
      var next := MarkBlock(c, hashes[0], canon);
      assert next.Some? <==> Listed(c.modifications, hashes[0]);
      if next.Some? {
        MarkAllKnown(next.value, hashes[1..], canon);
        assert SameButFlags(c.modifications, next.value.modifications);
        forall h | h in hashes
          ensures Listed(c.modifications, h) <==> Listed(next.value.modifications, h)
        {
          ListedStays(c.modifications, next.value.modifications, h);
        }
      } else {
        assert hashes[0] in hashes;
      }
    }
  }

  lemma MarkFirst(t: Tree, c: Cache, hashes: seq<Hash>, canon: bool) returns (mid: Cache)
    requires AllRecorded(t, c.modifications) && MarkAll(c, hashes, canon).Some? && hashes != []
    ensures Marked(t, c, mid, [hashes[0]], canon) && AllRecorded(t, mid.modifications)
    ensures MarkAll(c, hashes, canon) == MarkAll(mid, hashes[1..], canon)
  {
    mid := MarkBlock(c, hashes[0], canon).value;
    MarkBlockMeans(t, c, hashes[0], canon);
    RecordedStays(t, c.modifications, mid.modifications);
  }

  lemma MarkedChains(t: Tree, a: Cache, b: Cache, c: Cache, first: Hash, rest: seq<Hash>, canon: bool)
    requires Marked(t, a, b, [first], canon) && Marked(t, b, c, rest, canon)
    ensures Marked(t, a, c, [first] + rest, canon)
  {
    FlaggedChains(a.modifications, b.modifications, c.modifications, first, rest, canon);
    PurgedChains(t, a, b, c, first, rest);
    SparedChains(t, a, b, c, first, rest);
    forall h | h in [first] + rest
      ensures Listed(a.modifications, h)
    {
      assert h in [first] || h in rest;
      ListedStays(a.modifications, b.modifications, h);
    }
  }

  lemma RecordedStays(t: Tree, mods: seq<BlockChanges>, mods': seq<BlockChanges>)
    requires AllRecorded(t, mods) && SameButFlags(mods, mods')
    ensures AllRecorded(t, mods')
  {
    forall i | 0 <= i < |mods'|
      ensures Recorded(t, mods'[i])
    {
      assert Recorded(t, mods[i]);
    }
  }

  lemma ListedStays(mods: seq<BlockChanges>, mods': seq<BlockChanges>, h: Hash)
    requires SameButFlags(mods, mods')
    ensures Listed(mods, h) <==> Listed(mods', h)
  {
    if Listed(mods, h) {
      var i :| 0 <= i < |mods| && mods[i].hash == h;
      assert mods'[i].hash == h;
    }
    if Listed(mods', h) {
      var i :| 0 <= i < |mods'| && mods'[i].hash == h;
      assert mods[i].hash == h;
    }
  }

  lemma FlaggedChains(
      a: seq<BlockChanges>, b: seq<BlockChanges>, c: seq<BlockChanges>, first: Hash, rest: seq<Hash>, canon: bool)
    requires SameButFlags(a, b) && SameButFlags(b, c)
    requires Flagged(a, b, [first], canon) && Flagged(b, c, rest, canon)
    ensures SameButFlags(a, c) && Flagged(a, c, [first] + rest, canon)
  {
    forall i | IsFirst(a, i)
      ensures c[i].isCanon == if a[i].hash in [first] + rest then canon else a[i].isCanon
    {
      FirstStays(a, b, i);
      assert a[i].hash in [first] + rest <==> a[i].hash in [first] || a[i].hash in rest;
    }
  }

  lemma SparedChains(t: Tree, a: Cache, b: Cache, c: Cache, first: Hash, rest: seq<Hash>)
    requires Spared(t, a, b, [first]) && Spared(t, b, c, rest)
    ensures Spared(t, a, c, [first] + rest)
  {
    forall key | KeptBy(t, [first] + rest, key)
      ensures KeptBy(t, [first], key) && KeptBy(t, rest, key)
    {
      assert forall h :: h in [first] || h in rest ==> h in [first] + rest;
    }
  }

  lemma PurgedChains(t: Tree, a: Cache, b: Cache, c: Cache, first: Hash, rest: seq<Hash>)
    requires Purged(t, a, b, [first]) && Purged(t, b, c, rest)
    ensures Purged(t, a, c, [first] + rest)
  {
    forall key | KeptBy(t, [first], key) && KeptBy(t, rest, key)
      ensures KeptBy(t, [first] + rest, key)
    {
      forall h | h in [first] + rest && h in t
        ensures key !in t[h].changes
      {
        assert h in [first] || h in rest;
      }
    }
  }
}
