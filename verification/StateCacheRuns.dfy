/** Every operation on the shared cache keeps it coherent, so it is coherent over whole runs. */
module StateCacheRuns {
  import opened Common
  import opened StateCacheModel
  import opened StateCacheCoherence

  // ---- routes ----

  /**
    A route from `best` to `target`: every block to enact is listed (the target itself may be
    left out, or listed in any case), and every block to retract is listed.
   */
  ghost predicate RouteOk(t: Tree, best: Hash, target: Hash, enacted: seq<Hash>, retracted: seq<Hash>)
    requires WellFormed(t) && best in t && target in t
  {
    && (forall d :: d in enacted ==> d == target || (d in t && OnlyOn(t, d, target, best)))
    && (forall d :: d in t && OnlyOn(t, d, target, best) && d != target ==> d in enacted)
    && (forall d :: d in t && OnlyOn(t, d, best, target) ==> d in retracted)
  }

  ghost predicate TargetListed(t: Tree, best: Hash, target: Hash, enacted: seq<Hash>)
    requires WellFormed(t) && best in t && target in t
  {
    OnlyOn(t, target, target, best) ==> target in enacted
  }

  // ---- syncing ----

  ghost predicate Synced(t: Tree, c: Cache, c': Cache, enacted: seq<Hash>, retracted: seq<Hash>) {
    && SameButFlags(c.modifications, c'.modifications)
    && Purged(t, c, c', enacted) && Purged(t, c, c', retracted)
    && (forall h :: h in enacted || h in retracted ==> Listed(c.modifications, h))
    && (forall i :: IsFirst(c.modifications, i) ==>
          c'.modifications[i].isCanon ==
            if c.modifications[i].hash in retracted then false
            else c.modifications[i].hash in enacted || c.modifications[i].isCanon)
  }

  lemma MarkedTwice(t: Tree, c: Cache, mid: Cache, c': Cache, enacted: seq<Hash>, retracted: seq<Hash>)
    requires SameButFlags(c.modifications, mid.modifications) && SameButFlags(mid.modifications, c'.modifications)
    requires Purged(t, c, mid, enacted) && Purged(t, mid, c', retracted)
    requires Flagged(c.modifications, mid.modifications, enacted, true)
    requires Flagged(mid.modifications, c'.modifications, retracted, false)
    requires forall h :: h in enacted ==> Listed(c.modifications, h)
    requires forall h :: h in retracted ==> Listed(mid.modifications, h)
    ensures Synced(t, c, c', enacted, retracted)
  {
    forall h | h in retracted
      ensures Listed(c.modifications, h)
    {
      ListedStays(c.modifications, mid.modifications, h);
    }
    forall i | IsFirst(c.modifications, i)
      ensures IsFirst(mid.modifications, i)
    {
      FirstStays(c.modifications, mid.modifications, i);
    }
  }

  lemma SyncMeans(t: Tree, c: Cache, enacted: seq<Hash>, retracted: seq<Hash>)
    requires AllRecorded(t, c.modifications)
    ensures var c' := Sync(c, enacted, retracted); c' == EMPTY || Synced(t, c, c', enacted, retracted)
  {
    var marked := MarkAll(c, enacted, true);
    if marked.Some? {
      MarkAllMeans(t, c, enacted, true);
      RecordedStays(t, c.modifications, marked.value.modifications);
      var done := MarkAll(marked.value, retracted, false);
      if done.Some? {
        MarkAllMeans(t, marked.value, retracted, false);
        MarkedTwice(t, c, marked.value, done.value, enacted, retracted);
      }
    }
  }

  /** A route of listed blocks is followed, purging the keys of its blocks and no others; any other wipes the cache. */
  lemma SyncExact(t: Tree, c: Cache, enacted: seq<Hash>, retracted: seq<Hash>)
    requires AllRecorded(t, c.modifications)
    ensures
      var c' := Sync(c, enacted, retracted);
      if AllListed(c.modifications, enacted) && AllListed(c.modifications, retracted) then
        && Synced(t, c, c', enacted, retracted)
        && (forall key :: KeptBy(t, enacted, key) && KeptBy(t, retracted, key) ==>
              && (key in c.storage <==> key in c'.storage)
              && (key in c.hashes <==> key in c'.hashes))
      else
        c' == EMPTY
  {
    MarkAllKnown(c, enacted, true);
    var marked := MarkAll(c, enacted, true);
    if marked.Some? {
      MarkAllMeans(t, c, enacted, true);
      RecordedStays(t, c.modifications, marked.value.modifications);
      MarkAllKnown(marked.value, retracted, false);
      forall h | h in retracted
        ensures Listed(c.modifications, h) <==> Listed(marked.value.modifications, h)
      {
        ListedStays(c.modifications, marked.value.modifications, h);
      }
      var done := MarkAll(marked.value, retracted, false);
      if done.Some? {
        MarkAllMeans(t, marked.value, retracted, false);
        MarkedTwice(t, c, marked.value, done.value, enacted, retracted);
      }
    }
  }

  /** Flags after a sync: canonical means on the path to the target, with all above it listed. */
  lemma SyncedFlag(t: Tree, c: Cache, c': Cache, best: Hash, target: Hash, enacted: seq<Hash>, retracted: seq<Hash>, i: int)
    requires WellFormed(t) && best in t && target in t && ModsOk(t, c.modifications, best, {})
    requires Synced(t, c, c', enacted, retracted) && RouteOk(t, best, target, enacted, retracted)
    requires IsFirst(c.modifications, i) && c'.modifications[i].isCanon
    ensures c.modifications[i].hash in t
    ensures OnPath(t, c.modifications[i].hash, target)
    ensures CoveredAbove(t, c'.modifications, c.modifications[i].hash, target, {target})
  {
    var h := c.modifications[i].hash;
    assert Recorded(t, c.modifications[i]);
    assert FlagOk(t, c.modifications, i, best, {});
    if h !in enacted {
      assert OnPath(t, h, target) || OnlyOn(t, h, best, target);
    }
    forall d | d in t && d != target && OnPath(t, d, target) && t[d].number > t[h].number
      ensures t[d].changes == map[] || Listed(c'.modifications, d)
    {
      if OnPath(t, d, best) {
        if h in enacted && h != target {
          PathIsLinear(t, h, d, target);
          OnPathTransitive(t, h, d, best);
          assert false;
        } else if h == target {
          OnPathNumbers(t, d, target);
          assert false;
        }
      } else {
        assert OnlyOn(t, d, target, best);
        assert d in enacted;
      }
      ListedStays(c.modifications, c'.modifications, d);
    }
  }

  lemma SyncedMods(t: Tree, c: Cache, c': Cache, best: Hash, target: Hash, enacted: seq<Hash>, retracted: seq<Hash>)
    requires WellFormed(t) && best in t && target in t && ModsOk(t, c.modifications, best, {})
    requires Synced(t, c, c', enacted, retracted) && RouteOk(t, best, target, enacted, retracted)
    ensures ModsOk(t, c'.modifications, target, {target})
  {
    RecordedStays(t, c.modifications, c'.modifications);
    forall i | 0 <= i < |c'.modifications|
      ensures FlagOk(t, c'.modifications, i, target, {target})
    {
      FirstStays(c.modifications, c'.modifications, i);
      if IsFirst(c'.modifications, i) && c'.modifications[i].isCanon {
        SyncedFlag(t, c, c', best, target, enacted, retracted, i);
      }
    }
  }

  /** With the target listed too, nothing is left pending. */
  lemma SyncedModsAll(t: Tree, c: Cache, c': Cache, best: Hash, target: Hash, enacted: seq<Hash>, retracted: seq<Hash>)
    requires WellFormed(t) && best in t && target in t && ModsOk(t, c.modifications, best, {})
    requires Synced(t, c, c', enacted, retracted) && RouteOk(t, best, target, enacted, retracted)
    requires TargetListed(t, best, target, enacted)
    ensures ModsOk(t, c'.modifications, target, {})
  {
    SyncedMods(t, c, c', best, target, enacted, retracted);
    forall i | 0 <= i < |c'.modifications|
      ensures FlagOk(t, c'.modifications, i, target, {})
    {
      assert FlagOk(t, c'.modifications, i, target, {target});
      FirstStays(c.modifications, c'.modifications, i);
      if IsFirst(c'.modifications, i) && c'.modifications[i].isCanon {
        var h := c.modifications[i].hash;
        assert Recorded(t, c.modifications[i]);
        assert FlagOk(t, c.modifications, i, best, {});
        if t[target].number > t[h].number && t[target].changes != map[] {
          if OnPath(t, target, best) {
            if h in enacted {
              assert OnlyOn(t, h, target, best);
              OnPathTransitive(t, h, target, best);
              assert false;
            }
          } else {
            assert OnlyOn(t, target, target, best);
          }
          ListedStays(c.modifications, c'.modifications, target);
        }
      }
    }
  }

  lemma KeptMeansUntouched(
      t: Tree, best: Hash, target: Hash, enacted: seq<Hash>, retracted: seq<Hash>, key: StorageKey)
    requires WellFormed(t) && best in t && target in t && RouteOk(t, best, target, enacted, retracted)
    requires KeptBy(t, enacted, key) && KeptBy(t, retracted, key)
    requires OnlyOn(t, target, target, best) ==> target in enacted || key !in t[target].changes
    ensures StateAt(t, best, key) == StateAt(t, target, key)
  {
    forall d | d in t && OnlyOn(t, d, target, best)
      ensures key !in t[d].changes
    {
      assert d == target || d in enacted;
    }
    SameValue(t, best, target, key);
  }

  ghost predicate Smaller(c': Cache, c: Cache) {
    && c'.modifications == c.modifications
    && (forall key :: key in c'.storage ==> key in c.storage && c'.storage[key] == c.storage[key])
    && (forall key :: key in c'.hashes ==> key in c.hashes && c'.hashes[key] == c.hashes[key])
  }

  lemma EvictionKeeps(t: Tree, c: Cache, c': Cache, best: Hash, digest: Digester)
    requires WellFormed(t) && best in t && Coherent(t, c, best, digest) && Smaller(c', c)
    ensures Coherent(t, c', best, digest)
  {
  }

  /** Following an exact route to a new best block keeps the cache coherent. */
  lemma SyncKeeps(t: Tree, c: Cache, best: Hash, target: Hash, enacted: seq<Hash>, retracted: seq<Hash>, digest: Digester)
    requires WellFormed(t) && best in t && target in t && Coherent(t, c, best, digest)
    requires RouteOk(t, best, target, enacted, retracted) && TargetListed(t, best, target, enacted)
    ensures Coherent(t, Sync(c, enacted, retracted), target, digest)
  {
    var c' := Sync(c, enacted, retracted);
    SyncMeans(t, c, enacted, retracted);
    if Synced(t, c, c', enacted, retracted) {
      SyncedModsAll(t, c, c', best, target, enacted, retracted);
      forall key | key in c'.storage || key in c'.hashes
        ensures StateAt(t, best, key) == StateAt(t, target, key)
      {
        KeptMeansUntouched(t, best, target, enacted, retracted, key);
      }
    }
  }

  // ---- committing ----

  /**
    What a caller of `sync_cache` owes. With a block to commit: its own number, parent and changes.
    Without one: a route only, or the reads of a state that stands on the best block.
   */
  ghost predicate CommitDue(t: Tree, best: Hash, target: Hash, k: Commit)
    requires WellFormed(t) && best in t && target in t
  {
    && RouteOk(t, best, target, k.enacted, k.retracted)
    && match k.hash
       case None =>
         TargetListed(t, best, target, k.enacted) && (Propagates(k) ==> k.parentHash == Some(target))
       case Some(x) =>
         && x in t && k.number == Some(t[x].number) && k.changes == t[x].changes
         && (k.parentHash == Some(t[x].parent) || (k.parentHash.None? && k.changes == map[]))
         && (k.isBest ==> x == target)
         && (!k.isBest ==> !OnlyOn(t, x, target, best) && TargetListed(t, best, target, k.enacted))
  }

  /** The local reads are moved into the shared cache. */
  predicate Propagates(k: Commit) {
    k.parentHash.Some? && k.isBest
  }

  /** The state a block is built on: nothing, when that block is not in the tree. */
  ghost function StateOn(t: Tree, parent: Hash, key: StorageKey): Option<Value>
    requires WellFormed(t)
  {
    if parent in t then StateAt(t, parent, key) else None
  }

  /** The local reads are reads of the state they were made through. */
  ghost predicate LocalOk(t: Tree, local: Local, parent: Hash, digest: Digester)
    requires WellFormed(t)
  {
    && (forall key :: key in local.storage ==> local.storage[key] == StateOn(t, parent, key))
    && (forall key :: key in local.hashes ==> local.hashes[key] == DigestOf(StateOn(t, parent, key), digest))
  }

  ghost predicate CommitOk(t: Tree, best: Hash, target: Hash, k: Commit, digest: Digester)
    requires WellFormed(t) && best in t && target in t
  {
    CommitDue(t, best, target, k) && (Propagates(k) ==> LocalOk(t, k.local, k.parentHash.value, digest))
  }

  lemma CommitRoute(t: Tree, c: Cache, best: Hash, target: Hash, k: Commit)
    requires WellFormed(t) && best in t && target in t && CommitDue(t, best, target, k)
    ensures RouteOk(t, best, target, CommitEnacted(c, k), CommitRetracted(c, k))
    ensures !k.isBest || k.hash.None? ==> TargetListed(t, best, target, CommitEnacted(c, k))
  {
    if k.hash.Some? {
      WithoutMeans(k.enacted, k.hash.value);
    }
  }

  // ---- recording the committed block ----

  lemma {:induction false} InsertMeans(mods: seq<BlockChanges>, m: BlockChanges) returns (p: nat)
    requires Ordered(mods)
    ensures p <= |mods| && InsertOrdered(mods, m) == mods[..p] + [m] + mods[p..]
    ensures forall i :: 0 <= i < p ==> mods[i].number >= m.number
    ensures forall i :: p <= i < |mods| ==> mods[i].number < m.number
  {
    if mods == [] {
      p := 0;
    } else if mods[0].number < m.number {
      p := 0;
    } else {
      var q := InsertMeans(mods[1..], m);
      p := q + 1;
      assert mods[..p] == [mods[0]] + mods[1..][..q];
      assert mods[p..] == mods[1..][q..];
    }
  }

  /** A block above a kept entry is kept itself: only the lowest goes. */
  lemma EvictedCovers(t: Tree, mods: seq<BlockChanges>, i: int, best: Hash, pending: set<Hash>)
    requires WellFormed(t) && best in t && AllRecorded(t, mods) && Ordered(mods) && 0 <= i < |Evicted(mods)|
    requires mods[i].hash in t && CoveredAbove(t, mods, mods[i].hash, best, pending)
    ensures CoveredAbove(t, Evicted(mods), mods[i].hash, best, pending)
  {
    forall d | d in t && Listed(mods, d) && t[d].number > t[mods[i].hash].number
      ensures Listed(Evicted(mods), d)
    {
      var j :| 0 <= j < |mods| && mods[j].hash == d;
      assert Recorded(t, mods[j]) && Recorded(t, mods[i]);
      assert Evicted(mods)[j].hash == d;
    }
  }

  lemma EvictedMods(t: Tree, mods: seq<BlockChanges>, best: Hash, pending: set<Hash>)
    requires WellFormed(t) && best in t && ModsOk(t, mods, best, pending)
    ensures ModsOk(t, Evicted(mods), best, pending)
  {
    var mods' := Evicted(mods);
    forall i | 0 <= i < |mods'|
      ensures FlagOk(t, mods', i, best, pending)
    {
      assert FlagOk(t, mods, i, best, pending);
      assert Recorded(t, mods[i]);
      if IsFirst(mods', i) && mods'[i].isCanon {
        assert IsFirst(mods, i);
        EvictedCovers(t, mods, i, best, pending);
      }
    }
  }

  lemma InsertedMods(t: Tree, mods: seq<BlockChanges>, m: BlockChanges, best: Hash, pending: set<Hash>)
    requires WellFormed(t) && best in t && ModsOk(t, mods, best, pending)
    requires Recorded(t, m) && (m.isCanon ==> m.hash == best) && pending <= {m.hash}
    ensures ModsOk(t, InsertOrdered(mods, m), best, {})
  {
    var p := InsertMeans(mods, m);
    var mods' := InsertOrdered(mods, m);
    forall i | 0 <= i < |mods'|
      ensures Recorded(t, mods'[i])
    {
      assert mods'[i] == if i < p then mods[i] else if i == p then m else mods[i - 1];
    }
    assert Ordered(mods');
    forall i | 0 <= i < |mods'|
      ensures FlagOk(t, mods', i, best, {})
    {
      InsertedFlag(t, mods, mods', m, best, pending, p, i);
    }
  }

  lemma InsertedFlag(
      t: Tree, mods: seq<BlockChanges>, mods': seq<BlockChanges>, m: BlockChanges, best: Hash,
      pending: set<Hash>, p: nat, i: int)
    requires WellFormed(t) && best in t && ModsOk(t, mods, best, pending)
    requires Recorded(t, m) && (m.isCanon ==> m.hash == best) && pending <= {m.hash}
    requires p <= |mods| && mods' == mods[..p] + [m] + mods[p..]
    requires forall i :: p <= i < |mods| ==> mods[i].number < m.number
    requires 0 <= i < |mods'|
    ensures mods'[i].hash in t && FlagOk(t, mods', i, best, {})
  {
    if i == p {
      forall d | d in t && OnPath(t, d, best) && t[d].number > t[m.hash].number
        ensures !m.isCanon
      {
        OnPathNumbers(t, d, best);
      }
    } else {
      var j := if i < p then i else i - 1;
      assert mods'[i] == mods[j];
      assert Recorded(t, mods[j]);
      assert FlagOk(t, mods, j, best, pending);
      if IsFirst(mods', i) {
        forall l | 0 <= l < j
          ensures mods[l].hash != mods[j].hash
        {
          assert mods'[if l < p then l else l + 1] == mods[l];
        }
        assert IsFirst(mods, j);
        forall d | Listed(mods, d) || d == m.hash
          ensures Listed(mods', d)
        {
          if Listed(mods, d) {
            var l :| 0 <= l < |mods| && mods[l].hash == d;
            assert mods'[if l < p then l else l + 1] == mods[l];
          } else {
            assert mods'[p] == m;
          }
        }
      }
    }
  }

  lemma SyncedValues(t: Tree, c: Cache, best: Hash, target: Hash, enacted: seq<Hash>, retracted: seq<Hash>, digest: Digester)
    requires WellFormed(t) && best in t && target in t && Coherent(t, c, best, digest)
    requires RouteOk(t, best, target, enacted, retracted)
    ensures var c' := Sync(c, enacted, retracted);
            && (forall key :: key in c'.storage && key !in t[target].changes ==>
                  c'.storage[key] == StateAt(t, target, key))
            && (forall key :: key in c'.hashes && key !in t[target].changes ==>
                  c'.hashes[key] == DigestOf(StateAt(t, target, key), digest))
            && ModsOk(t, c'.modifications, target, {target})
  {
    var c' := Sync(c, enacted, retracted);
    SyncMeans(t, c, enacted, retracted);
    if Synced(t, c, c', enacted, retracted) {
      SyncedMods(t, c, c', best, target, enacted, retracted);
      forall key | (key in c'.storage || key in c'.hashes) && key !in t[target].changes
        ensures StateAt(t, best, key) == StateAt(t, target, key)
      {
        KeptMeansUntouched(t, best, target, enacted, retracted, key);
      }
    }
  }

  lemma RecordedBestKeeps(t: Tree, c: Cache, best: Hash, x: Hash, k: Commit, digest: Digester)
    requires WellFormed(t) && best in t && x in t && Coherent(t, c, best, digest)
    requires CommitOk(t, best, x, k, digest) && k.isBest && k.hash.Some? && k.parentHash.Some?
    ensures Coherent(t, SyncCache(c, k), x, digest)
  {
    var synced := Sync(c, CommitEnacted(c, k), CommitRetracted(c, k));
    CommitRoute(t, c, best, x, k);
    SyncedValues(t, c, best, x, CommitEnacted(c, k), CommitRetracted(c, k), digest);
    EvictedMods(t, synced.modifications, x, {x});
    var m := BlockChanges(t[x].number, x, t[x].parent, k.changes.Keys, true);
    InsertedMods(t, Evicted(synced.modifications), m, x, {x});
    forall key | key !in t[x].changes
      ensures StateAt(t, x, key) == StateOn(t, t[x].parent, key)
    {
    }
    assert k.parentHash.value == t[x].parent;
  }

  lemma UnrecordedBestKeeps(t: Tree, c: Cache, best: Hash, x: Hash, k: Commit, digest: Digester)
    requires WellFormed(t) && best in t && x in t && Coherent(t, c, best, digest)
    requires CommitOk(t, best, x, k, digest) && k.isBest && k.hash.Some? && k.parentHash.None?
    ensures Coherent(t, SyncCache(c, k), x, digest)
  {
    var synced := Sync(c, CommitEnacted(c, k), CommitRetracted(c, k));
    CommitRoute(t, c, best, x, k);
    SyncedValues(t, c, best, x, CommitEnacted(c, k), CommitRetracted(c, k), digest);
    forall i | 0 <= i < |synced.modifications|
      ensures FlagOk(t, synced.modifications, i, x, {})
    {
      assert FlagOk(t, synced.modifications, i, x, {x});
    }
  }

  lemma BestCommitKeeps(t: Tree, c: Cache, best: Hash, x: Hash, k: Commit, digest: Digester)
    requires WellFormed(t) && best in t && x in t && Coherent(t, c, best, digest)
    requires CommitOk(t, best, x, k, digest) && k.isBest && k.hash.Some?
    ensures Coherent(t, SyncCache(c, k), x, digest)
  {
    if k.parentHash.Some? {
      RecordedBestKeeps(t, c, best, x, k, digest);
    } else {
      UnrecordedBestKeeps(t, c, best, x, k, digest);
    }
  }

  /** Without a block to commit, the reads of a state on the best block come in: what dropping such a state does. */
  lemma ReadsCommitKeeps(t: Tree, c: Cache, best: Hash, target: Hash, k: Commit, digest: Digester)
    requires WellFormed(t) && best in t && target in t && Coherent(t, c, best, digest)
    requires CommitOk(t, best, target, k, digest) && k.isBest && k.hash.None?
    ensures Coherent(t, SyncCache(c, k), target, digest)
  {
    CommitRoute(t, c, best, target, k);
    SyncKeeps(t, c, best, target, CommitEnacted(c, k), CommitRetracted(c, k), digest);
  }

  lemma SideCommitKeeps(t: Tree, c: Cache, best: Hash, target: Hash, k: Commit, digest: Digester)
    requires WellFormed(t) && best in t && target in t && Coherent(t, c, best, digest)
    requires CommitOk(t, best, target, k, digest) && !k.isBest
    ensures Coherent(t, SyncCache(c, k), target, digest)
  {
    var synced := Sync(c, CommitEnacted(c, k), CommitRetracted(c, k));
    CommitRoute(t, c, best, target, k);
    SyncKeeps(t, c, best, target, CommitEnacted(c, k), CommitRetracted(c, k), digest);
    if k.hash.Some? && k.parentHash.Some? {
      var x := k.hash.value;
      EvictedMods(t, synced.modifications, target, {});
      var m := BlockChanges(t[x].number, x, t[x].parent, k.changes.Keys, false);
      InsertedMods(t, Evicted(synced.modifications), m, target, {});
    }
  }

  /**
    Committing any block, on the best chain or beside it, for the first time or again, with
    whatever reorganization comes with it, or only the reads of a state on the best block, leaves
    the cache coherent with the new best block.
   */
  lemma CommitKeeps(t: Tree, c: Cache, best: Hash, target: Hash, k: Commit, digest: Digester)
    requires WellFormed(t) && best in t && target in t && Coherent(t, c, best, digest)
    requires CommitOk(t, best, target, k, digest)
    ensures Coherent(t, SyncCache(c, k), target, digest)
  {
    if !k.isBest {
      SideCommitKeeps(t, c, best, target, k, digest);
    } else if k.hash.Some? {
      BestCommitKeeps(t, c, best, target, k, digest);
    } else {
      ReadsCommitKeeps(t, c, best, target, k, digest);
    }
  }

  // ---- whole runs ----

  /** Each operation moves to a new best block; the LRU maps may then evict anything. */
  datatype Operation =
    | SyncTo(target: Hash, enacted: seq<Hash>, retracted: seq<Hash>, kept: Cache)
    | CommitTo(target: Hash, commit: Commit, kept: Cache)

  ghost predicate Allowed(t: Tree, c: Cache, best: Hash, op: Operation, digest: Digester)
    requires WellFormed(t) && best in t
  {
    && op.target in t
    && match op
       case SyncTo(target, enacted, retracted, kept) =>
         && RouteOk(t, best, target, enacted, retracted) && TargetListed(t, best, target, enacted)
         && Smaller(kept, Sync(c, enacted, retracted))
       case CommitTo(target, commit, kept) =>
         CommitOk(t, best, target, commit, digest) && Smaller(kept, SyncCache(c, commit))
  }

  ghost predicate RunAllowed(t: Tree, c: Cache, best: Hash, ops: seq<Operation>, digest: Digester)
    requires WellFormed(t) && best in t
    decreases |ops|
  {
    ops != [] ==>
      Allowed(t, c, best, ops[0], digest) && RunAllowed(t, ops[0].kept, ops[0].target, ops[1..], digest)
  }

  ghost function FinalCache(c: Cache, ops: seq<Operation>): Cache {
    if ops == [] then c else ops[|ops| - 1].kept
  }

  ghost function FinalBest(best: Hash, ops: seq<Operation>): Hash {
    if ops == [] then best else ops[|ops| - 1].target
  }

  lemma OperationKeeps(t: Tree, c: Cache, best: Hash, op: Operation, digest: Digester)
    requires WellFormed(t) && best in t && Coherent(t, c, best, digest) && Allowed(t, c, best, op, digest)
    ensures op.target in t && Coherent(t, op.kept, op.target, digest)
  {
    match op
    case SyncTo(target, enacted, retracted, kept) =>
      SyncKeeps(t, c, best, target, enacted, retracted, digest);
      EvictionKeeps(t, Sync(c, enacted, retracted), kept, target, digest);
    case CommitTo(target, commit, kept) =>
      CommitKeeps(t, c, best, target, commit, digest);
      EvictionKeeps(t, SyncCache(c, commit), kept, target, digest);
  }

  lemma FinalShifts(c: Cache, best: Hash, ops: seq<Operation>)
    requires ops != []
    ensures FinalCache(c, ops) == FinalCache(ops[0].kept, ops[1..])
    ensures FinalBest(best, ops) == FinalBest(ops[0].target, ops[1..])
  {
  }

  lemma {:induction false} RunKeeps(t: Tree, c: Cache, best: Hash, ops: seq<Operation>, digest: Digester)
    requires WellFormed(t) && best in t && Coherent(t, c, best, digest) && RunAllowed(t, c, best, ops, digest)
    ensures FinalBest(best, ops) in t && Coherent(t, FinalCache(c, ops), FinalBest(best, ops), digest)
    decreases |ops|
  {
    if ops != [] {
      OperationKeeps(t, c, best, ops[0], digest);
      FinalShifts(c, best, ops);
      RunKeeps(t, ops[0].kept, ops[0].target, ops[1..], digest);
    }
  }

  /**
    After any run of commits, reorganizations, wipes and evictions from an empty cache, a key
    admitted for block `p` and found in the cache has exactly the value of `p`'s uncached state.
   */
  lemma RunAnswersExactly(
      t: Tree, best: Hash, ops: seq<Operation>, digest: Digester, key: StorageKey, p: Hash)
    requires WellFormed(t) && best in t && p in t && RunAllowed(t, EMPTY, best, ops, digest)
    requires IsAllowed(key, Some(p), FinalCache(EMPTY, ops).modifications)
    ensures key in FinalCache(EMPTY, ops).storage ==>
              FinalCache(EMPTY, ops).storage[key] == StateAt(t, p, key)
    ensures key in FinalCache(EMPTY, ops).hashes ==>
              FinalCache(EMPTY, ops).hashes[key] == DigestOf(StateAt(t, p, key), digest)
  {
    RunKeeps(t, EMPTY, best, ops, digest);
    AdmittedIsExact(t, FinalCache(EMPTY, ops), FinalBest(best, ops), digest, key, p);
  }

  // ---- what a commit leaves ----

  /** Complete enough to be recorded. */
  predicate IsBlock(k: Commit) {
    k.hash.Some? && k.number.Some? && k.parentHash.Some?
  }

  /** The cache after the route has been followed and before the commit's own part. */
  function SyncedBy(c: Cache, k: Commit): Cache {
    Sync(c, CommitEnacted(c, k), CommitRetracted(c, k))
  }

  /**
    Key by key: a best block's own write, or else what was read under it, or else what the route left; its
    digests of written keys are forgotten. A block that is not the best one adds nothing.
   */
  lemma CommitContents(c: Cache, k: Commit, key: StorageKey)
    requires IsBlock(k)
    ensures
      var before, after := SyncedBy(c, k), SyncCache(c, k);
      var written, read := k.isBest && key in k.changes, k.isBest && key in k.local.storage;
      && (key in after.storage <==> written || read || key in before.storage)
      && (key in after.storage ==>
            after.storage[key] ==
              if written then k.changes[key] else if read then k.local.storage[key] else before.storage[key])
  {
  }

  lemma CommitDigests(c: Cache, k: Commit, key: StorageKey)
    requires IsBlock(k)
    ensures
      var before, after := SyncedBy(c, k), SyncCache(c, k);
      var written, read := k.isBest && key in k.changes, k.isBest && key in k.local.hashes;
      && (key in after.hashes <==> !written && (read || key in before.hashes))
      && (key in after.hashes ==> after.hashes[key] == if read then k.local.hashes[key] else before.hashes[key])
  {
  }

  /** The list of recorded blocks gets the new one in its place, and loses its last only when it has twelve. */
  lemma RecordedList(t: Tree, c: Cache, k: Commit) returns (p: nat)
    requires AllRecorded(t, c.modifications) && Ordered(c.modifications) && IsBlock(k)
    ensures
      var before, after := SyncedBy(c, k).modifications, SyncCache(c, k).modifications;
      var kept := if |before| == 12 then before[..11] else before;
      && p <= |kept|
      && after == kept[..p] +
                  [BlockChanges(k.number.value, k.hash.value, k.parentHash.value, k.changes.Keys, k.isBest)] + kept[p..]
      && (forall i :: 0 <= i < p ==> kept[i].number >= k.number.value)
      && (forall i :: p <= i < |kept| ==> kept[i].number < k.number.value)
  {
    SyncOrdered(t, c, CommitEnacted(c, k), CommitRetracted(c, k));
    p := InsertMeans(
      Evicted(SyncedBy(c, k).modifications),
      BlockChanges(k.number.value, k.hash.value, k.parentHash.value, k.changes.Keys, k.isBest));
  }

  lemma SyncOrdered(t: Tree, c: Cache, enacted: seq<Hash>, retracted: seq<Hash>)
    requires AllRecorded(t, c.modifications) && Ordered(c.modifications)
    ensures Ordered(Sync(c, enacted, retracted).modifications)
    ensures |Sync(c, enacted, retracted).modifications| <= |c.modifications|
  {
    SyncMeans(t, c, enacted, retracted);
  }

  lemma CommitListBounded(t: Tree, c: Cache, k: Commit)
    requires AllRecorded(t, c.modifications) && Ordered(c.modifications) && |c.modifications| <= 12
    ensures |SyncCache(c, k).modifications| <= 12
  {
    SyncOrdered(t, c, CommitEnacted(c, k), CommitRetracted(c, k));
    if IsBlock(k) {
      var p := RecordedList(t, c, k);
    }
  }

  /** At any time at most twelve blocks are listed. */
  lemma {:induction false} RunListBounded(t: Tree, c: Cache, best: Hash, ops: seq<Operation>, digest: Digester)
    requires WellFormed(t) && best in t && Coherent(t, c, best, digest) && RunAllowed(t, c, best, ops, digest)
    requires |c.modifications| <= 12
    ensures |FinalCache(c, ops).modifications| <= 12
    decreases |ops|
  {
    if ops != [] {
      match ops[0] {
        case SyncTo(_, enacted, retracted, _) => SyncOrdered(t, c, enacted, retracted);
        case CommitTo(_, commit, _) => CommitListBounded(t, c, commit);
      }
      OperationKeeps(t, c, best, ops[0], digest);
      FinalShifts(c, best, ops);
      RunListBounded(t, ops[0].kept, ops[0].target, ops[1..], digest);
    }
  }

  // ---- a best block serves its own writes ----

  /** The first entry of a block says whether it is canonical. */
  ghost predicate FirstFlagIs(mods: seq<BlockChanges>, x: Hash, canon: bool) {
    forall i :: IsFirst(mods, i) && mods[i].hash == x ==> mods[i].isCanon == canon
  }

  /** Whatever was listed before, the route leaves the committed block with the flag of the commit. */
  lemma SyncedFirst(t: Tree, c: Cache, x: Hash, k: Commit)
    requires AllRecorded(t, c.modifications) && k.hash == Some(x) && (k.isBest ==> x !in k.retracted)
    ensures FirstFlagIs(SyncedBy(c, k).modifications, x, k.isBest)
  {
    var enacted, retracted := CommitEnacted(c, k), CommitRetracted(c, k);
    SyncMeans(t, c, enacted, retracted);
    WithoutMeans(k.enacted, x);
    var c' := SyncedBy(c, k);
    forall i | IsFirst(c'.modifications, i) && c'.modifications[i].hash == x
      ensures c'.modifications[i].isCanon == k.isBest
    {
      FirstStays(c.modifications, c'.modifications, i);
      assert FindBlock(c.modifications, x) == Some(i);
    }
  }

  lemma EvictedFirst(mods: seq<BlockChanges>, x: Hash, canon: bool)
    requires FirstFlagIs(mods, x, canon) && Ordered(mods)
    ensures FirstFlagIs(Evicted(mods), x, canon) && Ordered(Evicted(mods))
  {
    forall i | IsFirst(Evicted(mods), i)
      ensures IsFirst(mods, i)
    {
    }
  }

  lemma FirstAfterInsert(mods: seq<BlockChanges>, m: BlockChanges) returns (i: nat)
    requires Ordered(mods) && FirstFlagIs(mods, m.hash, m.isCanon)
    ensures
      var mods' := InsertOrdered(mods, m);
      IsFirst(mods', i) && mods'[i].hash == m.hash && mods'[i].isCanon == m.isCanon
  {
    var p := InsertMeans(mods, m);
    var mods' := InsertOrdered(mods, m);
    assert mods'[p] == m && forall j :: 0 <= j < p ==> mods'[j] == mods[j];
    var found := FindBlock(mods', m.hash);
    assert found.Some? by {
      assert mods'[p].hash == m.hash;
    }
    i := found.value;
    if i < p {
      assert IsFirst(mods, i);
    }
  }

  /** After a commit the block is listed, and counts as canonical exactly when it was committed as best. */
  lemma RecordedFirst(t: Tree, c: Cache, x: Hash, k: Commit) returns (i: nat)
    requires AllRecorded(t, c.modifications) && Ordered(c.modifications)
    requires IsBlock(k) && k.hash == Some(x) && (k.isBest ==> x !in k.retracted)
    ensures
      var mods := SyncCache(c, k).modifications;
      IsFirst(mods, i) && mods[i].hash == x && mods[i].isCanon == k.isBest
  {
    var synced := SyncedBy(c, k).modifications;
    SyncOrdered(t, c, CommitEnacted(c, k), CommitRetracted(c, k));
    SyncedFirst(t, c, x, k);
    EvictedFirst(synced, x, k.isBest);
    i := FirstAfterInsert(
      Evicted(synced), BlockChanges(k.number.value, x, k.parentHash.value, k.changes.Keys, k.isBest));
  }

  /**
    After a best block is committed with its parent hash, each of its writes is in the cache, and is
    admitted for it exactly when no entry before it in the list has the key.
   */
  lemma BestWritesAreServed(t: Tree, c: Cache, x: Hash, k: Commit, key: StorageKey) returns (i: nat)
    requires AllRecorded(t, c.modifications) && Ordered(c.modifications) && key in k.changes
    requires IsBlock(k) && k.hash == Some(x) && k.isBest && x !in k.retracted
    ensures
      var c' := SyncCache(c, k);
      && key in c'.storage && c'.storage[key] == k.changes[key]
      && IsFirst(c'.modifications, i) && c'.modifications[i].hash == x
      && (IsAllowed(key, Some(x), c'.modifications) <==> forall j :: 0 <= j < i ==> key !in c'.modifications[j].keys)
  {
    i := RecordedFirst(t, c, x, k);
    AdmittedForListed(key, x, SyncCache(c, k).modifications, i);
  }

  // ---- a commit without a parent hash ----

  /** What is cached of the block's changes is what they put there already. */
  ghost predicate ChangesCached(c: Cache, changes: Changes, digest: Digester) {
    && (forall key :: key in c.storage && key in changes ==> c.storage[key] == changes[key])
    && (forall key :: key in c.hashes && key in changes ==> c.hashes[key] == DigestOf(changes[key], digest))
  }

  ghost predicate NoneCanonical(mods: seq<BlockChanges>) {
    forall i :: IsFirst(mods, i) ==> !mods[i].isCanon
  }

  lemma ChildPath(t: Tree, x: Hash, d: Hash)
    requires WellFormed(t) && x in t && t[x].number > 0
    ensures OnPath(t, d, x) <==> d == x || OnPath(t, d, t[x].parent)
  {
  }

  /** A block nobody has listed leaves the cache as it is, so it must already fit the block. */
  lemma UnlistedChildFits(t: Tree, c: Cache, x: Hash, digest: Digester)
    requires WellFormed(t) && x in t && t[x].number > 0 && !Listed(c.modifications, x)
    requires Coherent(t, c, t[x].parent, digest)
    ensures Coherent(t, c, x, digest) <==>
            ChangesCached(c, t[x].changes, digest) && (t[x].changes == map[] || NoneCanonical(c.modifications))
  {
    var mods, best := c.modifications, t[x].parent;
    forall i | 0 <= i < |mods|
      ensures FlagOk(t, mods, i, x, {}) <==> (IsFirst(mods, i) && mods[i].isCanon ==> t[x].changes == map[])
    {
      ChildFlag(t, mods, i, x);
    }
    forall key
      ensures StateAt(t, x, key) == if key in t[x].changes then t[x].changes[key] else StateAt(t, best, key)
    {
    }
  }

  lemma ChildFlag(t: Tree, mods: seq<BlockChanges>, i: int, x: Hash)
    requires WellFormed(t) && x in t && t[x].number > 0 && !Listed(mods, x)
    requires ModsOk(t, mods, t[x].parent, {}) && 0 <= i < |mods|
    ensures FlagOk(t, mods, i, x, {}) <==> (IsFirst(mods, i) && mods[i].isCanon ==> t[x].changes == map[])
  {
    var h, best := mods[i].hash, t[x].parent;
    assert Recorded(t, mods[i]) && FlagOk(t, mods, i, best, {});
    if IsFirst(mods, i) && mods[i].isCanon {
      OnPathNumbers(t, h, best);
      forall d | d in t
        ensures OnPath(t, d, x) <==> d == x || OnPath(t, d, best)
      {
        ChildPath(t, x, d);
      }
    }
  }

  /** A route to a block off the best path is one to its parent, without the block itself. */
  lemma RouteToParent(t: Tree, best: Hash, x: Hash, enacted: seq<Hash>, retracted: seq<Hash>)
    requires WellFormed(t) && best in t && x in t && t[x].number > 0 && !OnPath(t, x, best)
    requires RouteOk(t, best, x, enacted, retracted)
    ensures RouteOk(t, best, t[x].parent, Without(enacted, x), retracted)
    ensures TargetListed(t, best, t[x].parent, Without(enacted, x))
  {
    WithoutMeans(enacted, x);
    forall d
      ensures OnPath(t, d, x) <==> d == x || OnPath(t, d, t[x].parent)
    {
      ChildPath(t, x, d);
    }
    if OnPath(t, x, t[x].parent) {
      OnPathNumbers(t, x, t[x].parent);
    }
  }

  lemma UnlistedStays(t: Tree, c: Cache, x: Hash, enacted: seq<Hash>, retracted: seq<Hash>)
    requires AllRecorded(t, c.modifications) && !Listed(c.modifications, x)
    ensures !Listed(Sync(c, enacted, retracted).modifications, x)
  {
    SyncMeans(t, c, enacted, retracted);
    var c' := Sync(c, enacted, retracted);
    if Synced(t, c, c', enacted, retracted) {
      ListedStays(c.modifications, c'.modifications, x);
    }
  }

  /** The cache fits a block that is not listed. */
  ghost predicate Fits(c: Cache, changes: Changes, digest: Digester) {
    ChangesCached(c, changes, digest) && (changes == map[] || NoneCanonical(c.modifications))
  }

  lemma {:induction false} UntouchedIsAbsent(t: Tree, h: Hash, key: StorageKey)
    requires WellFormed(t) && h in t && forall d :: d in t && OnPath(t, d, h) ==> key !in t[d].changes
    ensures StateAt(t, h, key) == None
    decreases t[h].number
  {
    assert OnPath(t, h, h);
    if t[h].number > 0 {
      UntouchedIsAbsent(t, t[h].parent, key);
    }
  }

  /** Moving to another first block, everything of the old path goes. */
  lemma RootValues(t: Tree, best: Hash, x: Hash, enacted: seq<Hash>, retracted: seq<Hash>, key: StorageKey)
    requires WellFormed(t) && best in t && x in t && t[x].number == 0 && !OnPath(t, x, best)
    requires RouteOk(t, best, x, enacted, retracted) && KeptBy(t, retracted, key)
    ensures StateAt(t, best, key) == None
  {
    forall d | d in t && OnPath(t, d, best)
      ensures key !in t[d].changes
    {
      assert OnlyOn(t, d, best, x);
    }
    UntouchedIsAbsent(t, best, key);
  }

  /** ... and no block stays canonical. */
  lemma RootMods(t: Tree, mods: seq<BlockChanges>, x: Hash)
    requires WellFormed(t) && x in t && t[x].number == 0 && ModsOk(t, mods, x, {x}) && !Listed(mods, x)
    ensures NoneCanonical(mods) && ModsOk(t, mods, x, {})
  {
    forall i | 0 <= i < |mods|
      ensures !(IsFirst(mods, i) && mods[i].isCanon) && FlagOk(t, mods, i, x, {})
    {
      assert Recorded(t, mods[i]) && FlagOk(t, mods, i, x, {x});
    }
  }

  lemma RootFits(t: Tree, c: Cache, x: Hash, digest: Digester)
    requires WellFormed(t) && x in t && t[x].number == 0
    requires NoneCanonical(c.modifications) && ModsOk(t, c.modifications, x, {})
    requires forall key :: key in c.storage ==> c.storage[key] == None
    requires forall key :: key in c.hashes ==> c.hashes[key] == DigestOf(None, digest)
    ensures Coherent(t, c, x, digest) <==> Fits(c, t[x].changes, digest)
  {
    forall key
      ensures StateAt(t, x, key) == if key in t[x].changes then t[x].changes[key] else None
    {
    }
  }

  lemma UnlistedRootFits(t: Tree, c: Cache, best: Hash, x: Hash, enacted: seq<Hash>, retracted: seq<Hash>, digest: Digester)
    requires WellFormed(t) && best in t && x in t && t[x].number == 0 && !OnPath(t, x, best)
    requires Coherent(t, c, best, digest) && !Listed(c.modifications, x)
    requires RouteOk(t, best, x, enacted, retracted)
    ensures
      var c' := Sync(c, enacted, retracted);
      Coherent(t, c', x, digest) <==> Fits(c', t[x].changes, digest)
  {
    var c' := Sync(c, enacted, retracted);
    SyncMeans(t, c, enacted, retracted);
    if c' != EMPTY {
      UnlistedStays(t, c, x, enacted, retracted);
      SyncedMods(t, c, c', best, x, enacted, retracted);
      RootMods(t, c'.modifications, x);
      forall key | key in c'.storage || key in c'.hashes
        ensures StateAt(t, best, key) == None
      {
        RootValues(t, best, x, enacted, retracted, key);
      }
    }
    RootFits(t, c', x, digest);
  }

  lemma UnlistedFits(t: Tree, c: Cache, best: Hash, x: Hash, enacted: seq<Hash>, retracted: seq<Hash>, digest: Digester)
    requires WellFormed(t) && best in t && x in t && !OnPath(t, x, best)
    requires Coherent(t, c, best, digest) && !Listed(c.modifications, x)
    requires RouteOk(t, best, x, enacted, retracted)
    ensures
      var c' := Sync(c, Without(enacted, x), retracted);
      Coherent(t, c', x, digest) <==> Fits(c', t[x].changes, digest)
  {
    if t[x].number == 0 {
      WithoutMeans(enacted, x);
      UnlistedRootFits(t, c, best, x, Without(enacted, x), retracted, digest);
    } else {
      RouteToParent(t, best, x, enacted, retracted);
      SyncKeeps(t, c, best, t[x].parent, Without(enacted, x), retracted, digest);
      UnlistedStays(t, c, x, Without(enacted, x), retracted);
      UnlistedChildFits(t, Sync(c, Without(enacted, x), retracted), x, digest);
    }
  }

  /** A listed block off the best path is not flagged canonical, so the commit flips it. */
  lemma ListedFlips(t: Tree, c: Cache, best: Hash, x: Hash, digest: Digester)
    requires WellFormed(t) && best in t && x in t && !OnPath(t, x, best) && Coherent(t, c, best, digest)
    ensures Flips(c, x, true) <==> Listed(c.modifications, x)
  {
    var i := FindBlock(c.modifications, x);
    if i.Some? {
      assert FlagOk(t, c.modifications, i.value, best, {});
    }
  }

  /**
    Without a parent hash a best block is not recorded. The cache then fits the block exactly when the
    block is on the old best path or was listed, or when, with the route's keys purged, what is cached of
    its changes has the new values already and either nothing changed or no block is taken for canonical.
   */
  lemma UnrecordedCommitExact(t: Tree, c: Cache, best: Hash, x: Hash, k: Commit, digest: Digester)
    requires WellFormed(t) && best in t && x in t && Coherent(t, c, best, digest)
    requires k.hash == Some(x) && k.isBest && k.parentHash.None? && RouteOk(t, best, x, k.enacted, k.retracted)
    ensures Coherent(t, SyncCache(c, k), x, digest) <==>
            || OnPath(t, x, best)
            || Listed(c.modifications, x)
            || Fits(Sync(c, Without(k.enacted, x), k.retracted), t[x].changes, digest)
  {
    WithoutMeans(k.enacted, x);
    assert SyncCache(c, k) == Sync(c, CommitEnacted(c, k), k.retracted) by {
      assert k.retracted + [] == k.retracted;
    }
    if OnPath(t, x, best) {
      SyncKeeps(t, c, best, x, CommitEnacted(c, k), k.retracted, digest);
    } else {
      ListedFlips(t, c, best, x, digest);
      if Listed(c.modifications, x) {
        SyncKeeps(t, c, best, x, CommitEnacted(c, k), k.retracted, digest);
      } else {
        assert CommitEnacted(c, k) == Without(k.enacted, x);
        UnlistedFits(t, c, best, x, k.enacted, k.retracted, digest);
      }
    }
  }

  /** Three blocks in a row, the middle one setting a key. */
  ghost function StaleTree(key: StorageKey, value: Value): Tree {
    map[0 := Block(0, 9, map[]), 1 := Block(1, 0, map[key := Some(value)]), 2 := Block(2, 1, map[])]
  }

  lemma StaleTreeOk(key: StorageKey, value: Value)
    ensures
      var t := StaleTree(key, value);
      && WellFormed(t)
      && StateAt(t, 0, key) == None && StateAt(t, 1, key) == Some(value) && StateAt(t, 2, key) == Some(value)
  {
    var t := StaleTree(key, value);
    assert StateAt(t, 1, key) == Some(value);
  }

  /**
    The parent hash is not optional for a block that changes state: without it the block goes
    unrecorded, and the next block reads a value that was replaced under it.
   */
  lemma UnrecordedCommitGoesStale(key: StorageKey, value: Value, digest: Digester)
    ensures
      var none, t := Local(map[], map[]), StaleTree(key, value);
      var c := Cache(map[key := None], map[], []);
      var c1 := SyncCache(c, Commit([1], [], t[1].changes, Some(1), Some(1), true, None, none));
      var c2 := SyncCache(c1, Commit([2], [], t[2].changes, Some(2), Some(2), true, Some(1), none));
      && WellFormed(t) && Coherent(t, c, 0, digest)
      && IsAllowed(key, Some(2), c2.modifications)
      && key in c2.storage && c2.storage[key] != StateAt(t, 2, key)
  {
    var none, t := Local(map[], map[]), StaleTree(key, value);
    StaleTreeOk(key, value);
    var c := Cache(map[key := None], map[], []);
    var k1 := Commit([1], [], t[1].changes, Some(1), Some(1), true, None, none);
    var k2 := Commit([2], [], t[2].changes, Some(2), Some(2), true, Some(1), none);
    assert SyncCache(c, k1) == c;
    var c2 := SyncCache(c, k2);
    assert CommitEnacted(c, k2) == Without([2], 2) == [] == CommitRetracted(c, k2);
    assert t[2].changes.Keys == {};
    assert c2.modifications == [BlockChanges(2, 2, 1, {}, true)];
    assert key in c2.storage && c2.storage[key] == None;
  }
}
