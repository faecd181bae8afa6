/**
  The fork-aware shared state cache, as functions on what it contains. Evictions only ever take
  entries away, so they are left to the LRU maps: here an operation gives the contents before
  eviction, and every claim is about any smaller contents.
 */
module StateCacheModel {
  import opened Common

  type Bytes = seq<Byte>
  type Hash = nat
  type Value = Bytes
  type Digest = nat

  /** A key of the top trie, or of a child trie. */
  datatype StorageKey = Top(key: Bytes) | Child(trie: Bytes, key: Bytes)

  /** Keys changed by one block; `None` as a value means the key was deleted. */
  type Changes = map<StorageKey, Option<Value>>

  datatype BlockChanges = BlockChanges(
    number: nat, hash: Hash, parent: Hash, keys: set<StorageKey>, isCanon: bool)

  /** `storage` holds top and child values; `hashes` holds digests of top values. */
  datatype Cache = Cache(
    storage: map<StorageKey, Option<Value>>,
    hashes: map<StorageKey, Option<Digest>>,
    modifications: seq<BlockChanges>)

  const STATE_CACHE_BLOCKS := 12

  const EMPTY := Cache(map[], map[], [])

  function FindBlock(mods: seq<BlockChanges>, hash: Hash): (r: Option<nat>)
    ensures r.Some? ==>
              && r.value < |mods| && mods[r.value].hash == hash
              && forall j :: 0 <= j < r.value ==> mods[j].hash != hash
    ensures r.None? ==> forall j :: 0 <= j < |mods| ==> mods[j].hash != hash
  {
    if mods == [] then None
    else if mods[0].hash == hash then Some(0)
    else match FindBlock(mods[1..], hash)
      case None => None
      case Some(i) => Some(i + 1)
  }

  /** One block is enacted or retracted: its keys leave the cache. `None` if the block is unknown. */
  function MarkBlock(c: Cache, hash: Hash, canon: bool): Option<Cache> {
    match FindBlock(c.modifications, hash)
    case None => None
    case Some(i) =>
      var m := c.modifications[i];
      Some(Cache(c.storage - m.keys, c.hashes - m.keys, c.modifications[i := m.(isCanon := canon)]))
  }

  function MarkAll(c: Cache, hashes: seq<Hash>, canon: bool): Option<Cache>
    decreases |hashes|
  {
    if hashes == [] then Some(c)
    else match MarkBlock(c, hashes[0], canon)
      case None => None
      case Some(next) => MarkAll(next, hashes[1..], canon)
  }

  /** An unknown block wipes everything. */
  function Sync(c: Cache, enacted: seq<Hash>, retracted: seq<Hash>): Cache {
    match MarkAll(c, enacted, true)
    case None => EMPTY
    case Some(c1) =>
      match MarkAll(c1, retracted, false)
      case None => EMPTY
      case Some(c2) => c2
  }

  /** What a state on top of `parentHash` has read so far. */
  datatype Local = Local(storage: map<StorageKey, Option<Value>>, hashes: map<StorageKey, Option<Digest>>)

  datatype Commit = Commit(
    enacted: seq<Hash>,
    retracted: seq<Hash>,
    changes: Changes,
    hash: Option<Hash>,
    number: Option<nat>,
    isBest: bool,
    parentHash: Option<Hash>,
    local: Local)

  /** The block's recorded flag disagrees with the commit: it is re-enacted or retracted with it. */
  predicate Flips(c: Cache, hash: Hash, isBest: bool) {
    var i := FindBlock(c.modifications, hash);
    i.Some? && c.modifications[i.value].isCanon != isBest
  }

  function CommitEnacted(c: Cache, k: Commit): seq<Hash> {
    match k.hash
    case None => k.enacted
    case Some(h) => Without(k.enacted, h) + if Flips(c, h, k.isBest) && k.isBest then [h] else []
  }

  function CommitRetracted(c: Cache, k: Commit): seq<Hash> {
    match k.hash
    case None => k.retracted
    case Some(h) => k.retracted + if Flips(c, h, k.isBest) && !k.isBest then [h] else []
  }

  /** The local reads go into the shared cache when the commit is the new best block. */
  function Propagate(c: Cache, k: Commit): Cache {
    if k.parentHash.Some? && k.isBest then
      Cache(c.storage + k.local.storage, c.hashes + k.local.hashes, c.modifications)
    else
      c
  }

  /** Before the first entry with a smaller number. */
  function InsertOrdered(mods: seq<BlockChanges>, m: BlockChanges): seq<BlockChanges> {
    if mods == [] then [m]
    else if mods[0].number < m.number then [m] + mods
    else [mods[0]] + InsertOrdered(mods[1..], m)
  }

  function Evicted(mods: seq<BlockChanges>): seq<BlockChanges> {
    if |mods| == STATE_CACHE_BLOCKS then mods[..|mods| - 1] else mods
  }

  function Record(c: Cache, k: Commit): Cache {
    match (k.number, k.hash, k.parentHash)
    case (Some(number), Some(hash), Some(parent)) =>
      Cache(
        if k.isBest then c.storage + k.changes else c.storage,
        if k.isBest then c.hashes - k.changes.Keys else c.hashes,
        InsertOrdered(Evicted(c.modifications), BlockChanges(number, hash, parent, k.changes.Keys, k.isBest)))
    case _ => c
  }

  function SyncCache(c: Cache, k: Commit): Cache {
    Record(Propagate(Sync(c, CommitEnacted(c, k), CommitRetracted(c, k)), k), k)
  }

  /** Scans recent blocks, newest first, for a canonical ancestor of `parent` that no seen block shadows. */
  function AllowedFrom(key: StorageKey, parent: Hash, mods: seq<BlockChanges>): bool
    decreases |mods|
  {
    if mods == [] then false else
      var m := mods[0];
      if m.hash == parent && m.isCanon then true
      else if key in m.keys then false
      else AllowedFrom(key, if m.hash == parent then m.parent else parent, mods[1..])
  }

  predicate IsAllowed(key: StorageKey, parentHash: Option<Hash>, mods: seq<BlockChanges>) {
    parentHash.Some? && AllowedFrom(key, parentHash.value, mods)
  }
}
