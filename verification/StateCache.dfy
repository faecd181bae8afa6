/** The shared state cache as it runs: size-bounded maps, and loops over the blocks of a route. */
module StateCache {
  import opened Common
  import opened StateCacheModel
  import opened StateCacheCoherence
  import opened StateCacheRuns

  // ---- sizes ----

  function KeySize(k: StorageKey): nat {
    match k
    case Top(key) => |key|
    case Child(trie, key) => |trie| + |key|
  }

  predicate Distinct(order: seq<StorageKey>) {
    forall i, j :: 0 <= i < j < |order| ==> order[i] != order[j]
  }

  ghost function SizeOf<V>(order: seq<StorageKey>, items: map<StorageKey, V>, valueSize: V -> nat): nat
    requires forall k :: k in order ==> k in items
  {
    if order == [] then 0
    else KeySize(order[0]) + valueSize(items[order[0]]) + SizeOf(order[1..], items, valueSize)
  }

  lemma {:induction false} SizeFrame<V>(
      order: seq<StorageKey>, items: map<StorageKey, V>, items': map<StorageKey, V>, valueSize: V -> nat)
    requires forall k :: k in order ==> k in items && k in items' && items'[k] == items[k]
    ensures SizeOf(order, items', valueSize) == SizeOf(order, items, valueSize)
  {
    if order != [] {
      SizeFrame(order[1..], items, items', valueSize);
    }
  }

  lemma {:induction false} SizeSplit<V>(
      a: seq<StorageKey>, b: seq<StorageKey>, items: map<StorageKey, V>, valueSize: V -> nat)
    requires forall k :: k in a + b ==> k in items
    ensures (forall k :: k in a ==> k in items) && (forall k :: k in b ==> k in items)
    ensures SizeOf(a + b, items, valueSize) == SizeOf(a, items, valueSize) + SizeOf(b, items, valueSize)
  {
    assert forall k :: k in a ==> k in a + b;
    assert forall k :: k in b ==> k in a + b;
    if a == [] {
      assert a + b == b;
    } else {
      SizeSplit(a[1..], b, items, valueSize);
      assert (a + b)[1..] == a[1..] + b;
    }
  }

  /** Where a key sits in the order. */
  function IndexOf(order: seq<StorageKey>, k: StorageKey): (i: nat)
    requires k in order
    ensures i < |order| && order[i] == k
  {
    if order[0] == k then 0 else 1 + IndexOf(order[1..], k)
  }

  function Dropped(order: seq<StorageKey>, k: StorageKey): seq<StorageKey>
    requires k in order
  {
    var i := IndexOf(order, k);
    order[..i] + order[i + 1..]
  }

  lemma DroppedMeans(order: seq<StorageKey>, k: StorageKey)
    requires k in order && Distinct(order)
    ensures Distinct(Dropped(order, k))
    ensures forall x :: x in Dropped(order, k) <==> x in order && x != k
  {
    var i := IndexOf(order, k);
    var rest := Dropped(order, k);
    assert forall j :: 0 <= j < |rest| ==> rest[j] == if j < i then order[j] else order[j + 1];
    forall x | x in order && x != k
      ensures x in rest
    {
      var j :| 0 <= j < |order| && order[j] == x;
      assert rest[if j < i then j else j - 1] == x;
    }
  }

  lemma DroppedSize<V>(order: seq<StorageKey>, k: StorageKey, items: map<StorageKey, V>, valueSize: V -> nat)
    requires k in order && Distinct(order) && forall x :: x in order ==> x in items
    ensures forall x :: x in Dropped(order, k) ==> x in items
    ensures SizeOf(order, items, valueSize) ==
              SizeOf(Dropped(order, k), items, valueSize) + KeySize(k) + valueSize(items[k])
  {
    var i := IndexOf(order, k);
    DroppedMeans(order, k);
    assert order == order[..i] + order[i..];
    SizeSplit(order[..i], order[i..], items, valueSize);
    assert order[i..][1..] == order[i + 1..];
    SizeSplit(order[..i], order[i + 1..], items, valueSize);
  }

  lemma TailMeans(order: seq<StorageKey>)
    requires order != [] && Distinct(order)
    ensures Distinct(order[1..])
    ensures forall x :: x in order[1..] <==> x in order && x != order[0]
  {
    forall x | x in order && x != order[0]
      ensures x in order[1..]
    {
      var i :| 0 <= i < |order| && order[i] == x;
      assert order[1..][i - 1] == x;
    }
  }

  ghost function KeysOf(order: seq<StorageKey>): set<StorageKey> {
    set k | k in order
  }

  lemma KeysSnoc(dropped: seq<StorageKey>, k: StorageKey)
    ensures KeysOf(dropped + [k]) == KeysOf(dropped) + {k}
  {
  }

  /** The oldest entries are gone, and the last of them would not have fitted. */
  ghost predicate Shrunk<V>(
      order: seq<StorageKey>, items: map<StorageKey, V>,
      order': seq<StorageKey>, items': map<StorageKey, V>, valueSize: V -> nat, limit: nat)
  {
    exists dropped :: order == dropped + order' && Evicts(dropped, items, order', items', valueSize, limit)
  }

  ghost predicate Evicts<V>(
      dropped: seq<StorageKey>, items: map<StorageKey, V>,
      order': seq<StorageKey>, items': map<StorageKey, V>, valueSize: V -> nat, limit: nat)
  {
    && items' == items - KeysOf(dropped)
    && (dropped != [] ==> TooBig([dropped[|dropped| - 1]] + order', items, valueSize, limit))
  }

  lemma EvictsMore<V>(
      dropped: seq<StorageKey>, items: map<StorageKey, V>, order: seq<StorageKey>, items': map<StorageKey, V>,
      valueSize: V -> nat, limit: nat)
    requires Evicts(dropped, items, order, items', valueSize, limit)
    requires order != [] && TooBig(order, items', valueSize, limit)
    ensures Evicts(dropped + [order[0]], items, order[1..], items' - {order[0]}, valueSize, limit)
    ensures dropped + order == (dropped + [order[0]]) + order[1..]
  {
    KeysSnoc(dropped, order[0]);
    SizeFrame(order, items', items, valueSize);
    assert [order[0]] + order[1..] == order;
  }

  ghost predicate TooBig<V>(order: seq<StorageKey>, items: map<StorageKey, V>, valueSize: V -> nat, limit: nat) {
    (forall k :: k in order ==> k in items) && SizeOf(order, items, valueSize) > limit
  }

  ghost predicate SubmapOf<V>(a: map<StorageKey, V>, b: map<StorageKey, V>) {
    forall k :: k in a ==> k in b && a[k] == b[k]
  }

  lemma NothingEvicted<V>(order: seq<StorageKey>, items: map<StorageKey, V>, valueSize: V -> nat, limit: nat)
    ensures order == [] + order && Evicts([], items, order, items, valueSize, limit)
    ensures Shrunk(order, items, order, items, valueSize, limit)
  {
    assert KeysOf([]) == {} && items - {} == items;
  }

  lemma ShrunkIsSubmap<V>(
      order: seq<StorageKey>, items: map<StorageKey, V>,
      order': seq<StorageKey>, items': map<StorageKey, V>, valueSize: V -> nat, limit: nat)
    requires Shrunk(order, items, order', items', valueSize, limit)
    ensures SubmapOf(items', items)
  {
  }

  lemma RemoveOneMore<V>(m: map<StorageKey, V>, keys: set<StorageKey>, todo: set<StorageKey>, k: StorageKey)
    requires k in todo && todo <= keys
    ensures (m - (keys - todo)) - {k} == m - (keys - (todo - {k}))
  {
  }

  /** What adding the entries under `keys` can add to the size. */
  ghost function EntriesSize<V>(m: map<StorageKey, V>, keys: set<StorageKey>, valueSize: V -> nat): nat
    requires keys <= m.Keys
    decreases keys
  {
    if keys == {} then 0
    else
      var k :| k in keys;
      KeySize(k) + valueSize(m[k]) + EntriesSize(m, keys - {k}, valueSize)
  }

  lemma {:induction false} EntriesSizeSplits<V>(
      m: map<StorageKey, V>, keys: set<StorageKey>, k: StorageKey, valueSize: V -> nat)
    requires keys <= m.Keys && k in keys
    ensures EntriesSize(m, keys, valueSize) == KeySize(k) + valueSize(m[k]) + EntriesSize(m, keys - {k}, valueSize)
    decreases keys
  {
    var first :| first in keys && EntriesSize(m, keys, valueSize) ==
                   KeySize(first) + valueSize(m[first]) + EntriesSize(m, keys - {first}, valueSize);
    if first != k {
      EntriesSizeSplits(m, keys - {first}, k, valueSize);
      EntriesSizeSplits(m, keys - {k}, first, valueSize);
      assert keys - {first} - {k} == keys - {k} - {first};
    }
  }

  /** All entries but those under `todo` are in `now`, unless evicted; with room none is. */
  ghost predicate Adding<V>(
      base: map<StorageKey, V>, m: map<StorageKey, V>, todo: set<StorageKey>, now: map<StorageKey, V>, roomy: bool)
  {
    SubmapOf(now, base + (m - todo)) && (roomy ==> now == base + (m - todo))
  }

  lemma AddingStarts<V>(base: map<StorageKey, V>, m: map<StorageKey, V>, roomy: bool)
    ensures Adding(base, m, m.Keys, base, roomy)
  {
    assert base + (m - m.Keys) == base;
  }

  lemma AddingEnds<V>(base: map<StorageKey, V>, m: map<StorageKey, V>, now: map<StorageKey, V>, roomy: bool)
    requires Adding(base, m, {}, now, roomy)
    ensures SubmapOf(now, base + m) && (roomy ==> now == base + m)
  {
    assert m - {} == m;
  }

  lemma AddingOneMore<V>(
      base: map<StorageKey, V>, m: map<StorageKey, V>, todo: set<StorageKey>, k: StorageKey,
      before: map<StorageKey, V>, after: map<StorageKey, V>, roomy: bool)
    requires k in todo && todo <= m.Keys && Adding(base, m, todo, before, roomy)
    requires SubmapOf(after, before[k := m[k]]) && (roomy ==> after == before[k := m[k]])
    ensures Adding(base, m, todo - {k}, after, roomy)
  {
    assert SubmapOf(after, base + (m - (todo - {k})));
    assert (base + (m - todo))[k := m[k]] == base + (m - (todo - {k}));
  }

  /** A map bounded by an estimate of its size; the oldest entries go first. */
  class LRUMap<V> {
    var items: map<StorageKey, V>
    var order: seq<StorageKey>
    var usedSize: nat
    const limit: nat
    const valueSize: V -> nat

    ghost predicate Counted()
      reads this
    {
      && Distinct(order)
      && (forall k :: k in order <==> k in items)
      && usedSize == SizeOf(order, items, valueSize)
    }

    ghost predicate Valid()
      reads this
    {
      Counted() && usedSize <= limit
    }

    constructor (limit: nat, valueSize: V -> nat)
      ensures Valid() && items == map[]
      ensures this.limit == limit && this.valueSize == valueSize
    {
      items := map[];
      order := [];
      usedSize := 0;
      this.limit := limit;
      this.valueSize := valueSize;
    }

    method Remove(k: StorageKey)
      requires Valid()
      modifies this
      ensures Valid() && items == old(items) - {k} && usedSize <= old(usedSize)
      ensures order == if k in old(items) then Dropped(old(order), k) else old(order)
    {
      if k in items {
        DroppedMeans(order, k);
        DroppedSize(order, k, items, valueSize);
        var rest := Dropped(order, k);
        SizeFrame(rest, items, items - {k}, valueSize);
        usedSize := usedSize - KeySize(k);
        usedSize := usedSize - valueSize(items[k]);
        items := items - {k};
        order := rest;
      }
    }

    method RemoveAll(keys: set<StorageKey>)
      requires Valid()
      modifies this
      ensures Valid() && items == old(items) - keys && usedSize <= old(usedSize)
    {
      var todo := keys;
      while todo != {}
        invariant Valid() && todo <= keys && items == old(items) - (keys - todo) && usedSize <= old(usedSize)
        decreases |todo|
      {
        var k :| k in todo;
        Remove(k);
        RemoveOneMore(old(items), keys, todo, k);
        todo := todo - {k};
      }
      assert keys - todo == keys;
    }

    method Put(k: StorageKey, v: V)
      requires Counted()
      modifies this
      ensures Counted() && items == old(items)[k := v]
      ensures order == if k in old(items) then old(order) else old(order) + [k]
      ensures usedSize <= old(usedSize) + KeySize(k) + valueSize(v)
    {
      var all := items[k := v];
      if k in items {
        DroppedSize(order, k, items, valueSize);
        DroppedSize(order, k, all, valueSize);
        DroppedMeans(order, k);
        SizeFrame(Dropped(order, k), items, all, valueSize);
        usedSize := usedSize + valueSize(v) - valueSize(items[k]);
      } else {
        SizeFrame(order, items, all, valueSize);
        SizeSplit(order, [k], all, valueSize);
        usedSize := usedSize + valueSize(v) + KeySize(k);
        order := order + [k];
      }
      items := all;
    }

    method DropOldest()
      requires Counted() && order != []
      modifies this
      ensures Counted() && order == old(order)[1..] && items == old(items) - {old(order)[0]}
      ensures usedSize <= old(usedSize)
    {
      var oldest := order[0];
      TailMeans(order);
      SizeFrame(order[1..], items, items - {oldest}, valueSize);
      usedSize := usedSize - KeySize(oldest) - valueSize(items[oldest]);
      items := items - {oldest};
      order := order[1..];
    }

    /** Drops oldest entries one by one until the size is within the limit. */
    method Shrink()
      requires Counted()
      modifies this
      ensures Valid()
      ensures Shrunk(old(order), old(items), order, items, valueSize, limit)
      ensures usedSize <= old(usedSize)
    {
      ghost var dropped: seq<StorageKey> := [];
      NothingEvicted(order, items, valueSize, limit);
      while usedSize > limit && order != []
        invariant Counted() && old(order) == dropped + order
        invariant Evicts(dropped, old(items), order, items, valueSize, limit)
        invariant usedSize <= old(usedSize)
        decreases |order|
      {
        EvictsMore(dropped, old(items), order, items, valueSize, limit);
        dropped := dropped + [order[0]];
        DropOldest();
      }
    }

    /** Within the limit already, nothing goes. */
    method Fit()
      requires Counted()
      modifies this
      ensures Valid() && SubmapOf(items, old(items))
      ensures Shrunk(old(order), old(items), order, items, valueSize, limit)
      ensures usedSize <= old(usedSize) && (old(usedSize) <= limit ==> items == old(items))
    {
      if usedSize > limit {
        Shrink();
      } else {
        NothingEvicted(order, items, valueSize, limit);
      }
      ShrunkIsSubmap(old(order), old(items), order, items, valueSize, limit);
    }

    /** Stores the entry, then evicts no more than the limit asks for. */
    method Add(k: StorageKey, v: V)
      requires Valid()
      modifies this
      ensures Valid()
      ensures Shrunk(
                if k in old(items) then old(order) else old(order) + [k], old(items)[k := v],
                order, items, valueSize, limit)
      ensures SubmapOf(items, old(items)[k := v])
      ensures usedSize <= old(usedSize) + KeySize(k) + valueSize(v)
      ensures old(usedSize) + KeySize(k) + valueSize(v) <= limit ==> items == old(items)[k := v]
    {
      Put(k, v);
      Fit();
    }

    method AddAll(entries: map<StorageKey, V>)
      requires Valid()
      modifies this
      ensures Valid() && SubmapOf(items, old(items) + entries)
      ensures usedSize <= old(usedSize) + EntriesSize(entries, entries.Keys, valueSize)
      ensures old(usedSize) + EntriesSize(entries, entries.Keys, valueSize) <= limit ==> items == old(items) + entries
    {
      var todo := entries.Keys;
      ghost var most := usedSize + EntriesSize(entries, todo, valueSize);
      AddingStarts(items, entries, most <= limit);
      while todo != {}
        invariant Valid() && todo <= entries.Keys
        invariant Adding(old(items), entries, todo, items, most <= limit)
        invariant usedSize + EntriesSize(entries, todo, valueSize) <= most
        decreases |todo|
      {
        var k :| k in todo;
        EntriesSizeSplits(entries, todo, k, valueSize);
        AddOne(old(items), entries, todo, k, most);
        todo := todo - {k};
      }
      AddingEnds(old(items), entries, items, most <= limit);
    }

    method AddOne(
        ghost base: map<StorageKey, V>, entries: map<StorageKey, V>, ghost todo: set<StorageKey>, k: StorageKey, ghost most: nat)
      requires Valid() && k in todo && todo <= entries.Keys && Adding(base, entries, todo, items, most <= limit)
      requires most <= limit ==> usedSize + KeySize(k) + valueSize(entries[k]) <= limit
      modifies this
      ensures Valid() && Adding(base, entries, todo - {k}, items, most <= limit)
      ensures usedSize <= old(usedSize) + KeySize(k) + valueSize(entries[k])
    {
      ghost var before := items;
      Add(k, entries[k]);
      AddingOneMore(base, entries, todo, k, before, items, most <= limit);
    }

    /** A hit becomes the newest entry; the contents do not change. */
    method Get(k: StorageKey) returns (r: Option<V>)
      requires Valid()
      modifies this`order
      ensures Valid()
      ensures order == if k in items then Dropped(old(order), k) + [k] else old(order)
      ensures r == if k in items then Some(items[k]) else None
    {
      if k !in items {
        return None;
      }
      DroppedMeans(order, k);
      DroppedSize(order, k, items, valueSize);
      var rest := Dropped(order, k);
      assert forall x :: x in rest + [k] <==> x in items;
      SizeSplit(rest, [k], items, valueSize);
      order := rest + [k];
      return Some(items[k]);
    }

    method Clear()
      modifies this
      ensures Valid() && items == map[] && usedSize == 0
    {
      items := map[];
      order := [];
      usedSize := 0;
    }
  }

  // ---- the shared cache ----

  ghost predicate AllTop<V>(items: map<StorageKey, V>) {
    forall k :: k in items ==> k.Top?
  }

  ghost predicate AllChild<V>(items: map<StorageKey, V>) {
    forall k :: k in items ==> k.Child?
  }

  function TopPart<V>(m: map<StorageKey, V>): map<StorageKey, V> {
    map k | k in m && k.Top? :: m[k]
  }

  function ChildPart<V>(m: map<StorageKey, V>): map<StorageKey, V> {
    map k | k in m && k.Child? :: m[k]
  }

  lemma PartsRemoved<V>(top: map<StorageKey, V>, child: map<StorageKey, V>, keys: set<StorageKey>)
    requires AllTop(top) && AllChild(child)
    ensures AllTop(top - keys) && AllChild(child - keys) && (top - keys) + (child - keys) == (top + child) - keys
  {
  }

  /** Adding to the two maps of values is adding to the cache. */
  lemma PartsAdded<V>(
      top: map<StorageKey, V>, child: map<StorageKey, V>, top': map<StorageKey, V>, child': map<StorageKey, V>,
      m: map<StorageKey, V>)
    requires AllTop(top) && AllChild(child)
    requires SubmapOf(top', top + TopPart(m)) && SubmapOf(child', child + ChildPart(m))
    ensures AllTop(top') && AllChild(child') && SubmapOf(top' + child', top + child + m)
    ensures top' == top + TopPart(m) && child' == child + ChildPart(m) ==> top' + child' == top + child + m
  {
  }

  lemma MarkAllStep(c: Cache, hashes: seq<Hash>, i: nat, canon: bool)
    requires i < |hashes|
    ensures MarkAll(c, hashes[i..], canon) ==
            match MarkBlock(c, hashes[i], canon)
            case None => None
            case Some(next) => MarkAll(next, hashes[i + 1..], canon)
  {
    assert hashes[i..][1..] == hashes[i + 1..];
  }

  /** Recording a block in smaller contents gives smaller contents. */
  lemma RecordSmaller(after: Cache, before: Cache, full: Cache, k: Commit)
    requires Smaller(before, full) && k.number.Some? && k.hash.Some? && k.parentHash.Some?
    requires k.isBest ==>
               SubmapOf(after.storage, before.storage + k.changes) && after.hashes == before.hashes - k.changes.Keys
    requires !k.isBest ==> after.storage == before.storage && after.hashes == before.hashes
    requires after.modifications == Record(before, k).modifications
    ensures Smaller(after, Record(full, k))
    ensures before == full && (k.isBest ==> after.storage == before.storage + k.changes) ==> after == Record(full, k)
  {
  }

  /** Estimated sizes: bytes for values, a fixed 32 bytes for digests. */
  function ValueSize(v: Option<Value>): nat {
    if v.Some? then |v.value| else 0
  }

  function DigestSize(d: Option<Digest>): nat {
    if d.Some? then 32 else 0
  }

  /** What adding all the entries can add to the size of a map. */
  ghost function ValuesSize(m: map<StorageKey, Option<Value>>): nat {
    EntriesSize(m, m.Keys, ValueSize)
  }

  function Share(total: nat, part: nat, whole: nat): nat
    requires whole > 0
  {
    total * part / whole
  }

  const FIX_LRU_HASH_SIZE := 65536

  /** Before the first entry of a smaller number. */
  method InsertPoint(mods: seq<BlockChanges>, m: BlockChanges) returns (i: nat)
    ensures i <= |mods| && InsertOrdered(mods, m) == mods[..i] + [m] + mods[i..]
  {
    i := 0;
    while i < |mods| && mods[i].number >= m.number
      invariant i <= |mods|
      invariant InsertOrdered(mods, m) == mods[..i] + InsertOrdered(mods[i..], m)
    {
      assert mods[i..][1..] == mods[i + 1..];
      assert mods[..i] + [mods[i]] == mods[..i + 1];
      i := i + 1;
    }
  }

  /** The order after a key was looked up: a hit becomes the newest. */
  ghost function Used(order: seq<StorageKey>, key: StorageKey): seq<StorageKey> {
    if key in order then Dropped(order, key) + [key] else order
  }

  class SharedCache {
    const lruStorage: LRUMap<Option<Value>>
    const lruHashes: LRUMap<Option<Digest>>
    const lruChildStorage: LRUMap<Option<Value>>
    var modifications: seq<BlockChanges>

    ghost function Repr(): set<object> {
      {this, lruStorage, lruHashes, lruChildStorage}
    }

    /** Top keys and child keys live in maps of their own. */
    ghost predicate Valid()
      reads Repr()
    {
      && lruStorage != lruChildStorage
      && lruStorage.Valid() && lruHashes.Valid() && lruChildStorage.Valid()
      && lruStorage.valueSize == ValueSize && lruChildStorage.valueSize == ValueSize
      && lruHashes.valueSize == DigestSize
      && AllTop(lruStorage.items) && AllChild(lruChildStorage.items) && AllTop(lruHashes.items)
    }

    ghost function View(): Cache
      reads Repr()
    {
      Cache(lruStorage.items + lruChildStorage.items, lruHashes.items, modifications)
    }

    /** Room for that much more in the maps of top values, child values and digests. */
    ghost predicate Room(top: nat, child: nat, hashes: nat)
      reads lruStorage, lruChildStorage, lruHashes
    {
      && lruStorage.usedSize + top <= lruStorage.limit
      && lruChildStorage.usedSize + child <= lruChildStorage.limit
      && lruHashes.usedSize + hashes <= lruHashes.limit
    }

    /** No map uses more than before. */
    twostate predicate NotFuller()
      reads lruStorage, lruChildStorage, lruHashes
    {
      && lruStorage.usedSize <= old(lruStorage.usedSize)
      && lruChildStorage.usedSize <= old(lruChildStorage.usedSize)
      && lruHashes.usedSize <= old(lruHashes.usedSize)
    }

    constructor (sharedCacheSize: nat, childNumerator: nat, childDenominator: nat)
      requires childDenominator > 0
      ensures Valid() && View() == EMPTY && fresh(Repr())
      ensures lruHashes.limit == 65536
      ensures lruChildStorage.limit == sharedCacheSize * childNumerator / childDenominator
      ensures lruStorage.limit ==
              if childNumerator <= childDenominator
              then sharedCacheSize * (childDenominator - childNumerator) / childDenominator else 0
    {
      var top := if childDenominator >= childNumerator then childDenominator - childNumerator else 0;
      var topSize := Share(sharedCacheSize, top, childDenominator);
      var childSize := Share(sharedCacheSize, childNumerator, childDenominator);
      lruStorage := new LRUMap(topSize, ValueSize);
      lruHashes := new LRUMap(FIX_LRU_HASH_SIZE, DigestSize);
      lruChildStorage := new LRUMap(childSize, ValueSize);
      modifications := [];
    }

    /** Takes keys out of the maps they may be in. */
    method RemoveKeys(keys: set<StorageKey>)
      requires Valid()
      modifies lruStorage, lruHashes, lruChildStorage
      ensures Valid() && NotFuller()
      ensures View() == Cache(old(View()).storage - keys, old(View()).hashes - keys, old(View()).modifications)
    {
      PartsRemoved(lruStorage.items, lruChildStorage.items, keys);
      lruStorage.RemoveAll(keys);
      lruHashes.RemoveAll(keys);
      lruChildStorage.RemoveAll(keys);
    }

    /** One block is enacted or retracted; `false` if the cache knows no such block. */
    method Mark(hash: Hash, canon: bool) returns (known: bool)
      requires Valid()
      modifies Repr()
      ensures Valid() && known == MarkBlock(old(View()), hash, canon).Some?
      ensures View() == if known then MarkBlock(old(View()), hash, canon).value else old(View())
      ensures NotFuller()
    {
      var at := FindBlock(modifications, hash);
      if at.None? {
        return false;
      }
      var m := modifications[at.value];
      modifications := modifications[at.value := m.(isCanon := canon)];
      RemoveKeys(m.keys);
      return true;
    }

    /** Marks block after block; an unknown one stops the marking. */
    method MarkEach(hashes: seq<Hash>, canon: bool) returns (clear: bool)
      requires Valid()
      modifies Repr()
      ensures Valid() && clear == MarkAll(old(View()), hashes, canon).None?
      ensures !clear ==> View() == MarkAll(old(View()), hashes, canon).value
      ensures NotFuller()
    {
      clear := false;
      ghost var start := View();
      var i := 0;
      while i < |hashes|
        invariant i <= |hashes| && Valid() && NotFuller()
        invariant MarkAll(start, hashes, canon) == if clear then None else MarkAll(View(), hashes[i..], canon)
      {
        if !clear {
          MarkAllStep(View(), hashes, i, canon);
          var known := Mark(hashes[i], canon);
          clear := !known;
        }
        i := i + 1;
      }
    }

    method Sync(enacted: seq<Hash>, retracted: seq<Hash>)
      requires Valid()
      modifies Repr()
      ensures Valid() && View() == StateCacheModel.Sync(old(View()), enacted, retracted)
      ensures NotFuller()
    {
      var clear := MarkEach(enacted, true);
      if !clear {
        clear := MarkEach(retracted, false);
      }
      if clear {
        lruStorage.Clear();
        lruChildStorage.Clear();
        lruHashes.Clear();
        modifications := [];
      }
    }

    /** Adds values to their maps; the limits may push out others, never alter them. */
    method AddValues(values: map<StorageKey, Option<Value>>)
      requires Valid()
      modifies lruStorage, lruChildStorage
      ensures Valid() && View().hashes == old(View()).hashes
      ensures SubmapOf(View().storage, old(View()).storage + values)
      ensures lruStorage.usedSize <= old(lruStorage.usedSize) + ValuesSize(TopPart(values))
      ensures lruChildStorage.usedSize <= old(lruChildStorage.usedSize) + ValuesSize(ChildPart(values))
      ensures old(Room(ValuesSize(TopPart(values)), ValuesSize(ChildPart(values)), 0)) ==>
                View().storage == old(View()).storage + values
    {
      ghost var top, child := lruStorage.items, lruChildStorage.items;
      lruStorage.AddAll(TopPart(values));
      lruChildStorage.AddAll(ChildPart(values));
      PartsAdded(top, child, lruStorage.items, lruChildStorage.items, values);
    }

    /** Looks a value up in its map; only the order of use changes. */
    method Get(key: StorageKey) returns (entry: Option<Option<Value>>)
      requires Valid()
      modifies lruStorage`order, lruChildStorage`order
      ensures Valid() && View() == old(View())
      ensures entry == if key in View().storage then Some(View().storage[key]) else None
      ensures lruStorage.order == Used(old(lruStorage.order), key)
      ensures lruChildStorage.order == Used(old(lruChildStorage.order), key)
    {
      if key.Top? {
        entry := lruStorage.Get(key);
      } else {
        entry := lruChildStorage.Get(key);
      }
    }

    method GetHash(key: StorageKey) returns (entry: Option<Option<Digest>>)
      requires Valid()
      modifies lruHashes`order
      ensures Valid() && View() == old(View())
      ensures entry == if key in View().hashes then Some(View().hashes[key]) else None
      ensures lruHashes.order == Used(old(lruHashes.order), key)
    {
      entry := lruHashes.Get(key);
    }

    /** A committed block's changes: their old digests go, then their values come in. */
    method AddChanges(changes: Changes)
      requires Valid()
      modifies lruStorage, lruHashes, lruChildStorage
      ensures Valid()
      ensures SubmapOf(View().storage, old(View()).storage + changes)
      ensures View().hashes == old(View()).hashes - changes.Keys
      ensures old(Room(ValuesSize(TopPart(changes)), ValuesSize(ChildPart(changes)), 0)) ==>
                View().storage == old(View()).storage + changes
    {
      lruHashes.RemoveAll(changes.Keys);
      AddValues(changes);
    }

    /** Drops the oldest entry when the list is full, then inserts by number. */
    method Insert(m: BlockChanges)
      modifies `modifications
      ensures modifications == InsertOrdered(Evicted(old(modifications)), m)
    {
      if |modifications| == STATE_CACHE_BLOCKS {
        modifications := modifications[..|modifications| - 1];
      }
      var i := InsertPoint(modifications, m);
      modifications := modifications[..i] + [m] + modifications[i..];
    }

    /** Records the committed block; contents smaller than `full` stay smaller. */
    method RecordBlock(m: BlockChanges, changes: Changes, ghost k: Commit, ghost full: Cache)
      requires Valid() && Smaller(View(), full) && changes == k.changes
      requires k.number == Some(m.number) && k.hash == Some(m.hash) && k.parentHash == Some(m.parent)
      requires m.keys == changes.Keys && m.isCanon == k.isBest
      modifies Repr()
      ensures Valid() && Smaller(View(), Record(full, k))
      ensures old(Room(ValuesSize(TopPart(changes)), ValuesSize(ChildPart(changes)), 0)) && old(View()) == full ==>
                View() == Record(full, k)
    {
      ghost var before := View();
      if m.isCanon {
        AddChanges(changes);
      }
      Insert(m);
      RecordSmaller(View(), before, full, k);
    }
  }

  lemma StaysCoherent(t: Tree, before: Cache, after: Cache, best: Hash, target: Hash, k: Commit, digest: Digester)
    requires WellFormed(t) && best in t && target in t && Smaller(after, StateCacheModel.SyncCache(before, k))
    ensures Coherent(t, before, best, digest) && CommitOk(t, best, target, k, digest) ==>
              Coherent(t, after, target, digest)
  {
    if Coherent(t, before, best, digest) && CommitOk(t, best, target, k, digest) {
      CommitKeeps(t, before, best, target, k, digest);
      EvictionKeeps(t, StateCacheModel.SyncCache(before, k), after, target, digest);
    }
  }

  lemma NoRoute(t: Tree, best: Hash)
    requires WellFormed(t) && best in t
    ensures RouteOk(t, best, best, [], []) && TargetListed(t, best, best, [])
  {
  }

  // ---- one state on top of a block ----

  /** Whether the shared cache may answer for a state on top of `parentHash`: newest block first. */
  method ScanAllowed(key: StorageKey, parentHash: Option<Hash>, mods: seq<BlockChanges>) returns (r: bool)
    ensures r == IsAllowed(key, parentHash, mods)
  {
    if parentHash.None? {
      return false;
    }
    var parent := parentHash.value;
    var i := 0;
    while i < |mods|
      invariant i <= |mods| && AllowedFrom(key, parentHash.value, mods) == AllowedFrom(key, parent, mods[i..])
    {
      var m := mods[i];
      assert mods[i..][1..] == mods[i + 1..];
      if m.hash == parent {
        if m.isCanon {
          return true;
        }
        parent := m.parent;
      }
      if key in m.keys {
        return false;
      }
      i := i + 1;
    }
    return false;
  }

  method FilterOut(hashes: seq<Hash>, hash: Hash) returns (kept: seq<Hash>)
    ensures kept == Without(hashes, hash)
  {
    kept := [];
    var i := 0;
    while i < |hashes|
      invariant i <= |hashes| && Without(hashes, hash) == kept + Without(hashes[i..], hash)
    {
      WithoutNext(hashes, i, hash);
      if hashes[i] != hash {
        kept := kept + [hashes[i]];
      }
      i := i + 1;
    }
  }

  class CachingState {
    const shared: SharedCache
    const parentHash: Option<Hash>
    const backend: StorageKey -> Option<Value>
    const digest: Digester
    var localStorage: map<StorageKey, Option<Value>>
    var localHashes: map<StorageKey, Option<Digest>>

    ghost function Repr(): set<object> {
      shared.Repr() + {this}
    }

    /** What was read through this state is what its backend holds. */
    ghost predicate Valid()
      reads Repr()
    {
      && shared.Valid() && AllTop(localHashes)
      && (forall k :: k in localStorage ==> localStorage[k] == backend(k))
      && (forall k :: k in localHashes ==> localHashes[k] == DigestOf(backend(k), digest))
    }

    /** The backend holds the state of the block this state stands on. */
    ghost predicate Backed(t: Tree)
      requires WellFormed(t)
    {
      parentHash.Some? ==>
        && parentHash.value in t
        && forall k :: backend(k) == StateAt(t, parentHash.value, k)
    }

    constructor (
        backend: StorageKey -> Option<Value>, digest: Digester, shared: SharedCache, parentHash: Option<Hash>)
      requires shared.Valid()
      ensures Valid() && localStorage == map[] && localHashes == map[]
      ensures this.shared == shared && this.parentHash == parentHash
      ensures this.backend == backend && this.digest == digest
    {
      this.backend := backend;
      this.digest := digest;
      this.shared := shared;
      this.parentHash := parentHash;
      localStorage := map[];
      localHashes := map[];
    }

    /**
      Reading through both caches is reading the backend, and leaves every cached value alone. A value that
      the shared cache serves becomes the newest there; any other is noted locally.
     */
    method Storage(key: StorageKey, ghost t: Tree, ghost best: Hash) returns (value: Option<Value>)
      requires Valid() && WellFormed(t) && best in t && Backed(t)
      requires Coherent(t, shared.View(), best, digest)
      modifies `localStorage, shared.lruStorage`order, shared.lruChildStorage`order
      ensures value == backend(key)
      ensures Valid() && shared.View() == old(shared.View())
      ensures
        var served := IsAllowed(key, parentHash, shared.modifications) && key in shared.View().storage;
        && localStorage == (if key in old(localStorage) || served then old(localStorage) else old(localStorage)[key := value])
        && (key !in old(localStorage) && served ==>
              && shared.lruStorage.order == Used(old(shared.lruStorage.order), key)
              && shared.lruChildStorage.order == Used(old(shared.lruChildStorage.order), key))
    {
      if key in localStorage {
        return localStorage[key];
      }
      var allowed := ScanAllowed(key, parentHash, shared.modifications);
      if allowed {
        AdmittedIsExact(t, shared.View(), best, digest, key, parentHash.value);
        var entry := shared.Get(key);
        if entry.Some? {
          return entry.value;
        }
      }
      value := backend(key);
      localStorage := localStorage[key := value];
    }

    /** The same for the digest of a top value. */
    method StorageHash(key: StorageKey, ghost t: Tree, ghost best: Hash) returns (hash: Option<Digest>)
      requires key.Top?
      requires Valid() && WellFormed(t) && best in t && Backed(t)
      requires Coherent(t, shared.View(), best, digest)
      modifies `localHashes, shared.lruHashes`order
      ensures hash == DigestOf(backend(key), digest)
      ensures Valid() && shared.View() == old(shared.View())
      ensures
        var served := IsAllowed(key, parentHash, shared.modifications) && key in shared.View().hashes;
        && localHashes == (if key in old(localHashes) || served then old(localHashes) else old(localHashes)[key := hash])
        && (key !in old(localHashes) && served ==>
              shared.lruHashes.order == Used(old(shared.lruHashes.order), key))
    {
      if key in localHashes {
        return localHashes[key];
      }
      var allowed := ScanAllowed(key, parentHash, shared.modifications);
      if allowed {
        AdmittedIsExact(t, shared.View(), best, digest, key, parentHash.value);
        var entry := shared.GetHash(key);
        if entry.Some? {
          return entry.value;
        }
      }
      hash := DigestOf(backend(key), digest);
      localHashes := localHashes[key := hash];
    }

    /** The shared cache has room for what was read here and for the changes. */
    ghost predicate Fits(changes: Changes)
      reads Repr()
    {
      shared.Room(
        ValuesSize(TopPart(localStorage)) + ValuesSize(TopPart(changes)),
        ValuesSize(ChildPart(localStorage)) + ValuesSize(ChildPart(changes)),
        EntriesSize(localHashes, localHashes.Keys, DigestSize))
    }

    /** A commit of the best block drains what was read here into the shared cache. */
    method PropagateLocal(isBest: bool, ghost k: Commit)
      requires Valid() && k.isBest == isBest && k.parentHash == parentHash
      requires k.local == Local(localStorage, localHashes)
      modifies `localStorage, `localHashes, shared.lruStorage, shared.lruHashes, shared.lruChildStorage
      ensures Valid() && Smaller(shared.View(), Propagate(old(shared.View()), k))
      ensures old(Fits(k.changes)) ==> Propagated(old(shared.View()), k)
      ensures parentHash.Some? && isBest ==> localStorage == map[] && localHashes == map[]
    {
      if parentHash.Some? && isBest {
        Drain(k.changes);
      }
    }

    method Drain(ghost changes: Changes)
      requires Valid()
      modifies `localStorage, `localHashes, shared.lruStorage, shared.lruHashes, shared.lruChildStorage
      ensures Valid() && localStorage == map[] && localHashes == map[]
      ensures SubmapOf(shared.View().storage, old(shared.View()).storage + old(localStorage))
      ensures SubmapOf(shared.View().hashes, old(shared.View()).hashes + old(localHashes))
      ensures old(Fits(changes)) ==>
                && shared.View().storage == old(shared.View()).storage + old(localStorage)
                && shared.View().hashes == old(shared.View()).hashes + old(localHashes)
                && shared.Room(ValuesSize(TopPart(changes)), ValuesSize(ChildPart(changes)), 0)
    {
      shared.AddValues(localStorage);
      shared.lruHashes.AddAll(localHashes);
      localStorage := map[];
      localHashes := map[];
    }

    /** Nothing was evicted, and there is room for the changes. */
    ghost predicate Propagated(before: Cache, k: Commit)
      reads Repr()
    {
      && shared.View() == Propagate(before, k)
      && shared.Room(ValuesSize(TopPart(k.changes)), ValuesSize(ChildPart(k.changes)), 0)
    }

    ghost function CommitOf(
        enacted: seq<Hash>, retracted: seq<Hash>, changes: Changes, hash: Option<Hash>, number: Option<nat>, isBest: bool)
        : Commit
      reads this
    {
      Commit(enacted, retracted, changes, hash, number, isBest, parentHash, Local(localStorage, localHashes))
    }

    /** The shared cache becomes what the model says, but for evictions; with room for everything there are none. */
    method CommitChanges(
        enacted: seq<Hash>, retracted: seq<Hash>, changes: Changes, hash: Option<Hash>, number: Option<nat>, isBest: bool)
        returns (ghost k: Commit)
      requires Valid()
      modifies `localStorage, `localHashes, shared.Repr()
      ensures Valid() && k == old(CommitOf(enacted, retracted, changes, hash, number, isBest))
      ensures Smaller(shared.View(), StateCacheModel.SyncCache(old(shared.View()), k))
      ensures old(Fits(changes)) ==> shared.View() == StateCacheModel.SyncCache(old(shared.View()), k)
    {
      k := CommitOf(enacted, retracted, changes, hash, number, isBest);
      var toEnact, toRetract := Route(enacted, retracted, hash, isBest, k);
      shared.Sync(toEnact, toRetract);
      CommitSynced(changes, hash, number, isBest, k);
    }

    /** The same; coherent with the best block before, the cache is coherent with the new best block after. */
    method SyncCache(
        enacted: seq<Hash>, retracted: seq<Hash>, changes: Changes, hash: Option<Hash>, number: Option<nat>, isBest: bool,
        ghost t: Tree, ghost best: Hash, ghost target: Hash)
        returns (ghost k: Commit)
      requires Valid() && WellFormed(t) && best in t && target in t
      modifies `localStorage, `localHashes, shared.Repr()
      ensures Valid() && k == old(CommitOf(enacted, retracted, changes, hash, number, isBest))
      ensures Smaller(shared.View(), StateCacheModel.SyncCache(old(shared.View()), k))
      ensures old(Fits(changes)) ==> shared.View() == StateCacheModel.SyncCache(old(shared.View()), k)
      ensures old(Coherent(t, shared.View(), best, digest)) && Backed(t) && CommitDue(t, best, target, k) ==>
                Coherent(t, shared.View(), target, digest)
    {
      LocalIsBacked(t, best, target, CommitOf(enacted, retracted, changes, hash, number, isBest));
      k := CommitChanges(enacted, retracted, changes, hash, number, isBest);
      StaysCoherent(t, old(shared.View()), shared.View(), best, target, k, digest);
    }

    /** What was read through this state is what a commit on top of its block may pass on. */
    lemma LocalIsBacked(t: Tree, best: Hash, target: Hash, k: Commit)
      requires Valid() && WellFormed(t) && best in t && target in t
      requires k.parentHash == parentHash && k.local == Local(localStorage, localHashes)
      ensures Backed(t) && CommitDue(t, best, target, k) ==> CommitOk(t, best, target, k, digest)
    {
    }

    /** A state that is dropped passes on what was read through it, if it stands on the best block. */
    method SyncOnDrop(bestHash: Hash, ghost t: Tree)
      requires Valid() && WellFormed(t) && bestHash in t && Backed(t)
      requires Coherent(t, shared.View(), bestHash, digest)
      modifies `localStorage, `localHashes, shared.Repr()
      ensures Valid() && Coherent(t, shared.View(), bestHash, digest)
      ensures old(Fits(map[])) && parentHash == Some(bestHash) ==>
                && shared.View().storage == old(shared.View()).storage + old(localStorage)
                && shared.View().hashes == old(shared.View()).hashes + old(localHashes)
      ensures parentHash != Some(bestHash) ==> Smaller(shared.View(), old(shared.View()))
    {
      if parentHash.Some? {
        NoRoute(t, bestHash);
        ghost var k := SyncCache([], [], map[], None, None, parentHash.value == bestHash, t, bestHash, bestHash);
      }
    }

    /** The second half of a commit: local reads, then the block's own changes. */
    method CommitSynced(changes: Changes, hash: Option<Hash>, number: Option<nat>, isBest: bool, ghost k: Commit)
      requires Valid() && k.parentHash == parentHash && k.local == Local(localStorage, localHashes)
      requires k.changes == changes && k.hash == hash && k.number == number && k.isBest == isBest
      modifies `localStorage, `localHashes, shared.Repr()
      ensures Valid() && Smaller(shared.View(), Record(Propagate(old(shared.View()), k), k))
      ensures old(Fits(changes)) ==> shared.View() == Record(Propagate(old(shared.View()), k), k)
    {
      ghost var synced := shared.View();
      PropagateLocal(isBest, k);
      RecordCommit(changes, hash, number, isBest, k, Propagate(synced, k));
    }

    method RecordCommit(
        changes: Changes, hash: Option<Hash>, number: Option<nat>, isBest: bool, ghost k: Commit, ghost full: Cache)
      requires Valid() && Smaller(shared.View(), full) && k.parentHash == parentHash
      requires k.changes == changes && k.hash == hash && k.number == number && k.isBest == isBest
      modifies shared.Repr()
      ensures Valid() && Smaller(shared.View(), Record(full, k))
      ensures old(shared.Room(ValuesSize(TopPart(changes)), ValuesSize(ChildPart(changes)), 0) && shared.View() == full) ==>
                shared.View() == Record(full, k)
    {
      if number.Some? && hash.Some? && parentHash.Some? {
        var m := BlockChanges(number.value, hash.value, parentHash.value, changes.Keys, isBest);
        shared.RecordBlock(m, changes, k, full);
      }
    }

    /** Filters out the committed block, and adds it where its recorded flag is to change. */
    method Route(enacted: seq<Hash>, retracted: seq<Hash>, hash: Option<Hash>, isBest: bool, ghost k: Commit)
      returns (toEnact: seq<Hash>, toRetract: seq<Hash>)
      requires k.enacted == enacted && k.retracted == retracted && k.hash == hash && k.isBest == isBest
      ensures toEnact == CommitEnacted(shared.View(), k)
      ensures toRetract == CommitRetracted(shared.View(), k)
    {
      toEnact, toRetract := enacted, retracted;
      if hash.Some? {
        toEnact := FilterOut(enacted, hash.value);
        var at := FindBlock(shared.modifications, hash.value);
        if at.Some? && shared.modifications[at.value].isCanon != isBest {
          if isBest {
            toEnact := toEnact + [hash.value];
          } else {
            toRetract := toRetract + [hash.value];
          }
        }
      }
    }
  }
}
