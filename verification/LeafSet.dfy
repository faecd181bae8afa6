/**
  The leaf set as the mutable object it is, proved to do what its model says.
 */
module LeafSet {
  import opened Common
  import opened LeafSetModel

  ghost predicate Descending(numbers: seq<nat>) {
    forall i, j :: 0 <= i < j < |numbers| ==> numbers[i] > numbers[j]
  }

  method Largest(s: set<nat>) returns (m: nat)
    requires s != {}
    ensures m in s && forall n :: n in s ==> n <= m
  {
    m :| m in s;
    var rest := s - {m};
    while rest != {}
      invariant m in s && rest <= s && forall n :: n in s && n !in rest ==> n <= m
      decreases |rest|
    {
      var n :| n in rest;
      if n > m {
        m := n;
      }
      rest := rest - {n};
    }
  }

  /** The levels in the order the map keeps them: highest first. */
  method Numbers(l: Levels) returns (numbers: seq<nat>)
    ensures Enumerates(l, numbers) && Descending(numbers)
  {
    numbers := [];
    var rest := l.Keys;
    while rest != {}
      invariant rest <= l.Keys && Descending(numbers)
      invariant forall n :: n in l <==> n in numbers || n in rest
      invariant forall n, m :: n in numbers && m in rest ==> n > m
      decreases |rest|
    {
      var n := Largest(rest);
      assert forall i :: 0 <= i < |numbers| ==> numbers[i] > n by {
        assert forall i :: 0 <= i < |numbers| ==> numbers[i] in numbers;
      }
      numbers := numbers + [n];
      rest := rest - {n};
    }
  }

  method CollectItems(l: Levels, numbers: seq<nat>) returns (items: seq<Item>)
    requires Enumerates(l, numbers)
    ensures items == Items(l, numbers)
  {
    items := [];
    var i := 0;
    while i < |numbers|
      invariant i <= |numbers| && Items(l, numbers) == items + Items(l, numbers[i..])
    {
      var added := CollectLevel(l[numbers[i]], numbers[i]);
      assert numbers[i..][1..] == numbers[i + 1..];
      items := items + added;
      i := i + 1;
    }
  }

  method CollectLevel(level: seq<Hash>, number: nat) returns (items: seq<Item>)
    ensures items == LevelItems(level, number)
  {
    items := [];
    var j := 0;
    while j < |level|
      invariant j <= |level| && LevelItems(level, number) == items + LevelItems(level[j..], number)
    {
      assert level[j..][1..] == level[j + 1..];
      items := items + [Item(level[j], number)];
      j := j + 1;
    }
  }

  /** Keeps the other hashes, and says whether there was one to leave out. */
  method Retain(level: seq<Hash>, hash: Hash) returns (kept: seq<Hash>, found: bool)
    ensures kept == Without(level, hash) && found == (hash in level)
  {
    kept, found := [], false;
    var i := 0;
    while i < |level|
      invariant i <= |level| && Without(level, hash) == kept + Without(level[i..], hash)
      invariant found == (hash in level[..i])
    {
      WithoutNext(level, i, hash);
      assert level[..i + 1] == level[..i] + [level[i]];
      if level[i] == hash {
        found := true;
      } else {
        kept := kept + [level[i]];
      }
      i := i + 1;
    }
    assert level[..i] == level;
  }

  class LeafSet {
    var storage: Levels

    constructor ()
      ensures storage == map[]
    {
      storage := map[];
    }

    method InsertLeaf(number: nat, hash: Hash)
      modifies this
      ensures storage == LeafSetModel.InsertLeaf(old(storage), number, hash)
    {
      if number !in storage {
        storage := storage[number := []];
      }
      storage := storage[number := storage[number] + [hash]];
    }

    /** Drops the level when no hash is left in it. */
    method RemoveLeaf(number: nat, hash: Hash) returns (removed: bool)
      modifies this
      ensures storage == LeafSetModel.RemoveLeaf(old(storage), number, hash)
      ensures removed == Contains(old(storage), number, hash)
    {
      if number !in storage {
        return false;
      }
      var kept, found := Retain(storage[number], hash);
      WithoutMeans(storage[number], hash);
      storage := storage[number := kept];
      if found && kept == [] {
        storage := storage - {number};
      }
      return found;
    }

    method Import(hash: Hash, number: nat, parent: Hash) returns (outcome: ImportOutcome)
      modifies this
      ensures storage == LeafSetModel.Import(old(storage), hash, number, parent)
      ensures outcome == Imported(old(storage), hash, number, parent)
    {
      var removed := None;
      if number != 0 {
        var found := RemoveLeaf(number - 1, parent);
        if found {
          removed := Some(parent);
        }
      }
      assert storage == if number == 0 then old(storage) else LeafSetModel.RemoveLeaf(old(storage), number - 1, parent);
      InsertLeaf(number, hash);
      return ImportOutcome(hash, number, removed);
    }

    method Remove(hash: Hash, number: nat, parent: Option<Hash>) returns (outcome: Option<RemoveOutcome>)
      modifies this
      ensures storage == LeafSetModel.Remove(old(storage), hash, number, parent)
      ensures outcome == Removed(old(storage), hash, number, parent)
    {
      var found := RemoveLeaf(number, hash);
      if !found {
        return None;
      }
      var inserted := None;
      if parent.Some? && number != 0 {
        InsertLeaf(number - 1, parent.value);
        inserted := parent;
      }
      return Some(RemoveOutcome(inserted, hash, number));
    }

    /** Height zero displaces nothing; otherwise the map is split at the height below. */
    method FinalizeHeight(number: nat) returns (removed: Levels)
      modifies this
      ensures storage == LeafSetModel.FinalizeHeight(old(storage), number)
      ensures removed == Displaced(old(storage), number)
    {
      if number == 0 {
        removed := map[];
        assert storage == LeafSetModel.FinalizeHeight(storage, 0);
        return;
      }
      var boundary := number - 1;
      removed := map n | n in storage && n <= boundary :: storage[n];
      storage := storage - removed.Keys;
    }

    /** The same split, only simulated. */
    method DisplacedByFinalizeHeight(number: nat) returns (removed: Levels)
      ensures removed == Displaced(storage, number)
    {
      if number == 0 {
        return map[];
      }
      var boundary := number - 1;
      removed := map n | n in storage && n <= boundary :: storage[n];
    }

    method UndoImport(outcome: ImportOutcome)
      requires outcome.removed.Some? ==> outcome.number > 0
      modifies this
      ensures storage == LeafSetModel.UndoImport(old(storage), outcome)
    {
      if outcome.removed.Some? {
        InsertLeaf(outcome.number - 1, outcome.removed.value);
      }
      var _ := RemoveLeaf(outcome.number, outcome.hash);
    }

    method UndoRemove(outcome: RemoveOutcome)
      requires outcome.inserted.Some? ==> outcome.number > 0
      modifies this
      ensures storage == LeafSetModel.UndoRemove(old(storage), outcome)
    {
      if outcome.inserted.Some? {
        var _ := RemoveLeaf(outcome.number - 1, outcome.inserted.value);
      }
      InsertLeaf(outcome.number, outcome.hash);
    }

    method UndoFinalization(removed: Levels)
      modifies this
      ensures storage == old(storage) + removed
      ensures forall l, number | old(storage) == LeafSetModel.FinalizeHeight(l, number) && removed == Displaced(l, number) ::
                storage == l
    {
      forall l, number | storage == LeafSetModel.FinalizeHeight(l, number) && removed == Displaced(l, number)
        ensures storage + removed == l
      {
        FinalizationUndone(l, number);
      }
      storage := storage + removed;
    }

    method DropAbove(items: seq<Item>, target: nat) returns (held: bool)
      modifies this
      ensures held == DropItems(old(storage), items, target).Some?
      ensures held ==> storage == DropItems(old(storage), items, target).value
    {
      var i := 0;
      while i < |items|
        invariant i <= |items|
        invariant DropItems(old(storage), items, target) == DropItems(storage, items[i..], target)
      {
        assert items[i..][1..] == items[i + 1..];
        if items[i].number > target {
          var removed := RemoveLeaf(items[i].number, items[i].hash);
          if !removed {
            return false;
          }
        }
        i := i + 1;
      }
      return true;
    }

    /** `true` when the assertion on the way held; the leaf set is then the model's. */
    method Revert(bestHash: Hash, bestNumber: nat) returns (held: bool)
      modifies this
      ensures held <==> forall n: nat :: n > bestNumber ==> Distinct(Level(old(storage), n))
      ensures held ==>
                var kept := map n | n in old(storage) && (n <= bestNumber || old(storage)[n] == []) :: old(storage)[n];
                storage == EnsureLeaf(kept, bestNumber, bestHash)
    {
      var numbers := Numbers(storage);
      var items := CollectItems(storage, numbers);
      RevertExact(storage, numbers, bestHash, bestNumber);
      held := DropAbove(items, bestNumber);
      if held && !Contains(storage, bestNumber, bestHash) {
        InsertLeaf(bestNumber, bestHash);
      }
    }
  }
}
