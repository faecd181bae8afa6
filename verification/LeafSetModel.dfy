/**
  The set of leaf blocks, kept as one list of hashes per block number, as functions on that map.
 */
module LeafSetModel {
  import opened Common

  type Hash = nat
  type Levels = map<nat, seq<Hash>>

  datatype ImportOutcome = ImportOutcome(hash: Hash, number: nat, removed: Option<Hash>)
  datatype RemoveOutcome = RemoveOutcome(inserted: Option<Hash>, hash: Hash, number: nat)

  function Level(l: Levels, number: nat): seq<Hash> {
    if number in l then l[number] else []
  }

  predicate Contains(l: Levels, number: nat, hash: Hash) {
    hash in Level(l, number)
  }

  function InsertLeaf(l: Levels, number: nat, hash: Hash): Levels {
    l[number := Level(l, number) + [hash]]
  }

  /** All copies of the hash leave the level; an emptied level goes with them. */
  function RemoveLeaf(l: Levels, number: nat, hash: Hash): Levels {
    if !Contains(l, number, hash) then l
    else if Without(l[number], hash) == [] then l - {number}
    else l[number := Without(l[number], hash)]
  }

  /** The new block replaces its parent, if that was a leaf. */
  function Import(l: Levels, hash: Hash, number: nat, parent: Hash): Levels {
    InsertLeaf(if number == 0 then l else RemoveLeaf(l, number - 1, parent), number, hash)
  }

  function Imported(l: Levels, hash: Hash, number: nat, parent: Hash): ImportOutcome {
    ImportOutcome(hash, number, if number > 0 && Contains(l, number - 1, parent) then Some(parent) else None)
  }

  /** The caller passes the parent when its last child goes. */
  function Remove(l: Levels, hash: Hash, number: nat, parent: Option<Hash>): Levels {
    if !Contains(l, number, hash) then l
    else if parent.Some? && number > 0 then InsertLeaf(RemoveLeaf(l, number, hash), number - 1, parent.value)
    else RemoveLeaf(l, number, hash)
  }

  function Removed(l: Levels, hash: Hash, number: nat, parent: Option<Hash>): Option<RemoveOutcome> {
    if !Contains(l, number, hash) then None
    else Some(RemoveOutcome(if number > 0 then parent else None, hash, number))
  }

  function FinalizeHeight(l: Levels, number: nat): Levels {
    map n | n in l && n >= number :: l[n]
  }

  function Displaced(l: Levels, number: nat): Levels {
    map n | n in l && n < number :: l[n]
  }

  function UndoImport(l: Levels, outcome: ImportOutcome): Levels {
    RemoveLeaf(
      if outcome.removed.Some? && outcome.number > 0 then InsertLeaf(l, outcome.number - 1, outcome.removed.value) else l,
      outcome.number, outcome.hash)
  }

  function UndoRemove(l: Levels, outcome: RemoveOutcome): Levels {
    InsertLeaf(
      if outcome.inserted.Some? && outcome.number > 0 then RemoveLeaf(l, outcome.number - 1, outcome.inserted.value) else l,
      outcome.number, outcome.hash)
  }

  // ---- levels ----

  ghost predicate Distinct(level: seq<Hash>) {
    forall i, j :: 0 <= i < j < |level| ==> level[i] != level[j]
  }

  lemma {:induction false} WithoutSplits(a: seq<Hash>, b: seq<Hash>, hash: Hash)
    ensures Without(a + b, hash) == Without(a, hash) + Without(b, hash)
  {
    if a == [] {
      assert a + b == b;
    } else {
      assert (a + b)[1..] == a[1..] + b;
      WithoutSplits(a[1..], b, hash);
    }
  }

  lemma {:induction false} WithoutDistinct(level: seq<Hash>, hash: Hash)
    requires Distinct(level)
    ensures Distinct(Without(level, hash))
  {
    if level != [] {
      WithoutDistinct(level[1..], hash);
      WithoutMeans(level[1..], hash);
      if level[0] != hash {
        var rest := Without(level[1..], hash);
        assert level[0] !in rest;
        assert Without(level, hash) == [level[0]] + rest;
      } else {
        assert Without(level, hash) == Without(level[1..], hash);
      }
    }
  }

  ghost function Count(level: seq<Hash>, hash: Hash): nat {
    if level == [] then 0 else (if level[0] == hash then 1 else 0) + Count(level[1..], hash)
  }

  lemma {:induction false} CountMeans(level: seq<Hash>, hash: Hash)
    ensures Count(level, hash) > 0 <==> hash in level
  {
    if level != [] {
      assert level == [level[0]] + level[1..];
      CountMeans(level[1..], hash);
    }
  }

  lemma {:induction false} CountSplits(a: seq<Hash>, b: seq<Hash>, hash: Hash)
    ensures Count(a + b, hash) == Count(a, hash) + Count(b, hash)
  {
    if a == [] {
      assert a + b == b;
    } else {
      assert (a + b)[1..] == a[1..] + b;
      CountSplits(a[1..], b, hash);
    }
  }

  lemma {:induction false} CountWithout(level: seq<Hash>, gone: Hash, hash: Hash)
    ensures Count(Without(level, gone), hash) == if hash == gone then 0 else Count(level, hash)
  {
    if level != [] {
      CountWithout(level[1..], gone, hash);
      if level[0] != gone {
        assert Without(level, gone)[1..] == Without(level[1..], gone);
      } else {
        assert Without(level, gone) == Without(level[1..], gone);
      }
    }
  }

  /** The same hashes, each as often, in any order. */
  ghost predicate Reordered(a: seq<Hash>, b: seq<Hash>) {
    forall h: Hash :: Count(a, h) == Count(b, h)
  }

  lemma ReplacedOnce(level: seq<Hash>, hash: Hash)
    ensures Reordered(Without(level, hash) + [hash], level) <==> Count(level, hash) == 1
  {
    var back := Without(level, hash) + [hash];
    forall h: Hash
      ensures Count(back, h) == if h == hash then 1 else Count(level, h)
    {
      CountWithout(level, hash, h);
      CountSplits(Without(level, hash), [hash], h);
    }
    assert Count(back, hash) == 1;
  }

  lemma TakenOut(level: seq<Hash>, hash: Hash)
    ensures Reordered(Without(level, hash), level) <==> hash !in level
  {
    WithoutMeans(level, hash);
    CountWithout(level, hash, hash);
    CountMeans(level, hash);
  }

  // ---- finalization ----

  /** Finalizing is exact: the displaced leaves are those below the height, and undoing brings them back. */
  lemma FinalizationUndone(l: Levels, number: nat)
    ensures FinalizeHeight(l, number) + Displaced(l, number) == l
    ensures FinalizeHeight(l, number).Keys !! Displaced(l, number).Keys
    ensures forall n: nat, h: Hash :: Contains(Displaced(l, number), n, h) <==> n < number && Contains(l, n, h)
  {
  }

  /** Two finalizations in one transaction, merged, are one finalization of the higher block. */
  lemma FinalizationsMerge(l: Levels, a: nat, b: nat)
    ensures FinalizeHeight(FinalizeHeight(l, a), b) == FinalizeHeight(l, Max(a, b))
    ensures Displaced(l, a) + Displaced(FinalizeHeight(l, a), b) == Displaced(l, Max(a, b))
  {
  }

  // ---- undo ----

  /** The same leaves, in any order within a level. */
  ghost predicate SameLeaves(l: Levels, m: Levels) {
    && l.Keys == m.Keys
    && forall n: nat :: Reordered(Level(l, n), Level(m, n))
  }

  /** Nothing in the level, as opposed to no level. */
  ghost predicate EmptyLevel(l: Levels, number: nat) {
    number in l && l[number] == []
  }

  lemma RemoveLeafMeans(l: Levels, number: nat, hash: Hash, n: nat)
    ensures
      var l' := RemoveLeaf(l, number, hash);
      && Level(l', n) == (if n == number then Without(Level(l, n), hash) else Level(l, n))
      && (n in l' <==> n in l && (n == number && Contains(l, n, hash) ==> Level(l', n) != []))
  {
    WithoutMeans(Level(l, number), hash);
  }

  lemma InsertLeafMeans(l: Levels, number: nat, hash: Hash, n: nat)
    ensures
      var l' := InsertLeaf(l, number, hash);
      && Level(l', n) == (if n == number then Level(l, n) + [hash] else Level(l, n))
      && (n in l' <==> n in l || n == number)
  {
  }

  lemma ImportLevel(l: Levels, hash: Hash, number: nat, parent: Hash, n: nat)
    ensures
      var l' := Import(l, hash, number, parent);
      && Level(l', n) ==
         (if n == number then Level(l, n) + [hash]
          else if n + 1 == number then Without(Level(l, n), parent)
          else Level(l, n))
      && (n in l' <==>
          n == number || (n in l && (n + 1 == number && Contains(l, n, parent) ==> Without(Level(l, n), parent) != [])))
  {
    if number > 0 {
      RemoveLeafMeans(l, number - 1, parent, n);
    }
  }

  lemma UndoImportLevel(l: Levels, outcome: ImportOutcome, n: nat)
    requires outcome.removed.Some? ==> outcome.number > 0
    ensures
      var l' := UndoImport(l, outcome);
      && Level(l', n) ==
         (if n == outcome.number then Without(Level(l, n), outcome.hash)
          else if n + 1 == outcome.number && outcome.removed.Some? then Level(l, n) + [outcome.removed.value]
          else Level(l, n))
      && (n in l' <==>
          if n == outcome.number then n in l && (Contains(l, n, outcome.hash) ==> Level(l', n) != [])
          else n in l || (n + 1 == outcome.number && outcome.removed.Some?))
  {
    var l1 := if outcome.removed.Some? then InsertLeaf(l, outcome.number - 1, outcome.removed.value) else l;
    RemoveLeafMeans(l1, outcome.number, outcome.hash, n);
  }

  /** One level after importing and undoing. */
  lemma UndoneImportLevel(l: Levels, hash: Hash, number: nat, parent: Hash, n: nat)
    ensures
      var l' := UndoImport(Import(l, hash, number, parent), Imported(l, hash, number, parent));
      && Level(l', n) ==
         (if n == number then Without(Level(l, n), hash)
          else if n + 1 == number && Contains(l, n, parent) then Without(Level(l, n), parent) + [parent]
          else Level(l, n))
      && (n in l' <==> if n == number then Without(Level(l, n), hash) != [] else n in l)
  {
    ImportLevel(l, hash, number, parent, n);
    UndoImportLevel(Import(l, hash, number, parent), Imported(l, hash, number, parent), n);
    WithoutMeans(Level(l, n), parent);
    WithoutSplits(Level(l, n), [hash], hash);
    assert Without([hash], hash) == [];
  }

  /** `undo_import` puts every leaf back exactly when the block was new and its parent listed at most once. */
  lemma ImportUndone(l: Levels, hash: Hash, number: nat, parent: Hash)
    ensures SameLeaves(UndoImport(Import(l, hash, number, parent), Imported(l, hash, number, parent)), l)
       <==> && !Contains(l, number, hash) && !EmptyLevel(l, number)
            && (number > 0 ==> Count(Level(l, number - 1), parent) <= 1)
  {
    var l' := UndoImport(Import(l, hash, number, parent), Imported(l, hash, number, parent));
    UndoneImportLevel(l, hash, number, parent, number);
    TakenOut(Level(l, number), hash);
    WithoutMeans(Level(l, number), hash);
    if number > 0 {
      UndoneImportLevel(l, hash, number, parent, number - 1);
      ReplacedOnce(Level(l, number - 1), parent);
      CountMeans(Level(l, number - 1), parent);
    }
    forall n: nat | n != number
      ensures n in l' <==> n in l
      ensures n + 1 != number ==> Level(l', n) == Level(l, n)
    {
      UndoneImportLevel(l, hash, number, parent, n);
    }
    SameWhen(l', l, number);
  }

  /** Only the levels `number` and `number - 1` are in question. */
  lemma SameWhen(l': Levels, l: Levels, number: nat)
    requires forall n: nat :: n != number && n + 1 != number ==> Level(l', n) == Level(l, n) && (n in l' <==> n in l)
    ensures SameLeaves(l', l) <==>
            && Reordered(Level(l', number), Level(l, number)) && (number in l' <==> number in l)
            && (number > 0 ==>
                  && Reordered(Level(l', number - 1), Level(l, number - 1))
                  && (number - 1 in l' <==> number - 1 in l))
  {
  }


  /** One level after removing and undoing. */
  lemma UndoneRemoveLevel(l: Levels, hash: Hash, number: nat, parent: Option<Hash>, n: nat)
    requires Contains(l, number, hash)
    ensures
      var l' := UndoRemove(Remove(l, hash, number, parent), Removed(l, hash, number, parent).value);
      && Level(l', n) ==
         (if n == number then Without(Level(l, n), hash) + [hash]
          else if n + 1 == number && parent.Some? then Without(Level(l, n), parent.value)
          else Level(l, n))
      && (n in l' <==> if n + 1 == number && parent.Some? then Without(Level(l, n), parent.value) != [] else n in l)
  {
    var l1 := RemoveLeaf(l, number, hash);
    RemoveLeafMeans(l, number, hash, n);
    WithoutMeans(Level(l, number), hash);
    if parent.Some? && number > 0 {
      var l2 := InsertLeaf(l1, number - 1, parent.value);
      InsertLeafMeans(l1, number - 1, parent.value, n);
      RemoveLeafMeans(l2, number - 1, parent.value, n);
      WithoutSplits(Level(l, number - 1), [parent.value], parent.value);
      assert Without([parent.value], parent.value) == [];
    }
  }

  lemma UndoneParentLevel(l: Levels, hash: Hash, number: nat, parent: Option<Hash>)
    requires Contains(l, number, hash) && number > 0
    ensures
      var l' := UndoRemove(Remove(l, hash, number, parent), Removed(l, hash, number, parent).value);
      Reordered(Level(l', number - 1), Level(l, number - 1)) && (number - 1 in l' <==> number - 1 in l) <==>
        (parent.Some? ==> !Contains(l, number - 1, parent.value) && !EmptyLevel(l, number - 1))
  {
    UndoneRemoveLevel(l, hash, number, parent, number - 1);
    if parent.Some? {
      TakenOut(Level(l, number - 1), parent.value);
      WithoutMeans(Level(l, number - 1), parent.value);
    }
  }

  /** `undo_remove` puts every leaf back exactly when the leaf was listed once and the parent was new. */
  lemma RemoveUndone(l: Levels, hash: Hash, number: nat, parent: Option<Hash>)
    requires Contains(l, number, hash)
    ensures SameLeaves(UndoRemove(Remove(l, hash, number, parent), Removed(l, hash, number, parent).value), l)
       <==> && Count(Level(l, number), hash) == 1
            && (number > 0 && parent.Some? ==>
                  !Contains(l, number - 1, parent.value) && !EmptyLevel(l, number - 1))
  {
    var l' := UndoRemove(Remove(l, hash, number, parent), Removed(l, hash, number, parent).value);
    UndoneRemoveLevel(l, hash, number, parent, number);
    ReplacedOnce(Level(l, number), hash);
    if number > 0 {
      UndoneParentLevel(l, hash, number, parent);
    }
    forall n: nat | n != number && n + 1 != number
      ensures Level(l', n) == Level(l, n) && (n in l' <==> n in l)
    {
      UndoneRemoveLevel(l, hash, number, parent, n);
    }
    SameWhen(l', l, number);
  }

  // ---- revert ----

  datatype Item = Item(hash: Hash, number: nat)

  function LevelItems(level: seq<Hash>, number: nat): seq<Item> {
    if level == [] then [] else [Item(level[0], number)] + LevelItems(level[1..], number)
  }

  /** Every leaf, level by level. */
  function Items(l: Levels, numbers: seq<nat>): seq<Item>
    requires forall n :: n in numbers ==> n in l
  {
    if numbers == [] then [] else LevelItems(l[numbers[0]], numbers[0]) + Items(l, numbers[1..])
  }

  ghost predicate Enumerates(l: Levels, numbers: seq<nat>) {
    && (forall i, j :: 0 <= i < j < |numbers| ==> numbers[i] != numbers[j])
    && (forall n :: n in numbers <==> n in l)
  }

  /** `None` is the failed assertion: a leaf above the target that is not there to be removed. */
  function DropItems(l: Levels, items: seq<Item>, target: nat): Option<Levels> {
    if items == [] then Some(l)
    else if items[0].number <= target then DropItems(l, items[1..], target)
    else if !Contains(l, items[0].number, items[0].hash) then None
    else DropItems(RemoveLeaf(l, items[0].number, items[0].hash), items[1..], target)
  }

  function EnsureLeaf(l: Levels, number: nat, hash: Hash): Levels {
    if Contains(l, number, hash) then l else InsertLeaf(l, number, hash)
  }

  function Revert(l: Levels, numbers: seq<nat>, hash: Hash, number: nat): Option<Levels>
    requires Enumerates(l, numbers)
  {
    match DropItems(l, Items(l, numbers), number)
    case None => None
    case Some(l') => Some(EnsureLeaf(l', number, hash))
  }

  lemma {:induction false} ItemsOfLevel(level: seq<Hash>, number: nat)
    ensures |LevelItems(level, number)| == |level|
    ensures forall i :: 0 <= i < |level| ==> LevelItems(level, number)[i] == Item(level[i], number)
  {
    if level != [] {
      ItemsOfLevel(level[1..], number);
    }
  }

  lemma {:induction false} MissingItemFails(l: Levels, items: seq<Item>, target: nat, i: nat)
    requires i < |items| && items[i].number > target && !Contains(l, items[i].number, items[i].hash)
    ensures DropItems(l, items, target).None?
  {
    if i > 0 {
      assert items[1..][i - 1] == items[i];
      var first := items[0];
      if first.number > target && Contains(l, first.number, first.hash) {
        RemoveLeafMeans(l, first.number, first.hash, items[i].number);
        WithoutMeans(Level(l, items[i].number), first.hash);
        MissingItemFails(RemoveLeaf(l, first.number, first.hash), items[1..], target, i - 1);
      } else if first.number <= target {
        MissingItemFails(l, items[1..], target, i - 1);
      }
    }
  }

  lemma {:induction false} LowLevelStays(l: Levels, level: seq<Hash>, number: nat, rest: seq<Item>, target: nat)
    requires number <= target
    ensures DropItems(l, LevelItems(level, number) + rest, target) == DropItems(l, rest, target)
  {
    if level == [] {
      assert LevelItems(level, number) + rest == rest;
    } else {
      assert (LevelItems(level, number) + rest)[1..] == LevelItems(level[1..], number) + rest;
      LowLevelStays(l, level[1..], number, rest, target);
    }
  }

  lemma DistinctSplits(level: seq<Hash>)
    requires level != []
    ensures Distinct(level) <==> level[0] !in level[1..] && Distinct(level[1..])
  {
    if Distinct(level) {
      forall i, j | 0 <= i < j < |level[1..]|
        ensures level[1..][i] != level[1..][j]
      {
        assert level[i + 1] != level[j + 1];
      }
    }
  }

  /** What the first leaf of a level leaves behind. */
  lemma FirstGoes(l: Levels, number: nat)
    requires number in l && l[number] != []
    ensures
      var l' := RemoveLeaf(l, number, l[number][0]);
      var tail := l[number][1..];
      && (l[number][0] in tail ==> !Contains(l', number, l[number][0]))
      && (l[number][0] !in tail ==> l' == if tail == [] then l - {number} else l[number := tail])
  {
    var level := l[number];
    WithoutMeans(level, level[0]);
    WithoutMeans(level[1..], level[0]);
    assert Without(level, level[0]) == Without(level[1..], level[0]);
    assert Contains(l, number, level[0]);
  }

  /** The leaves of one level above the target go, unless one is listed twice. */
  lemma {:induction false} HighLevelGoes(l: Levels, number: nat, rest: seq<Item>, target: nat)
    requires number > target && number in l && l[number] != []
    ensures
      var items := LevelItems(l[number], number) + rest;
      DropItems(l, items, target) == if Distinct(l[number]) then DropItems(l - {number}, rest, target) else None
    decreases |l[number]|
  {
    var level := l[number];
    var items := LevelItems(level, number) + rest;
    var tail := level[1..];
    assert items[0] == Item(level[0], number);
    assert items[1..] == LevelItems(tail, number) + rest;
    var l' := RemoveLeaf(l, number, level[0]);
    DistinctSplits(level);
    FirstGoes(l, number);
    if level[0] in tail {
      var i :| 0 <= i < |tail| && tail[i] == level[0];
      ItemsOfLevel(tail, number);
      MissingItemFails(l', items[1..], target, i);
    } else if tail == [] {
      assert items[1..] == rest;
    } else {
      assert l' - {number} == l - {number};
      HighLevelGoes(l', number, rest, target);
    }
  }

  lemma {:induction false} ItemsFrame(l: Levels, l': Levels, numbers: seq<nat>)
    requires forall n :: n in numbers ==> n in l && n in l' && l[n] == l'[n]
    ensures Items(l, numbers) == Items(l', numbers)
  {
    if numbers != [] {
      ItemsFrame(l, l', numbers[1..]);
    }
  }

  ghost predicate RepeatsAbove(l: Levels, numbers: seq<nat>, target: nat) {
    exists i :: 0 <= i < |numbers| && numbers[i] > target && !Distinct(Level(l, numbers[i]))
  }

  ghost function Dropped(l: Levels, numbers: seq<nat>, target: nat): Levels {
    map n | n in l && (n !in numbers || n <= target || l[n] == []) :: l[n]
  }

  lemma DroppedSplits(l: Levels, numbers: seq<nat>, target: nat)
    requires numbers != [] && numbers[0] in l && numbers[0] !in numbers[1..]
    ensures numbers[0] <= target || l[numbers[0]] == [] ==> Dropped(l, numbers, target) == Dropped(l, numbers[1..], target)
    ensures numbers[0] > target && l[numbers[0]] != [] ==>
              Dropped(l, numbers, target) == Dropped(l - {numbers[0]}, numbers[1..], target)
  {
    assert numbers == [numbers[0]] + numbers[1..];
    assert forall n :: n in numbers <==> n == numbers[0] || n in numbers[1..];
  }

  lemma {:induction false} DropItemsMeans(l: Levels, numbers: seq<nat>, target: nat)
    requires forall i, j :: 0 <= i < j < |numbers| ==> numbers[i] != numbers[j]
    requires forall n :: n in numbers ==> n in l
    ensures DropItems(l, Items(l, numbers), target) ==
            if RepeatsAbove(l, numbers, target) then None else Some(Dropped(l, numbers, target))
    decreases |numbers|
  {
    if numbers == [] {
      assert Dropped(l, numbers, target) == l;
      return;
    }
    var n, rest := numbers[0], numbers[1..];
    DroppedSplits(l, numbers, target);
    if n <= target {
      LowLevelStays(l, l[n], n, Items(l, rest), target);
      DropItemsMeans(l, rest, target);
      RepeatsSplits(l, l, numbers, target);
    } else if l[n] == [] {
      assert LevelItems(l[n], n) + Items(l, rest) == Items(l, rest);
      DropItemsMeans(l, rest, target);
      RepeatsSplits(l, l, numbers, target);
    } else {
      HighLevelGoes(l, n, Items(l, rest), target);
      ItemsFrame(l, l - {n}, rest);
      DropItemsMeans(l - {n}, rest, target);
      RepeatsSplits(l, l - {n}, numbers, target);
    }
  }

  lemma RepeatsSplits(l: Levels, l': Levels, numbers: seq<nat>, target: nat)
    requires numbers != [] && forall n :: n in numbers[1..] ==> Level(l, n) == Level(l', n)
    ensures RepeatsAbove(l, numbers, target) <==>
            || (numbers[0] > target && !Distinct(Level(l, numbers[0])))
            || RepeatsAbove(l', numbers[1..], target)
  {
    var rest := numbers[1..];
    if RepeatsAbove(l, numbers, target) {
      var i :| 0 <= i < |numbers| && numbers[i] > target && !Distinct(Level(l, numbers[i]));
      assert i > 0 ==> rest[i - 1] == numbers[i];
    }
    if RepeatsAbove(l', rest, target) {
      var i :| 0 <= i < |rest| && rest[i] > target && !Distinct(Level(l', rest[i]));
      assert rest[i] == numbers[i + 1];
    }
  }

  ghost function UpTo(l: Levels, target: nat): Levels {
    map n | n in l && (n <= target || l[n] == []) :: l[n]
  }

  lemma AllLevels(l: Levels, numbers: seq<nat>, target: nat)
    requires Enumerates(l, numbers)
    ensures RepeatsAbove(l, numbers, target) <==> exists n: nat :: n > target && !Distinct(Level(l, n))
    ensures Dropped(l, numbers, target) == UpTo(l, target)
  {
    if n: nat :| n > target && !Distinct(Level(l, n)) {
      assert n in numbers;
      var i :| 0 <= i < |numbers| && numbers[i] == n;
    }
  }

  /**
    Reverting fails exactly when some level above the target lists a hash twice, and otherwise
    leaves the levels up to the target, with the target among them, whatever the order of the scan.
   */
  lemma RevertExact(l: Levels, numbers: seq<nat>, hash: Hash, number: nat)
    requires Enumerates(l, numbers)
    ensures Revert(l, numbers, hash, number).None? <==> exists n: nat :: n > number && !Distinct(Level(l, n))
    ensures Revert(l, numbers, hash, number).Some? ==>
              && Revert(l, numbers, hash, number).value == EnsureLeaf(UpTo(l, number), number, hash)
              && Contains(Revert(l, numbers, hash, number).value, number, hash)
  {
    DropItemsMeans(l, numbers, number);
    AllLevels(l, numbers, number);
  }
}
