/**
  The leaf set kept by the database agrees with the block tree it summarises, through every run of
  imports, leaf removals and finalizations.
 */
module LeafSetRuns {
  import opened Common
  import opened LeafSetModel

  datatype Header = Header(number: nat, parent: Hash)

  type Blocks = map<Hash, Header>

  /** The parts of the database that speak of the tree: headers, children lists, leaves, metadata. */
  datatype Db = Db(
    blocks: Blocks, children: map<Hash, seq<Hash>>, leaves: Levels, best: Hash, finalized: nat)

  const EMPTY := Db(map[], map[], map[], 0, 0)

  function Children(db: Db, parent: Hash): seq<Hash> {
    if parent in db.children then db.children[parent] else []
  }

  /** A new block becomes a leaf if it can still be finalized, and is listed under its parent. */
  function ImportBlock(db: Db, hash: Hash, header: Header, isBest: bool): Db {
    var listed := Children(db, header.parent);
    db.(
      blocks := db.blocks[hash := header],
      children := if hash in listed then db.children else db.children[header.parent := listed + [hash]],
      leaves := if header.number > db.finalized || db.finalized == 0
                then Import(db.leaves, hash, header.number, header.parent) else db.leaves,
      best := if isBest then hash else db.best)
  }

  datatype Error = IsBest | UnknownBlock | NoState | NotALeaf

  /** Removes a leaf block; its parent becomes a leaf when no other child is left. */
  function RemoveLeafBlock(db: Db, hash: Hash, haveState: bool): Result<Db, Error> {
    if hash == db.best then Err(IsBest)
    else if hash !in db.blocks then Err(UnknownBlock)
    else if !haveState then Err(NoState)
    else
      var header := db.blocks[hash];
      if !Contains(db.leaves, header.number, hash) then Err(NotALeaf)
      else
        var siblings := Without(Children(db, header.parent), hash);
        Ok(db.(
          blocks := db.blocks - {hash},
          children := if siblings == [] then db.children - {header.parent} else db.children[header.parent := siblings],
          leaves := Remove(db.leaves, hash, header.number, if siblings == [] then Some(header.parent) else None)))
  }

  function Finalize(db: Db, number: nat): Db {
    db.(leaves := FinalizeHeight(db.leaves, number), finalized := number)
  }

  // ---- the invariant ----

  /** Each block above number zero sits one above its parent; number zero has no parent. */
  ghost predicate TreeOk(blocks: Blocks) {
    forall h {:trigger BlockOk(blocks, h)} :: h in blocks ==> BlockOk(blocks, h)
  }

  ghost predicate BlockOk(blocks: Blocks, h: Hash)
    requires h in blocks
  {
    if blocks[h].number == 0 then blocks[h].parent !in blocks
    else blocks[h].parent in blocks && blocks[blocks[h].parent].number + 1 == blocks[h].number
  }

  ghost predicate ChildrenOk(db: Db) {
    forall p: Hash, h: Hash :: h in Children(db, p) <==> h in db.blocks && db.blocks[h].parent == p
  }

  ghost predicate Childless(blocks: Blocks, hash: Hash) {
    hash in blocks && forall h :: h in blocks ==> blocks[h].parent != hash
  }

  /** Every leaf is a childless block at its own number, each once, in no empty level. */
  ghost predicate OnlyChildless(l: Levels, blocks: Blocks) {
    && (forall n: nat, h: Hash :: Contains(l, n, h) ==> Childless(blocks, h) && blocks[h].number == n)
    && (forall n :: n in l ==> l[n] != [] && Distinct(l[n]))
  }

  /** Every childless block that can still be finalized is a leaf. */
  ghost predicate AllChildless(l: Levels, blocks: Blocks, finalized: nat) {
    forall h :: Childless(blocks, h) && (blocks[h].number > finalized || finalized == 0) ==>
      Contains(l, blocks[h].number, h)
  }

  ghost predicate Inv(db: Db) {
    && TreeOk(db.blocks) && ChildrenOk(db)
    && OnlyChildless(db.leaves, db.blocks) && AllChildless(db.leaves, db.blocks, db.finalized)
  }

  /** Parent first, and under a hash nobody knows. */
  ghost predicate Importable(db: Db, hash: Hash, header: Header) {
    && hash !in db.blocks && header.parent != hash
    && (forall h :: h in db.blocks ==> db.blocks[h].parent != hash)
    && TreeOk(db.blocks[hash := header])
  }

  // ---- importing ----

  lemma ImportContains(l: Levels, hash: Hash, number: nat, parent: Hash, n: nat, h: Hash)
    ensures Contains(Import(l, hash, number, parent), n, h) <==>
            || (n == number && h == hash)
            || (Contains(l, n, h) && !(n + 1 == number && h == parent))
  {
    ImportLevel(l, hash, number, parent, n);
    WithoutMeans(Level(l, n), parent);
  }

  lemma ImportShape(l: Levels, hash: Hash, number: nat, parent: Hash)
    requires !Contains(l, number, hash) && forall n :: n in l ==> l[n] != [] && Distinct(l[n])
    ensures
      var l' := Import(l, hash, number, parent);
      forall n :: n in l' ==> l'[n] != [] && Distinct(l'[n])
  {
    var l' := Import(l, hash, number, parent);
    forall n | n in l'
      ensures l'[n] != [] && Distinct(l'[n])
    {
      ImportLevel(l, hash, number, parent, n);
      WithoutDistinct(Level(l, n), parent);
      WithoutMeans(Level(l, n), parent);
    }
  }

  lemma ImportedChildless(db: Db, hash: Hash, header: Header, h: Hash)
    requires Importable(db, hash, header)
    ensures Childless(db.blocks[hash := header], h) <==>
            h == hash || (Childless(db.blocks, h) && h != header.parent)
  {
    var blocks' := db.blocks[hash := header];
    assert hash in blocks';
    if Childless(blocks', h) && h != hash {
      forall b | b in db.blocks
        ensures db.blocks[b].parent != h
      {
        assert b in blocks' && blocks'[b] == db.blocks[b];
      }
    }
  }

  lemma ImportKeepsLeaves(db: Db, hash: Hash, header: Header)
    requires OnlyChildless(db.leaves, db.blocks) && AllChildless(db.leaves, db.blocks, db.finalized)
    requires Importable(db, hash, header) && (header.number > db.finalized || db.finalized == 0)
    ensures
      var l' := Import(db.leaves, hash, header.number, header.parent);
      var blocks' := db.blocks[hash := header];
      OnlyChildless(l', blocks') && AllChildless(l', blocks', db.finalized)
  {
    var l' := Import(db.leaves, hash, header.number, header.parent);
    var blocks' := db.blocks[hash := header];
    assert BlockOk(blocks', hash) && !Contains(db.leaves, header.number, hash);
    ImportShape(db.leaves, hash, header.number, header.parent);
    forall n: nat, h: Hash | Contains(l', n, h)
      ensures Childless(blocks', h) && blocks'[h].number == n
    {
      ImportContains(db.leaves, hash, header.number, header.parent, n, h);
      ImportedChildless(db, hash, header, h);
    }
    forall h | Childless(blocks', h) && (blocks'[h].number > db.finalized || db.finalized == 0)
      ensures Contains(l', blocks'[h].number, h)
    {
      ImportContains(db.leaves, hash, header.number, header.parent, blocks'[h].number, h);
      ImportedChildless(db, hash, header, h);
    }
  }

  /** At or below the finalized height the leaf set is left alone, which is right unless the parent is a leaf. */
  lemma OldImportKeepsLeaves(db: Db, hash: Hash, header: Header)
    requires OnlyChildless(db.leaves, db.blocks) && AllChildless(db.leaves, db.blocks, db.finalized)
    requires Importable(db, hash, header) && header.number <= db.finalized && db.finalized > 0
    requires header.number > 0 ==> !Contains(db.leaves, header.number - 1, header.parent)
    ensures OnlyChildless(db.leaves, db.blocks[hash := header])
    ensures AllChildless(db.leaves, db.blocks[hash := header], db.finalized)
  {
    var blocks' := db.blocks[hash := header];
    forall n: nat, h: Hash | Contains(db.leaves, n, h)
      ensures Childless(blocks', h) && blocks'[h].number == n
    {
      LeafStaysChildless(db, hash, header, n, h);
    }
    forall h | Childless(blocks', h) && (blocks'[h].number > db.finalized || db.finalized == 0)
      ensures Contains(db.leaves, blocks'[h].number, h)
    {
      ImportedChildless(db, hash, header, h);
    }
  }

  lemma LeafStaysChildless(db: Db, hash: Hash, header: Header, n: nat, h: Hash)
    requires OnlyChildless(db.leaves, db.blocks) && Importable(db, hash, header) && Contains(db.leaves, n, h)
    requires header.number > 0 ==> !Contains(db.leaves, header.number - 1, header.parent)
    ensures
      var blocks' := db.blocks[hash := header];
      Childless(blocks', h) && blocks'[h].number == n
  {
    assert BlockOk(db.blocks[hash := header], hash);
    ImportedChildless(db, hash, header, h);
  }

  /** The block can become a leaf, or its parent is none. */
  predicate Timely(db: Db, header: Header) {
    || header.number > db.finalized || db.finalized == 0
    || header.number == 0 || !Contains(db.leaves, header.number - 1, header.parent)
  }

  lemma ImportKeepsChildren(db: Db, hash: Hash, header: Header, isBest: bool)
    requires ChildrenOk(db) && hash !in db.blocks
    ensures ChildrenOk(ImportBlock(db, hash, header, isBest))
  {
    var db' := ImportBlock(db, hash, header, isBest);
    forall p: Hash, h: Hash
      ensures h in Children(db', p) <==> h in db'.blocks && db'.blocks[h].parent == p
    {
      assert h in Children(db, p) <==> h in db.blocks && db.blocks[h].parent == p;
    }
  }

  lemma TimelyImportKeeps(db: Db, hash: Hash, header: Header, isBest: bool)
    requires Inv(db) && Importable(db, hash, header) && Timely(db, header)
    ensures Inv(ImportBlock(db, hash, header, isBest))
  {
    ImportKeepsChildren(db, hash, header, isBest);
    if header.number > db.finalized || db.finalized == 0 {
      ImportKeepsLeaves(db, hash, header);
    } else {
      OldImportKeepsLeaves(db, hash, header);
    }
  }

  lemma LateImportBreaks(l: Levels, blocks: Blocks, hash: Hash, header: Header)
    requires header.number > 0 && Contains(l, header.number - 1, header.parent)
    ensures !OnlyChildless(l, blocks[hash := header])
  {
    var blocks' := blocks[hash := header];
    assert hash in blocks' && blocks'[hash].parent == header.parent;
    assert !Childless(blocks', header.parent);
  }

  /** An import keeps the invariant exactly when it is timely. */
  lemma ImportKeeps(db: Db, hash: Hash, header: Header, isBest: bool)
    requires Inv(db) && Importable(db, hash, header)
    ensures Inv(ImportBlock(db, hash, header, isBest)) <==> Timely(db, header)
  {
    if Timely(db, header) {
      TimelyImportKeeps(db, hash, header, isBest);
    } else {
      LateImportBreaks(db.leaves, db.blocks, hash, header);
    }
  }

  // ---- removing ----

  lemma RemoveContains(l: Levels, hash: Hash, number: nat, parent: Option<Hash>, n: nat, h: Hash)
    requires Contains(l, number, hash)
    ensures Contains(Remove(l, hash, number, parent), n, h) <==>
            || (Contains(l, n, h) && !(n == number && h == hash))
            || (n + 1 == number && parent == Some(h))
  {
    RemoveLeafMeans(l, number, hash, n);
    WithoutMeans(Level(l, n), hash);
  }

  lemma RemoveShape(l: Levels, hash: Hash, number: nat, parent: Option<Hash>)
    requires Contains(l, number, hash) && forall n :: n in l ==> l[n] != [] && Distinct(l[n])
    requires parent.Some? && number > 0 ==> !Contains(l, number - 1, parent.value)
    ensures
      var l' := Remove(l, hash, number, parent);
      forall n :: n in l' ==> l'[n] != [] && Distinct(l'[n])
  {
    var l' := Remove(l, hash, number, parent);
    forall n | n in l'
      ensures l'[n] != [] && Distinct(l'[n])
    {
      RemoveLeafMeans(l, number, hash, n);
      WithoutDistinct(Level(l, n), hash);
      WithoutMeans(Level(l, n), hash);
    }
  }

  lemma NoSiblings(db: Db, hash: Hash, p: Hash)
    requires ChildrenOk(db)
    ensures Without(Children(db, p), hash) == [] <==>
            forall h :: h in db.blocks && h != hash ==> db.blocks[h].parent != p
  {
    var siblings := Without(Children(db, p), hash);
    WithoutMeans(Children(db, p), hash);
    if siblings != [] {
      assert siblings[0] in siblings;
      assert siblings[0] in db.blocks;
    } else {
      assert forall h :: h in db.blocks && db.blocks[h].parent == p ==> h in Children(db, p);
    }
  }

  /** Removing a childless block frees its parent when no sibling is left. */
  lemma RemovedChildless(db: Db, hash: Hash, h: Hash)
    requires ChildrenOk(db) && Childless(db.blocks, hash)
    requires db.blocks[hash].number > 0 <==> db.blocks[hash].parent in db.blocks
    ensures
      var header := db.blocks[hash];
      Childless(db.blocks - {hash}, h) <==>
        || (Childless(db.blocks, h) && h != hash)
        || (h == header.parent && header.number > 0 && Without(Children(db, h), hash) == [])
  {
    NoSiblings(db, hash, h);
    var blocks' := db.blocks - {hash};
    assert forall b :: b in blocks' <==> b in db.blocks && b != hash;
    if Childless(blocks', h) {
      forall b | b in db.blocks && b != hash
        ensures db.blocks[b].parent != h
      {
        assert b in blocks';
      }
    }
  }

  lemma RemoveKeepsChildren(db: Db, hash: Hash, haveState: bool)
    requires Inv(db) && RemoveLeafBlock(db, hash, haveState).Ok?
    ensures ChildrenOk(RemoveLeafBlock(db, hash, haveState).value)
  {
    var db' := RemoveLeafBlock(db, hash, haveState).value;
    var parent := db.blocks[hash].parent;
    forall p: Hash, h: Hash
      ensures h in Children(db', p) <==> h in db'.blocks && db'.blocks[h].parent == p
    {
      assert h in Children(db, p) <==> h in db.blocks && db.blocks[h].parent == p;
      WithoutMeans(Children(db, parent), hash);
    }
  }

  lemma RemoveKeepsTree(blocks: Blocks, hash: Hash)
    requires TreeOk(blocks) && Childless(blocks, hash)
    ensures TreeOk(blocks - {hash})
  {
    forall h | h in blocks - {hash}
      ensures BlockOk(blocks - {hash}, h)
    {
      assert BlockOk(blocks, h);
    }
  }

  lemma RemoveKeepsLeaves(db: Db, hash: Hash, haveState: bool)
    requires ChildrenOk(db) && OnlyChildless(db.leaves, db.blocks) && AllChildless(db.leaves, db.blocks, db.finalized)
    requires RemoveLeafBlock(db, hash, haveState).Ok? && Childless(db.blocks, hash) && BlockOk(db.blocks, hash)
    ensures
      var db' := RemoveLeafBlock(db, hash, haveState).value;
      OnlyChildless(db'.leaves, db'.blocks) && AllChildless(db'.leaves, db'.blocks, db'.finalized)
  {
    var db' := RemoveLeafBlock(db, hash, haveState).value;
    var header := db.blocks[hash];
    var parent := if Without(Children(db, header.parent), hash) == [] then Some(header.parent) else None;
    assert header.number > 0 ==> !Childless(db.blocks, header.parent);
    RemoveShape(db.leaves, hash, header.number, parent);
    forall n: nat, h: Hash | Contains(db'.leaves, n, h)
      ensures Childless(db'.blocks, h) && db'.blocks[h].number == n
    {
      RemoveContains(db.leaves, hash, header.number, parent, n, h);
      RemovedChildless(db, hash, h);
    }
    forall h | Childless(db'.blocks, h) && (db'.blocks[h].number > db.finalized || db.finalized == 0)
      ensures Contains(db'.leaves, db'.blocks[h].number, h)
    {
      RemoveContains(db.leaves, hash, header.number, parent, db'.blocks[h].number, h);
      RemovedChildless(db, hash, h);
    }
  }

  /** A removal that is accepted removes one childless block and keeps everything else in step. */
  lemma RemoveKeeps(db: Db, hash: Hash, haveState: bool)
    requires Inv(db) && RemoveLeafBlock(db, hash, haveState).Ok?
    ensures Inv(RemoveLeafBlock(db, hash, haveState).value)
    ensures Childless(db.blocks, hash) && RemoveLeafBlock(db, hash, haveState).value.blocks == db.blocks - {hash}
  {
    assert Childless(db.blocks, hash) && BlockOk(db.blocks, hash);
    RemoveKeepsTree(db.blocks, hash);
    RemoveKeepsChildren(db, hash, haveState);
    RemoveKeepsLeaves(db, hash, haveState);
  }

  /** Of the blocks that can still be finalized, exactly the childless ones can be removed. */
  lemma RemoveAcceptsChildless(db: Db, hash: Hash, haveState: bool)
    requires Inv(db)
    requires hash in db.blocks ==> db.blocks[hash].number > db.finalized || db.finalized == 0
    ensures RemoveLeafBlock(db, hash, haveState).Ok? <==> hash != db.best && haveState && Childless(db.blocks, hash)
  {
    if hash in db.blocks && Contains(db.leaves, db.blocks[hash].number, hash) {
      assert Childless(db.blocks, hash);
    }
  }

  /** Why a removal is refused: the first of these that holds. */
  lemma RemoveRefusesExactly(db: Db, hash: Hash, haveState: bool)
    requires Inv(db)
    ensures
      var r := RemoveLeafBlock(db, hash, haveState);
      && (r == Err(IsBest) <==> hash == db.best)
      && (r == Err(UnknownBlock) <==> hash != db.best && hash !in db.blocks)
      && (r == Err(NoState) <==> hash != db.best && hash in db.blocks && !haveState)
      && (r == Err(NotALeaf) ==>
            hash in db.blocks && (!Childless(db.blocks, hash) || (db.finalized > 0 && db.blocks[hash].number <= db.finalized)))
      && (hash != db.best && hash in db.blocks && haveState && !Childless(db.blocks, hash) ==> r == Err(NotALeaf))
  {
    if hash in db.blocks && Contains(db.leaves, db.blocks[hash].number, hash) {
      assert Childless(db.blocks, hash);
    }
  }

  lemma FinalizeKeeps(db: Db, number: nat)
    requires Inv(db) && number >= db.finalized
    ensures Inv(Finalize(db, number))
  {
    var db' := Finalize(db, number);
    forall n: nat, h: Hash
      ensures Contains(db'.leaves, n, h) <==> n >= number && Contains(db.leaves, n, h)
    {
    }
    assert forall p: Hash :: Children(db', p) == Children(db, p);
  }

  // ---- whole runs ----

  datatype Operation =
    | ImportOp(hash: Hash, header: Header, isBest: bool)
    | RemoveOp(hash: Hash, haveState: bool)
    | FinalizeOp(number: nat)

  ghost predicate Allowed(db: Db, op: Operation) {
    match op
    case ImportOp(hash, header, _) => Importable(db, hash, header) && Timely(db, header)
    case RemoveOp(_, _) => true
    case FinalizeOp(number) => number >= db.finalized
  }

  function Apply(db: Db, op: Operation): Db {
    match op
    case ImportOp(hash, header, isBest) => ImportBlock(db, hash, header, isBest)
    case RemoveOp(hash, haveState) =>
      var r := RemoveLeafBlock(db, hash, haveState);
      if r.Ok? then r.value else db
    case FinalizeOp(number) => Finalize(db, number)
  }

  /** What each operation does besides keeping the leaves: no block, head or height changes but the one it names. */
  lemma OperationEffects(db: Db, op: Operation)
    ensures
      var db' := Apply(db, op);
      match op
      case ImportOp(hash, header, isBest) =>
        && db'.blocks == db.blocks[hash := header] && db'.finalized == db.finalized
        && db'.best == if isBest then hash else db.best
      case RemoveOp(hash, haveState) =>
        && db'.best == db.best && db'.finalized == db.finalized
        && (if RemoveLeafBlock(db, hash, haveState).Ok? then db'.blocks == db.blocks - {hash} else db' == db)
      case FinalizeOp(number) =>
        && db'.blocks == db.blocks && db'.children == db.children && db'.best == db.best && db'.finalized == number
        && forall n: nat, h: Hash :: Contains(db'.leaves, n, h) <==> n >= number && Contains(db.leaves, n, h)
  {
  }

  function Run(db: Db, ops: seq<Operation>): Db
    decreases |ops|
  {
    if ops == [] then db else Run(Apply(db, ops[0]), ops[1..])
  }

  ghost predicate RunAllowed(db: Db, ops: seq<Operation>)
    decreases |ops|
  {
    ops != [] ==> Allowed(db, ops[0]) && RunAllowed(Apply(db, ops[0]), ops[1..])
  }

  lemma {:induction false} RunKeeps(db: Db, ops: seq<Operation>)
    requires Inv(db) && RunAllowed(db, ops)
    ensures Inv(Run(db, ops))
    decreases |ops|
  {
    if ops != [] {
      match ops[0] {
        case ImportOp(hash, header, isBest) => ImportKeeps(db, hash, header, isBest);
        case RemoveOp(hash, haveState) =>
          if RemoveLeafBlock(db, hash, haveState).Ok? {
            RemoveKeeps(db, hash, haveState);
          }
        case FinalizeOp(number) => FinalizeKeeps(db, number);
      }
      RunKeeps(Apply(db, ops[0]), ops[1..]);
    }
  }

  ghost predicate NeverFinalizes(ops: seq<Operation>) {
    forall i :: 0 <= i < |ops| ==> !ops[i].FinalizeOp?
  }

  lemma {:induction false} StaysUnfinalized(db: Db, ops: seq<Operation>)
    requires NeverFinalizes(ops)
    ensures Run(db, ops).finalized == db.finalized
    decreases |ops|
  {
    if ops != [] {
      assert !ops[0].FinalizeOp?;
      assert forall i :: 0 <= i < |ops[1..]| ==> ops[1..][i] == ops[i + 1];
      StaysUnfinalized(Apply(db, ops[0]), ops[1..]);
    }
  }

  /**
    After any run from an empty database each leaf is a childless block, listed once, and every
    childless block above the finalized height is a leaf; without finalization the leaves are the
    childless blocks. The assertion inside `revert` cannot fail.
   */
  lemma LeavesAreChildless(ops: seq<Operation>)
    requires RunAllowed(EMPTY, ops)
    ensures
      var db := Run(EMPTY, ops);
      && OnlyChildless(db.leaves, db.blocks) && AllChildless(db.leaves, db.blocks, db.finalized)
      && (NeverFinalizes(ops) ==>
            forall n: nat, h: Hash :: Contains(db.leaves, n, h) <==> Childless(db.blocks, h) && db.blocks[h].number == n)
      && (forall numbers, hash, number | Enumerates(db.leaves, numbers) :: Revert(db.leaves, numbers, hash, number).Some?)
  {
    var db := Run(EMPTY, ops);
    RunKeeps(EMPTY, ops);
    if NeverFinalizes(ops) {
      StaysUnfinalized(EMPTY, ops);
    }
    forall numbers, hash, number | Enumerates(db.leaves, numbers)
      ensures Revert(db.leaves, numbers, hash, number).Some?
    {
      RevertExact(db.leaves, numbers, hash, number);
      assert forall n: nat :: Distinct(Level(db.leaves, n));
    }
  }

  // ---- a late import ----

  /** Genesis and one block on it, which is finalized but not best. */
  const PAIR := Db(
    map[1 := Header(0, 0), 2 := Header(1, 1)], map[0 := [1], 1 := [2]], map[1 := [2]], 1, 1)

  /** The block is removed again. */
  const ROOT := Db(map[1 := Header(0, 0)], map[0 := [1]], map[0 := [1]], 1, 1)

  lemma PairIsReached()
    ensures
      var genesis := ImportBlock(EMPTY, 1, Header(0, 0), true);
      Finalize(ImportBlock(genesis, 2, Header(1, 1), false), 1) == PAIR
  {
    var genesis := ImportBlock(EMPTY, 1, Header(0, 0), true);
    var pair := ImportBlock(genesis, 2, Header(1, 1), false);
    assert Level(EMPTY.leaves, 0) + [1] == [1];
    assert genesis.leaves == map[0 := [1]];
    assert genesis.children == map[0 := [1]];
    assert Without([1], 1) == [];
    assert RemoveLeaf(genesis.leaves, 0, 1) == map[];
    assert Level(map[], 1) + [2] == [2];
    assert pair.leaves == map[1 := [2]];
    assert pair.children == PAIR.children;
    assert Finalize(pair, 1).leaves == PAIR.leaves;
  }

  lemma RootIsReached()
    ensures RemoveLeafBlock(PAIR, 2, true) == Ok(ROOT)
  {
    var db := RemoveLeafBlock(PAIR, 2, true).value;
    assert Without([2], 2) == [];
    assert RemoveLeaf(PAIR.leaves, 1, 2) == map[];
    assert Level(map[], 0) + [1] == [1];
    assert db.leaves == ROOT.leaves;
    assert db.children == ROOT.children;
    assert db.blocks == ROOT.blocks;
  }

  /**
    A block imported at the finalized height on top of a leaf below it leaves that leaf listed
    although it now has a child.
   */
  lemma LateImportLeavesStaleLeaf()
    ensures
      var genesis := ImportBlock(EMPTY, 1, Header(0, 0), true);
      Finalize(ImportBlock(genesis, 2, Header(1, 1), false), 1) == PAIR
    ensures RemoveLeafBlock(PAIR, 2, true) == Ok(ROOT) && Importable(ROOT, 3, Header(1, 1))
    ensures
      var db := ImportBlock(ROOT, 3, Header(1, 1), false);
      !Timely(ROOT, Header(1, 1)) && Contains(db.leaves, 0, 1) && !Childless(db.blocks, 1)
  {
    PairIsReached();
    RootIsReached();
    var db := ImportBlock(ROOT, 3, Header(1, 1), false);
    assert db.leaves == ROOT.leaves;
    assert 3 in db.blocks && db.blocks[3].parent == 1;
  }
}
