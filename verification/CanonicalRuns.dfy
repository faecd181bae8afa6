/**
  The canonical index through every run of imports, head changes and finalizations.
 */
module CanonicalRuns {
  import opened Common
  import opened CanonicalIndex

  function Fresh(delay: nat): Chain {
    Chain(map[], map[], DEFAULT, 0, DEFAULT, delay)
  }

  datatype Operation =
    | ImportBest(hash: Hash, header: Header, route: TreeRoute)
    | ImportSide(hash: Hash, header: Header)
    | SetHeadTo(hash: Hash, route: TreeRoute)
    | FinalizeBlock(hash: Hash)

  /** The header is stored, and its hash points to it. */
  function AddHeader(c: Chain, lookup: Column, hash: Hash, header: Header): Chain
    requires header.number < U32_LIMIT
  {
    c.(tree := c.tree[hash := header], lookup := lookup[hash := LookupKey(header.number, hash).value])
  }

  /** A failed operation commits nothing. */
  function Apply(c: Chain, op: Operation): Chain {
    match op
    case ImportBest(hash, header, route) =>
      var r := SetHead(c, header.parent, header.number, hash, route);
      if header.number < U32_LIMIT && r.Ok?
      then AddHeader(c, r.value, hash, header).(best := hash, bestNumber := header.number)
      else c
    case ImportSide(hash, header) =>
      if header.number < U32_LIMIT then AddHeader(c, c.lookup, hash, header) else c
    case SetHeadTo(hash, route) =>
      if hash in c.tree then
        var r := SetHead(c, hash, c.tree[hash].number, hash, route);
        if r.Ok? then c.(lookup := r.value, best := hash, bestNumber := c.tree[hash].number) else c
      else c
    case FinalizeBlock(hash) => c.(finalized := hash)
  }

  /** Known, or new and directly above a known block or at number zero. */
  predicate Joins(t: Tree, hash: Hash, header: Header) {
    if hash in t then header == t[hash]
    else
      && hash != DEFAULT
      && (header.number > 0 ==> header.parent in t && header.number == t[header.parent].number + 1)
  }

  ghost predicate RouteGiven(c: Chain, routeTo: Hash, route: TreeRoute)
    requires ChainOk(c)
  {
    Routed(c, routeTo) ==> exists common :: RouteOk(c.tree, c.best, routeTo, route, common)
  }

  /** A first block can be the head while nothing is above it; the finalized block has to be its own. */
  predicate FirstFits(c: Chain, hash: Hash) {
    c.bestNumber == 0 && (c.finalized == DEFAULT || c.finalized == hash)
  }

  /** No detached block becomes the head, and only blocks of the best chain are finalized. */
  ghost predicate Allowed(c: Chain, op: Operation)
    requires ChainOk(c)
  {
    match op
    case ImportBest(hash, header, route) =>
      && Joins(c.tree, hash, header) && RouteGiven(c, header.parent, route)
      && (if header.number == 0 then header.parent !in c.tree && FirstFits(c, hash) else c.best != DEFAULT)
    case ImportSide(hash, header) => Joins(c.tree, hash, header)
    case SetHeadTo(hash, route) =>
      hash in c.tree ==> (c.best == DEFAULT ==> c.tree[hash].number == 0) && RouteGiven(c, hash, route)
    case FinalizeBlock(hash) => c.best != DEFAULT && hash in Path(c.tree, c.best)
  }

  ghost predicate HashesOk(c: Chain) {
    forall h :: h in c.tree ==>
      c.tree[h].number < U32_LIMIT && h in c.lookup && c.lookup[h] == LookupKey(c.tree[h].number, h).value
  }

  ghost predicate Inv(c: Chain) {
    ChainOk(c) && HashesOk(c)
  }

  // ---- a new header changes no path ----

  lemma JoinKeepsTree(t: Tree, hash: Hash, header: Header)
    requires TreeOk(t) && Joins(t, hash, header) && header.number < U32_LIMIT
    ensures TreeOk(t[hash := header])
  {
  }

  lemma {:induction false} JoinKeepsPath(t: Tree, hash: Hash, header: Header, h: Hash)
    requires TreeOk(t) && Joins(t, hash, header) && TreeOk(t[hash := header]) && h in t
    ensures Path(t[hash := header], h) == Path(t, h)
    decreases t[h].number
  {
    if t[h].number > 0 {
      JoinKeepsPath(t, hash, header, t[h].parent);
    }
  }

  lemma HashKeyKeepsIndex(c: Column, hash: Hash, value: Bytes, path: seq<Hash>)
    requires |path| <= U32_LIMIT && IndexIs(c, path)
    ensures IndexIs(c[hash := value], path)
  {
    forall n: nat
      ensures Entry(c[hash := value], n) == Wanted(path, n)
    {
      assert Entry(c, n) == Wanted(path, n);
    }
  }

  lemma OthersKeepHashes(c: Chain, lookup: Column)
    requires HashesOk(c) && Others(lookup) == Others(c.lookup)
    ensures HashesOk(c.(lookup := lookup))
  {
    forall h | h in c.tree
      ensures h in lookup && lookup[h] == c.lookup[h]
    {
      assert h in Others(c.lookup) && Others(lookup)[h] == lookup[h];
    }
  }

  // ---- every operation keeps it ----

  lemma SideImportKeeps(c: Chain, hash: Hash, header: Header)
    requires Inv(c) && Joins(c.tree, hash, header) && header.number < U32_LIMIT
    ensures Inv(AddHeader(c, c.lookup, hash, header))
  {
    JoinKeepsTree(c.tree, hash, header);
    var value := LookupKey(header.number, hash).value;
    if c.best == DEFAULT {
      HashKeyKeepsIndex(c.lookup, hash, value, []);
    } else {
      JoinKeepsPath(c.tree, hash, header, c.best);
      HashKeyKeepsIndex(c.lookup, hash, value, Path(c.tree, c.best));
    }
  }

  lemma ImportedPath(c: Chain, hash: Hash, header: Header)
    requires TreeOk(c.tree) && Joins(c.tree, hash, header) && header.number < U32_LIMIT
    requires header.number == 0 ==> header.parent !in c.tree
    ensures Attached(c, header.parent, header.number, hash) && TreeOk(c.tree[hash := header])
    ensures Path(c.tree[hash := header], hash) == NewPath(c, header.parent, header.number, hash)
  {
    JoinKeepsTree(c.tree, hash, header);
    if hash in c.tree {
      assert c.tree[hash := header] == c.tree;
      NewPathIsPath(c, header.parent, header.number, hash);
    } else if header.number > 0 {
      JoinKeepsPath(c.tree, hash, header, header.parent);
    }
  }

  /** Once the index is the path to the block, storing the header completes the import. */
  lemma HeadAdded(c: Chain, lookup: Column, hash: Hash, header: Header)
    requires HashesOk(c) && TreeOk(c.tree) && Joins(c.tree, hash, header) && header.number < U32_LIMIT
    requires header.number == 0 ==> header.parent !in c.tree
    requires Attached(c, header.parent, header.number, hash) && Others(lookup) == Others(c.lookup)
    requires
      var path := NewPath(c, header.parent, header.number, hash);
      IndexIs(lookup, path) && (c.finalized != DEFAULT ==> c.finalized in path)
    ensures Inv(AddHeader(c, lookup, hash, header).(best := hash, bestNumber := header.number))
  {
    ImportedPath(c, hash, header);
    OthersKeepHashes(c, lookup);
    HashKeyKeepsIndex(lookup, hash, LookupKey(header.number, hash).value, Path(c.tree[hash := header], hash));
  }

  lemma BestImportKeeps(c: Chain, hash: Hash, header: Header, route: TreeRoute)
    requires Inv(c) && Allowed(c, ImportBest(hash, header, route))
    ensures Inv(Apply(c, ImportBest(hash, header, route)))
  {
    var r := SetHead(c, header.parent, header.number, hash, route);
    if header.number < U32_LIMIT && r.Ok? {
      var common := if Routed(c, header.parent)
        then var k :| RouteOk(c.tree, c.best, header.parent, route, k); k else 0;
      ImportedPath(c, hash, header);
      SetHeadExact(c, header.parent, header.number, hash, route, common);
      HeadAdded(c, r.value, hash, header);
    }
  }

  lemma HeadMoved(c: Chain, lookup: Column, hash: Hash)
    requires HashesOk(c) && TreeOk(c.tree) && hash in c.tree && Others(lookup) == Others(c.lookup)
    requires IndexIs(lookup, Path(c.tree, hash)) && (c.finalized != DEFAULT ==> c.finalized in Path(c.tree, hash))
    ensures Inv(c.(lookup := lookup, best := hash, bestNumber := c.tree[hash].number))
  {
    OthersKeepHashes(c, lookup);
  }

  lemma SetHeadKeeps(c: Chain, hash: Hash, route: TreeRoute)
    requires Inv(c) && Allowed(c, SetHeadTo(hash, route))
    ensures Inv(Apply(c, SetHeadTo(hash, route)))
  {
    if hash in c.tree {
      var number := c.tree[hash].number;
      var common := if Routed(c, hash) then var k :| RouteOk(c.tree, c.best, hash, route, k); k else 0;
      SetHeadExact(c, hash, number, hash, route, common);
      var r := SetHead(c, hash, number, hash, route);
      if r.Ok? {
        HeadMoved(c, r.value, hash);
      }
    }
  }

  // ---- whole runs ----

  lemma OperationKeeps(c: Chain, op: Operation)
    requires Inv(c) && Allowed(c, op)
    ensures Inv(Apply(c, op))
  {
    match op
    case ImportBest(hash, header, route) => BestImportKeeps(c, hash, header, route);
    case ImportSide(hash, header) =>
      if header.number < U32_LIMIT {
        SideImportKeeps(c, hash, header);
      }
    case SetHeadTo(hash, route) => SetHeadKeeps(c, hash, route);
    case FinalizeBlock(hash) =>
  }

  function Run(c: Chain, ops: seq<Operation>): Chain
    decreases |ops|
  {
    if ops == [] then c else Run(Apply(c, ops[0]), ops[1..])
  }

  ghost predicate RunAllowed(c: Chain, ops: seq<Operation>)
    decreases |ops|
  {
    ops != [] ==> ChainOk(c) && Allowed(c, ops[0]) && RunAllowed(Apply(c, ops[0]), ops[1..])
  }

  lemma {:induction false} RunKeeps(c: Chain, ops: seq<Operation>)
    requires Inv(c) && RunAllowed(c, ops)
    ensures Inv(Run(c, ops))
    decreases |ops|
  {
    if ops != [] {
      OperationKeeps(c, ops[0]);
      RunKeeps(Apply(c, ops[0]), ops[1..]);
    }
  }

  /**
    After any run of a fresh database that has a best block, the number index leads to the blocks of
    the path from genesis to it and to nothing above, and the finalized block is on that path.
   */
  lemma IndexIsBestPath(delay: nat, ops: seq<Operation>, n: nat)
    requires RunAllowed(Fresh(delay), ops) && Run(Fresh(delay), ops).best != DEFAULT && n < U32_LIMIT
    ensures
      var c := Run(Fresh(delay), ops);
      && TreeOk(c.tree) && c.best in c.tree
      && var key, path := NumberIndexKey(n).value, Path(c.tree, c.best);
      && (n <= c.tree[c.best].number ==> key in c.lookup && path[n] in c.lookup && c.lookup[key] == c.lookup[path[n]])
      && (n > c.tree[c.best].number ==> key !in c.lookup)
      && (c.finalized != DEFAULT ==> c.finalized in path)
  {
    var c := Fresh(delay);
    assert IndexIs(c.lookup, []) by {
      assert forall m: nat :: Entry(c.lookup, m) == None;
    }
    RunKeeps(c, ops);
    var end := Run(c, ops);
    assert Entry(end.lookup, n) == Wanted(Path(end.tree, end.best), n);
  }

  // ---- what a run has done ----

  lemma OperationKeepsBlocks(c: Chain, op: Operation)
    requires ChainOk(c) && Allowed(c, op)
    ensures forall h :: h in c.tree ==> h in Apply(c, op).tree && Apply(c, op).tree[h] == c.tree[h]
  {
  }

  lemma {:induction false} RunKeepsBlocks(c: Chain, ops: seq<Operation>)
    requires Inv(c) && RunAllowed(c, ops)
    ensures forall h :: h in c.tree ==> h in Run(c, ops).tree && Run(c, ops).tree[h] == c.tree[h]
    decreases |ops|
  {
    if ops != [] {
      OperationKeeps(c, ops[0]);
      OperationKeepsBlocks(c, ops[0]);
      RunKeepsBlocks(Apply(c, ops[0]), ops[1..]);
    }
  }

  /** A block that an operation adds: any that has a key, if its head change, when it has one, succeeds. */
  ghost predicate Adds(c: Chain, op: Operation) {
    match op
    case ImportBest(hash, header, route) =>
      header.number < U32_LIMIT && SetHead(c, header.parent, header.number, hash, route).Ok?
    case ImportSide(_, header) => header.number < U32_LIMIT
    case _ => false
  }

  /** Every imported block is still there at the end of the run, with its header, and a new best block is the best one. */
  lemma ImportedStays(c: Chain, op: Operation, ops: seq<Operation>)
    requires Inv(c) && RunAllowed(c, [op] + ops) && Adds(c, op)
    ensures
      var end := Run(c, [op] + ops);
      op.hash in end.tree && end.tree[op.hash] == op.header
    ensures op.ImportBest? ==> Apply(c, op).best == op.hash && Apply(c, op).bestNumber == op.header.number
  {
    assert ([op] + ops)[0] == op && ([op] + ops)[1..] == ops;
    OperationKeeps(c, op);
    RunKeepsBlocks(Apply(c, op), ops);
  }

  /** A head change by itself takes effect exactly when it succeeds, and changes no block. */
  lemma HeadIsSet(c: Chain, hash: Hash, route: TreeRoute)
    requires hash in c.tree
    ensures
      var c', r := Apply(c, SetHeadTo(hash, route)), SetHead(c, hash, c.tree[hash].number, hash, route);
      && c'.tree == c.tree && c'.finalized == c.finalized
      && (if r.Ok? then c'.best == hash && c'.bestNumber == c.tree[hash].number && c'.lookup == r.value else c' == c)
  {
  }

  /** The hash that was finalized last. */
  ghost function LastFinalized(ops: seq<Operation>, before: Hash): Hash
    decreases |ops|
  {
    if ops == [] then before
    else if ops[|ops| - 1].FinalizeBlock? then ops[|ops| - 1].hash
    else LastFinalized(ops[..|ops| - 1], before)
  }

  lemma {:induction false} LastFinalizedShifts(ops: seq<Operation>, before: Hash)
    requires ops != []
    ensures LastFinalized(ops, before) ==
            LastFinalized(ops[1..], if ops[0].FinalizeBlock? then ops[0].hash else before)
    decreases |ops|
  {
    if |ops| > 1 {
      assert ops[..|ops| - 1][1..] == ops[1..][..|ops| - 2];
      LastFinalizedShifts(ops[..|ops| - 1], before);
    }
  }

  lemma {:induction false} FinalizedIsLast(c: Chain, ops: seq<Operation>)
    ensures Run(c, ops).finalized == LastFinalized(ops, c.finalized)
    decreases |ops|
  {
    if ops != [] {
      FinalizedIsLast(Apply(c, ops[0]), ops[1..]);
      LastFinalizedShifts(ops, c.finalized);
    }
  }

  // ---- the entry below a head ----

  /** The entry below a block is its parent. */
  ghost predicate LinkedBelow(c: Column, number: nat, parent: Hash)
    requires 0 < number < U32_LIMIT
  {
    Entry(c, number - 1) == Some(LookupKey(number - 1, parent).value)
  }

  /**
    After any import of a head above number zero, known before or not, the entry below it is its parent
    exactly when a route to the parent was walked: there was a best block, and the parent is known.
   */
  lemma HeadIsLinkedExactly(c: Chain, routeTo: Hash, number: nat, hash: Hash, route: TreeRoute)
    requires ChainOk(c) && 0 < number < U32_LIMIT && RouteGiven(c, routeTo, route)
    requires routeTo in c.tree ==> number == c.tree[routeTo].number + 1
    ensures
      var r := SetHead(c, routeTo, number, hash, route);
      r.Ok? ==> (LinkedBelow(r.value, number, routeTo) <==> Routed(c, routeTo))
  {
    var common := if Routed(c, routeTo) then var k :| RouteOk(c.tree, c.best, routeTo, route, k); k else 0;
    SetHeadEntries(c, routeTo, number, hash, route, common);
    var r, base := SetHead(c, routeTo, number, hash, route), Base(c, routeTo);
    if r.Ok? {
      assert Entry(r.value, number - 1) == Wanted(base, number - 1);
      if number <= |base| && LookupKey(number - 1, base[number - 1]) == LookupKey(number - 1, routeTo) {
        LookupKeysDiffer(number - 1, base[number - 1], routeTo);
      }
    }
  }
}
