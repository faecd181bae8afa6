/**
  Pruning the branches that finality displaced: from each displaced leaf back to the canonical chain,
  every block that is not canonical, and no canonical one but a displaced best block.
 */
module DisplacedBranches {
  import opened Common
  import opened CanonicalIndex

  /** Blocks at number zero have no parent in the tree, so walking back ends. */
  ghost predicate Grounded(t: Tree) {
    TreeOk(t) && forall h :: h in t && t[h].number == 0 ==> t[h].parent !in t
  }

  /** What the canonical index answers for a number. */
  function HashAt(canon: seq<Hash>, number: nat): Option<Hash> {
    if number < |canon| then Some(canon[number]) else None
  }

  function Below(number: nat): nat {
    if number == 0 then 0 else number - 1
  }

  ghost function Height(t: Tree, hash: Hash): nat {
    if hash in t then t[hash].number + 1 else 0
  }

  /** The blocks pruned while walking back from `hash`, which is compared with the block at `number`. */
  ghost function Walk(t: Tree, canon: seq<Hash>, number: nat, hash: Hash): seq<Hash>
    requires Grounded(t)
    decreases Height(t, hash)
  {
    if HashAt(canon, number) == Some(hash) || hash !in t then []
    else [hash] + Walk(t, canon, Below(t[hash].number), t[hash].parent)
  }

  ghost function WalkAll(t: Tree, canon: seq<Hash>, finalized: nat, leaves: seq<Hash>): seq<Hash>
    requires Grounded(t)
  {
    if leaves == [] then []
    else Walk(t, canon, finalized, leaves[0]) + WalkAll(t, canon, finalized, leaves[1..])
  }

  // ---- the canonical chain goes all the way down ----

  lemma ParentOnPath(t: Tree, best: Hash, h: Hash)
    requires TreeOk(t) && best in t && h in Path(t, best) && t[h].number > 0
    ensures t[h].parent in Path(t, best)
  {
    var canon := Path(t, best);
    var i :| 0 <= i < |canon| && canon[i] == h;
    PathPrefix(t, best, i);
    assert Path(t, h) == Path(t, t[h].parent) + [h];
    assert Path(t, h)[i - 1] == t[h].parent;
    assert canon[..i + 1][i - 1] == canon[i - 1];
  }

  lemma PathMembers(t: Tree, h: Hash, b: Hash)
    requires TreeOk(t) && h in t
    ensures b in Path(t, h) <==> b == h || (t[h].number > 0 && b in Path(t, t[h].parent))
  {
  }

  lemma {:induction false} AncestorOnPath(t: Tree, best: Hash, h: Hash, b: Hash)
    requires TreeOk(t) && best in t && h in Path(t, best) && b in Path(t, h)
    ensures b in Path(t, best)
    decreases t[h].number
  {
    PathMembers(t, h, b);
    if b != h {
      ParentOnPath(t, best, h);
      AncestorOnPath(t, best, t[h].parent, b);
    }
  }

  // ---- one branch ----

  lemma WalkStep(t: Tree, canon: seq<Hash>, number: nat, h: Hash, b: Hash)
    requires Grounded(t) && h in t
    ensures b in Walk(t, canon, number, h) <==>
            && HashAt(canon, number) != Some(h)
            && (b == h || (t[h].number > 0 && b in Walk(t, canon, t[h].number - 1, t[h].parent)))
  {
    if t[h].number == 0 {
      assert Walk(t, canon, 0, t[h].parent) == [];
    }
  }

  /** From a block whose own number is asked for: exactly the part of its path off the canonical chain. */
  lemma {:induction false} WalkMeans(t: Tree, best: Hash, h: Hash, b: Hash)
    requires Grounded(t) && best in t && h in t
    ensures b in Walk(t, Path(t, best), t[h].number, h) <==> b in Path(t, h) && b !in Path(t, best)
    decreases t[h].number
  {
    var canon := Path(t, best);
    PathMembers(t, h, b);
    WalkStep(t, canon, t[h].number, h, b);
    if HashAt(canon, t[h].number) == Some(h) {
      if b in Path(t, h) {
        AncestorOnPath(t, best, h, b);
      }
    } else {
      assert h !in canon;
      if t[h].number > 0 {
        WalkMeans(t, best, t[h].parent, b);
      }
    }
  }

  /**
    From a displaced leaf, which is compared with the block at the finalized number: the leaf itself,
    unless it is that block, and its ancestors off the canonical chain.
   */
  lemma LeafWalkMeans(t: Tree, best: Hash, finalized: nat, leaf: Hash, b: Hash)
    requires Grounded(t) && best in t && leaf in t
    ensures b in Walk(t, Path(t, best), finalized, leaf) <==>
            && HashAt(Path(t, best), finalized) != Some(leaf)
            && b in Path(t, leaf) && (b == leaf || b !in Path(t, best))
  {
    PathMembers(t, leaf, b);
    WalkStep(t, Path(t, best), finalized, leaf, b);
    if t[leaf].number > 0 {
      WalkMeans(t, best, t[leaf].parent, b);
    }
  }

  // ---- all branches ----

  lemma {:induction false} WalkAllMembers(t: Tree, canon: seq<Hash>, finalized: nat, leaves: seq<Hash>, b: Hash)
    requires Grounded(t)
    ensures b in WalkAll(t, canon, finalized, leaves) <==>
            exists i :: 0 <= i < |leaves| && b in Walk(t, canon, finalized, leaves[i])
  {
    if leaves != [] {
      var rest := leaves[1..];
      WalkAllMembers(t, canon, finalized, rest, b);
      if b in WalkAll(t, canon, finalized, rest) {
        var i :| 0 <= i < |rest| && b in Walk(t, canon, finalized, rest[i]);
        assert b in Walk(t, canon, finalized, leaves[i + 1]);
      }
      if i :| 0 <= i < |leaves| && b in Walk(t, canon, finalized, leaves[i]) && i > 0 {
        assert b in Walk(t, canon, finalized, rest[i - 1]);
      }
    }
  }

  ghost predicate OffChain(t: Tree, best: Hash, leaves: seq<Hash>)
    requires TreeOk(t) && best in t
  {
    forall i :: 0 <= i < |leaves| ==> leaves[i] in t && leaves[i] !in Path(t, best)
  }

  /** With leaves off the canonical chain, pruning takes exactly the rest of their branches off it. */
  lemma PrunesExactly(t: Tree, best: Hash, finalized: nat, leaves: seq<Hash>, b: Hash)
    requires Grounded(t) && best in t && OffChain(t, best, leaves)
    ensures b in WalkAll(t, Path(t, best), finalized, leaves) <==>
            b !in Path(t, best) && exists i :: 0 <= i < |leaves| && b in Path(t, leaves[i])
  {
    var canon := Path(t, best);
    WalkAllMembers(t, canon, finalized, leaves, b);
    forall i | 0 <= i < |leaves|
      ensures b in Walk(t, canon, finalized, leaves[i]) <==> b in Path(t, leaves[i]) && b !in canon
    {
      LeafWalkMeans(t, best, finalized, leaves[i], b);
    }
  }

  /** A canonical block is pruned exactly when it is itself a displaced leaf away from the finalized number. */
  lemma CanonicalPrunedOnlyAsLeaf(t: Tree, best: Hash, finalized: nat, leaves: seq<Hash>, b: Hash)
    requires Grounded(t) && best in t && (forall i :: 0 <= i < |leaves| ==> leaves[i] in t)
    requires b in Path(t, best)
    ensures b in WalkAll(t, Path(t, best), finalized, leaves) <==>
            b in leaves && HashAt(Path(t, best), finalized) != Some(b)
  {
    var canon := Path(t, best);
    WalkAllMembers(t, canon, finalized, leaves, b);
    forall i | 0 <= i < |leaves|
      ensures b in Walk(t, canon, finalized, leaves[i]) <==> b == leaves[i] && HashAt(canon, finalized) != Some(b)
    {
      LeafWalkMeans(t, best, finalized, leaves[i], b);
      PathMembers(t, leaves[i], b);
    }
  }

  /** A childless block below the finalized one cannot be canonical. */
  lemma DisplacedLeafIsOffChain(t: Tree, best: Hash, finalized: nat, leaf: Hash)
    requires TreeOk(t) && best in t && finalized <= t[best].number
    requires leaf in t && t[leaf].number < finalized && forall h :: h in t ==> t[h].parent != leaf
    ensures leaf !in Path(t, best)
  {
    var canon := Path(t, best);
    if leaf in canon {
      var i :| 0 <= i < |canon| && canon[i] == leaf;
      PathStep(t, best, i);
    }
  }

  lemma PathStep(t: Tree, h: Hash, i: nat)
    requires TreeOk(t) && h in t && i < t[h].number
    ensures t[Path(t, h)[i + 1]].parent == Path(t, h)[i]
  {
    var path := Path(t, h);
    var child := path[i + 1];
    PathPrefix(t, h, i + 1);
    assert Path(t, child) == Path(t, t[child].parent) + [child];
    assert path[..i + 2][i] == Path(t, t[child].parent)[i];
  }

  /** Leaves as finality displaces them: childless, and below the finalized block. */
  ghost predicate Displaced(t: Tree, finalized: nat, leaves: seq<Hash>) {
    forall i :: 0 <= i < |leaves| ==>
      leaves[i] in t && t[leaves[i]].number < finalized && forall h :: h in t ==> t[h].parent != leaves[i]
  }

  ghost predicate OnBranch(t: Tree, leaves: seq<Hash>, b: Hash)
    requires TreeOk(t)
  {
    exists i :: 0 <= i < |leaves| && leaves[i] in t && b in Path(t, leaves[i])
  }

  /** The leaves themselves, and of their paths what is off the canonical chain. */
  ghost predicate PrunedExactly(t: Tree, best: Hash, leaves: seq<Hash>, pruned: seq<Hash>)
    requires TreeOk(t) && best in t
  {
    forall b :: b in pruned <==> b in leaves || (b !in Path(t, best) && OnBranch(t, leaves, b))
  }

  /** Displaced leaves are pruned with exactly the part of their branches off the canonical chain. */
  lemma DisplacedPrunedExactly(t: Tree, best: Hash, finalized: nat, leaves: seq<Hash>)
    requires Grounded(t) && best in t && Displaced(t, finalized, leaves)
    ensures PrunedExactly(t, best, leaves, WalkAll(t, Path(t, best), finalized, leaves))
  {
    var canon := Path(t, best);
    forall b
      ensures b in WalkAll(t, canon, finalized, leaves) <==> b in leaves || (b !in canon && OnBranch(t, leaves, b))
    {
      WalkAllMembers(t, canon, finalized, leaves, b);
      forall i | 0 <= i < |leaves|
        ensures b in Walk(t, canon, finalized, leaves[i]) <==> b in Path(t, leaves[i]) && (b == leaves[i] || b !in canon)
      {
        LeafWalkMeans(t, best, finalized, leaves[i], b);
      }
    }
  }

  /** A canonical block is pruned exactly when it is the best block and finality above it displaced it as a leaf. */
  lemma CanonicalPrunedExactly(t: Tree, best: Hash, finalized: nat, leaves: seq<Hash>, b: Hash)
    requires Grounded(t) && best in t && Displaced(t, finalized, leaves) && b in Path(t, best)
    ensures b in WalkAll(t, Path(t, best), finalized, leaves) <==> b == best && best in leaves
    ensures finalized <= t[best].number ==> best !in leaves
  {
    DisplacedPrunedExactly(t, best, finalized, leaves);
    if b in leaves && b != best {
      DisplacedLeafIsOffChain(t, best, t[b].number + 1, b);
    }
  }

  // ---- a block imported as final ----

  /**
    A block imported as final displaces leaves before it is in the tree, the leaf set or the index. Of the
    chain it finalizes, its parent is pruned if that was a leaf, and with any other displaced leaf what
    is not yet canonical below it.
   */
  lemma FinalImportPrunes(t: Tree, best: Hash, parent: Hash, leaves: seq<Hash>, b: Hash)
    requires Grounded(t) && best in t && parent in t && b in Path(t, parent)
    requires Displaced(t, t[parent].number + 1, leaves)
    ensures b in WalkAll(t, Path(t, best), t[parent].number + 1, leaves) <==>
            (b == parent && parent in leaves) || (b !in Path(t, best) && OnBranch(t, leaves, b))
  {
    DisplacedPrunedExactly(t, best, t[parent].number + 1, leaves);
    if b in leaves && b != parent {
      DisplacedLeafIsOffChain(t, parent, t[b].number + 1, b);
    }
  }

  /** On top of the canonical chain it keeps all of that chain exactly when the parent was not a leaf. */
  lemma FinalImportKeepsChain(t: Tree, best: Hash, parent: Hash, leaves: seq<Hash>)
    requires Grounded(t) && best in t && parent in Path(t, best) && Displaced(t, t[parent].number + 1, leaves)
    ensures
      (forall b :: b in Path(t, parent) ==> b !in WalkAll(t, Path(t, best), t[parent].number + 1, leaves)) <==>
        parent !in leaves
  {
    forall b | b in Path(t, parent)
      ensures b in WalkAll(t, Path(t, best), t[parent].number + 1, leaves) <==> b == parent && parent in leaves
    {
      AncestorOnPath(t, best, parent, b);
      FinalImportPrunes(t, best, parent, leaves, b);
    }
    assert parent in Path(t, parent);
  }

  /** On a chain of two blocks, a third imported as final has the second one's body deleted. */
  lemma FinalImportPrunesParent(first: Hash, second: Hash)
    requires first != DEFAULT && second != DEFAULT && first != second
    ensures
      var t: Tree := map[first := Header(0, DEFAULT), second := Header(1, first)];
      Grounded(t) && Displaced(t, 2, [second]) && second in WalkAll(t, Path(t, second), 2, [second])
  {
    var t: Tree := map[first := Header(0, DEFAULT), second := Header(1, first)];
    assert second in Path(t, second);
    FinalImportPrunes(t, second, second, [second], second);
  }

  // ---- as the code runs it ----

  method PruneBranch(t: Tree, canon: seq<Hash>, finalized: nat, leaf: Hash, pruned: seq<Hash>)
      returns (all: seq<Hash>)
    requires Grounded(t)
    ensures all == pruned + Walk(t, canon, finalized, leaf)
  {
    all := pruned;
    var number, hash := finalized, leaf;
    while HashAt(canon, number) != Some(hash)
      invariant pruned + Walk(t, canon, finalized, leaf) == all + Walk(t, canon, number, hash)
      decreases Height(t, hash)
    {
      if hash !in t {
        break;
      }
      all := all + [hash];
      number, hash := Below(t[hash].number), t[hash].parent;
    }
  }

  lemma WalkAllNext(t: Tree, canon: seq<Hash>, finalized: nat, leaves: seq<Hash>, i: nat)
    requires Grounded(t) && i < |leaves|
    ensures WalkAll(t, canon, finalized, leaves[i..]) ==
            Walk(t, canon, finalized, leaves[i]) + WalkAll(t, canon, finalized, leaves[i + 1..])
  {
    assert leaves[i..][1..] == leaves[i + 1..];
  }

  lemma WalkAllPrunes(t: Tree, canon: seq<Hash>, finalized: nat, leaves: seq<Hash>)
    requires Grounded(t)
    ensures forall best | best in t && canon == Path(t, best) && Displaced(t, finalized, leaves) ::
              PrunedExactly(t, best, leaves, WalkAll(t, canon, finalized, leaves))
  {
    forall best | best in t && canon == Path(t, best) && Displaced(t, finalized, leaves)
      ensures PrunedExactly(t, best, leaves, WalkAll(t, canon, finalized, leaves))
    {
      DisplacedPrunedExactly(t, best, finalized, leaves);
    }
  }

  /** Every displaced leaf in turn; `pruned` lists the blocks whose data is deleted. */
  method PruneDisplacedBranches(t: Tree, canon: seq<Hash>, finalized: nat, leaves: seq<Hash>)
      returns (pruned: seq<Hash>)
    requires Grounded(t)
    ensures pruned == WalkAll(t, canon, finalized, leaves)
    ensures forall best | best in t && canon == Path(t, best) && Displaced(t, finalized, leaves) ::
              PrunedExactly(t, best, leaves, pruned)
  {
    WalkAllPrunes(t, canon, finalized, leaves);
    pruned := [];
    var i := 0;
    while i < |leaves|
      invariant i <= |leaves|
      invariant WalkAll(t, canon, finalized, leaves) == pruned + WalkAll(t, canon, finalized, leaves[i..])
    {
      WalkAllNext(t, canon, finalized, leaves, i);
      pruned := PruneBranch(t, canon, finalized, leaves[i], pruned);
      i := i + 1;
    }
  }
}
