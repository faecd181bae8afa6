/**
  The canonical index of the database: from block number to the block that the best chain has there.
  A head change follows the tree route from the old best block, and the index stays exactly the path
  from genesis to the new best block.
 */
module CanonicalIndex {
  import opened Common

  type Bytes = seq<Byte>

  /** Thirty-two bytes. */
  type Hash = h: Bytes | |h| == 32 witness [0, 0, 0, 0, 0, 0, 0, 0] + [0, 0, 0, 0, 0, 0, 0, 0] + [0, 0, 0, 0, 0, 0, 0, 0] + [0, 0, 0, 0, 0, 0, 0, 0]

  /** The hash a fresh database reports for its best and finalized blocks. */
  const DEFAULT: Hash := [0, 0, 0, 0, 0, 0, 0, 0] + [0, 0, 0, 0, 0, 0, 0, 0] + [0, 0, 0, 0, 0, 0, 0, 0] + [0, 0, 0, 0, 0, 0, 0, 0]

  datatype Error = SetHeadTooOld | NotInFinalizedChain | NumberTooLarge

  // ---- keys ----

  function BeBytes(n: nat, length: nat): (r: Bytes)
    ensures |r| == length
  {
    if length == 0 then [] else BeBytes(n / 256, length - 1) + [n % 256]
  }

  function BeValue(key: Bytes): nat {
    if key == [] then 0 else BeValue(key[..|key| - 1]) * 256 + key[|key| - 1] as int
  }

  function Limit(length: nat): nat {
    if length == 0 then 1 else 256 * Limit(length - 1)
  }

  lemma {:induction false} BeRoundTrip(n: nat, length: nat)
    requires n < Limit(length)
    ensures BeValue(BeBytes(n, length)) == n
  {
    if length > 0 {
      var key := BeBytes(n, length);
      assert key[..length - 1] == BeBytes(n / 256, length - 1) && key[length - 1] == n % 256;
      assert n == n / 256 * 256 + n % 256;
      BeRoundTrip(n / 256, length - 1);
    }
  }

  /** Four bytes, most significant first. */
  function NumberIndexKey(n: nat): (r: Result<Bytes, Error>)
    ensures r.Ok? <==> n < U32_LIMIT
    ensures r.Ok? ==> |r.value| == 4
  {
    if n < U32_LIMIT then Ok(BeBytes(n, 4)) else Err(NumberTooLarge)
  }

  /** A number has a key exactly below 2^32, of four bytes from which it can be read back. */
  lemma KeyRoundTrip(n: nat)
    ensures NumberIndexKey(n).Ok? <==> n < U32_LIMIT
    ensures n < U32_LIMIT ==> |NumberIndexKey(n).value| == 4 && BeValue(NumberIndexKey(n).value) == n
  {
    assert Limit(4) == 256 * (256 * (256 * (256 * Limit(0))));
    if n < U32_LIMIT {
      BeRoundTrip(n, 4);
    }
  }

  function LookupKey(n: nat, hash: Hash): (r: Result<Bytes, Error>)
    ensures r.Ok? <==> n < U32_LIMIT
  {
    var key := NumberIndexKey(n);
    if key.Ok? then Ok(key.value + hash) else Err(key.error)
  }

  /** A lookup key is the four bytes of the number, then the hash. */
  lemma LookupKeyExact(n: nat, hash: Hash)
    requires n < U32_LIMIT
    ensures
      var key := LookupKey(n, hash).value;
      |key| == 36 && BeValue(key[..4]) == n && key[4..] == hash
  {
    KeyRoundTrip(n);
    var key := LookupKey(n, hash).value;
    assert key[..4] == NumberIndexKey(n).value && key[4..] == hash;
  }

  // ---- the column and its changes ----

  /** The lookup column: number keys of four bytes beside hash keys of thirty-two. */
  type Column = map<Bytes, Bytes>

  function InsertNumber(c: Column, n: nat, hash: Hash): Result<Column, Error> {
    var key, value := NumberIndexKey(n), LookupKey(n, hash);
    if key.Ok? && value.Ok? then Ok(c[key.value := value.value]) else Err(NumberTooLarge)
  }

  function RemoveNumber(c: Column, n: nat): Result<Column, Error> {
    var key := NumberIndexKey(n);
    if key.Ok? then Ok(c - {key.value}) else Err(key.error)
  }

  datatype RouteBlock = RouteBlock(number: nat, hash: Hash)

  /** From the old block down to the common one, and from there up to the new block. */
  datatype TreeRoute = TreeRoute(retracted: seq<RouteBlock>, enacted: seq<RouteBlock>)

  function Retract(c: Column, blocks: seq<RouteBlock>, finalized: Hash): Result<Column, Error>
    decreases |blocks|
  {
    if blocks == [] then Ok(c)
    else if blocks[0].hash == finalized then Err(NotInFinalizedChain)
    else
      var next := RemoveNumber(c, blocks[0].number);
      if next.Ok? then Retract(next.value, blocks[1..], finalized) else next
  }

  function Enact(c: Column, blocks: seq<RouteBlock>): Result<Column, Error>
    decreases |blocks|
  {
    if blocks == [] then Ok(c)
    else
      var next := InsertNumber(c, blocks[0].number, blocks[0].hash);
      if next.Ok? then Enact(next.value, blocks[1..]) else next
  }

  // ---- changing the head ----

  datatype Header = Header(number: nat, parent: Hash)

  type Tree = map<Hash, Header>

  datatype Chain = Chain(
    tree: Tree, lookup: Column, best: Hash, bestNumber: nat, finalized: Hash, delay: nat)

  /** No route is asked for in an empty database, or below a block that is not there. */
  predicate Routed(c: Chain, routeTo: Hash) {
    c.best != DEFAULT && routeTo in c.tree
  }

  function Follow(c: Column, route: TreeRoute, finalized: Hash): Result<Column, Error> {
    var retracted := Retract(c, route.retracted, finalized);
    if retracted.Ok? then Enact(retracted.value, route.enacted) else retracted
  }

  function SetHead(c: Chain, routeTo: Hash, number: nat, hash: Hash, route: TreeRoute): Result<Column, Error> {
    if c.bestNumber > number && c.bestNumber - number > c.delay then Err(SetHeadTooOld)
    else
      var at := if Routed(c, routeTo) then Follow(c.lookup, route, c.finalized) else Ok(c.lookup);
      if at.Ok? then InsertNumber(at.value, number, hash) else at
  }

  // ---- paths ----

  ghost predicate TreeOk(t: Tree) {
    && DEFAULT !in t
    && (forall h :: h in t ==> t[h].number < U32_LIMIT)
    && (forall h :: h in t && t[h].number > 0 ==> t[h].parent in t && t[t[h].parent].number + 1 == t[h].number)
  }

  /** The blocks from number zero up to `h`. */
  ghost function Path(t: Tree, h: Hash): (p: seq<Hash>)
    requires TreeOk(t) && h in t
    ensures |p| == t[h].number + 1 && p[t[h].number] == h
    ensures forall i :: 0 <= i < |p| ==> p[i] in t && t[p[i]].number == i
    decreases t[h].number
  {
    if t[h].number == 0 then [h] else Path(t, t[h].parent) + [h]
  }

  /** What the index holds for a number. */
  ghost function Entry(c: Column, n: nat): Option<Bytes> {
    var key := NumberIndexKey(n);
    if key.Ok? && key.value in c then Some(c[key.value]) else None
  }

  ghost function Wanted(path: seq<Hash>, n: nat): Option<Bytes>
    requires |path| <= U32_LIMIT
  {
    if n < |path| then Some(LookupKey(n, path[n]).value) else None
  }

  /** The index is the path: these entries and no other. */
  ghost predicate IndexIs(c: Column, path: seq<Hash>)
    requires |path| <= U32_LIMIT
  {
    forall n: nat :: Entry(c, n) == Wanted(path, n)
  }

  /** The entries under hash keys. */
  ghost function Others(c: Column): Column {
    map k | k in c && |k| != 4 :: c[k]
  }

  ghost function Numbered(path: seq<Hash>, from: nat): seq<RouteBlock> {
    if path == [] then [] else [RouteBlock(from, path[0])] + Numbered(path[1..], from + 1)
  }

  ghost function Downward(path: seq<Hash>, from: nat): seq<RouteBlock> {
    if path == [] then []
    else [RouteBlock(from + |path| - 1, path[|path| - 1])] + Downward(path[..|path| - 1], from)
  }

  /** The contract of `tree_route`: down to the last common block, then up. */
  ghost predicate RouteOk(t: Tree, from: Hash, to: Hash, route: TreeRoute, common: nat)
    requires TreeOk(t) && from in t && to in t
  {
    var a, b := Path(t, from), Path(t, to);
    && common < |a| && common < |b|
    && a[..common + 1] == b[..common + 1]
    && (common + 1 < |a| && common + 1 < |b| ==> a[common + 1] != b[common + 1])
    && route.retracted == Downward(a[common + 1..], common + 1)
    && route.enacted == Numbered(b[common + 1..], common + 1)
  }

  // ---- one entry at a time ----

  lemma DifferentKeys(n: nat, m: nat)
    requires n < U32_LIMIT && m < U32_LIMIT && n != m
    ensures NumberIndexKey(n).value != NumberIndexKey(m).value
  {
    KeyRoundTrip(n);
    KeyRoundTrip(m);
  }

  lemma InsertedEntry(c: Column, m: nat, hash: Hash, n: nat)
    requires m < U32_LIMIT
    ensures
      var r := InsertNumber(c, m, hash);
      && r.Ok? && Others(r.value) == Others(c)
      && Entry(r.value, n) == if n == m then Some(LookupKey(m, hash).value) else Entry(c, n)
  {
    if n < U32_LIMIT && n != m {
      DifferentKeys(n, m);
    }
  }

  lemma RemovedEntry(c: Column, m: nat, n: nat)
    requires m < U32_LIMIT
    ensures
      var r := RemoveNumber(c, m);
      && r.Ok? && Others(r.value) == Others(c)
      && Entry(r.value, n) == if n == m then None else Entry(c, n)
  {
    if n < U32_LIMIT && n != m {
      DifferentKeys(n, m);
    }
  }

  lemma InsertNext(c: Column, path: seq<Hash>, hash: Hash)
    requires |path| < U32_LIMIT && IndexIs(c, path)
    ensures
      var r := InsertNumber(c, |path|, hash);
      r.Ok? && IndexIs(r.value, path + [hash]) && Others(r.value) == Others(c)
  {
    var c' := InsertNumber(c, |path|, hash).value;
    forall n: nat
      ensures Entry(c', n) == Wanted(path + [hash], n)
    {
      InsertedEntry(c, |path|, hash, n);
      assert Entry(c, n) == Wanted(path, n);
    }
    InsertedEntry(c, |path|, hash, 0);
  }

  lemma RemoveLast(c: Column, path: seq<Hash>)
    requires 0 < |path| <= U32_LIMIT && IndexIs(c, path)
    ensures
      var r := RemoveNumber(c, |path| - 1);
      r.Ok? && IndexIs(r.value, path[..|path| - 1]) && Others(r.value) == Others(c)
  {
    var c' := RemoveNumber(c, |path| - 1).value;
    forall n: nat
      ensures Entry(c', n) == Wanted(path[..|path| - 1], n)
    {
      RemovedEntry(c, |path| - 1, n);
      assert Entry(c, n) == Wanted(path, n);
    }
    RemovedEntry(c, |path| - 1, 0);
  }

  // ---- the route, both ways ----

  /** Retracting takes the entries above `keep` out again, unless the finalized block is among them. */
  lemma {:induction false} RetractMeans(c: Column, path: seq<Hash>, keep: nat, finalized: Hash)
    requires keep <= |path| <= U32_LIMIT && IndexIs(c, path)
    ensures
      var r := Retract(c, Downward(path[keep..], keep), finalized);
      if finalized in path[keep..] then r == Err(NotInFinalizedChain)
      else r.Ok? && IndexIs(r.value, path[..keep]) && Others(r.value) == Others(c)
    decreases |path|
  {
    var blocks := Downward(path[keep..], keep);
    if keep == |path| {
      assert path[..keep] == path;
    } else {
      var last := |path| - 1;
      var segment, shorter := path[keep..], path[..last];
      assert segment == shorter[keep..] + [path[last]];
      assert segment[..|segment| - 1] == shorter[keep..];
      assert blocks[1..] == Downward(shorter[keep..], keep);
      if path[last] != finalized {
        RemoveLast(c, path);
        RetractMeans(RemoveNumber(c, last).value, shorter, keep, finalized);
        assert shorter[..keep] == path[..keep];
      }
    }
  }

  lemma {:induction false} EnactMeans(c: Column, path: seq<Hash>, more: seq<Hash>)
    requires |path| + |more| <= U32_LIMIT && IndexIs(c, path)
    ensures
      var r := Enact(c, Numbered(more, |path|));
      r.Ok? && IndexIs(r.value, path + more) && Others(r.value) == Others(c)
    decreases |more|
  {
    if more == [] {
      assert path + more == path;
    } else {
      InsertNext(c, path, more[0]);
      EnactOne(c, |path|, more);
      var longer := path + [more[0]];
      assert longer + more[1..] == path + more;
      EnactMeans(InsertNumber(c, |path|, more[0]).value, longer, more[1..]);
    }
  }

  lemma EnactOne(c: Column, from: nat, more: seq<Hash>)
    requires more != [] && InsertNumber(c, from, more[0]).Ok?
    ensures Enact(c, Numbered(more, from)) == Enact(InsertNumber(c, from, more[0]).value, Numbered(more[1..], from + 1))
  {
    assert Numbered(more, from)[1..] == Numbered(more[1..], from + 1);
  }

  lemma {:induction false} PathPrefix(t: Tree, h: Hash, i: nat)
    requires TreeOk(t) && h in t && i <= t[h].number
    ensures Path(t, h)[..i + 1] == Path(t, Path(t, h)[i])
    decreases t[h].number
  {
    var p := Path(t, h);
    if i == t[h].number {
      assert p[..i + 1] == p;
    } else {
      PathPrefix(t, t[h].parent, i);
      assert p[..i + 1] == Path(t, t[h].parent)[..i + 1];
    }
  }

  /** Two paths that share a block share everything below it. */
  lemma SharedBelow(t: Tree, from: Hash, to: Hash, i: nat, k: nat)
    requires TreeOk(t) && from in t && to in t && k <= i <= t[from].number && i <= t[to].number
    requires Path(t, from)[i] == Path(t, to)[i]
    ensures Path(t, from)[k] == Path(t, to)[k]
  {
    PathPrefix(t, from, i);
    PathPrefix(t, to, i);
    AgreeBelow(Path(t, from), Path(t, to), i, k);
  }

  /** The blocks a route retracts are the ones only the old path has. */
  lemma RetractedMeans(t: Tree, from: Hash, to: Hash, route: TreeRoute, common: nat, h: Hash)
    requires TreeOk(t) && from in t && to in t && RouteOk(t, from, to, route, common)
    ensures h in Path(t, from)[common + 1..] <==> h in Path(t, from) && h !in Path(t, to)
  {
    var a, b := Path(t, from), Path(t, to);
    if h in b {
      var i :| 0 <= i < |b| && b[i] == h;
      if i < |a| && a[i] == h && common < i {
        SharedBelow(t, from, to, i, common + 1);
      }
    } else if h in a {
      var i :| 0 <= i < |a| && a[i] == h;
      AgreeBelow(a, b, common, if i <= common then i else common);
    }
  }

  lemma AgreeBelow(a: seq<Hash>, b: seq<Hash>, i: nat, k: nat)
    requires k <= i < |a| && i < |b| && a[..i + 1] == b[..i + 1]
    ensures a[k] == b[k]
  {
    assert a[..i + 1][k] == b[..i + 1][k];
  }

  lemma FollowPaths(c: Column, a: seq<Hash>, b: seq<Hash>, keep: nat, finalized: Hash)
    requires keep <= |a| <= U32_LIMIT && keep <= |b| <= U32_LIMIT && a[..keep] == b[..keep] && IndexIs(c, a)
    ensures
      var r := Follow(c, TreeRoute(Downward(a[keep..], keep), Numbered(b[keep..], keep)), finalized);
      if finalized in a[keep..] then r == Err(NotInFinalizedChain)
      else r.Ok? && IndexIs(r.value, b) && Others(r.value) == Others(c)
  {
    RetractMeans(c, a, keep, finalized);
    if finalized !in a[keep..] {
      var mid := Retract(c, Downward(a[keep..], keep), finalized).value;
      EnactMeans(mid, b[..keep], b[keep..]);
      assert b[..keep] + b[keep..] == b;
    }
  }

  /** Along a route the index follows from one path to the other. */
  lemma FollowRoute(c: Column, t: Tree, from: Hash, to: Hash, route: TreeRoute, common: nat, finalized: Hash)
    requires TreeOk(t) && from in t && to in t && RouteOk(t, from, to, route, common)
    requires IndexIs(c, Path(t, from))
    ensures
      var r := Follow(c, route, finalized);
      if finalized in Path(t, from) && finalized !in Path(t, to) then r == Err(NotInFinalizedChain)
      else r.Ok? && IndexIs(r.value, Path(t, to)) && Others(r.value) == Others(c)
  {
    RetractedMeans(t, from, to, route, common, finalized);
    FollowPaths(c, Path(t, from), Path(t, to), common + 1, finalized);
  }

  // ---- head changes ----

  ghost predicate ChainOk(c: Chain) {
    && TreeOk(c.tree)
    && (c.best == DEFAULT ==> IndexIs(c.lookup, []) && c.bestNumber == 0 && c.finalized == DEFAULT)
    && (c.best != DEFAULT ==>
          && c.best in c.tree && c.bestNumber == c.tree[c.best].number
          && IndexIs(c.lookup, Path(c.tree, c.best)))
    && (c.finalized != DEFAULT ==> c.finalized in Path(c.tree, c.best))
  }

  /**
    A known block by itself, or an import routed to the parent: of a known block once more, of a new
    block on top of a known one, or of a first block.
   */
  ghost predicate Attached(c: Chain, routeTo: Hash, number: nat, hash: Hash) {
    if hash in c.tree then
      && number == c.tree[hash].number
      && (hash == routeTo || (routeTo == c.tree[hash].parent && (number == 0 ==> routeTo !in c.tree)))
    else
      number == if routeTo in c.tree then c.tree[routeTo].number + 1 else 0
  }

  ghost function NewPath(c: Chain, routeTo: Hash, number: nat, hash: Hash): (p: seq<Hash>)
    requires TreeOk(c.tree) && Attached(c, routeTo, number, hash)
    ensures |p| == number + 1 && p[number] == hash
  {
    if hash == routeTo && hash in c.tree then Path(c.tree, hash)
    else if number == 0 then [hash]
    else Path(c.tree, routeTo) + [hash]
  }

  /** A known head's path is the one in the tree. */
  lemma NewPathIsPath(c: Chain, routeTo: Hash, number: nat, hash: Hash)
    requires TreeOk(c.tree) && Attached(c, routeTo, number, hash) && hash in c.tree
    ensures NewPath(c, routeTo, number, hash) == Path(c.tree, hash)
  {
  }

  /** The path the index has before the head itself is entered. */
  ghost function Base(c: Chain, routeTo: Hash): (p: seq<Hash>)
    requires ChainOk(c)
    ensures |p| <= U32_LIMIT
  {
    if Routed(c, routeTo) then Path(c.tree, routeTo) else if c.best == DEFAULT then [] else Path(c.tree, c.best)
  }

  /** The walk leaves the finalized block behind. */
  ghost predicate Reverts(c: Chain, routeTo: Hash)
    requires ChainOk(c)
  {
    Routed(c, routeTo) && c.finalized != DEFAULT && c.finalized !in Path(c.tree, routeTo)
  }

  ghost predicate Entered(before: Column, after: Column, base: seq<Hash>, number: nat, hash: Hash)
    requires |base| <= U32_LIMIT && number < U32_LIMIT
  {
    && Others(after) == Others(before)
    && forall n: nat :: Entry(after, n) == if n == number then Some(LookupKey(number, hash).value) else Wanted(base, n)
  }

  lemma EnterHead(c: Column, base: seq<Hash>, number: nat, hash: Hash)
    requires |base| <= U32_LIMIT && IndexIs(c, base) && number < U32_LIMIT
    ensures InsertNumber(c, number, hash).Ok? && Entered(c, InsertNumber(c, number, hash).value, base, number, hash)
  {
    var c' := InsertNumber(c, number, hash).value;
    forall n: nat
      ensures Entry(c', n) == if n == number then Some(LookupKey(number, hash).value) else Wanted(base, n)
    {
      InsertedEntry(c, number, hash, n);
      assert Entry(c, n) == Wanted(base, n);
    }
    InsertedEntry(c, number, hash, 0);
  }

  /** Every head change, whatever it is called with: its error, or every entry afterwards. */
  lemma SetHeadEntries(c: Chain, routeTo: Hash, number: nat, hash: Hash, route: TreeRoute, common: nat)
    requires ChainOk(c) && (Routed(c, routeTo) ==> RouteOk(c.tree, c.best, routeTo, route, common))
    ensures
      var r := SetHead(c, routeTo, number, hash, route);
      if c.bestNumber > number + c.delay then r == Err(SetHeadTooOld)
      else if Reverts(c, routeTo) then r == Err(NotInFinalizedChain)
      else if number >= U32_LIMIT then r == Err(NumberTooLarge)
      else r.Ok? && Entered(c.lookup, r.value, Base(c, routeTo), number, hash)
  {
    if Routed(c, routeTo) {
      FollowRoute(c.lookup, c.tree, c.best, routeTo, route, common, c.finalized);
      var at := Follow(c.lookup, route, c.finalized);
      if at.Ok? && number < U32_LIMIT {
        EnterHead(at.value, Base(c, routeTo), number, hash);
      }
    } else if number < U32_LIMIT {
      EnterHead(c.lookup, Base(c, routeTo), number, hash);
    }
  }

  lemma LookupKeysDiffer(n: nat, a: Hash, b: Hash)
    requires n < U32_LIMIT && LookupKey(n, a) == LookupKey(n, b)
    ensures a == b
  {
    LookupKeyExact(n, a);
    LookupKeyExact(n, b);
  }

  lemma PathIsBase(before: Column, after: Column, base: seq<Hash>, path: seq<Hash>, number: nat, hash: Hash, n: nat)
    requires |base| <= U32_LIMIT && number < U32_LIMIT && Entered(before, after, base, number, hash)
    requires |path| == number + 1 && IndexIs(after, path) && n < number
    ensures n < |base| && base[n] == path[n]
  {
    assert Entry(after, n) == Wanted(path, n) == Wanted(base, n);
    LookupKeysDiffer(n, base[n], path[n]);
  }

  /** The entries are a path to the head exactly when the base reaches up to it, and no further. */
  lemma EnteredIsPath(before: Column, after: Column, base: seq<Hash>, path: seq<Hash>, number: nat, hash: Hash)
    requires |base| <= U32_LIMIT && number < U32_LIMIT && Entered(before, after, base, number, hash)
    requires |path| == number + 1 && path[number] == hash
    ensures IndexIs(after, path) <==> number <= |base| <= number + 1 && base[..number] == path[..number]
  {
    if IndexIs(after, path) {
      forall n: nat | n < number
        ensures n < |base| && base[n] == path[n]
      {
        PathIsBase(before, after, base, path, number, hash, n);
      }
      if number > 0 {
        PathIsBase(before, after, base, path, number, hash, number - 1);
      }
      assert Entry(after, number + 1) == Wanted(path, number + 1) == Wanted(base, number + 1);
    } else if number <= |base| <= number + 1 && base[..number] == path[..number] {
      forall n: nat
        ensures Entry(after, n) == Wanted(path, n)
      {
        assert n < number ==> base[..number][n] == path[..number][n];
      }
    }
  }

  lemma BaseFits(c: Chain, routeTo: Hash, number: nat, hash: Hash)
    requires ChainOk(c) && Attached(c, routeTo, number, hash)
    ensures
      var base, path := Base(c, routeTo), NewPath(c, routeTo, number, hash);
      number <= |base| <= number + 1 && base[..number] == path[..number] <==>
        Routed(c, routeTo) || (number == 0 && c.bestNumber == 0)
  {
    var base, path := Base(c, routeTo), NewPath(c, routeTo, number, hash);
    if Routed(c, routeTo) {
      assert base[..number] == path[..number];
    } else if number == 0 {
      assert base[..0] == path[..0];
    }
  }

  /**
    A head change succeeds exactly when it is not too old, its route does not leave the finalized block
    behind, and the number has a key. Then the index is the path to the new head exactly when a route
    was walked, or the head is a first block and nothing was above it.
   */
  lemma SetHeadExact(c: Chain, routeTo: Hash, number: nat, hash: Hash, route: TreeRoute, common: nat)
    requires ChainOk(c) && Attached(c, routeTo, number, hash)
    requires Routed(c, routeTo) ==> RouteOk(c.tree, c.best, routeTo, route, common)
    ensures
      var r := SetHead(c, routeTo, number, hash, route);
      if c.bestNumber > number + c.delay then r == Err(SetHeadTooOld)
      else if Reverts(c, routeTo) then r == Err(NotInFinalizedChain)
      else if number >= U32_LIMIT then r == Err(NumberTooLarge)
      else
        && r.Ok? && Others(r.value) == Others(c.lookup)
        && (IndexIs(r.value, NewPath(c, routeTo, number, hash)) <==>
            Routed(c, routeTo) || (number == 0 && c.bestNumber == 0))
  {
    SetHeadEntries(c, routeTo, number, hash, route, common);
    var r := SetHead(c, routeTo, number, hash, route);
    if r.Ok? {
      BaseFits(c, routeTo, number, hash);
      EnteredIsPath(c.lookup, r.value, Base(c, routeTo), NewPath(c, routeTo, number, hash), number, hash);
    }
  }

  /**
    The route leaves the finalized block behind exactly when the new path does, or when the head is the
    finalized block, imported again.
   */
  lemma RevertsExactly(c: Chain, routeTo: Hash, number: nat, hash: Hash)
    requires ChainOk(c) && Attached(c, routeTo, number, hash) && Routed(c, routeTo) && c.finalized != DEFAULT
    ensures Reverts(c, routeTo) <==>
            c.finalized !in NewPath(c, routeTo, number, hash) || (c.finalized == hash && routeTo != hash)
  {
    var path := NewPath(c, routeTo, number, hash);
    if routeTo != hash {
      assert path == Path(c.tree, routeTo) + [hash];
    }
  }
}
