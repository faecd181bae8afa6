/**
  The head change as the database performs it: it appends to a transaction while walking the route,
  and the transaction, once committed, has the effect of the model's head change.
 */
module CanonicalBackend {
  import opened Common
  import opened CanonicalIndex

  datatype Change = Set(key: Bytes, value: Bytes) | Remove(key: Bytes)

  ghost function Committed(c: Column, changes: seq<Change>): Column
    decreases |changes|
  {
    if changes == [] then c
    else
      var before := Committed(c, changes[..|changes| - 1]);
      match changes[|changes| - 1]
      case Set(key, value) => before[key := value]
      case Remove(key) => before - {key}
  }

  /** What was asked of the lookup column, in order. */
  class Transaction {
    var changes: seq<Change>

    constructor ()
      ensures changes == []
    {
      changes := [];
    }

    method Append(change: Change)
      modifies this
      ensures changes == old(changes) + [change]
      ensures forall c: Column :: Committed(c, changes) ==
                match change
                case Set(key, value) => Committed(c, old(changes))[key := value]
                case Remove(key) => Committed(c, old(changes)) - {key}
    {
      ghost var before := changes;
      changes := changes + [change];
      assert changes[..|changes| - 1] == before;
    }
  }

  /** The two mapping helpers, or the error of a number that has no key. */
  method InsertNumberToKeyMapping(tx: Transaction, number: nat, hash: Hash, ghost c: Column)
      returns (failure: Option<Error>)
    modifies tx
    ensures failure.None? ==>
              InsertNumber(Committed(c, old(tx.changes)), number, hash) == Ok(Committed(c, tx.changes))
    ensures failure.Some? ==> InsertNumber(Committed(c, old(tx.changes)), number, hash) == Err(failure.value)
  {
    var key, value := NumberIndexKey(number), LookupKey(number, hash);
    if key.Err? {
      return Some(key.error);
    }
    tx.Append(Set(key.value, value.value));
    return None;
  }

  method RemoveNumberToKeyMapping(tx: Transaction, number: nat, ghost c: Column) returns (failure: Option<Error>)
    modifies tx
    ensures failure.None? ==> RemoveNumber(Committed(c, old(tx.changes)), number) == Ok(Committed(c, tx.changes))
    ensures failure.Some? ==> RemoveNumber(Committed(c, old(tx.changes)), number) == Err(failure.value)
  {
    var key := NumberIndexKey(number);
    if key.Err? {
      return Some(key.error);
    }
    tx.Append(Remove(key.value));
    return None;
  }

  method RetractRoute(tx: Transaction, blocks: seq<RouteBlock>, finalized: Hash, ghost c: Column)
      returns (retracted: seq<Hash>, failure: Option<Error>)
    modifies tx
    ensures failure.None? ==>
              && Retract(Committed(c, old(tx.changes)), blocks, finalized) == Ok(Committed(c, tx.changes))
              && |retracted| == |blocks| && forall i :: 0 <= i < |blocks| ==> retracted[i] == blocks[i].hash
    ensures failure.Some? ==> Retract(Committed(c, old(tx.changes)), blocks, finalized) == Err(failure.value)
  {
    retracted, failure := [], None;
    ghost var start := Committed(c, tx.changes);
    var i := 0;
    while i < |blocks|
      invariant i <= |blocks| && failure.None?
      invariant Retract(start, blocks, finalized) == Retract(Committed(c, tx.changes), blocks[i..], finalized)
      invariant |retracted| == i && forall j :: 0 <= j < i ==> retracted[j] == blocks[j].hash
    {
      assert blocks[i..][1..] == blocks[i + 1..];
      if blocks[i].hash == finalized {
        return retracted, Some(NotInFinalizedChain);
      }
      retracted := retracted + [blocks[i].hash];
      failure := RemoveNumberToKeyMapping(tx, blocks[i].number, c);
      if failure.Some? {
        return;
      }
      i := i + 1;
    }
  }

  method EnactRoute(tx: Transaction, blocks: seq<RouteBlock>, ghost c: Column)
      returns (enacted: seq<Hash>, failure: Option<Error>)
    modifies tx
    ensures failure.None? ==>
              && Enact(Committed(c, old(tx.changes)), blocks) == Ok(Committed(c, tx.changes))
              && |enacted| == |blocks| && forall i :: 0 <= i < |blocks| ==> enacted[i] == blocks[i].hash
    ensures failure.Some? ==> Enact(Committed(c, old(tx.changes)), blocks) == Err(failure.value)
  {
    enacted, failure := [], None;
    ghost var start := Committed(c, tx.changes);
    var i := 0;
    while i < |blocks|
      invariant i <= |blocks| && failure.None?
      invariant Enact(start, blocks) == Enact(Committed(c, tx.changes), blocks[i..])
      invariant |enacted| == i && forall j :: 0 <= j < i ==> enacted[j] == blocks[j].hash
    {
      assert blocks[i..][1..] == blocks[i + 1..];
      enacted := enacted + [blocks[i].hash];
      failure := InsertNumberToKeyMapping(tx, blocks[i].number, blocks[i].hash, c);
      if failure.Some? {
        return;
      }
      i := i + 1;
    }
  }

  /** Committing the filled transaction to the column gives the model's head change, error for error. */
  method SetHeadWithTransaction(
      c: Chain, tx: Transaction, routeTo: Hash, number: nat, hash: Hash, route: TreeRoute)
      returns (enacted: seq<Hash>, retracted: seq<Hash>, failure: Option<Error>)
    requires Committed(c.lookup, tx.changes) == c.lookup
    modifies tx
    ensures failure.None? ==> SetHead(c, routeTo, number, hash, route) == Ok(Committed(c.lookup, tx.changes))
    ensures failure.Some? ==> SetHead(c, routeTo, number, hash, route) == Err(failure.value)
    ensures failure.None? && Routed(c, routeTo) ==>
              && |retracted| == |route.retracted| && |enacted| == |route.enacted|
              && (forall i :: 0 <= i < |retracted| ==> retracted[i] == route.retracted[i].hash)
              && (forall i :: 0 <= i < |enacted| ==> enacted[i] == route.enacted[i].hash)
  {
    enacted, retracted := [], [];
    if c.bestNumber > number && c.bestNumber - number > c.delay {
      return enacted, retracted, Some(SetHeadTooOld);
    }
    if c.best != DEFAULT && routeTo in c.tree {
      retracted, failure := RetractRoute(tx, route.retracted, c.finalized, c.lookup);
      if failure.Some? {
        return;
      }
      enacted, failure := EnactRoute(tx, route.enacted, c.lookup);
      if failure.Some? {
        return;
      }
    }
    failure := InsertNumberToKeyMapping(tx, number, hash, c.lookup);
  }
}
