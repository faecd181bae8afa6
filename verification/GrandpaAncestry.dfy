/**
  Ancestry proofs of GRANDPA justifications: a producer collects the headers between each precommit's
  target and the lowest one, and a verifier demands exactly those headers.
 */
module GrandpaAncestry {
  import opened Common

  type Hash = nat

  datatype Header = Header(hash: Hash, number: nat, parent: Hash)

  datatype Precommit = Precommit(target: Hash, number: nat)

  type Headers = map<Hash, Header>

  /** Each header under its own hash. */
  ghost predicate Keyed(m: Headers) {
    forall h :: h in m ==> m[h].hash == h
  }

  /** Following parents goes down in `rank`: headers do not hash in a circle. */
  ghost predicate Ranked(m: Headers, rank: Hash -> nat) {
    forall h :: h in m ==> rank(m[h].parent) < rank(h)
  }

  /** A tree in which each parent is one number lower is ranked by number. */
  lemma TreeIsRanked(m: Headers)
    requires forall h :: h in m && m[h].parent in m ==> m[m[h].parent].number + 1 == m[h].number
    ensures Ranked(m, h => if h in m then m[h].number + 1 else 0)
  {
  }

  // ---- the base ----

  /** The first of the precommits with the lowest number. */
  ghost predicate IsBase(ps: seq<Precommit>, i: nat) {
    && i < |ps|
    && (forall j :: 0 <= j < |ps| ==> ps[i].number <= ps[j].number)
    && (forall j :: 0 <= j < i ==> ps[i].number < ps[j].number)
  }

  lemma BaseIsUnique(ps: seq<Precommit>, i: nat, j: nat)
    requires IsBase(ps, i) && IsBase(ps, j)
    ensures i == j
  {
    assert ps[i].number == ps[j].number;
  }

  method MinByNumber(ps: seq<Precommit>) returns (base: Option<nat>)
    ensures base.None? <==> ps == []
    ensures base.Some? ==> IsBase(ps, base.value)
  {
    if ps == [] {
      return None;
    }
    var least, i := 0, 1;
    while i < |ps|
      invariant least < i <= |ps| && IsBase(ps[..i], least)
    {
      if ps[i].number < ps[least].number {
        least := i;
      }
      i := i + 1;
    }
    assert ps[..i] == ps;
    return Some(least);
  }

  // ---- routes ----

  /** From `h` down to `base`, which is left out; `None` if a header is missing on the way. */
  ghost function Route(m: Headers, base: Hash, h: Hash, rank: Hash -> nat): Option<seq<Hash>>
    requires Ranked(m, rank)
    decreases rank(h)
  {
    if h == base then Some([])
    else if h !in m then None
    else match Route(m, base, m[h].parent, rank)
      case None => None
      case Some(rest) => Some([h] + rest)
  }

  /** The same, giving up at a header that is not above `floor`. */
  ghost function RouteAbove(m: Headers, base: Hash, floor: nat, h: Hash, rank: Hash -> nat): Option<seq<Hash>>
    requires Ranked(m, rank)
    decreases rank(h)
  {
    if h == base then Some([])
    else if h !in m || m[h].number <= floor then None
    else match RouteAbove(m, base, floor, m[h].parent, rank)
      case None => None
      case Some(rest) => Some([h] + rest)
  }

  /** Giving up costs exactly the routes that pass a header not above the floor. */
  lemma {:induction false} RouteAboveExact(m: Headers, base: Hash, floor: nat, h: Hash, rank: Hash -> nat)
    requires Ranked(m, rank)
    ensures RouteAbove(m, base, floor, h, rank).Some? <==>
            && Route(m, base, h, rank).Some?
            && forall x :: x in Route(m, base, h, rank).value ==> x in m && m[x].number > floor
    decreases rank(h)
  {
    if h != base && h in m {
      RouteAboveExact(m, base, floor, m[h].parent, rank);
      if Route(m, base, m[h].parent, rank).Some? {
        var rest := Route(m, base, m[h].parent, rank).value;
        assert forall x :: x in [h] + rest <==> x == h || x in rest;
        RouteIsKnown(m, base, m[h].parent, rank);
      }
    }
  }

  lemma {:induction false} RouteIsKnown(m: Headers, base: Hash, h: Hash, rank: Hash -> nat)
    requires Ranked(m, rank) && Route(m, base, h, rank).Some?
    ensures forall x :: x in Route(m, base, h, rank).value ==> x in m
    decreases rank(h)
  {
    if h != base {
      RouteIsKnown(m, base, m[h].parent, rank);
    }
  }

  lemma {:induction false} RouteAboveIsRoute(m: Headers, base: Hash, floor: nat, h: Hash, rank: Hash -> nat)
    requires Ranked(m, rank) && RouteAbove(m, base, floor, h, rank).Some?
    ensures Route(m, base, h, rank) == RouteAbove(m, base, floor, h, rank)
    ensures forall x :: x in Route(m, base, h, rank).value ==> x in m
    decreases rank(h)
  {
    if h != base {
      RouteAboveIsRoute(m, base, floor, m[h].parent, rank);
    }
  }

  /** In a tree with the base at its own number the extra check never stops a walk that would arrive. */
  lemma {:induction false} FloorNeverStops(m: Headers, base: Hash, h: Hash, rank: Hash -> nat)
    requires Ranked(m, rank) && base in m && Route(m, base, h, rank).Some?
    requires forall x :: x in m && m[x].parent in m ==> m[m[x].parent].number + 1 == m[x].number
    ensures RouteAbove(m, base, m[base].number, h, rank) == Route(m, base, h, rank)
    ensures h in m && m[h].number == m[base].number + |Route(m, base, h, rank).value|
    decreases rank(h)
  {
    if h != base {
      FloorNeverStops(m, base, m[h].parent, rank);
    }
  }

  /** A route depends on the headers along it only. */
  lemma {:induction false} RouteFrame(m: Headers, m': Headers, base: Hash, h: Hash, rank: Hash -> nat)
    requires Ranked(m, rank) && Ranked(m', rank) && Route(m, base, h, rank).Some?
    requires forall x :: x in Route(m, base, h, rank).value ==> x in m' && x in m && m'[x] == m[x]
    ensures Route(m', base, h, rank) == Route(m, base, h, rank)
    decreases rank(h)
  {
    if h != base {
      var route := Route(m, base, h, rank).value;
      assert route == [h] + Route(m, base, m[h].parent, rank).value;
      assert h in route;
      RouteFrame(m, m', base, m[h].parent, rank);
    }
  }

  // ---- all precommits ----

  ghost predicate AllRouted(m: Headers, base: Hash, ps: seq<Precommit>, rank: Hash -> nat)
    requires Ranked(m, rank)
  {
    forall i :: 0 <= i < |ps| ==> Route(m, base, ps[i].target, rank).Some?
  }

  ghost predicate AllRoutedAbove(m: Headers, base: Precommit, ps: seq<Precommit>, rank: Hash -> nat)
    requires Ranked(m, rank)
  {
    forall i :: 0 <= i < |ps| ==> RouteAbove(m, base.target, base.number, ps[i].target, rank).Some?
  }

  /** Some precommit's route passes `h`. */
  ghost predicate OnRoute(m: Headers, base: Hash, ps: seq<Precommit>, rank: Hash -> nat, h: Hash)
    requires Ranked(m, rank)
  {
    exists i :: 0 <= i < |ps| && h in RouteOr(m, base, ps[i].target, rank)
  }

  ghost function RouteOr(m: Headers, base: Hash, h: Hash, rank: Hash -> nat): seq<Hash>
    requires Ranked(m, rank)
  {
    match Route(m, base, h, rank)
    case Some(route) => route
    case None => []
  }

  ghost predicate Distinct(headers: seq<Header>) {
    forall i, j :: 0 <= i < j < |headers| ==> headers[i].hash != headers[j].hash
  }

  /** The headers' hashes are exactly the hashes on the routes. */
  ghost predicate Exact(m: Headers, base: Hash, ps: seq<Precommit>, rank: Hash -> nat, hashes: set<Hash>)
    requires Ranked(m, rank)
  {
    forall h :: h in hashes <==> OnRoute(m, base, ps, rank, h)
  }

  // ---- header lists ----

  function HashesOf(headers: seq<Header>): set<Hash> {
    set i | 0 <= i < |headers| :: headers[i].hash
  }

  /** The headers by hash, as the verifier looks them up; a later one wins. */
  function ChainOf(headers: seq<Header>): Headers {
    if headers == [] then map[]
    else
      var last := |headers| - 1;
      ChainOf(headers[..last])[headers[last].hash := headers[last]]
  }

  /** Headers the client knows. */
  ghost predicate Known(client: Headers, headers: seq<Header>) {
    forall i :: 0 <= i < |headers| ==> headers[i].hash in client && client[headers[i].hash] == headers[i]
  }

  lemma {:induction false} ChainMeans(client: Headers, headers: seq<Header>)
    requires Known(client, headers)
    ensures ChainOf(headers).Keys == HashesOf(headers)
    ensures forall h :: h in ChainOf(headers) ==> h in client && ChainOf(headers)[h] == client[h]
    decreases |headers|
  {
    if headers != [] {
      var last := |headers| - 1;
      ChainMeans(client, headers[..last]);
      assert HashesOf(headers) == HashesOf(headers[..last]) + {headers[last].hash};
    }
  }

  // ---- what the verifier accepts ----

  /** Every precommit routes through the given headers, and none of them is missing or unused. */
  ghost predicate Accepts(headers: seq<Header>, base: Hash, ps: seq<Precommit>, rank: Hash -> nat)
    requires Ranked(ChainOf(headers), rank)
  {
    var m := ChainOf(headers);
    AllRouted(m, base, ps, rank) && Exact(m, base, ps, rank, HashesOf(headers))
  }

  lemma SameRoutes(m: Headers, m': Headers, base: Hash, ps: seq<Precommit>, rank: Hash -> nat)
    requires Ranked(m, rank) && Ranked(m', rank) && AllRouted(m, base, ps, rank)
    requires forall h :: OnRoute(m, base, ps, rank, h) ==> h in m && h in m' && m[h] == m'[h]
    ensures AllRouted(m', base, ps, rank)
    ensures forall h :: OnRoute(m, base, ps, rank, h) <==> OnRoute(m', base, ps, rank, h)
  {
    forall i | 0 <= i < |ps|
      ensures Route(m', base, ps[i].target, rank) == Route(m, base, ps[i].target, rank)
    {
      assert forall h :: h in RouteOr(m, base, ps[i].target, rank) ==> OnRoute(m, base, ps, rank, h);
      RouteFrame(m, m', base, ps[i].target, rank);
    }
    forall h
      ensures OnRoute(m, base, ps, rank, h) <==> OnRoute(m', base, ps, rank, h)
    {
      assert forall i :: 0 <= i < |ps| ==> RouteOr(m', base, ps[i].target, rank) == RouteOr(m, base, ps[i].target, rank);
    }
  }

  lemma {:induction false} RouteWithin(m: Headers, base: Hash, h: Hash, rank: Hash -> nat)
    requires Ranked(m, rank)
    ensures forall x :: x in RouteOr(m, base, h, rank) ==> x in m
    decreases rank(h)
  {
    if h != base && h in m {
      RouteWithin(m, base, m[h].parent, rank);
    }
  }

  /**
    Of the lists of known headers, the verifier accepts exactly those whose hashes are the ones on the
    precommits' routes through the client's own chain.
   */
  lemma AcceptsExactly(client: Headers, headers: seq<Header>, base: Hash, ps: seq<Precommit>, rank: Hash -> nat)
    requires Ranked(client, rank) && Known(client, headers)
    ensures Ranked(ChainOf(headers), rank)
    ensures Accepts(headers, base, ps, rank) <==>
            AllRouted(client, base, ps, rank) && Exact(client, base, ps, rank, HashesOf(headers))
  {
    var m := ChainOf(headers);
    ChainMeans(client, headers);
    forall h | OnRoute(m, base, ps, rank, h)
      ensures h in m
    {
      var i :| 0 <= i < |ps| && h in RouteOr(m, base, ps[i].target, rank);
      RouteWithin(m, base, ps[i].target, rank);
    }
    if AllRouted(m, base, ps, rank) {
      SameRoutes(m, client, base, ps, rank);
    }
    if AllRouted(client, base, ps, rank) && Exact(client, base, ps, rank, HashesOf(headers)) {
      SameRoutes(client, m, base, ps, rank);
    }
  }

  /** Hashes are compared as sets, so a header given twice makes no difference. */
  lemma RepeatedHeaderPasses(
      client: Headers, headers: seq<Header>, i: nat, base: Hash, ps: seq<Precommit>, rank: Hash -> nat)
    requires Ranked(client, rank) && Known(client, headers) && i < |headers|
    ensures
      var repeated := headers + [headers[i]];
      && Ranked(ChainOf(headers), rank) && Ranked(ChainOf(repeated), rank)
      && (Accepts(repeated, base, ps, rank) <==> Accepts(headers, base, ps, rank))
  {
    var repeated := headers + [headers[i]];
    assert HashesOf(repeated) == HashesOf(headers) by {
      assert forall k :: 0 <= k < |headers| ==> repeated[k] == headers[k];
      assert headers[i].hash in HashesOf(headers);
    }
    AcceptsExactly(client, headers, base, ps, rank);
    AcceptsExactly(client, repeated, base, ps, rank);
  }

  // ---- the producer ----

  ghost predicate Collected(client: Headers, headers: seq<Header>, seen: set<Hash>) {
    Known(client, headers) && Distinct(headers) && HashesOf(headers) == seen
  }

  lemma CollectOne(client: Headers, headers: seq<Header>, seen: set<Hash>, header: Header)
    requires Collected(client, headers, seen) && header.hash !in seen
    requires header.hash in client && client[header.hash] == header
    ensures Collected(client, headers + [header], seen + {header.hash})
  {
    var more := headers + [header];
    assert HashesOf(more) == seen + {header.hash} by {
      assert more[|headers|] == header;
      assert forall i :: 0 <= i < |headers| ==> more[i] == headers[i];
    }
    assert forall i :: 0 <= i < |headers| ==> headers[i].hash in HashesOf(headers);
  }

  /** One precommit: back to the base, collecting each header once. */
  method WalkBack(
      client: Headers, base: Precommit, target: Hash, headers: seq<Header>, seen: set<Hash>, ghost rank: Hash -> nat)
      returns (r: Option<seq<Header>>, all: set<Hash>)
    requires Keyed(client) && Ranked(client, rank) && Collected(client, headers, seen)
    ensures r.Some? <==> RouteAbove(client, base.target, base.number, target, rank).Some?
    ensures r.Some? ==> Collected(client, r.value, all)
    ensures r.Some? ==>
              forall h :: h in all <==> h in seen || h in RouteAbove(client, base.target, base.number, target, rank).value
  {
    var collected, current := headers, target;
    all := seen;
    ghost var whole := RouteAbove(client, base.target, base.number, target, rank);
    while current != base.target
      invariant Collected(client, collected, all)
      invariant whole.Some? <==> RouteAbove(client, base.target, base.number, current, rank).Some?
      invariant whole.Some? ==> forall h :: h in seen || h in whole.value <==>
                  h in all || h in RouteAbove(client, base.target, base.number, current, rank).value
      decreases rank(current)
    {
      if current !in client {
        return None, all;
      }
      var header := client[current];
      if header.number <= base.number {
        return None, all;
      }
      if current !in all {
        CollectOne(client, collected, all, header);
        all := all + {current};
        collected := collected + [header];
      }
      current := header.parent;
    }
    return Some(collected), all;
  }

  method CollectAll(client: Headers, base: Precommit, ps: seq<Precommit>, ghost rank: Hash -> nat)
      returns (r: Option<seq<Header>>)
    requires Keyed(client) && Ranked(client, rank)
    ensures r.Some? <==> AllRoutedAbove(client, base, ps, rank)
    ensures r.Some? ==> Known(client, r.value) && Distinct(r.value)
    ensures r.Some? ==> forall h :: h in HashesOf(r.value) <==> OnRouteAbove(client, base, ps, rank, h)
  {
    var headers: seq<Header>, seen: set<Hash> := [], {};
    var i := 0;
    while i < |ps|
      invariant i <= |ps| && Collected(client, headers, seen)
      invariant AllRoutedAbove(client, base, ps[..i], rank)
      invariant forall h :: h in seen <==> OnRouteAbove(client, base, ps[..i], rank, h)
    {
      var collected, all := WalkBack(client, base, ps[i].target, headers, seen, rank);
      if collected.None? {
        return None;
      }
      OneMoreRoute(client, base, ps, i, rank);
      headers, seen := collected.value, all;
      i := i + 1;
    }
    assert ps[..i] == ps;
    return Some(headers);
  }

  /**
    Headers are returned exactly when there is a precommit and each one routes to the lowest above its
    number; they are then known, distinct and just what the verifier accepts.
   */
  method FromCommit(client: Headers, ps: seq<Precommit>, ghost rank: Hash -> nat) returns (r: Option<seq<Header>>)
    requires Keyed(client) && Ranked(client, rank)
    ensures r.Some? <==> exists i: nat :: IsBase(ps, i) && AllRoutedAbove(client, ps[i], ps, rank)
    ensures r.Some? ==> Known(client, r.value) && Distinct(r.value) && Ranked(ChainOf(r.value), rank)
    ensures forall i: nat :: r.Some? && IsBase(ps, i) ==> Accepts(r.value, ps[i].target, ps, rank)
  {
    var least := MinByNumber(ps);
    if least.None? {
      return None;
    }
    var base := ps[least.value];
    forall i: nat | IsBase(ps, i)
      ensures i == least.value
    {
      BaseIsUnique(ps, i, least.value);
    }
    r := CollectAll(client, base, ps, rank);
    if r.Some? {
      AboveMeans(client, base, ps, rank);
      AcceptsExactly(client, r.value, base.target, ps, rank);
    }
  }

  ghost predicate OnRouteAbove(m: Headers, base: Precommit, ps: seq<Precommit>, rank: Hash -> nat, h: Hash)
    requires Ranked(m, rank) && AllRoutedAbove(m, base, ps, rank)
  {
    exists i :: 0 <= i < |ps| && h in RouteAbove(m, base.target, base.number, ps[i].target, rank).value
  }

  lemma OneMoreRoute(m: Headers, base: Precommit, ps: seq<Precommit>, n: nat, rank: Hash -> nat)
    requires Ranked(m, rank) && n < |ps| && AllRoutedAbove(m, base, ps[..n], rank)
    requires RouteAbove(m, base.target, base.number, ps[n].target, rank).Some?
    ensures AllRoutedAbove(m, base, ps[..n + 1], rank)
    ensures forall h :: OnRouteAbove(m, base, ps[..n + 1], rank, h) <==>
              OnRouteAbove(m, base, ps[..n], rank, h)
              || h in RouteAbove(m, base.target, base.number, ps[n].target, rank).value
  {
    assert ps[..n + 1][n] == ps[n];
    assert forall i :: 0 <= i < n ==> ps[..n + 1][i] == ps[..n][i];
  }

  lemma AboveMeans(m: Headers, base: Precommit, ps: seq<Precommit>, rank: Hash -> nat)
    requires Ranked(m, rank) && AllRoutedAbove(m, base, ps, rank)
    ensures AllRouted(m, base.target, ps, rank)
    ensures forall h :: OnRouteAbove(m, base, ps, rank, h) <==> OnRoute(m, base.target, ps, rank, h)
  {
    forall i | 0 <= i < |ps|
      ensures RouteAbove(m, base.target, base.number, ps[i].target, rank) == Route(m, base.target, ps[i].target, rank)
    {
      RouteAboveIsRoute(m, base.target, base.number, ps[i].target, rank);
    }
  }

  // ---- the verifier ----

  /** The route without its first block: it starts at the parent and leaves out the base. */
  method Ancestry(m: Headers, base: Hash, block: Hash, ghost rank: Hash -> nat) returns (r: Option<seq<Hash>>)
    requires Ranked(m, rank)
    ensures r.Some? <==> Route(m, base, block, rank).Some?
    ensures r.Some? && block == base ==> r.value == []
    ensures r.Some? && block != base ==> [block] + r.value == Route(m, base, block, rank).value
  {
    var route, current := [], block;
    ghost var whole := Route(m, base, block, rank);
    while current != base
      invariant current == block ==> route == []
      invariant current != block ==> route != [] && route[|route| - 1] == current
      invariant whole.Some? <==> Route(m, base, current, rank).Some?
      invariant whole.Some? && route != [] ==>
                  whole.value == [block] + route[..|route| - 1] + Route(m, base, current, rank).value
      invariant route == [] ==> current == block
      decreases rank(current)
    {
      if current !in m {
        return None;
      }
      ghost var before := route;
      current := m[current].parent;
      route := route + [current];
      assert route[..|route| - 1] == before;
    }
    if route != [] {
      route := route[..|route| - 1];
    }
    return Some(route);
  }

  datatype Verdict = Good | InvalidCommit | InvalidSignature | InvalidAncestry | UnusedHeaders

  method CollectHeaders(headers: seq<Header>) returns (m: Headers, hashes: set<Hash>)
    ensures m == ChainOf(headers) && hashes == HashesOf(headers)
  {
    m, hashes := map[], {};
    var i := 0;
    while i < |headers|
      invariant i <= |headers| && m == ChainOf(headers[..i]) && hashes == HashesOf(headers[..i])
    {
      assert headers[..i + 1][..i] == headers[..i];
      assert HashesOf(headers[..i + 1]) == HashesOf(headers[..i]) + {headers[i].hash};
      m, hashes := m[headers[i].hash := headers[i]], hashes + {headers[i].hash};
      i := i + 1;
    }
    assert headers[..i] == headers;
  }

  ghost predicate AllTrue(signed: seq<bool>) {
    forall i :: 0 <= i < |signed| ==> signed[i]
  }

  /** The precommits before `i` are signed and route to the base. */
  ghost predicate FineBefore(m: Headers, base: Hash, ps: seq<Precommit>, signed: seq<bool>, rank: Hash -> nat, i: nat)
    requires Ranked(m, rank) && |signed| == |ps| && i <= |ps|
  {
    forall j :: 0 <= j < i ==> signed[j] && Route(m, base, ps[j].target, rank).Some?
  }

  /** The first problem is the signature of precommit `i`. */
  ghost predicate UnsignedAt(m: Headers, base: Hash, ps: seq<Precommit>, signed: seq<bool>, rank: Hash -> nat, i: nat)
    requires Ranked(m, rank) && |signed| == |ps|
  {
    i < |ps| && FineBefore(m, base, ps, signed, rank, i) && !signed[i]
  }

  /** The first problem is that precommit `i`, signed, does not route. */
  ghost predicate UnroutedAt(m: Headers, base: Hash, ps: seq<Precommit>, signed: seq<bool>, rank: Hash -> nat, i: nat)
    requires Ranked(m, rank) && |signed| == |ps|
  {
    i < |ps| && FineBefore(m, base, ps, signed, rank, i) && signed[i] && Route(m, base, ps[i].target, rank).None?
  }

  ghost predicate BadSignature(m: Headers, base: Hash, ps: seq<Precommit>, signed: seq<bool>, rank: Hash -> nat)
    requires Ranked(m, rank) && |signed| == |ps|
  {
    exists i: nat :: UnsignedAt(m, base, ps, signed, rank, i)
  }

  ghost predicate BadRoute(m: Headers, base: Hash, ps: seq<Precommit>, signed: seq<bool>, rank: Hash -> nat)
    requires Ranked(m, rank) && |signed| == |ps|
  {
    exists i: nat :: UnroutedAt(m, base, ps, signed, rank, i)
  }

  /** There is one first problem at most. */
  lemma ProblemsExclude(m: Headers, base: Hash, ps: seq<Precommit>, signed: seq<bool>, rank: Hash -> nat)
    requires Ranked(m, rank) && |signed| == |ps|
    ensures !(BadSignature(m, base, ps, signed, rank) && BadRoute(m, base, ps, signed, rank))
    ensures AllTrue(signed) && AllRouted(m, base, ps, rank) ==>
              !BadSignature(m, base, ps, signed, rank) && !BadRoute(m, base, ps, signed, rank)
  {
  }

  /** The loop over the precommits: the first problem met, or the hashes on the routes. */
  method CheckPrecommits(m: Headers, base: Hash, ps: seq<Precommit>, signed: seq<bool>, ghost rank: Hash -> nat)
      returns (v: Verdict, visited: set<Hash>)
    requires Ranked(m, rank) && |signed| == |ps|
    ensures v == Good || v == InvalidSignature || v == InvalidAncestry
    ensures v == Good ==> AllTrue(signed) && AllRouted(m, base, ps, rank) && Exact(m, base, ps, rank, visited)
    ensures v == InvalidSignature <==> BadSignature(m, base, ps, signed, rank)
    ensures v == InvalidAncestry <==> BadRoute(m, base, ps, signed, rank)
  {
    ProblemsExclude(m, base, ps, signed, rank);
    visited := {};
    var i := 0;
    while i < |ps|
      invariant i <= |ps| && AllRouted(m, base, ps[..i], rank)
      invariant AllTrue(signed[..i]) && FineBefore(m, base, ps, signed, rank, i)
      invariant Exact(m, base, ps[..i], rank, visited)
    {
      if !signed[i] {
        assert UnsignedAt(m, base, ps, signed, rank, i);
        return InvalidSignature, visited;
      }
      assert signed[..i + 1] == signed[..i] + [true];
      var route: seq<Hash> := [];
      if base != ps[i].target {
        var rest := Ancestry(m, base, ps[i].target, rank);
        if rest.None? {
          assert UnroutedAt(m, base, ps, signed, rank, i);
          return InvalidAncestry, visited;
        }
        route := [ps[i].target] + rest.value;
      }
      AddRoute(m, base, ps, i, rank, visited, route);
      visited := visited + set h | h in route;
      i := i + 1;
    }
    assert ps[..i] == ps && signed[..i] == signed;
    return Good, visited;
  }

  /**
    With a valid commit, the verdict is good exactly when every precommit is signed and the ancestry
    headers are accepted; `signed` and `commitValid` stand for the checks made elsewhere.
   */
  method VerifyWithVoterSet(
      ps: seq<Precommit>, headers: seq<Header>, commitValid: bool, signed: seq<bool>, ghost rank: Hash -> nat)
      returns (v: Verdict)
    requires |signed| == |ps| && (commitValid ==> ps != []) && Ranked(ChainOf(headers), rank)
    ensures v == InvalidCommit <==> !commitValid
    ensures forall b: nat | commitValid && IsBase(ps, b) ::
              && (v == Good <==> AllTrue(signed) && Accepts(headers, ps[b].target, ps, rank))
              && (v == UnusedHeaders <==>
                  && AllTrue(signed) && AllRouted(ChainOf(headers), ps[b].target, ps, rank)
                  && !Exact(ChainOf(headers), ps[b].target, ps, rank, HashesOf(headers)))
              && (v == InvalidAncestry <==> BadRoute(ChainOf(headers), ps[b].target, ps, signed, rank))
              && (v == InvalidSignature <==> BadSignature(ChainOf(headers), ps[b].target, ps, signed, rank))
  {
    var m, hashes := CollectHeaders(headers);
    if !commitValid {
      return InvalidCommit;
    }
    var least := MinByNumber(ps);
    var base := ps[least.value].target;
    forall b: nat | IsBase(ps, b)
      ensures b == least.value
    {
      BaseIsUnique(ps, b, least.value);
    }
    var visited;
    v, visited := CheckPrecommits(m, base, ps, signed, rank);
    if v == Good {
      SameExact(m, base, ps, rank, visited, hashes);
      if visited != hashes {
        v := UnusedHeaders;
      }
    }
  }

  lemma AddRoute(
      m: Headers, base: Hash, ps: seq<Precommit>, n: nat, rank: Hash -> nat, visited: set<Hash>, route: seq<Hash>)
    requires Ranked(m, rank) && n < |ps| && AllRouted(m, base, ps[..n], rank)
    requires Exact(m, base, ps[..n], rank, visited) && Route(m, base, ps[n].target, rank) == Some(route)
    ensures AllRouted(m, base, ps[..n + 1], rank)
    ensures Exact(m, base, ps[..n + 1], rank, visited + set h | h in route)
  {
    var before, after := ps[..n], ps[..n + 1];
    assert after == before + [ps[n]];
    assert RouteOr(m, base, ps[n].target, rank) == route;
    forall h
      ensures OnRoute(m, base, after, rank, h) <==> OnRoute(m, base, before, rank, h) || h in route
    {
      OnRouteSplits(m, base, before, ps[n], rank, h);
    }
  }

  lemma OnRouteSplits(m: Headers, base: Hash, ps: seq<Precommit>, p: Precommit, rank: Hash -> nat, h: Hash)
    requires Ranked(m, rank)
    ensures OnRoute(m, base, ps + [p], rank, h) <==>
            OnRoute(m, base, ps, rank, h) || h in RouteOr(m, base, p.target, rank)
  {
    var all := ps + [p];
    if OnRoute(m, base, ps, rank, h) {
      var i :| 0 <= i < |ps| && h in RouteOr(m, base, ps[i].target, rank);
      assert all[i] == ps[i];
    }
    if OnRoute(m, base, all, rank, h) {
      var i :| 0 <= i < |all| && h in RouteOr(m, base, all[i].target, rank);
      assert i < |ps| ==> all[i] == ps[i];
    }
    assert all[|ps|] == p;
  }

  lemma SameExact(m: Headers, base: Hash, ps: seq<Precommit>, rank: Hash -> nat, a: set<Hash>, b: set<Hash>)
    requires Ranked(m, rank) && Exact(m, base, ps, rank, a)
    ensures Exact(m, base, ps, rank, b) <==> a == b
  {
    if Exact(m, base, ps, rank, b) {
      assert forall h :: h in a <==> h in b;
    }
  }
}
