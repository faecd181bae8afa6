/**
  Block bodies whose extrinsics are stored in two parts: a header beside the block, and indexed data
  under its own hash. Reading joins the parts again and decodes the extrinsic.
 */
module IndexedBody {
  import opened Common

  type Bytes = seq<Byte>
  type Hash = nat

  // ---- decoding ----

  /** What a decoder does after the bytes it has seen: read `more + 1` further bytes, or stop. */
  datatype Step<T> = Want(more: nat) | Done(value: T) | Fail

  type Decoder<!T> = Bytes -> Step<T>

  /** Decoding from one slice, of which `at` bytes are read. */
  function DecodeFrom<T>(decoder: Decoder<T>, input: Bytes, at: nat): Option<T>
    requires at <= |input|
    decreases |input| - at
  {
    match decoder(input[..at])
    case Done(value) => Some(value)
    case Fail => None
    case Want(more) =>
      if at + more + 1 <= |input| then DecodeFrom(decoder, input, at + more + 1) else None
  }

  function Decode<T>(decoder: Decoder<T>, input: Bytes): Option<T> {
    DecodeFrom(decoder, input, 0)
  }

  /** A decoder that is done has no use for what follows. */
  lemma {:induction false} TrailingIgnored<T>(decoder: Decoder<T>, input: Bytes, tail: Bytes, at: nat)
    requires at <= |input| && DecodeFrom(decoder, input, at).Some?
    ensures DecodeFrom(decoder, input + tail, at) == DecodeFrom(decoder, input, at)
    decreases |input| - at
  {
    assert (input + tail)[..at] == input[..at];
    match decoder(input[..at]) {
      case Want(more) => TrailingIgnored(decoder, input, tail, at + more + 1);
      case _ =>
    }
  }

  // ---- two slices read as one ----

  class JoinInput {
    var first: Bytes
    var second: Bytes

    constructor (first: Bytes, second: Bytes)
      ensures this.first == first && this.second == second
    {
      this.first := first;
      this.second := second;
    }

    ghost function Rest(): Bytes
      reads this
    {
      first + second
    }

    /** Reads succeed, and read what they should, exactly as from the concatenated slices. */
    method Read(into: array<Byte>) returns (ok: bool)
      modifies this, into
      ensures ok <==> into.Length <= |old(Rest())|
      ensures ok ==> into[..] == old(Rest())[..into.Length] && Rest() == old(Rest())[into.Length..]
      ensures !ok ==> first == [] && second == old(second)
    {
      var read := 0;
      if |first| > 0 {
        read := if |first| < into.Length then |first| else into.Length;
        Fill(into, 0, first[..read]);
        first := first[read..];
      }
      ok := true;
      if read < into.Length {
        assert first == [];
        var wanted := into.Length - read;
        if wanted > |second| {
          return false;
        }
        Fill(into, read, second[..wanted]);
        second := second[wanted..];
      }
    }
  }

  /** Copies into part of a buffer. */
  method Fill(into: array<Byte>, from: nat, bytes: Bytes)
    requires from + |bytes| <= into.Length
    modifies into
    ensures into[..] == old(into[..from]) + bytes + old(into[from + |bytes|..])
  {
    var i := 0;
    while i < |bytes|
      invariant i <= |bytes|
      invariant forall j :: 0 <= j < into.Length ==>
                  into[j] == if from <= j < from + i then bytes[j - from] else old(into[j])
    {
      into[from + i] := bytes[i];
      i := i + 1;
    }
  }

  /** Decoding from the joined slices is decoding from their concatenation. */
  method DecodeJoined<T>(decoder: Decoder<T>, first: Bytes, second: Bytes) returns (r: Option<T>)
    ensures r == Decode(decoder, first + second)
  {
    var input := new JoinInput(first, second);
    var seen: Bytes := [];
    ghost var whole := first + second;
    while true
      invariant |seen| <= |whole| && seen == whole[..|seen|] && input.Rest() == whole[|seen|..]
      invariant Decode(decoder, whole) == DecodeFrom(decoder, whole, |seen|)
      decreases |whole| - |seen|
    {
      match decoder(seen) {
        case Done(value) => return Some(value);
        case Fail => return None;
        case Want(more) =>
          var into := new Byte[more + 1](_ => 0);
          var ok := input.Read(into);
          if !ok {
            return None;
          }
          seen := seen + into[..];
      }
    }
  }

  // ---- storing a body ----

  datatype IndexOperation =
    | Insert(extrinsic: U32, hash: Hash, size: nat)
    | Renew(extrinsic: U32, hash: Hash)

  datatype DbExtrinsic<E> = Indexed(hash: Hash, header: Bytes) | Full(extrinsic: E)

  datatype Slice = Slice(hash: Hash, size: nat)

  /** Data by its hash, as in the transaction column. */
  type Store = map<Hash, Bytes>

  /** The last operation on an extrinsic counts. */
  function Renewals(ops: seq<IndexOperation>): map<U32, Hash> {
    if ops == [] then map[]
    else
      var before := Renewals(ops[..|ops| - 1]);
      match ops[|ops| - 1]
      case Renew(extrinsic, hash) => before[extrinsic := hash]
      case Insert(_, _, _) => before
  }

  function Insertions(ops: seq<IndexOperation>): map<U32, Slice> {
    if ops == [] then map[]
    else
      var before := Insertions(ops[..|ops| - 1]);
      match ops[|ops| - 1]
      case Renew(_, _) => before
      case Insert(extrinsic, hash, size) => before[extrinsic := Slice(hash, size)]
  }

  /** Positions are cast to 32 bits. */
  function Position(index: nat): U32 {
    Wrap32(index)
  }

  /** A renewed extrinsic keeps all its bytes in the header; an inserted one leaves its last bytes out. */
  function EntryFor<E>(extrinsic: E, encoded: Bytes, at: U32, ops: seq<IndexOperation>): DbExtrinsic<E> {
    if at in Renewals(ops) then Indexed(Renewals(ops)[at], encoded)
    else if at in Insertions(ops) && Insertions(ops)[at].size <= |encoded| then
      Indexed(Insertions(ops)[at].hash, encoded[..|encoded| - Insertions(ops)[at].size])
    else Full(extrinsic)
  }

  /** Only an insertion stores data; what is there under the hash already stays. */
  function StoreFor(store: Store, encoded: Bytes, at: U32, ops: seq<IndexOperation>): Store {
    if at !in Renewals(ops) && at in Insertions(ops) && Insertions(ops)[at].size <= |encoded| then
      var slice := Insertions(ops)[at];
      if slice.hash in store then store else store[slice.hash := encoded[|encoded| - slice.size..]]
    else store
  }

  ghost function StoreAll<E>(store: Store, body: seq<E>, encode: E -> Bytes, ops: seq<IndexOperation>): Store {
    if body == [] then store
    else
      var last := |body| - 1;
      StoreFor(StoreAll(store, body[..last], encode, ops), encode(body[last]), Position(last), ops)
  }

  // ---- which operation an extrinsic gets ----

  /** The last renewal of extrinsic `n` is operation `j`. */
  ghost predicate LastRenewal(ops: seq<IndexOperation>, n: nat, j: nat) {
    && j < |ops| && ops[j].Renew? && ops[j].extrinsic == n
    && forall k :: j < k < |ops| && ops[k].Renew? ==> ops[k].extrinsic != n
  }

  ghost predicate LastInsertion(ops: seq<IndexOperation>, n: nat, j: nat) {
    && j < |ops| && ops[j].Insert? && ops[j].extrinsic == n
    && forall k :: j < k < |ops| && ops[k].Insert? ==> ops[k].extrinsic != n
  }

  ghost predicate Renewed(ops: seq<IndexOperation>, n: nat) {
    exists j: nat :: LastRenewal(ops, n, j)
  }

  /** Not renewed, and the last insertion, operation `j`, cuts off no more than there is. */
  ghost predicate Cuts(ops: seq<IndexOperation>, n: nat, encoded: Bytes, j: nat) {
    !Renewed(ops, n) && LastInsertion(ops, n, j) && ops[j].size <= |encoded|
  }

  lemma {:induction false} RenewalsMean(ops: seq<IndexOperation>, n: U32)
    ensures n in Renewals(ops) <==> Renewed(ops, n)
    ensures forall j: nat :: LastRenewal(ops, n, j) ==> n in Renewals(ops) && Renewals(ops)[n] == ops[j].hash
    decreases |ops|
  {
    if ops != [] {
      var last := |ops| - 1;
      var rest := ops[..last];
      RenewalsMean(rest, n);
      if ops[last].Renew? && ops[last].extrinsic == n {
        assert LastRenewal(ops, n, last);
      } else {
        assert forall j: nat :: LastRenewal(ops, n, j) <==> LastRenewal(rest, n, j);
      }
    }
  }

  lemma {:induction false} InsertionsMean(ops: seq<IndexOperation>, n: U32)
    ensures n in Insertions(ops) <==> exists j: nat :: LastInsertion(ops, n, j)
    ensures forall j: nat :: LastInsertion(ops, n, j) ==>
              n in Insertions(ops) && Insertions(ops)[n] == Slice(ops[j].hash, ops[j].size)
    decreases |ops|
  {
    if ops != [] {
      var last := |ops| - 1;
      var rest := ops[..last];
      InsertionsMean(rest, n);
      if ops[last].Insert? && ops[last].extrinsic == n {
        assert LastInsertion(ops, n, last);
      } else {
        assert forall j: nat :: LastInsertion(ops, n, j) <==> LastInsertion(rest, n, j);
      }
    }
  }

  /** What becomes of one extrinsic: the last renewal decides, else the last insertion if it fits. */
  ghost predicate EntryAsAsked<E>(entry: DbExtrinsic<E>, x: E, encoded: Bytes, ops: seq<IndexOperation>, n: nat) {
    && (forall j: nat :: LastRenewal(ops, n, j) ==> entry == Indexed(ops[j].hash, encoded))
    && (forall j: nat :: Cuts(ops, n, encoded, j) ==>
          entry == Indexed(ops[j].hash, encoded[..|encoded| - ops[j].size]))
    && (!Renewed(ops, n) && (forall j: nat :: !Cuts(ops, n, encoded, j)) ==> entry == Full(x))
  }

  lemma EntryExact<E>(x: E, encoded: Bytes, ops: seq<IndexOperation>, n: U32)
    ensures EntryAsAsked(EntryFor(x, encoded, n, ops), x, encoded, ops, n)
  {
    RenewalsMean(ops, n);
    InsertionsMean(ops, n);
    if n !in Renewals(ops) && n in Insertions(ops) && Insertions(ops)[n].size <= |encoded| {
      var j: nat :| LastInsertion(ops, n, j);
      assert Cuts(ops, n, encoded, j);
    }
  }

  /** Entry `i` follows the operations on extrinsic `i`; positions are 32-bit. */
  ghost predicate IndexedAsAsked<E>(
      index: seq<DbExtrinsic<E>>, body: seq<E>, encode: E -> Bytes, ops: seq<IndexOperation>)
  {
    && |index| == |body|
    && forall i :: 0 <= i < |body| ==> EntryAsAsked(index[i], body[i], encode(body[i]), ops, i % U32_LIMIT)
  }

  /** The insertion of extrinsic `i` stores `data` under `hash`. */
  ghost predicate Stores<E>(
      body: seq<E>, encode: E -> Bytes, ops: seq<IndexOperation>, i: nat, hash: Hash, data: Bytes)
  {
    && i < |body|
    && exists j: nat ::
         && Cuts(ops, i % U32_LIMIT, encode(body[i]), j)
         && ops[j].hash == hash && data == encode(body[i])[|encode(body[i])| - ops[j].size..]
  }

  ghost predicate StoresAny<E>(body: seq<E>, encode: E -> Bytes, ops: seq<IndexOperation>, hash: Hash, data: Bytes) {
    exists i: nat :: Stores(body, encode, ops, i, hash, data)
  }

  /** What was there stays; what is new was cut from some extrinsic; and all that was cut is there under its hash. */
  ghost predicate StoredAsAsked<E>(
      store: Store, after: Store, body: seq<E>, encode: E -> Bytes, ops: seq<IndexOperation>)
  {
    && (forall h :: h in store ==> h in after && after[h] == store[h])
    && (forall h :: h in after && h !in store ==> StoresAny(body, encode, ops, h, after[h]))
    && (forall i: nat, h, data :: Stores(body, encode, ops, i, h, data) ==> h in after)
  }

  lemma StoreForExact<E>(store: Store, body: seq<E>, encode: E -> Bytes, ops: seq<IndexOperation>, i: nat)
    requires i < |body|
    ensures
      var encoded, n := encode(body[i]), i % U32_LIMIT;
      var after := StoreFor(store, encoded, n, ops);
      && (forall h :: h in store ==> h in after && after[h] == store[h])
      && (forall h :: h in after && h !in store ==> Stores(body, encode, ops, i, h, after[h]))
      && (forall h, data :: Stores(body, encode, ops, i, h, data) ==> h in after)
  {
    var encoded, n: U32 := encode(body[i]), i % U32_LIMIT;
    RenewalsMean(ops, n);
    InsertionsMean(ops, n);
    if n !in Renewals(ops) && n in Insertions(ops) && Insertions(ops)[n].size <= |encoded| {
      var j: nat :| LastInsertion(ops, n, j);
      assert Cuts(ops, n, encoded, j);
    }
  }

  lemma StoresPrefix<E>(body: seq<E>, encode: E -> Bytes, ops: seq<IndexOperation>, i: nat, hash: Hash, data: Bytes)
    requires body != []
    ensures i < |body| - 1 ==>
              (Stores(body[..|body| - 1], encode, ops, i, hash, data) <==> Stores(body, encode, ops, i, hash, data))
    ensures i >= |body| - 1 ==> !Stores(body[..|body| - 1], encode, ops, i, hash, data)
  {
    if i < |body| - 1 {
      assert body[..|body| - 1][i] == body[i];
    }
  }

  lemma {:induction false} StoreAllExact<E>(store: Store, body: seq<E>, encode: E -> Bytes, ops: seq<IndexOperation>)
    ensures StoredAsAsked(store, StoreAll(store, body, encode, ops), body, encode, ops)
    decreases |body|
  {
    if body != [] {
      var last := |body| - 1;
      var before := StoreAll(store, body[..last], encode, ops);
      StoreAllExact(store, body[..last], encode, ops);
      StoreForExact(before, body, encode, ops, last);
      var after := StoreAll(store, body, encode, ops);
      forall h | h in after && h !in store
        ensures StoresAny(body, encode, ops, h, after[h])
      {
        if h in before {
          var i: nat :| Stores(body[..last], encode, ops, i, h, before[h]);
          StoresPrefix(body, encode, ops, i, h, before[h]);
        } else {
          assert Stores(body, encode, ops, last, h, after[h]);
        }
      }
      forall i: nat, h, data | Stores(body, encode, ops, i, h, data)
        ensures h in after
      {
        StoresPrefix(body, encode, ops, i, h, data);
      }
    }
  }

  // ---- reading it back ----

  datatype BodyError = MissingIndexed(hash: Hash) | Undecodable

  function ReadExtrinsic<E>(ex: DbExtrinsic<E>, store: Store, decoder: Decoder<E>): Result<E, BodyError> {
    match ex
    case Full(extrinsic) => Ok(extrinsic)
    case Indexed(hash, header) =>
      if hash !in store then Err(MissingIndexed(hash))
      else match Decode(decoder, header + store[hash])
        case Some(extrinsic) => Ok(extrinsic)
        case None => Err(Undecodable)
  }

  ghost predicate ReadsBack<E>(index: seq<DbExtrinsic<E>>, store: Store, decoder: Decoder<E>, body: seq<E>) {
    && |index| == |body|
    && forall i :: 0 <= i < |body| ==> ReadExtrinsic(index[i], store, decoder) == Ok(body[i])
  }

  /** The codec's own promise. */
  ghost predicate Codec<E(!new)>(encode: E -> Bytes, decoder: Decoder<E>) {
    forall x: E :: Decode(decoder, encode(x)) == Some(x)
  }

  /** Hashes name contents: stored data is what its hash stands for. */
  ghost predicate Consistent(store: Store, content: Hash -> Bytes) {
    forall h :: h in store ==> store[h] == content(h)
  }

  /** Each insertion that takes effect names the hash of the bytes it cuts off. */
  ghost predicate SlicesConsistent<E>(
      body: seq<E>, encode: E -> Bytes, ops: seq<IndexOperation>, content: Hash -> Bytes)
  {
    forall i: nat, hash, data :: Stores(body, encode, ops, i, hash, data) ==> content(hash) == data
  }

  ghost predicate SliceConsistent(encoded: Bytes, at: U32, ops: seq<IndexOperation>, content: Hash -> Bytes) {
    at !in Renewals(ops) && at in Insertions(ops) && Insertions(ops)[at].size <= |encoded| ==>
      content(Insertions(ops)[at].hash) == encoded[|encoded| - Insertions(ops)[at].size..]
  }

  lemma SliceIsConsistent<E>(
      body: seq<E>, encode: E -> Bytes, ops: seq<IndexOperation>, content: Hash -> Bytes, i: nat)
    requires SlicesConsistent(body, encode, ops, content) && i < |body|
    ensures SliceConsistent(encode(body[i]), i % U32_LIMIT, ops, content)
  {
    var encoded, n: U32 := encode(body[i]), i % U32_LIMIT;
    RenewalsMean(ops, n);
    InsertionsMean(ops, n);
    if n !in Renewals(ops) && n in Insertions(ops) && Insertions(ops)[n].size <= |encoded| {
      var j: nat :| LastInsertion(ops, n, j);
      assert Cuts(ops, n, encoded, j);
      assert Stores(body, encode, ops, i, ops[j].hash, encoded[|encoded| - ops[j].size..]);
    }
  }

  /** Data stored for a body keeps hashes and contents in step. */
  lemma StoreStaysConsistent<E>(
      store: Store, body: seq<E>, encode: E -> Bytes, ops: seq<IndexOperation>, content: Hash -> Bytes)
    requires Consistent(store, content) && SlicesConsistent(body, encode, ops, content)
    ensures Consistent(StoreAll(store, body, encode, ops), content)
  {
    StoreAllExact(store, body, encode, ops);
    var after := StoreAll(store, body, encode, ops);
    forall h | h in after
      ensures after[h] == content(h)
    {
      if h !in store {
        var i: nat :| Stores(body, encode, ops, i, h, after[h]);
      }
    }
  }

  /** An extrinsic reads back exactly when the data under its hash is there. */
  lemma EntryReadsBack<E(!new)>(
      x: E, encode: E -> Bytes, decoder: Decoder<E>, at: U32, ops: seq<IndexOperation>, store: Store,
      content: Hash -> Bytes)
    requires Codec(encode, decoder) && Consistent(store, content)
    requires SliceConsistent(encode(x), at, ops, content)
    ensures
      var ex := EntryFor(x, encode(x), at, ops);
      ReadExtrinsic(ex, store, decoder) == if ex.Indexed? && ex.hash !in store then Err(MissingIndexed(ex.hash)) else Ok(x)
  {
    var encoded := encode(x);
    var ex := EntryFor(x, encoded, at, ops);
    assert Decode(decoder, encoded) == Some(x);
    if ex.Indexed? && ex.hash in store {
      if at in Renewals(ops) {
        TrailingIgnored(decoder, encoded, store[ex.hash], 0);
      } else {
        assert ex.header + store[ex.hash] == encoded;
      }
    }
  }

  /** The data of every extrinsic that is renewed is there. */
  ghost predicate RenewedPresent<E>(body: seq<E>, ops: seq<IndexOperation>, store: Store) {
    forall i :: 0 <= i < |body| ==> RenewalPresent(ops, i % U32_LIMIT, store)
  }

  ghost predicate RenewalPresent(ops: seq<IndexOperation>, n: nat, store: Store) {
    forall j: nat :: LastRenewal(ops, n, j) ==> ops[j].hash in store
  }

  ghost function IndexOf<E>(body: seq<E>, encode: E -> Bytes, ops: seq<IndexOperation>): (index: seq<DbExtrinsic<E>>)
    ensures |index| == |body|
    ensures forall i :: 0 <= i < |body| ==> index[i] == EntryFor(body[i], encode(body[i]), Position(i), ops)
  {
    if body == [] then []
    else
      var last := |body| - 1;
      IndexOf(body[..last], encode, ops) + [EntryFor(body[last], encode(body[last]), Position(last), ops)]
  }

  /** Every entry is what the operations on that extrinsic ask for. */
  lemma IndexExact<E>(body: seq<E>, encode: E -> Bytes, ops: seq<IndexOperation>)
    ensures IndexedAsAsked(IndexOf(body, encode, ops), body, encode, ops)
  {
    forall i | 0 <= i < |body|
      ensures EntryAsAsked(IndexOf(body, encode, ops)[i], body[i], encode(body[i]), ops, i % U32_LIMIT)
    {
      EntryExact(body[i], encode(body[i]), ops, i % U32_LIMIT);
    }
  }

  lemma StoredEntryReads<E(!new)>(
      body: seq<E>, encode: E -> Bytes, decoder: Decoder<E>, ops: seq<IndexOperation>, store: Store,
      content: Hash -> Bytes, i: nat)
    requires Codec(encode, decoder) && Consistent(store, content) && SlicesConsistent(body, encode, ops, content)
    requires i < |body|
    ensures
      var after, n: U32 := StoreAll(store, body, encode, ops), i % U32_LIMIT;
      ReadExtrinsic(IndexOf(body, encode, ops)[i], after, decoder) == Ok(body[i]) <==> RenewalPresent(ops, n, after)
  {
    var after, n: U32 := StoreAll(store, body, encode, ops), i % U32_LIMIT;
    var entry := IndexOf(body, encode, ops)[i];
    StoreStaysConsistent(store, body, encode, ops, content);
    SliceIsConsistent(body, encode, ops, content, i);
    EntryReadsBack(body[i], encode, decoder, n, ops, after, content);
    EntryExact(body[i], encode(body[i]), ops, n);
    StoreAllExact(store, body, encode, ops);
    if Renewed(ops, n) {
      var j: nat :| LastRenewal(ops, n, j);
      RenewalsMean(ops, n);
    } else if j: nat :| Cuts(ops, n, encode(body[i]), j) {
      assert Stores(body, encode, ops, i, ops[j].hash, encode(body[i])[|encode(body[i])| - ops[j].size..]);
    }
  }

  /**
    A body stored with any index operations reads back as it was exactly when the data of every
    renewed extrinsic is in the store, whatever else the store holds.
   */
  lemma BodyRoundTrip<E(!new)>(
      body: seq<E>, encode: E -> Bytes, decoder: Decoder<E>, ops: seq<IndexOperation>, store: Store,
      content: Hash -> Bytes)
    requires Codec(encode, decoder) && Consistent(store, content) && SlicesConsistent(body, encode, ops, content)
    ensures
      var after := StoreAll(store, body, encode, ops);
      ReadsBack(IndexOf(body, encode, ops), after, decoder, body) <==> RenewedPresent(body, ops, after)
  {
    var after, index := StoreAll(store, body, encode, ops), IndexOf(body, encode, ops);
    forall i | 0 <= i < |body|
      ensures ReadExtrinsic(index[i], after, decoder) == Ok(body[i]) <==>
              RenewalPresent(ops, i % U32_LIMIT, after)
    {
      StoredEntryReads(body, encode, decoder, ops, store, content, i);
    }
  }

  // ---- as the code runs it ----

  /** Fills the two maps, then cuts each extrinsic and fills the store. */
  method ApplyIndexOps<E>(store: Store, body: seq<E>, encode: E -> Bytes, ops: seq<IndexOperation>)
      returns (index: seq<DbExtrinsic<E>>, after: Store)
    ensures index == IndexOf(body, encode, ops) && IndexedAsAsked(index, body, encode, ops)
    ensures after == StoreAll(store, body, encode, ops) && StoredAsAsked(store, after, body, encode, ops)
  {
    var indexMap, renewedMap := CollectOps(ops);
    index, after := [], store;
    var i := 0;
    while i < |body|
      invariant i <= |body| && index == IndexOf(body[..i], encode, ops)
      invariant after == StoreAll(store, body[..i], encode, ops)
    {
      assert body[..i + 1][..i] == body[..i];
      var entry;
      entry, after := IndexOne(after, body[i], encode(body[i]), Position(i), indexMap, renewedMap, ops);
      index := index + [entry];
      i := i + 1;
    }
    assert body[..i] == body;
    IndexExact(body, encode, ops);
    StoreAllExact(store, body, encode, ops);
  }

  method IndexOne<E>(
      store: Store, extrinsic: E, encoded: Bytes, at: U32, indexMap: map<U32, Slice>, renewedMap: map<U32, Hash>,
      ghost ops: seq<IndexOperation>)
      returns (entry: DbExtrinsic<E>, after: Store)
    requires indexMap == Insertions(ops) && renewedMap == Renewals(ops)
    ensures entry == EntryFor(extrinsic, encoded, at, ops)
    ensures after == StoreFor(store, encoded, at, ops)
  {
    after := store;
    if at in renewedMap {
      return Indexed(renewedMap[at], encoded), after;
    }
    if at in indexMap && indexMap[at].size <= |encoded| {
      var slice := indexMap[at];
      var offset := |encoded| - slice.size;
      if slice.hash !in after {
        after := after[slice.hash := encoded[offset..]];
      }
      return Indexed(slice.hash, encoded[..offset]), after;
    }
    return Full(extrinsic), after;
  }

  method CollectOps(ops: seq<IndexOperation>) returns (indexMap: map<U32, Slice>, renewedMap: map<U32, Hash>)
    ensures indexMap == Insertions(ops) && renewedMap == Renewals(ops)
  {
    indexMap, renewedMap := map[], map[];
    var i := 0;
    while i < |ops|
      invariant i <= |ops| && indexMap == Insertions(ops[..i]) && renewedMap == Renewals(ops[..i])
    {
      assert ops[..i + 1][..i] == ops[..i];
      match ops[i] {
        case Insert(extrinsic, hash, size) => indexMap := indexMap[extrinsic := Slice(hash, size)];
        case Renew(extrinsic, hash) => renewedMap := renewedMap[extrinsic := hash];
      }
      i := i + 1;
    }
    assert ops[..i] == ops;
  }

  /** The first extrinsic that cannot be read. */
  ghost predicate FailsAt<E>(index: seq<DbExtrinsic<E>>, store: Store, decoder: Decoder<E>, i: nat, error: BodyError) {
    && i < |index| && ReadExtrinsic(index[i], store, decoder) == Err(error)
    && forall j :: 0 <= j < i ==> ReadExtrinsic(index[j], store, decoder).Ok?
  }

  /** Extrinsic by extrinsic; the first one that cannot be read decides the error. */
  method Body<E>(index: seq<DbExtrinsic<E>>, store: Store, decoder: Decoder<E>)
      returns (r: Result<seq<E>, BodyError>)
    ensures r.Ok? ==> ReadsBack(index, store, decoder, r.value)
    ensures r.Err? ==> exists i :: 0 <= i < |index| && FailsAt(index, store, decoder, i, r.error)
  {
    var body := [];
    var i := 0;
    while i < |index|
      invariant i <= |index| && ReadsBack(index[..i], store, decoder, body)
      invariant forall j :: 0 <= j < i ==> ReadExtrinsic(index[j], store, decoder).Ok?
    {
      match index[i] {
        case Full(extrinsic) => body := body + [extrinsic];
        case Indexed(hash, header) =>
          if hash !in store {
            assert FailsAt(index, store, decoder, i, MissingIndexed(hash));
            return Err(MissingIndexed(hash));
          }
          var extrinsic := DecodeJoined(decoder, header, store[hash]);
          if extrinsic.None? {
            assert FailsAt(index, store, decoder, i, Undecodable);
            return Err(Undecodable);
          }
          body := body + [extrinsic.value];
      }
      assert ReadExtrinsic(index[i], store, decoder) == Ok(body[i]);
      assert index[..i + 1] == index[..i] + [index[i]];
      i := i + 1;
    }
    assert index[..i] == index;
    return Ok(body);
  }
}
