/** Splitting an address list into batches (`chunks`) and fetching accounts
    batch by batch, with the answers joined back in request order
    (`chunkedGetMultipleAccountInfos`) or joined and stripped of missing
    accounts (`chunkedFetchMultipleVaultAccount`). */
module ChunkedFetch {
  import opened Solana

  /** The batch size used when the caller gives none. */
  const DefaultChunkSize: nat := 100

  function Min(x: int, y: int): int
  {
    if x <= y then x else y
  }

  /** `Math.ceil(n / size)`: the least number of `size`-sized batches that
      hold `n` items. */
  function CeilDiv(n: nat, size: nat): (k: nat)
    requires size > 0
    ensures (k - 1) * size < n <= k * size
  {
    var q := (n + size - 1) / size;
    assert q * size + (n + size - 1) % size == n + size - 1;
    q
  }

  /** `Array.prototype.slice(start, end)` for non-negative bounds: both are
      clamped to the length, and an empty range gives an empty array. */
  function Slice<T>(a: seq<T>, start: nat, end: nat): seq<T>
  {
    var lo := Min(start, |a|);
    var hi := Min(end, |a|);
    if lo <= hi then a[lo..hi] else []
  }

  /** `chunks(array, size)`: one slice `[index * size, (index + 1) * size)`
      per index below `Math.ceil(|array| / size)`. */
  function Chunks<T>(a: seq<T>, size: nat): (r: seq<seq<T>>)
    requires size > 0
    ensures |r| == CeilDiv(|a|, size)
    ensures r == [] <==> a == []
  {
    seq(CeilDiv(|a|, size), index requires 0 <= index => Slice(a, index * size, (index + 1) * size))
  }

  /** `Array.prototype.flat()` on an array of arrays: the inner arrays
      concatenated in order. */
  function Flatten<T>(ss: seq<seq<T>>): seq<T>
  {
    if ss == [] then [] else Flatten(ss[..|ss| - 1]) + ss[|ss| - 1]
  }

  lemma MulMonotonic(i: int, j: int, size: nat)
    requires i <= j
    ensures i * size <= j * size
  {
    assert j * size == i * size + (j - i) * size;
  }

  /** `cs` is `a` cut into consecutive slices of `size` items: there are
      just enough of them to cover `a`, and slice `i` is `slice(i * size,
      (i + 1) * size)`. */
  ghost predicate SlicedBy<T>(cs: seq<seq<T>>, a: seq<T>, size: nat)
  {
    && (|cs| - 1) * size < |a| <= |cs| * size
    && forall i :: 0 <= i < |cs| ==> cs[i] == Slice(a, i * size, (i + 1) * size)
  }

  lemma ChunksSliced<T>(a: seq<T>, size: nat)
    requires size > 0
    ensures SlicedBy(Chunks(a, size), a, size)
  {
    var cs := Chunks(a, size);
    var k := CeilDiv(|a|, size);
    assert |cs| == k && (k - 1) * size < |a| <= k * size;
    forall i | 0 <= i < |cs|
      ensures cs[i] == Slice(a, i * size, (i + 1) * size)
    {
    }
  }

  lemma SliceAt<T>(cs: seq<seq<T>>, a: seq<T>, size: nat, i: nat)
    requires SlicedBy(cs, a, size)
    requires i < |cs|
    ensures i * size < |a|
    ensures cs[i] == a[i * size .. Min(i * size + size, |a|)]
  {
    MulMonotonic(i, |cs| - 1, size);
    assert (i + 1) * size == i * size + size;
  }

  lemma SliceItem<T>(cs: seq<seq<T>>, a: seq<T>, size: nat, b: nat, k: nat)
    requires SlicedBy(cs, a, size)
    requires b < |cs| && k < |cs[b]|
    ensures b * size + k < |a| && cs[b][k] == a[b * size + k]
  {
    SliceAt(cs, a, size, b);
  }

  /** Chunk `i` is the slice of the input that starts at `i * size` and runs
      for `size` items or up to the end, and it never starts past the end. */
  lemma ChunkAt<T>(a: seq<T>, size: nat, i: nat)
    requires size > 0
    requires i < |Chunks(a, size)|
    ensures i * size < |a|
    ensures Chunks(a, size)[i] == a[i * size .. Min(i * size + size, |a|)]
  {
    ChunksSliced(a, size);
    SliceAt(Chunks(a, size), a, size, i);
  }

  lemma SliceSizes<T>(cs: seq<seq<T>>, a: seq<T>, size: nat, i: nat)
    requires SlicedBy(cs, a, size)
    requires i < |cs|
    ensures i < |cs| - 1 ==> |cs[i]| == size
    ensures i == |cs| - 1 ==> 0 < |cs[i]| <= size
  {
    SliceAt(cs, a, size, i);
    var lo := i * size;
    if i < |cs| - 1 {
      MulMonotonic(i + 1, |cs| - 1, size);
      assert (i + 1) * size == lo + size;
    } else {
      assert |cs| * size == lo + size;
    }
  }

  /** Every chunk but the last holds exactly `size` items; the last holds at
      least one and at most `size`. */
  lemma ChunkSizes<T>(a: seq<T>, size: nat, i: nat)
    requires size > 0
    requires i < |Chunks(a, size)|
    ensures i < |Chunks(a, size)| - 1 ==> |Chunks(a, size)[i]| == size
    ensures i == |Chunks(a, size)| - 1 ==> 0 < |Chunks(a, size)[i]| <= size
  {
    ChunksSliced(a, size);
    SliceSizes(Chunks(a, size), a, size, i);
  }

  lemma FlattenSnoc<T>(ss: seq<seq<T>>, m: nat)
    requires 0 < m <= |ss|
    ensures Flatten(ss[..m]) == Flatten(ss[..m - 1]) + ss[m - 1]
  {
    assert ss[..m][..m - 1] == ss[..m - 1];
  }

  /** The first `m` slices, joined, are the input up to `m * size`. */
  lemma {:induction false} FlattenSlicedPrefix<T>(cs: seq<seq<T>>, a: seq<T>, size: nat, m: nat)
    requires SlicedBy(cs, a, size)
    requires m <= |cs|
    ensures Flatten(cs[..m]) == a[..Min(m * size, |a|)]
  {
    if m > 0 {
      FlattenSlicedPrefix(cs, a, size, m - 1);
      SliceAt(cs, a, size, m - 1);
      var lo := (m - 1) * size;
      assert m * size == lo + size;
      var hi := Min(lo + size, |a|);
      FlattenSnoc(cs, m);
      assert a[..lo] + a[lo..hi] == a[..hi];
    }
  }

  /** Joining the chunks in order gives back the input: nothing is lost,
      repeated or moved. */
  lemma FlattenChunks<T>(a: seq<T>, size: nat)
    requires size > 0
    ensures Flatten(Chunks(a, size)) == a
  {
    var cs := Chunks(a, size);
    ChunksSliced(a, size);
    FlattenSlicedPrefix(cs, a, size, |cs|);
    assert cs[..|cs|] == cs;
  }

  /** 250 addresses in batches of 100 make three batches of 100, 100 and 50. */
  lemma ChunksOf250By100<T>(a: seq<T>)
    requires |a| == 250
    ensures |Chunks(a, 100)| == 3
    ensures |Chunks(a, 100)[0]| == 100 && |Chunks(a, 100)[1]| == 100 && |Chunks(a, 100)[2]| == 50
  {
  }

  /** One batched request: the answers for the requested keys, in order,
      or the error the request failed with. */
  type ChunkFetcher<T> = seq<Address> -> Result<seq<Option<T>>>

  /** `Promise.all(batches.map(fetch))`: every batch's answers, in batch
      order, or a failure if any batch fails. */
  function FetchAllChunks<T>(fetch: ChunkFetcher<T>, batches: seq<seq<Address>>): (r: Result<seq<seq<Option<T>>>>)
    ensures r.Ok? <==> forall i :: 0 <= i < |batches| ==> fetch(batches[i]).Ok?
    ensures r.Ok? ==> |r.value| == |batches|
    ensures r.Ok? ==> forall i :: 0 <= i < |batches| ==> r.value[i] == fetch(batches[i]).value
    ensures r.Err? ==> exists i :: 0 <= i < |batches| && fetch(batches[i]) == Err(r.error)
  {
    if batches == [] then Ok([])
    else
      match fetch(batches[0])
      case Err(e) => Err(e)
      case Ok(first) =>
        match FetchAllChunks(fetch, batches[1..])
        case Err(e) => Err(e)
        case Ok(rest) => Ok([first] + rest)
  }

  /** `chunkedGetMultipleAccountInfos(connection, pks, chunkSize = 100)`:
      one `getMultipleAccountsInfo` per batch, answers joined in order with
      missing accounts kept as `None` in their slots. */
  function ChunkedGetMultipleAccountInfos<T>(getMultiple: ChunkFetcher<T>, pks: seq<Address>,
                                             chunkSize: nat := DefaultChunkSize): (r: Result<seq<Option<T>>>)
    requires chunkSize > 0
    ensures r.Ok? <==> forall c | c in Chunks(pks, chunkSize) :: getMultiple(c).Ok?
    ensures r.Err? ==> exists c | c in Chunks(pks, chunkSize) :: getMultiple(c) == Err(r.error)
  {
    match FetchAllChunks(getMultiple, Chunks(pks, chunkSize))
    case Err(e) => Err(e)
    case Ok(answers) => Ok(Flatten(answers))
  }

  /** `filter(Boolean)` on the joined answers: the accounts that were found,
      in order. A found account is an object and so always truthy. */
  function FilterPresent<T>(s: seq<Option<T>>): (r: seq<Option<T>>)
    ensures forall x | x in r :: x.Some?
    ensures |r| <= |s|
    ensures forall x | x in r :: x in s
    ensures forall j | 0 <= j < |s| && s[j].Some? :: s[j] in r
  {
    if s == [] then []
    else (if s[0].Some? then [s[0]] else []) + FilterPresent(s[1..])
  }

  /** `chunkedFetchMultipleVaultAccount(program, pks, chunkSize = 100)`: one
      `fetchMultiple` per batch, answers joined, then the missing ones
      dropped. */
  function ChunkedFetchMultipleVaultAccount<T>(fetchMultiple: ChunkFetcher<T>, pks: seq<Address>,
                                               chunkSize: nat := DefaultChunkSize): (r: Result<seq<Option<T>>>)
    requires chunkSize > 0
    ensures r.Ok? <==> forall c | c in Chunks(pks, chunkSize) :: fetchMultiple(c).Ok?
    ensures r.Err? ==> exists c | c in Chunks(pks, chunkSize) :: fetchMultiple(c) == Err(r.error)
    ensures r.Ok? ==> forall x | x in r.value :: x.Some?
  {
    match FetchAllChunks(fetchMultiple, Chunks(pks, chunkSize))
    case Err(e) => Err(e)
    case Ok(answers) => Ok(FilterPresent(Flatten(answers)))
  }

  /** What the chain holds at each address, read as one snapshot. */
  function Lookups<T>(state: Address -> Option<T>, keys: seq<Address>): (r: seq<Option<T>>)
    ensures |r| == |keys|
    ensures forall j :: 0 <= j < |keys| ==> r[j] == state(keys[j])
  {
    seq(|keys|, j requires 0 <= j < |keys| => state(keys[j]))
  }

  /** A fetcher that, whenever it answers, answers every requested key with
      what `state` holds there, one entry per key, in request order. */
  ghost predicate AnswersFrom<T>(fetch: ChunkFetcher<T>, state: Address -> Option<T>)
  {
    forall keys :: fetch(keys).Ok? ==> fetch(keys).value == Lookups(state, keys)
  }

  /** A fetcher that, whenever it answers, gives one entry per requested key. */
  ghost predicate OneEntryPerKey<T>(fetch: ChunkFetcher<T>)
  {
    forall keys :: fetch(keys).Ok? ==> |fetch(keys).value| == |keys|
  }

  lemma {:induction false} FlattenLookups<T>(state: Address -> Option<T>, answers: seq<seq<Option<T>>>,
                                             batches: seq<seq<Address>>)
    requires |answers| == |batches|
    requires forall i :: 0 <= i < |batches| ==> answers[i] == Lookups(state, batches[i])
    ensures Flatten(answers) == Lookups(state, Flatten(batches))
  {
    if batches != [] {
      var n := |batches| - 1;
      FlattenLookups(state, answers[..n], batches[..n]);
      var front, last := Flatten(batches[..n]), batches[n];
      assert Lookups(state, front + last) == Lookups(state, front) + Lookups(state, last);
    }
  }

  lemma {:induction false} FlattenLength<T>(answers: seq<seq<Option<T>>>, batches: seq<seq<Address>>)
    requires |answers| == |batches|
    requires forall i :: 0 <= i < |batches| ==> |answers[i]| == |batches[i]|
    ensures |Flatten(answers)| == |Flatten(batches)|
  {
    if batches != [] {
      var n := |batches| - 1;
      FlattenLength(answers[..n], batches[..n]);
    }
  }

  /** With a fetcher that gives one entry per key, the joined result has one
      entry per requested address. */
  lemma GetMultipleKeepsLength<T>(getMultiple: ChunkFetcher<T>, pks: seq<Address>, chunkSize: nat)
    requires chunkSize > 0
    requires OneEntryPerKey(getMultiple)
    ensures var r := ChunkedGetMultipleAccountInfos(getMultiple, pks, chunkSize);
      r.Ok? ==> |r.value| == |pks|
  {
    var cs := Chunks(pks, chunkSize);
    var all := FetchAllChunks(getMultiple, cs);
    if all.Ok? {
      FlattenLength(all.value, cs);
      FlattenChunks(pks, chunkSize);
    }
  }

  /** With a fetcher that answers from one snapshot of the chain, entry `j`
      of the joined result is what the chain holds at `pks[j]`, missing
      accounts included, so results pair up with addresses by index. */
  lemma GetMultipleKeepsSlots<T>(getMultiple: ChunkFetcher<T>, state: Address -> Option<T>,
                                 pks: seq<Address>, chunkSize: nat)
    requires chunkSize > 0
    requires AnswersFrom(getMultiple, state)
    ensures var r := ChunkedGetMultipleAccountInfos(getMultiple, pks, chunkSize);
      r.Ok? ==> |r.value| == |pks| && forall j :: 0 <= j < |pks| ==> r.value[j] == state(pks[j])
  {
    var cs := Chunks(pks, chunkSize);
    var all := FetchAllChunks(getMultiple, cs);
    if all.Ok? {
      FlattenLookups(state, all.value, cs);
      FlattenChunks(pks, chunkSize);
    }
  }

  lemma {:induction false} FlattenFullLength<T>(ss: seq<seq<T>>, n: nat)
    requires forall i :: 0 <= i < |ss| ==> |ss[i]| == n
    ensures |Flatten(ss)| == |ss| * n
  {
    if ss != [] {
      var m := |ss| - 1;
      FlattenFullLength(ss[..m], n);
      assert |Flatten(ss)| == m * n + n;
      assert |ss| * n == m * n + n;
    }
  }

  /** In a list of pieces that all hold `n` items except perhaps the last,
      item `k` of piece `b` sits at position `b * n + k` of the joined list. */
  lemma {:induction false} FlattenPiece<T>(ss: seq<seq<T>>, n: nat, b: nat, k: nat)
    requires forall i :: 0 <= i < |ss| - 1 ==> |ss[i]| == n
    requires b < |ss| && k < |ss[b]|
    ensures b * n + k < |Flatten(ss)| && Flatten(ss)[b * n + k] == ss[b][k]
  {
    var m := |ss| - 1;
    var front, last := ss[..m], ss[m];
    assert Flatten(ss) == Flatten(front) + last;
    FlattenFullLength(front, n);
    if b < m {
      FlattenPiece(front, n, b, k);
      assert front[b] == ss[b];
      assert Flatten(ss)[b * n + k] == Flatten(front)[b * n + k];
    } else {
      assert Flatten(ss)[b * n + k] == last[k];
    }
  }

  /** Every batch request that succeeds answers once per key of that batch. */
  ghost predicate BatchesAnswered<T>(fetch: ChunkFetcher<T>, batches: seq<seq<Address>>)
  {
    forall i :: 0 <= i < |batches| ==> fetch(batches[i]).Ok? ==> |fetch(batches[i]).value| == |batches[i]|
  }

  lemma OneEntryPerKeyAnswersBatches<T>(fetch: ChunkFetcher<T>, batches: seq<seq<Address>>)
    requires OneEntryPerKey(fetch)
    ensures BatchesAnswered(fetch, batches)
  {
  }

  /** Joined answers of one entry per key: the answer to key `k` of batch
      `b` sits at position `b * n + k`. */
  lemma FetchedPiece<T>(fetch: ChunkFetcher<T>, batches: seq<seq<Address>>, answers: seq<seq<Option<T>>>,
                        n: nat, b: nat, k: nat)
    requires BatchesAnswered(fetch, batches)
    requires |answers| == |batches|
    requires forall i :: 0 <= i < |batches| ==> fetch(batches[i]).Ok? && answers[i] == fetch(batches[i]).value
    requires forall i :: 0 <= i < |batches| - 1 ==> |batches[i]| == n
    requires b < |batches| && k < |batches[b]|
    ensures fetch(batches[b]).Ok? && k < |fetch(batches[b]).value|
    ensures b * n + k < |Flatten(answers)| && Flatten(answers)[b * n + k] == fetch(batches[b]).value[k]
  {
    forall i | 0 <= i < |answers| - 1
      ensures |answers[i]| == n
    {
      assert answers[i] == fetch(batches[i]).value;
    }
    assert answers[b] == fetch(batches[b]).value;
    FlattenPiece(answers, n, b, k);
  }

  /** When each batch request answers once per key of that batch (as any
      fetcher with `OneEntryPerKey` does), even when batches are answered
      from different chain states, key `k` of batch `b` is address
      `pks[b * chunkSize + k]`, and the entry at that position of the joined
      result is the answer batch `b` gave for it: missing accounts keep the
      index of their address. */
  lemma GetMultipleAt<T>(getMultiple: ChunkFetcher<T>, pks: seq<Address>, chunkSize: nat, b: nat, k: nat)
    requires chunkSize > 0
    requires BatchesAnswered(getMultiple, Chunks(pks, chunkSize))
    requires b < |Chunks(pks, chunkSize)| && k < |Chunks(pks, chunkSize)[b]|
    ensures b * chunkSize + k < |pks|
    ensures Chunks(pks, chunkSize)[b][k] == pks[b * chunkSize + k]
    ensures ChunkedGetMultipleAccountInfos(getMultiple, pks, chunkSize).Ok? ==>
      var answer := getMultiple(Chunks(pks, chunkSize)[b]);
      var r := ChunkedGetMultipleAccountInfos(getMultiple, pks, chunkSize).value;
      && answer.Ok?
      && k < |answer.value|
      && b * chunkSize + k < |r|
      && r[b * chunkSize + k] == answer.value[k]
  {
    var cs := Chunks(pks, chunkSize);
    ChunksSliced(pks, chunkSize);
    SliceItem(cs, pks, chunkSize, b, k);
    forall i | 0 <= i < |cs| - 1
      ensures |cs[i]| == chunkSize
    {
      SliceSizes(cs, pks, chunkSize, i);
    }
    var all := FetchAllChunks(getMultiple, cs);
    if all.Ok? {
      FetchedPiece(getMultiple, cs, all.value, chunkSize, b, k);
    }
  }

  /** No addresses: no batch, so no request, and an empty answer whatever
      the fetcher would have done. */
  lemma NoAddressesNoRequests<T>(fetch: ChunkFetcher<T>, chunkSize: nat)
    requires chunkSize > 0
    ensures ChunkedGetMultipleAccountInfos(fetch, [], chunkSize) == Ok([])
    ensures ChunkedFetchMultipleVaultAccount(fetch, [], chunkSize) == Ok([])
  {
  }

  /** `r` keeps some of the entries of `s`, in the order they have in `s`. */
  ghost predicate IsSubsequence<T>(r: seq<T>, s: seq<T>)
    decreases |s|
  {
    r == [] || (s != [] && ((r[0] == s[0] && IsSubsequence(r[1..], s[1..])) || IsSubsequence(r, s[1..])))
  }

  lemma {:induction false} FilterPresentIsSubsequence<T>(s: seq<Option<T>>)
    ensures IsSubsequence(FilterPresent(s), s)
  {
    if s != [] {
      FilterPresentIsSubsequence(s[1..]);
      var r := FilterPresent(s);
      if s[0].Some? {
        assert r[0] == s[0] && r[1..] == FilterPresent(s[1..]);
      } else {
        assert r == FilterPresent(s[1..]);
      }
    }
  }

  /** Filtering a batch at a time is filtering the whole: the order of the
      found accounts across batches is kept. */
  lemma {:induction false} FilterPresentAppend<T>(s: seq<Option<T>>, t: seq<Option<T>>)
    ensures FilterPresent(s + t) == FilterPresent(s) + FilterPresent(t)
  {
    if s == [] {
      assert s + t == t;
    } else {
      assert (s + t)[0] == s[0];
      assert (s + t)[1..] == s[1..] + t;
      FilterPresentAppend(s[1..], t);
    }
  }

  /** With a fetcher that answers from one snapshot of the chain, the
      filtered result is exactly the found accounts among `pks`, in the
      order of `pks`; so it is never longer than `pks`, and index `j` of it
      need not belong to `pks[j]`. */
  lemma FetchVaultsKeepsFoundInOrder<T>(fetchMultiple: ChunkFetcher<T>, state: Address -> Option<T>,
                                        pks: seq<Address>, chunkSize: nat)
    requires chunkSize > 0
    requires AnswersFrom(fetchMultiple, state)
    ensures var r := ChunkedFetchMultipleVaultAccount(fetchMultiple, pks, chunkSize);
      r.Ok? ==>
        && r.value == FilterPresent(Lookups(state, pks))
        && |r.value| <= |pks|
        && IsSubsequence(r.value, Lookups(state, pks))
        && (forall j :: 0 <= j < |pks| && state(pks[j]).Some? ==> state(pks[j]) in r.value)
  {
    var cs := Chunks(pks, chunkSize);
    var all := FetchAllChunks(fetchMultiple, cs);
    if all.Ok? {
      FlattenLookups(state, all.value, cs);
      FlattenChunks(pks, chunkSize);
      FilterPresentIsSubsequence(Lookups(state, pks));
    }
  }

  /** With a fetcher that gives one entry per key, even when batches are
      answered from different chain states, the filtered result is never
      longer than the address list. */
  lemma FetchVaultsLengthBound<T>(fetchMultiple: ChunkFetcher<T>, pks: seq<Address>, chunkSize: nat)
    requires chunkSize > 0
    requires OneEntryPerKey(fetchMultiple)
    ensures var r := ChunkedFetchMultipleVaultAccount(fetchMultiple, pks, chunkSize);
      r.Ok? ==> |r.value| <= |pks|
  {
    var cs := Chunks(pks, chunkSize);
    var all := FetchAllChunks(fetchMultiple, cs);
    if all.Ok? {
      FlattenLength(all.value, cs);
      FlattenChunks(pks, chunkSize);
    }
  }

  /** Whatever chain states the batches are answered from, the filtered
      fetch succeeds exactly when the unfiltered one does, and then is the
      unfiltered result with the missing accounts dropped, in order. */
  lemma FilteredIsFilteredGet<T>(fetch: ChunkFetcher<T>, pks: seq<Address>, chunkSize: nat)
    requires chunkSize > 0
    ensures var all := ChunkedGetMultipleAccountInfos(fetch, pks, chunkSize);
            var some := ChunkedFetchMultipleVaultAccount(fetch, pks, chunkSize);
      && (some.Ok? <==> all.Ok?)
      && (all.Ok? ==> some.value == FilterPresent(all.value) && IsSubsequence(some.value, all.value))
  {
    var all := ChunkedGetMultipleAccountInfos(fetch, pks, chunkSize);
    if all.Ok? {
      FilterPresentIsSubsequence(all.value);
    }
  }
}
