/** `_paginated_call`: half-open ranges in Python over getters whose bounds are both inclusive. */
module Pagination {
  import opened Prelude

  const ZERO_ADDRESS := "0x0000000000000000000000000000000000000000"

  /**
   An on-chain getter over the array `items`.  A deployed `Source` getter only accepts a lower
   bound of zero.
   */
  datatype Getter = Getter(items: seq<string>, zeroOnly: bool)

  /** The contract's answer: the inclusive range, or a panic when a bound is outside the array. */
  function Fetch(g: Getter, lo: int, hi: int): Option<seq<string>> {
    if 0 <= lo <= hi < |g.items| && (g.zeroOnly ==> lo == 0) then Some(g.items[lo..hi + 1]) else None
  }

  function Filled(items: seq<string>): (r: seq<string>)
    ensures ZERO_ADDRESS !in r
  {
    if items == [] then []
    else if items[0] == ZERO_ADDRESS then Filled(items[1..])
    else [items[0]] + Filled(items[1..])
  }

  /** How many of the first `n` slots are filled. */
  function FilledBefore(items: seq<string>, n: nat): nat
    requires n <= |items|
  {
    if n == 0 then 0 else FilledBefore(items, n - 1) + if items[n - 1] != ZERO_ADDRESS then 1 else 0
  }

  /** Each filled slot's item stands behind as many as there are filled slots before it, and no other item does. */
  predicate KeepsFilled(items: seq<string>, kept: seq<string>) {
    && |kept| == FilledBefore(items, |items|)
    && forall n | 0 <= n < |items| && items[n] != ZERO_ADDRESS :: StandsAt(items, kept, n)
  }

  predicate StandsAt(items: seq<string>, kept: seq<string>, n: nat)
    requires n < |items|
  {
    FilledBefore(items, n) < |kept| && kept[FilledBefore(items, n)] == items[n]
  }

  /** Python's `items[lower:]`, negative bounds counting from the end. */
  function SliceFrom(items: seq<string>, lower: int): seq<string> {
    if lower >= |items| then []
    else if lower >= 0 then items[lower..]
    else if -lower >= |items| then items
    else items[|items| + lower..]
  }

  function UpperOf(upper: Option<int>, count: nat): int { upper.GetOr(count) }

  // ----- the chunked loop, as a function -----

  /** The pages fetched for `[current, upper)`, and their contents; None when the contract panics. */
  datatype Pages = Pages(calls: seq<(int, int)>, items: Option<seq<string>>)

  function Chunked(g: Getter, current: int, upper: int, chunkSize: int): Pages
    requires chunkSize >= 1
    decreases upper - current
  {
    if current >= upper then Pages([], Some([]))
    else
      var chunkEnd := Min(current + chunkSize, upper);
      match Fetch(g, current, chunkEnd - 1)
      case None => Pages([(current, chunkEnd - 1)], None)
      case Some(chunk) =>
        var rest := Chunked(g, chunkEnd, upper, chunkSize);
        Pages([(current, chunkEnd - 1)] + rest.calls,
              if rest.items.None? then None else Some(Filled(chunk) + rest.items.value))
  }

  /** The single call and local slice of the alternative path. */
  function FromZero(g: Getter, lower: int, upper: int): Pages {
    if upper <= lower then Pages([], Some([]))
    else
      match Fetch(g, 0, upper - 1)
      case None => Pages([(0, upper - 1)], None)
      case Some(items) => Pages([(0, upper - 1)], Some(Filled(SliceFrom(items, lower))))
  }

  /** One call from zero: everything from `lower` on, a negative `lower` counting back from the end. */
  predicate FetchedFromZero(g: Getter, lower: int, upper: int, pages: Pages)
    requires lower < upper
  {
    && pages.calls == [(0, upper - 1)]
    && if 0 < upper <= |g.items| then
         var first := if lower >= 0 then lower else Max(0, upper + lower);
         pages.items.Some? && KeepsFilled(g.items[first..upper], pages.items.value)
       else pages.items.None?
  }

  /** Calls for the pages of the range, and all its filled slots; or a panic, if the getter rejects a bound. */
  predicate FetchedInChunks(g: Getter, lower: int, upper: int, chunkSize: int, pages: Pages)
    requires chunkSize >= 1 && lower < upper
  {
    if 0 <= lower && upper <= |g.items| && (g.zeroOnly ==> lower == 0 && upper <= chunkSize) then
      && pages.items.Some? && KeepsFilled(g.items[lower..upper], pages.items.value)
      && PartitionRange(pages.calls, lower, upper, chunkSize)
    else pages.items.None?
  }

  /** The calls are the consecutive pages of the range, and as many as it holds, rounded up. */
  predicate PartitionRange(calls: seq<(int, int)>, lower: int, upper: int, chunkSize: int) {
    && AllPages(calls, lower, upper, chunkSize)
    && upper - lower <= |calls| * chunkSize < upper - lower + chunkSize
  }

  method PaginatedCall(g: Getter, lower: int, upper: Option<int>, chunkSize: int, fetchFromZero: bool)
    returns (pages: Pages)
    requires chunkSize >= 1
    ensures var u := UpperOf(upper, |g.items|);
            pages == if fetchFromZero then FromZero(g, lower, u) else Chunked(g, lower, u, chunkSize)
    ensures var u := if upper.Some? then upper.value else |g.items|;
            if u <= lower then pages == Pages([], Some([]))
            else if fetchFromZero then FetchedFromZero(g, lower, u, pages)
            else FetchedInChunks(g, lower, u, chunkSize, pages)
  {
    var end := if upper.Some? then upper.value else |g.items|;
    if end <= lower {
      return Pages([], Some([]));
    }
    if fetchFromZero {
      FromZeroKeeps(g, lower, end);
      var fetched := Fetch(g, 0, end - 1);
      if fetched.None? {
        return Pages([(0, end - 1)], None);
      }
      var items := Compact(SliceFrom(fetched.value, lower));
      return Pages([(0, end - 1)], Some(items));
    }
    pages := FetchChunks(g, lower, end, chunkSize);
    if g.zeroOnly {
      ZeroOnlyInChunks(g, lower, end, chunkSize);
    } else {
      AnyInChunks(g, lower, end, chunkSize);
    }
  }

  /** The chunk loop. */
  method FetchChunks(g: Getter, lower: int, end: int, chunkSize: int) returns (pages: Pages)
    requires chunkSize >= 1 && lower < end
    ensures pages == Chunked(g, lower, end, chunkSize)
  {
    var results: seq<string>, calls: seq<(int, int)> := [], [];
    var current, panicked := lower, false;
    NothingFetched(g, lower, end, chunkSize);
    while current < end
      invariant lower <= current <= end
      invariant Fetched(g, lower, end, chunkSize, current, calls, results)
    {
      calls, results, panicked := FetchChunk(g, lower, end, chunkSize, current, calls, results);
      if panicked {
        return Pages(calls, None);
      }
      current := Min(current + chunkSize, end);
    }
    AllFetched(g, lower, end, chunkSize, calls, results);
    pages := Pages(calls, Some(results));
  }

  /** One page, appended to what has been fetched so far. */
  method FetchChunk(g: Getter, ghost lower: int, end: int, chunkSize: int, current: int,
                    calls: seq<(int, int)>, results: seq<string>)
    returns (calls': seq<(int, int)>, results': seq<string>, panicked: bool)
    requires chunkSize >= 1 && current < end && Fetched(g, lower, end, chunkSize, current, calls, results)
    ensures panicked ==> Chunked(g, lower, end, chunkSize) == Pages(calls', None)
    ensures !panicked ==> Fetched(g, lower, end, chunkSize, Min(current + chunkSize, end), calls', results')
  {
    var chunkEnd := Min(current + chunkSize, end);
    var chunk := Fetch(g, current, chunkEnd - 1);
    calls' := calls + [(current, chunkEnd - 1)];
    if chunk.None? {
      ChunkPanics(g, lower, end, chunkSize, current, calls, results);
      return calls', results, true;
    }
    ChunkFetched(g, lower, end, chunkSize, current, calls, results);
    var filled := Compact(chunk.value);
    results', panicked := results + filled, false;
  }

  /** `calls` and `results` are what the loop has accumulated when it reaches `current`. */
  ghost predicate Fetched(g: Getter, lower: int, upper: int, chunkSize: int,
                          current: int, calls: seq<(int, int)>, results: seq<string>)
    requires chunkSize >= 1
  {
    Chunked(g, lower, upper, chunkSize) == Resumed(calls, results, Chunked(g, current, upper, chunkSize))
  }

  /** What has been fetched so far, followed by the rest of the loop. */
  function Resumed(calls: seq<(int, int)>, results: seq<string>, rest: Pages): Pages {
    Pages(calls + rest.calls, if rest.items.None? then None else Some(results + rest.items.value))
  }

  lemma NothingFetched(g: Getter, lower: int, upper: int, chunkSize: int)
    requires chunkSize >= 1
    ensures Fetched(g, lower, upper, chunkSize, lower, [], [])
  {
    var rest := Chunked(g, lower, upper, chunkSize);
    assert [] + rest.calls == rest.calls;
    if rest.items.Some? {
      assert [] + rest.items.value == rest.items.value;
    }
  }

  lemma ChunkPanics(g: Getter, lower: int, upper: int, chunkSize: int,
                    current: int, calls: seq<(int, int)>, results: seq<string>)
    requires chunkSize >= 1 && current < upper && Fetched(g, lower, upper, chunkSize, current, calls, results)
    requires Fetch(g, current, Min(current + chunkSize, upper) - 1).None?
    ensures Chunked(g, lower, upper, chunkSize) == Pages(calls + [(current, Min(current + chunkSize, upper) - 1)], None)
  {
  }

  lemma ChunkFetched(g: Getter, lower: int, upper: int, chunkSize: int,
                     current: int, calls: seq<(int, int)>, results: seq<string>)
    requires chunkSize >= 1 && current < upper && Fetched(g, lower, upper, chunkSize, current, calls, results)
    requires Fetch(g, current, Min(current + chunkSize, upper) - 1).Some?
    ensures var chunkEnd := Min(current + chunkSize, upper);
            var chunk := Fetch(g, current, chunkEnd - 1).value;
            Fetched(g, lower, upper, chunkSize, chunkEnd, calls + [(current, chunkEnd - 1)], results + Filled(chunk))
  {
    var chunkEnd := Min(current + chunkSize, upper);
    var chunk, rest := Fetch(g, current, chunkEnd - 1).value, Chunked(g, chunkEnd, upper, chunkSize);
    ConcatAssociates(calls, [(current, chunkEnd - 1)], rest.calls);
    if rest.items.Some? {
      ConcatAssociates(results, Filled(chunk), rest.items.value);
    }
  }

  lemma AllFetched(g: Getter, lower: int, upper: int, chunkSize: int, calls: seq<(int, int)>, results: seq<string>)
    requires chunkSize >= 1 && Fetched(g, lower, upper, chunkSize, upper, calls, results)
    ensures Chunked(g, lower, upper, chunkSize) == Pages(calls, Some(results))
  {
    assert calls + [] == calls && results + [] == results;
  }

  /** The filter both paths share. */
  method Compact(items: seq<string>) returns (kept: seq<string>)
    ensures kept == Filled(items) && KeepsFilled(items, kept)
  {
    kept := [];
    for i := 0 to |items|
      invariant Filled(items) == kept + Filled(items[i..])
    {
      assert items[i..][1..] == items[i + 1..];
      if items[i] != ZERO_ADDRESS {
        kept := kept + [items[i]];
      }
    }
    assert kept == Filled(items);
    FilledKeeps(items);
  }

  // ----- what comes back -----

  lemma {:induction false} FilledAppend(a: seq<string>, b: seq<string>)
    ensures Filled(a + b) == Filled(a) + Filled(b)
    decreases |a|
  {
    if a == [] {
      assert a + b == b;
    } else {
      assert (a + b)[1..] == a[1..] + b;
      FilledAppend(a[1..], b);
    }
  }

  lemma FilledSnoc(items: seq<string>, item: string)
    ensures Filled(items + [item]) == if item == ZERO_ADDRESS then Filled(items) else Filled(items) + [item]
  {
    FilledAppend(items, [item]);
    assert [item][1..] == [];
  }

  lemma LastSplits(items: seq<string>) returns (before: seq<string>, item: string)
    requires items != []
    ensures items == before + [item] && |before| == |items| - 1
  {
    before, item := items[..|items| - 1], items[|items| - 1];
  }

  lemma {:induction false} FilledKeeps(items: seq<string>)
    ensures KeepsFilled(items, Filled(items))
    decreases |items|
  {
    if items != [] {
      var before, item := LastSplits(items);
      FilledKeeps(before);
      KeepsOneMore(before, Filled(before), item);
      FilledSnoc(before, item);
    }
  }

  lemma {:induction false} CountIgnoresRest(items: seq<string>, item: string, n: nat)
    requires n <= |items|
    ensures FilledBefore(items + [item], n) == FilledBefore(items, n)
    decreases n
  {
    if n > 0 {
      CountIgnoresRest(items, item, n - 1);
      assert (items + [item])[n - 1] == items[n - 1];
    }
  }

  lemma StillStands(items: seq<string>, kept: seq<string>, item: string, more: seq<string>, n: nat)
    requires n < |items| && StandsAt(items, kept, n)
    ensures StandsAt(items + [item], kept + more, n)
  {
    CountIgnoresRest(items, item, n);
  }

  lemma LastStands(items: seq<string>, kept: seq<string>, item: string)
    requires |kept| == FilledBefore(items, |items|)
    ensures StandsAt(items + [item], kept + [item], |items|)
  {
    CountIgnoresRest(items, item, |items|);
  }

  lemma KeepsOneMore(items: seq<string>, kept: seq<string>, item: string)
    requires KeepsFilled(items, kept)
    ensures KeepsFilled(items + [item], if item == ZERO_ADDRESS then kept else kept + [item])
  {
    var all, more := items + [item], if item == ZERO_ADDRESS then [] else [item];
    assert kept + [] == kept;
    CountIgnoresRest(items, item, |items|);
    forall n | 0 <= n < |all| && all[n] != ZERO_ADDRESS ensures StandsAt(all, kept + more, n) {
      if n < |items| {
        StillStands(items, kept, item, more, n);
      } else {
        LastStands(items, kept, item);
      }
    }
  }

  /** Over a getter that accepts any range, the loop returns exactly the filled slots of the range, in order. */
  lemma ChunkedReturnsRange(g: Getter, lower: int, upper: int, chunkSize: int)
    requires chunkSize >= 1 && !g.zeroOnly && 0 <= lower <= upper <= |g.items|
    ensures Chunked(g, lower, upper, chunkSize).items == Some(Filled(g.items[lower..upper]))
    ensures KeepsFilled(g.items[lower..upper], Chunked(g, lower, upper, chunkSize).items.value)
  {
    ChunksFillRange(g, lower, upper, chunkSize);
    FilledKeeps(g.items[lower..upper]);
  }

  lemma {:induction false} ChunksFillRange(g: Getter, lower: int, upper: int, chunkSize: int)
    requires chunkSize >= 1 && !g.zeroOnly && 0 <= lower <= upper <= |g.items|
    ensures Chunked(g, lower, upper, chunkSize).items == Some(Filled(g.items[lower..upper]))
    decreases upper - lower
  {
    if lower < upper {
      var chunkEnd := Min(lower + chunkSize, upper);
      ChunksFillRange(g, chunkEnd, upper, chunkSize);
      FilledAppend(g.items[lower..chunkEnd], g.items[chunkEnd..upper]);
      assert g.items[lower..chunkEnd] + g.items[chunkEnd..upper] == g.items[lower..upper];
    }
  }

  lemma FromZeroReturnsRange(g: Getter, lower: int, upper: int)
    requires 0 <= lower <= upper <= |g.items|
    ensures FromZero(g, lower, upper).items == Some(Filled(g.items[lower..upper]))
    ensures KeepsFilled(g.items[lower..upper], FromZero(g, lower, upper).items.value)
  {
    FilledKeeps(g.items[lower..upper]);
    if lower < upper {
      assert g.items[0..upper][lower..] == g.items[lower..upper];
    }
  }

  lemma FromZeroKeeps(g: Getter, lower: int, upper: int)
    requires lower < upper
    ensures FetchedFromZero(g, lower, upper, FromZero(g, lower, upper))
  {
    if 0 < upper <= |g.items| {
      SliceIsRange(g.items, lower, upper);
      FilledKeeps(SliceFrom(g.items[0..upper], lower));
    }
  }

  /** Of the first `upper` items, those from `lower` on, a negative `lower` counting from the end. */
  lemma SliceIsRange(items: seq<string>, lower: int, upper: int)
    requires lower < upper && 0 < upper <= |items|
    ensures SliceFrom(items[0..upper], lower) == items[if lower >= 0 then lower else Max(0, upper + lower)..upper]
  {
  }

  /** A getter that only accepts a lower bound of zero answers a single page that starts there. */
  lemma {:induction false} ZeroOnlyAnswersExactly(g: Getter, lower: int, upper: int, chunkSize: int)
    requires chunkSize >= 1 && g.zeroOnly && lower < upper
    ensures Chunked(g, lower, upper, chunkSize).items
            == if lower == 0 && upper <= chunkSize && upper <= |g.items| then Some(Filled(g.items[..upper])) else None
  {
    var chunkEnd := Min(lower + chunkSize, upper);
    if lower == 0 && upper <= |g.items| {
      assert chunkEnd < upper ==> Chunked(g, chunkEnd, upper, chunkSize).items.None?;
      assert g.items[0..upper] == g.items[..upper];
      assert Filled(g.items[..upper]) + [] == Filled(g.items[..upper]);
    }
  }

  lemma SinglePage(upper: int, chunkSize: int)
    requires 0 < upper <= chunkSize
    ensures PartitionRange([(0, upper - 1)], 0, upper, chunkSize)
  {
    assert 0 * chunkSize == 0 && |[(0, upper - 1)]| * chunkSize == chunkSize;
  }

  lemma ZeroOnlyInChunks(g: Getter, lower: int, upper: int, chunkSize: int)
    requires chunkSize >= 1 && g.zeroOnly && lower < upper
    ensures FetchedInChunks(g, lower, upper, chunkSize, Chunked(g, lower, upper, chunkSize))
  {
    ZeroOnlyAnswersExactly(g, lower, upper, chunkSize);
    if lower == 0 && upper <= chunkSize && upper <= |g.items| {
      ZeroOnlyPage(g, upper, chunkSize);
      SinglePage(upper, chunkSize);
      FilledKeeps(g.items[0..upper]);
    }
  }

  lemma ZeroOnlyPage(g: Getter, upper: int, chunkSize: int)
    requires g.zeroOnly && 0 < upper <= chunkSize && upper <= |g.items|
    ensures Chunked(g, 0, upper, chunkSize) == Pages([(0, upper - 1)], Some(Filled(g.items[0..upper])))
  {
    assert Chunked(g, upper, upper, chunkSize) == Pages([], Some([]));
    assert Filled(g.items[0..upper]) + [] == Filled(g.items[0..upper]);
  }

  lemma AnyInChunks(g: Getter, lower: int, upper: int, chunkSize: int)
    requires chunkSize >= 1 && !g.zeroOnly && lower < upper
    ensures FetchedInChunks(g, lower, upper, chunkSize, Chunked(g, lower, upper, chunkSize))
  {
    ChunkedPanicsExactly(g, lower, upper, chunkSize);
    if 0 <= lower && upper <= |g.items| {
      ChunkedReturnsRange(g, lower, upper, chunkSize);
      CallsArePages(g, lower, upper, chunkSize);
      CallsCount(g, lower, upper, chunkSize);
      FilledKeeps(g.items[lower..upper]);
    }
  }

  /** The loop fails, by a contract panic, exactly when a non-empty range leaves the array. */
  lemma {:induction false} ChunkedPanicsExactly(g: Getter, lower: int, upper: int, chunkSize: int)
    requires chunkSize >= 1 && !g.zeroOnly
    ensures Chunked(g, lower, upper, chunkSize).items.None? <==> lower < upper && (lower < 0 || |g.items| < upper)
    decreases upper - lower
  {
    if lower < upper {
      ChunkedPanicsExactly(g, Min(lower + chunkSize, upper), upper, chunkSize);
    }
  }

  /** The two paths agree on every range of every array exactly when the range does not start below zero. */
  lemma PathsAgreeExactly(items: seq<string>, lower: int, upper: int, chunkSize: int)
    requires chunkSize >= 1
    ensures Chunked(Getter(items, false), lower, upper, chunkSize).items
            == FromZero(Getter(items, true), lower, upper).items
            <==> (0 <= lower || upper <= 0 || upper <= lower || |items| < upper)
  {
    var g := Getter(items, false);
    ChunkedPanicsExactly(g, lower, upper, chunkSize);
    if 0 <= lower <= upper <= |items| {
      ChunkedReturnsRange(g, lower, upper, chunkSize);
      FromZeroReturnsRange(Getter(items, true), lower, upper);
    }
  }

  /** The page size never shows in the result. */
  lemma ChunkSizeIrrelevant(g: Getter, lower: int, upper: int, c1: int, c2: int)
    requires c1 >= 1 && c2 >= 1 && !g.zeroOnly
    ensures Chunked(g, lower, upper, c1).items == Chunked(g, lower, upper, c2).items
  {
    ChunkedPanicsExactly(g, lower, upper, c1);
    ChunkedPanicsExactly(g, lower, upper, c2);
    if 0 <= lower <= upper <= |g.items| {
      ChunkedReturnsRange(g, lower, upper, c1);
      ChunkedReturnsRange(g, lower, upper, c2);
    }
  }

  /** Adjacent pages concatenate. */
  lemma PagesAdd(g: Getter, l: int, m: int, u: int, chunkSize: int)
    requires chunkSize >= 1 && !g.zeroOnly && 0 <= l <= m <= u <= |g.items|
    ensures Chunked(g, l, u, chunkSize).items
            == Some(Chunked(g, l, m, chunkSize).items.GetOr([]) + Chunked(g, m, u, chunkSize).items.GetOr([]))
  {
    ChunksFillRange(g, l, m, chunkSize);
    ChunksFillRange(g, m, u, chunkSize);
    ChunksFillRange(g, l, u, chunkSize);
    FilledAppend(g.items[l..m], g.items[m..u]);
    assert g.items[l..m] + g.items[m..u] == g.items[l..u];
  }

  // ----- which calls are made -----

  /** Call `i` covers the `i`-th page of the range: full except perhaps the last. */
  predicate IsPage(call: (int, int), i: nat, lower: int, upper: int, chunkSize: int) {
    && call.0 == lower + i * chunkSize
    && call.1 == Min(call.0 + chunkSize, upper) - 1
    && call.0 <= call.1
  }

  predicate AllPages(calls: seq<(int, int)>, lower: int, upper: int, chunkSize: int) {
    forall i | 0 <= i < |calls| :: IsPage(calls[i], i, lower, upper, chunkSize)
  }

  /** A full page in front moves the others up by one. */
  lemma PagesShift(calls: seq<(int, int)>, lower: int, upper: int, chunkSize: int)
    requires chunkSize >= 1 && lower + chunkSize <= upper
    requires AllPages(calls, lower + chunkSize, upper, chunkSize)
    ensures AllPages([(lower, lower + chunkSize - 1)] + calls, lower, upper, chunkSize)
  {
    var all := [(lower, lower + chunkSize - 1)] + calls;
    forall i | 0 <= i < |all| ensures IsPage(all[i], i, lower, upper, chunkSize) {
      if i == 0 {
        assert 0 * chunkSize == 0;
      } else {
        assert all[i] == calls[i - 1] && IsPage(calls[i - 1], i - 1, lower + chunkSize, upper, chunkSize);
        assert i * chunkSize == (i - 1) * chunkSize + chunkSize;
      }
    }
  }

  lemma {:induction false} CallsArePages(g: Getter, lower: int, upper: int, chunkSize: int)
    requires chunkSize >= 1 && !g.zeroOnly && 0 <= lower <= upper <= |g.items|
    ensures AllPages(Chunked(g, lower, upper, chunkSize).calls, lower, upper, chunkSize)
    decreases upper - lower
  {
    if lower < upper {
      if lower + chunkSize < upper {
        CallsArePages(g, lower + chunkSize, upper, chunkSize);
        PagesShift(Chunked(g, lower + chunkSize, upper, chunkSize).calls, lower, upper, chunkSize);
      } else {
        assert Chunked(g, lower, upper, chunkSize).calls == [(lower, upper - 1)];
        assert 0 * chunkSize == 0;
      }
    }
  }

  lemma {:induction false} CallsCount(g: Getter, lower: int, upper: int, chunkSize: int)
    requires chunkSize >= 1 && !g.zeroOnly && 0 <= lower <= upper <= |g.items|
    ensures upper - lower <= |Chunked(g, lower, upper, chunkSize).calls| * chunkSize < upper - lower + chunkSize
    decreases upper - lower
  {
    if lower < upper {
      var chunkEnd := Min(lower + chunkSize, upper);
      var n := |Chunked(g, chunkEnd, upper, chunkSize).calls|;
      CallsCount(g, chunkEnd, upper, chunkSize);
      assert |Chunked(g, lower, upper, chunkSize).calls| == n + 1;
      assert (n + 1) * chunkSize == n * chunkSize + chunkSize;
      if chunkEnd == upper {
        assert n == 0;
      }
    }
  }

  /**
   The inclusive calls are the consecutive pages of the range: non-empty, inside the array, and as
   many as the range holds, rounded up.
   */
  lemma CallsPartitionRange(g: Getter, lower: int, upper: int, chunkSize: int)
    requires chunkSize >= 1 && !g.zeroOnly && 0 <= lower <= upper <= |g.items|
    ensures var calls := Chunked(g, lower, upper, chunkSize).calls;
            && AllPages(calls, lower, upper, chunkSize)
            && (forall i | 0 <= i < |calls| :: 0 <= calls[i].0 <= calls[i].1 < |g.items|)
            && upper - lower <= |calls| * chunkSize < upper - lower + chunkSize
  {
    CallsArePages(g, lower, upper, chunkSize);
    CallsCount(g, lower, upper, chunkSize);
    PagesStartInside(Chunked(g, lower, upper, chunkSize).calls, lower, upper, chunkSize);
  }

  lemma PagesStartInside(calls: seq<(int, int)>, lower: int, upper: int, chunkSize: int)
    requires 0 <= lower && chunkSize >= 1
    requires AllPages(calls, lower, upper, chunkSize)
    ensures forall i | 0 <= i < |calls| :: 0 <= calls[i].0 <= calls[i].1 < upper
  {
    forall i | 0 <= i < |calls| ensures 0 <= calls[i].0 <= calls[i].1 < upper {
      assert IsPage(calls[i], i, lower, upper, chunkSize);
      assert i * chunkSize >= 0;
    }
  }
}
