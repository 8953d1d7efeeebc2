/**
 * describe.js `groupByBuckets`: the first items of an iterable, in groups
 * ("buckets") of a fixed size, each labelled with the zero-based index range
 * it covers in the original iteration.
 */
module Buckets {
  import opened Wrappers
  import opened JsValues

  function Min(a: int, b: int): int { if a <= b then a else b }
  function Max(a: int, b: int): int { if a >= b then a else b }

  /** One group: its index range `[lower, upper]` and its items. */
  datatype Bucket<T> = Bucket(lower: int, upper: int, items: seq<T>)

  /** The groups, and whether iteration was cut short at `maxTotal`. */
  datatype Buckets<T> = Buckets(buckets: seq<Bucket<T>>, truncated: bool)

  /** The first `n` items of a source. */
  function Items<T>(src: Source<T>, n: nat): (xs: seq<T>)
    ensures |xs| == n
  {
    if n == 0 then [] else Items(src, n - 1) + [src.at(n - 1)]
  }

  lemma {:induction false} ItemsAt<T>(src: Source<T>, n: nat, k: nat)
    requires k < n
    ensures Items(src, n)[k] == src.at(k)
    decreases n
  {
    if k < n - 1 {
      ItemsAt(src, n - 1, k);
    }
  }

  /** How many items are collected: all of them, but no more than `maxTotal`. */
  function Taken<T>(src: Source<T>, maxTotal: int): nat
  {
    if src.length.None? then Max(maxTotal, 0) else Min(src.length.value, Max(maxTotal, 0))
  }

  /**
   * Consecutive groups of `size` items (the last one possibly shorter); the
   * first starts at index `first`. Each group's upper bound is capped by
   * `maxTotal - 1`, as the source's bounds are.
   */
  function Chunks<T>(xs: seq<T>, size: nat, first: int, maxTotal: int): (c: seq<Bucket<T>>)
    requires size >= 1
    ensures xs == [] <==> c == []
    decreases |xs|
  {
    if xs == [] then []
    else if |xs| <= size then [Bucket(first, Min(first + size, maxTotal) - 1, xs)]
    else [Bucket(first, Min(first + size, maxTotal) - 1, xs[..size])] + Chunks(xs[size..], size, first + size, maxTotal)
  }

  /** What `groupByBuckets(itr, size, maxTotal)` returns or throws. */
  function GroupByBucketsSpec<T>(iterable: bool, src: Source<T>, size: real, maxTotal: int): Result<Buckets<T>, Error>
  {
    if !iterable then Err(TypeError("Must be Iterable"))
    else if size.Floor < 1 then Err(TypeError("size must be positive"))
    else if src.failure.Some? && src.failure.value.at <= Taken(src, maxTotal) then Err(src.failure.value.error)
    else Ok(Buckets(Chunks(Items(src, Taken(src, maxTotal)), size.Floor, 0, maxTotal), Has(src, Max(maxTotal, 0))))
  }

  function Last<T>(s: seq<T>): T
    requires s != []
  {
    s[|s| - 1]
  }

  /** The groups after one more item: it extends the last group or, when that is full, opens the next. */
  function AddTo<T>(c: seq<Bucket<T>>, x: T, size: nat, first: int, maxTotal: int): seq<Bucket<T>>
  {
    if c == [] then [Bucket(first, Min(first + size, maxTotal) - 1, [x])]
    else if |Last(c).items| == size then
      c + [Bucket(Last(c).lower + size, Min(Last(c).lower + 2 * size, maxTotal) - 1, [x])]
    else c[..|c| - 1] + [Last(c).(items := Last(c).items + [x])]
  }

  /** Adding to groups behind a first one leaves the first alone. */
  lemma {:induction false} AddToCons<T>(b0: Bucket<T>, rest: seq<Bucket<T>>, x: T, size: nat, first: int, first': int, maxTotal: int)
    requires rest != []
    ensures AddTo([b0] + rest, x, size, first, maxTotal) == [b0] + AddTo(rest, x, size, first', maxTotal)
  {
    var c := [b0] + rest;
    assert Last(c) == Last(rest);
    assert c[..|c| - 1] == [b0] + rest[..|rest| - 1];
  }

  /** Adding one item to the grouped items is adding it to the groups. */
  lemma {:induction false} ChunksSnoc<T>(xs: seq<T>, x: T, size: nat, first: int, maxTotal: int)
    requires size >= 1
    ensures Chunks(xs + [x], size, first, maxTotal) == AddTo(Chunks(xs, size, first, maxTotal), x, size, first, maxTotal)
    decreases |xs|
  {
    if xs == [] {
      assert xs + [x] == [x];
    } else if |xs| < size {
      SnocShort(xs, x, size, first, maxTotal);
    } else if |xs| == size {
      SnocFull(xs, x, size, first, maxTotal);
    } else {
      ChunksSnoc(xs[size..], x, size, first + size, maxTotal);
      SnocLong(xs, x, size, first, maxTotal);
    }
  }

  /** Fewer than `size` items: the one group grows. */
  lemma SnocShort<T>(xs: seq<T>, x: T, size: nat, first: int, maxTotal: int)
    requires 1 <= |xs| < size
    ensures Chunks(xs + [x], size, first, maxTotal) == AddTo(Chunks(xs, size, first, maxTotal), x, size, first, maxTotal)
  {
    var c := Chunks(xs, size, first, maxTotal);
    assert c == [Bucket(first, Min(first + size, maxTotal) - 1, xs)];
    assert Last(c).items == xs && c[..|c| - 1] == [];
  }

  /** Exactly `size` items: the next item opens a second group. */
  lemma SnocFull<T>(xs: seq<T>, x: T, size: nat, first: int, maxTotal: int)
    requires 1 <= size == |xs|
    ensures Chunks(xs + [x], size, first, maxTotal) == AddTo(Chunks(xs, size, first, maxTotal), x, size, first, maxTotal)
  {
    assert (xs + [x])[..size] == xs;
    assert (xs + [x])[size..] == [x];
    var c := Chunks(xs, size, first, maxTotal);
    assert c == [Bucket(first, Min(first + size, maxTotal) - 1, xs)];
    assert Chunks([x], size, first + size, maxTotal) == [Bucket(first + size, Min(first + size + size, maxTotal) - 1, [x])];
  }

  /** More than `size` items: the first group stays, the item goes to the rest. */
  lemma SnocLong<T>(xs: seq<T>, x: T, size: nat, first: int, maxTotal: int)
    requires 1 <= size < |xs|
    requires Chunks(xs[size..] + [x], size, first + size, maxTotal) ==
             AddTo(Chunks(xs[size..], size, first + size, maxTotal), x, size, first + size, maxTotal)
    ensures Chunks(xs + [x], size, first, maxTotal) == AddTo(Chunks(xs, size, first, maxTotal), x, size, first, maxTotal)
  {
    var b0 := Bucket(first, Min(first + size, maxTotal) - 1, xs[..size]);
    var rest := Chunks(xs[size..], size, first + size, maxTotal);
    assert (xs + [x])[..size] == xs[..size];
    assert (xs + [x])[size..] == xs[size..] + [x];
    AddToCons(b0, rest, x, size, first, first + size, maxTotal);
  }

  /** Concatenating the groups' items. */
  function Flatten<T>(bs: seq<Bucket<T>>): seq<T>
  {
    if bs == [] then [] else bs[0].items + Flatten(bs[1..])
  }

  /** No item is lost, duplicated or reordered: the groups concatenate back to the collected items. */
  lemma {:induction false} ChunksFlatten<T>(xs: seq<T>, size: nat, first: int, maxTotal: int)
    requires size >= 1
    ensures Flatten(Chunks(xs, size, first, maxTotal)) == xs
    decreases |xs|
  {
    if xs != [] && |xs| > size {
      ChunksFlatten(xs[size..], size, first + size, maxTotal);
      var c := Chunks(xs, size, first, maxTotal);
      assert c[1..] == Chunks(xs[size..], size, first + size, maxTotal);
      assert xs == xs[..size] + xs[size..];
    }
  }

  lemma MulSucc(b: int, size: int)
    ensures (b + 1) * size == b * size + size
  {
  }

  /** Group `b` of `Chunks` (see `ChunksBounds`). */
  lemma {:induction false} ChunkAt<T>(xs: seq<T>, size: nat, first: int, maxTotal: int, b: nat)
    requires size >= 1 && b < |Chunks(xs, size, first, maxTotal)|
    ensures Chunks(xs, size, first, maxTotal)[b].lower == first + b * size
    ensures Chunks(xs, size, first, maxTotal)[b].upper == Min(first + (b + 1) * size, maxTotal) - 1
    ensures 1 <= |Chunks(xs, size, first, maxTotal)[b].items| <= size
    ensures b < |Chunks(xs, size, first, maxTotal)| - 1 ==> |Chunks(xs, size, first, maxTotal)[b].items| == size
    decreases b
  {
    var c := Chunks(xs, size, first, maxTotal);
    if b > 0 {
      var c' := Chunks(xs[size..], size, first + size, maxTotal);
      assert c == [Bucket(first, Min(first + size, maxTotal) - 1, xs[..size])] + c';
      assert c[b] == c'[b - 1];
      ChunkAt(xs[size..], size, first + size, maxTotal, b - 1);
      MulSucc(b - 1, size);
      MulSucc(b, size);
    }
  }

  /**
   * Group `b` starts at index `first + b * size` and ends at the smaller of its
   * last possible index and `maxTotal - 1`; every group but the last is full.
   */
  lemma ChunksBounds<T>(xs: seq<T>, size: nat, first: int, maxTotal: int)
    requires size >= 1
    ensures var c := Chunks(xs, size, first, maxTotal);
            forall b :: 0 <= b < |c| ==>
              && c[b].lower == first + b * size
              && c[b].upper == Min(first + (b + 1) * size, maxTotal) - 1
              && 1 <= |c[b].items| <= size
              && (b < |c| - 1 ==> |c[b].items| == size)
  {
    var c := Chunks(xs, size, first, maxTotal);
    forall b | 0 <= b < |c|
      ensures c[b].lower == first + b * size
      ensures c[b].upper == Min(first + (b + 1) * size, maxTotal) - 1
      ensures 1 <= |c[b].items| <= size
      ensures b < |c| - 1 ==> |c[b].items| == size
    {
      ChunkAt(xs, size, first, maxTotal, b);
    }
  }

  /**
   * On success, `result.truncated` holds exactly when the iterable has more
   * than `maxTotal` items, and the groups hold the first `min(n, maxTotal)`
   * items in iteration order.
   */
  lemma GroupByBucketsResult<T>(iterable: bool, src: Source<T>, size: real, maxTotal: int)
    requires GroupByBucketsSpec(iterable, src, size, maxTotal).Ok?
    ensures GroupByBucketsSpec(iterable, src, size, maxTotal).value.truncated <==>
              src.length.None? || src.length.value > Max(maxTotal, 0)
    ensures var items := Flatten(GroupByBucketsSpec(iterable, src, size, maxTotal).value.buckets);
            && |items| == Taken(src, maxTotal)
            && forall k :: 0 <= k < |items| ==> items[k] == src.at(k)
  {
    var n := Taken(src, maxTotal);
    ChunksFlatten(Items(src, n), size.Floor, 0, maxTotal);
    forall k | 0 <= k < n ensures Items(src, n)[k] == src.at(k) {
      ItemsAt(src, n, k);
    }
  }

  /** `d * size` for `d >= 1` is at least `size`. */
  lemma {:induction false} MulAtLeast(d: nat, size: nat)
    requires d >= 1
    ensures d * size >= size
    decreases d
  {
    if d > 1 {
      MulAtLeast(d - 1, size);
      MulSucc(d - 1, size);
    }
  }

  /** `floor(i / size) == k` for an index `i` of the `k`-th group. */
  lemma DivBetween(i: nat, size: nat, k: nat)
    requires size >= 1 && k * size <= i < k * size + size
    ensures i / size == k
  {
    var q := i / size;
    var r := i % size;
    assert i == q * size + r && 0 <= r < size;
    if q > k {
      MulAtLeast(q - k, size);
    } else if q < k {
      MulAtLeast(k - q, size);
    }
  }

  /** The loop's invariant: `buckets` groups `xs`, and the last group's position is known. */
  ghost predicate ChunkState<T>(xs: seq<T>, s: nat, maxTotal: int, buckets: seq<Bucket<T>>)
  {
    && s >= 1
    && buckets == Chunks(xs, s, 0, maxTotal)
    && (xs == [] <==> buckets == [])
    && (buckets != [] ==>
          && Last(buckets).lower == (|buckets| - 1) * s
          && 1 <= |Last(buckets).items| <= s
          && |xs| == Last(buckets).lower + |Last(buckets).items|)
  }

  /** Placing item number `|xs|` into bucket `floor(|xs| / s)` keeps the invariant. */
  lemma AddItem<T>(xs: seq<T>, x: T, s: nat, maxTotal: int, buckets: seq<Bucket<T>>, i: nat)
    requires ChunkState(xs, s, maxTotal, buckets) && i == |xs|
    ensures 0 <= i / s <= |buckets|
    ensures i / s < |buckets| ==>
              ChunkState(xs + [x], s, maxTotal, buckets[i / s := buckets[i / s].(items := buckets[i / s].items + [x])])
    ensures i / s >= |buckets| ==> ChunkState(xs + [x], s, maxTotal, buckets + [Opened(i / s, s, maxTotal, x)])
  {
    var b := i / s;
    if i == 0 {
      AddFirst(x, s, maxTotal);
      assert xs + [x] == [x] && buckets + [Bucket(0 * s, Min((0 + 1) * s, maxTotal) - 1, [x])] == [Bucket(0 * s, Min((0 + 1) * s, maxTotal) - 1, [x])];
    } else if |Last(buckets).items| == s {
      AddToFull(xs, x, s, maxTotal, buckets, i);
      assert b * s == |buckets| * s && (b + 1) * s == (|buckets| + 1) * s;
    } else {
      AddToPartial(xs, x, s, maxTotal, buckets, i);
    }
  }

  /** The first item opens bucket 0. */
  lemma AddFirst<T>(x: T, s: nat, maxTotal: int)
    requires s >= 1
    ensures 0 / s == 0
    ensures ChunkState([x], s, maxTotal, [Bucket(0 * s, Min((0 + 1) * s, maxTotal) - 1, [x])])
  {
    ChunksSnoc([], x, s, 0, maxTotal);
    assert [] + [x] == [x];
  }

  /** A full last bucket: the item opens bucket number `|buckets|`. */
  lemma AddToFull<T>(xs: seq<T>, x: T, s: nat, maxTotal: int, buckets: seq<Bucket<T>>, i: nat)
    requires ChunkState(xs, s, maxTotal, buckets) && i == |xs| && i > 0 && |Last(buckets).items| == s
    ensures i / s == |buckets|
    ensures ChunkState(xs + [x], s, maxTotal, buckets + [Bucket(|buckets| * s, Min((|buckets| + 1) * s, maxTotal) - 1, [x])])
  {
    var n := |buckets|;
    MulSucc(n - 1, s);
    MulSucc(n, s);
    DivBetween(i, s, n);
    ChunksSnoc(xs, x, s, 0, maxTotal);
  }

  /** A last bucket with room: the item joins it. */
  lemma AddToPartial<T>(xs: seq<T>, x: T, s: nat, maxTotal: int, buckets: seq<Bucket<T>>, i: nat)
    requires ChunkState(xs, s, maxTotal, buckets) && i == |xs| && i > 0 && |Last(buckets).items| < s
    ensures i / s == |buckets| - 1
    ensures var n := |buckets|;
            ChunkState(xs + [x], s, maxTotal, buckets[n - 1 := buckets[n - 1].(items := buckets[n - 1].items + [x])])
  {
    var n := |buckets|;
    MulSucc(n - 1, s);
    DivBetween(i, s, n - 1);
    ChunksSnoc(xs, x, s, 0, maxTotal);
    assert buckets[n - 1 := buckets[n - 1].(items := buckets[n - 1].items + [x])]
        == buckets[..n - 1] + [Last(buckets).(items := Last(buckets).items + [x])];
  }

  /** What the loop knows before pulling item `i`. */
  ghost predicate Pulling<T>(src: Source<T>, s: nat, maxTotal: int, i: nat, buckets: seq<Bucket<T>>)
  {
    && i <= Taken(src, maxTotal)
    && (src.failure.None? || src.failure.value.at >= i)
    && ChunkState(Items(src, i), s, maxTotal, buckets)
  }

  /** A `next()` call that throws ends `groupByBuckets` with its error. */
  lemma ExitThrows<T>(src: Source<T>, size: real, maxTotal: int, i: nat, buckets: seq<Bucket<T>>)
    requires size.Floor >= 1 && Pulling(src, size.Floor, maxTotal, i, buckets) && Pull(src, i).PullThrows?
    ensures GroupByBucketsSpec(true, src, size, maxTotal) == Err(Pull(src, i).error)
  {
  }

  /** An iterator that is done leaves the buckets so far, not truncated. */
  lemma ExitDone<T>(src: Source<T>, size: real, maxTotal: int, i: nat, buckets: seq<Bucket<T>>)
    requires size.Floor >= 1 && Pulling(src, size.Floor, maxTotal, i, buckets) && Pull(src, i).Done?
    ensures GroupByBucketsSpec(true, src, size, maxTotal) == Ok(Buckets(buckets, false))
  {
  }

  /** An item at `maxTotal` or beyond leaves the buckets so far, truncated. */
  lemma ExitTruncated<T>(src: Source<T>, size: real, maxTotal: int, i: nat, buckets: seq<Bucket<T>>)
    requires size.Floor >= 1 && Pulling(src, size.Floor, maxTotal, i, buckets) && Pull(src, i).Item? && i >= maxTotal
    ensures GroupByBucketsSpec(true, src, size, maxTotal) == Ok(Buckets(buckets, true))
  {
  }

  /** Pulling an item below `maxTotal` leaves room for one more. */
  lemma LoopStep<T>(src: Source<T>, maxTotal: int, i: nat)
    requires i <= Taken(src, maxTotal) && (src.failure.None? || src.failure.value.at >= i)
    requires Pull(src, i).Item? && i < maxTotal
    ensures i + 1 <= Taken(src, maxTotal) && (src.failure.None? || src.failure.value.at >= i + 1)
    ensures Items(src, i + 1) == Items(src, i) + [Pull(src, i).item]
  {
  }

  /** Placing item `i` in bucket `floor(i / size)` keeps what the loop knows, one item on. */
  lemma Pulled<T>(src: Source<T>, s: nat, maxTotal: int, i: nat, before: seq<Bucket<T>>, after: seq<Bucket<T>>)
    requires Pulling(src, s, maxTotal, i, before) && Pull(src, i).Item? && i < maxTotal && s >= 1
    requires i / s < |before| ==> after == before[i / s := before[i / s].(items := before[i / s].items + [Pull(src, i).item])]
    requires i / s >= |before| ==> after == before + [Opened(i / s, s, maxTotal, Pull(src, i).item)]
    ensures Pulling(src, s, maxTotal, i + 1, after)
  {
    AddItem(Items(src, i), Pull(src, i).item, s, maxTotal, before, i);
    LoopStep(src, maxTotal, i);
  }

  /** `buckets[bucket].items.push(item)` when the bucket exists, otherwise the bucket is opened with the item. */
  method Place<T>(buckets: seq<Bucket<T>>, i: nat, s: nat, maxTotal: int, x: T) returns (after: seq<Bucket<T>>)
    requires s >= 1
    ensures i / s < |buckets| ==> after == buckets[i / s := buckets[i / s].(items := buckets[i / s].items + [x])]
    ensures i / s >= |buckets| ==> after == buckets + [Opened(i / s, s, maxTotal, x)]
  {
    var b := i / s;
    if b < |buckets| {
      after := buckets[b := buckets[b].(items := buckets[b].items + [x])];
    } else {
      after := buckets + [Opened(b, s, maxTotal, x)];
    }
  }

  /** The bucket `b` as it is opened on its first item `x`. */
  function Opened<T>(b: int, s: nat, maxTotal: int, x: T): (o: Bucket<T>)
    ensures o.items == [x] && o.lower == b * s
  {
    Bucket(b * s, Min((b + 1) * s, maxTotal) - 1, [x])
  }

  /**
   * `groupByBuckets`: iterates with `for (const item of itr)`, stopping (and
   * marking the result truncated) on the first item past `maxTotal`; an item
   * goes into bucket `floor(i / size)`, which is created on its first item.
   */
  method GroupByBuckets<T>(iterable: bool, src: Source<T>, size: real := 10.0, maxTotal: int := 50)
    returns (r: Result<Buckets<T>, Error>)
    ensures r == GroupByBucketsSpec(iterable, src, size, maxTotal)
  {
    if !iterable {
      return Err(TypeError("Must be Iterable"));
    }
    var s := size.Floor;
    if s < 1 {
      return Err(TypeError("size must be positive"));
    }
    var buckets: seq<Bucket<T>> := [];
    var truncated := false;
    var i: nat := 0;
    while true
      invariant Pulling(src, s, maxTotal, i, buckets) && !truncated
      decreases Taken(src, maxTotal) - i
    {
      var p := Pull(src, i);
      if p.PullThrows? {
        ExitThrows(src, size, maxTotal, i, buckets);
        return Err(p.error);
      }
      if p.Done? {
        ExitDone(src, size, maxTotal, i, buckets);
        break;
      }
      if i >= maxTotal {
        ExitTruncated(src, size, maxTotal, i, buckets);
        truncated := true;
        break;
      }
      ghost var before := buckets;
      buckets := Place(buckets, i, s, maxTotal, p.item);
      Pulled(src, s, maxTotal, i, before, buckets);
      i := i + 1;
    }
    return Ok(Buckets(buckets, truncated));
  }

  /** Every collected item is one of the source's items. */
  lemma {:induction false} ItemsMembers<T>(src: Source<T>, n: nat)
    ensures forall x :: x in Items(src, n) ==> exists k: nat :: x == src.at(k)
  {
    if n > 0 {
      ItemsMembers(src, n - 1);
      assert forall x :: x in Items(src, n) ==> x in Items(src, n - 1) || x == src.at(n - 1);
    }
  }

  /** Every grouped item is an item of the input. */
  lemma {:induction false} ChunksMembers<T>(xs: seq<T>, size: nat, first: int, maxTotal: int)
    requires size >= 1
    ensures forall b, x :: b in Chunks(xs, size, first, maxTotal) && x in b.items ==> x in xs
    decreases |xs|
  {
    if |xs| > size {
      ChunksMembers(xs[size..], size, first + size, maxTotal);
      assert xs == xs[..size] + xs[size..];
    }
  }
}
