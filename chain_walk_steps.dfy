/**
 * The older `describe` as the JavaScript runs it: a `for ... of` loop over
 * the iterable values with a running index, and a `do ... while` loop up the
 * prototype chain whose inner loop pushes each entry onto `properties`,
 * marking in place the one earlier entry it overrides. Each method computes
 * exactly what its specification function in ChainWalk says.
 */
module ChainWalkSteps {
  import opened Wrappers
  import opened JsValues
  import opened Classifier
  import opened ChainWalk

  /** Entries already found, in front of what the rest of a walk finds. */
  function Prefixed(found: seq<Found>, r: Result<seq<Found>, Error>): Result<seq<Found>, Error>
  {
    if r.Ok? then Ok(found + r.value) else r
  }

  /** Values already described, in front of what the rest of the loop yields. */
  function PrefixedValues(values: seq<Report>, r: Result<IterableValues, Error>): Result<IterableValues, Error>
  {
    if r.Ok? then Ok(IterableValues(values + r.value.values, r.value.truncated)) else r
  }

  lemma {:induction false} PrefixedNothing(r: Result<seq<Found>, Error>)
    ensures Prefixed([], r) == r
  {
    if r.Ok? {
      assert [] + r.value == r.value;
    }
  }

  lemma {:induction false} PrefixedDone(found: seq<Found>)
    ensures Prefixed(found, Ok([])) == Ok(found)
  {
    assert found + [] == found;
  }

  lemma {:induction false} PrefixedValuesNothing(r: Result<IterableValues, Error>)
    ensures PrefixedValues([], r) == r
  {
    if r.Ok? {
      assert [] + r.value.values == r.value.values;
    }
  }

  lemma {:induction false} PrefixedValuesDone(values: seq<Report>, truncated: bool)
    ensures PrefixedValues(values, Ok(IterableValues([], truncated))) == Ok(IterableValues(values, truncated))
  {
    assert values + [] == values;
  }

  /** Pushing one more entry is the last step of `MarkAll`. */
  lemma {:induction false} MarkAllSnoc(fs: seq<Found>, f: Found)
    ensures MarkAll(fs + [f]) == MarkOne(MarkAll(fs), f.key, f.entry)
  {
    assert (fs + [f])[..|fs|] == fs;
  }

  /** The walk's entries, marked as `properties` holds them. */
  function Marked(r: Result<seq<Found>, Error>): Result<seq<Entry>, Error>
  {
    if r.Ok? then Ok(MarkAll(r.value)) else Err(r.error)
  }

  /** A report from its parts, failing with the first part that fails. */
  function Compose(head: Result<(string, Option<string>), Error>, values: Result<Option<IterableValues>, Error>,
                   props: Result<seq<Entry>, Error>): Result<Report, Error>
  {
    var hd :- head;
    var vs :- values;
    var ps :- props;
    Ok(Report(hd.0, hd.1, vs, ps))
  }

  /** A description with stack left is its head, its iterable values and its marked chain, in that order. */
  lemma {:induction false} DescribeOldParts(rev: Revision, host: Host, h: Heap, v: Value, expand: Value, fuel: nat)
    requires Valid(h) && ValueIn(h, v) && ValueIn(h, expand)
    requires ExpansionStops(rev, h, v, expand) && fuel > 0
    ensures DescribeOld(rev, host, h, v, expand, fuel) ==
            Compose(Head(rev, host, h, v), ExpandOld(rev, host, h, v, expand, fuel), Marked(ChainEntries(rev, host, h, v, v, fuel)))
  {
  }

  /** `describe(obj, expandIterables)`, statement by statement. */
  method DescribeOldStep(rev: Revision, host: Host, h: Heap, v: Value, expand: Value, fuel: nat) returns (r: Result<Report, Error>)
    requires Valid(h) && ValueIn(h, v) && ValueIn(h, expand)
    requires ExpansionStops(rev, h, v, expand)
    ensures r == DescribeOld(rev, host, h, v, expand, fuel)
    decreases fuel, 5, 0
  {
    if fuel == 0 {
      return Err(StackOverflow);
    }
    DescribeOldParts(rev, host, h, v, expand, fuel);
    var head := Head(rev, host, h, v);
    if head.Err? {
      return Err(head.error);
    }
    var values := ExpandStep(rev, host, h, v, expand, fuel);
    if values.Err? {
      return Err(values.error);
    }
    var properties := WalkChain(rev, host, h, v, fuel);
    if properties.Err? {
      return Err(properties.error);
    }
    return Ok(Report(head.value.0, head.value.1, values.value, properties.value));
  }

  /** The loop's values wrapped as the report's `iterable`. */
  function Wrapped(r: Result<IterableValues, Error>): Result<Option<IterableValues>, Error>
  {
    if r.Ok? then Ok(Some(r.value)) else Err(r.error)
  }

  /** `isIterable(obj)` throwing ends the description with its error. */
  lemma {:induction false} ExpandOldThrows(rev: Revision, host: Host, h: Heap, v: Value, expand: Value, fuel: nat)
    requires Valid(h) && ValueIn(h, v) && ValueIn(h, expand)
    requires ExpansionStops(rev, h, v, expand)
    ensures Iterable(rev, h, v).Err? ==> ExpandOld(rev, host, h, v, expand, fuel) == Err(Iterable(rev, h, v).error)
  {
  }

  /** Without an iterable and a truthy `expandIterables` there are no values. */
  lemma {:induction false} ExpandOldSkips(rev: Revision, host: Host, h: Heap, v: Value, expand: Value, fuel: nat)
    requires Valid(h) && ValueIn(h, v) && ValueIn(h, expand)
    requires ExpansionStops(rev, h, v, expand)
    ensures Iterable(rev, h, v).Ok? && !(Iterable(rev, h, v).value && Truthy(expand)) ==>
              ExpandOld(rev, host, h, v, expand, fuel) == Ok(None)
  {
  }

  /** An invalid limit ends the description with its error. */
  lemma {:induction false} ExpandOldBadLimit(rev: Revision, host: Host, h: Heap, v: Value, expand: Value, fuel: nat)
    requires Valid(h) && ValueIn(h, v) && ValueIn(h, expand)
    requires ExpansionStops(rev, h, v, expand)
    ensures Iterable(rev, h, v) == Ok(true) && Truthy(expand) && IterableLimit(expand).Err? ==>
              ExpandOld(rev, host, h, v, expand, fuel) == Err(IterableLimit(expand).error)
  {
  }

  /** An expansion that gets as far as the loop is the loop's values. */
  lemma {:induction false} ExpandOldLoop(rev: Revision, host: Host, h: Heap, v: Value, expand: Value, fuel: nat)
    requires Valid(h) && ValueIn(h, v) && ValueIn(h, expand)
    requires ExpansionStops(rev, h, v, expand)
    ensures Iterable(rev, h, v) == Ok(true) && Truthy(expand) && IterableLimit(expand).Ok? ==>
              && !IsNullOrUndefined(v) && Stops(ItemsOf(h, v), IterableLimit(expand).value)
              && ExpandOld(rev, host, h, v, expand, fuel) ==
                 Wrapped(IterValues(rev, host, h, ItemsOf(h, v), IterableLimit(expand).value, 0, fuel))
  {
    if IsNullOrUndefined(v) {
      assert Iterable(rev, h, v).Err? || Iterable(rev, h, v) == Ok(false);
    }
  }

  /** The iterable values: `if (isIterable(obj) && expandIterables)` and its `for ... of` loop. */
  method ExpandStep(rev: Revision, host: Host, h: Heap, v: Value, expand: Value, fuel: nat)
    returns (r: Result<Option<IterableValues>, Error>)
    requires Valid(h) && ValueIn(h, v) && ValueIn(h, expand)
    requires ExpansionStops(rev, h, v, expand)
    ensures r == ExpandOld(rev, host, h, v, expand, fuel)
    decreases fuel, 4, 0
  {
    ExpandOldThrows(rev, host, h, v, expand, fuel);
    ExpandOldSkips(rev, host, h, v, expand, fuel);
    ExpandOldBadLimit(rev, host, h, v, expand, fuel);
    ExpandOldLoop(rev, host, h, v, expand, fuel);
    var iterable := Iterable(rev, h, v);
    if iterable.Err? {
      return Err(iterable.error);
    }
    if !(iterable.value && Truthy(expand)) {
      return Ok(None);
    }
    var limit := IterableLimit(expand);
    if limit.Err? {
      return Err(limit.error);
    }
    var iv := IterateStep(rev, host, h, ItemsOf(h, v), limit.value, fuel);
    if iv.Err? {
      return Err(iv.error);
    }
    return Ok(Some(iv.value));
  }

  /** What one `next()` call of the loop leads to: the loop ends (truncated or not), or one more value is described. */
  datatype Pass = Stop(truncated: bool) | Next(d: Report)

  lemma {:induction false} PrefixedValuesNest(values: seq<Report>, d: Report, rest: Result<IterableValues, Error>)
    ensures PrefixedValues(values, PrefixedValues([d], rest)) == PrefixedValues(values + [d], rest)
  {
    if rest.Ok? {
      assert values + ([d] + rest.value.values) == (values + [d]) + rest.value.values;
    }
  }

  /** What the loop from the `next()` call `k` on is, given what the call `k` led to. */
  ghost predicate PassMeets(rev: Revision, host: Host, h: Heap, src: Source<Value>, limit: Limit, k: nat, fuel: nat, r: Result<Pass, Error>)
    requires Valid(h) && (forall i: nat :: ValueIn(h, src.at(i)))
    requires Stops(src, limit) && k <= StopBound(src, limit)
  {
    match r
    case Err(e) => IterValues(rev, host, h, src, limit, k, fuel) == Err(e)
    case Ok(Stop(truncated)) => IterValues(rev, host, h, src, limit, k, fuel) == Ok(IterableValues([], truncated))
    case Ok(Next(d)) =>
      && k < StopBound(src, limit)
      && IterValues(rev, host, h, src, limit, k, fuel) == PrefixedValues([d], IterValues(rev, host, h, src, limit, k + 1, fuel))
  }

  /** The `next()` call `k` ends the loop unless it yields an item below the limit. */
  lemma {:induction false} IterEnds(rev: Revision, host: Host, h: Heap, src: Source<Value>, limit: Limit, k: nat, fuel: nat)
    requires Valid(h) && (forall i: nat :: ValueIn(h, src.at(i)))
    requires Stops(src, limit) && k <= StopBound(src, limit)
    requires !(Pull(src, k).Item? && Admits(limit, k))
    ensures PassMeets(rev, host, h, src, limit, k, fuel,
                      if Pull(src, k).PullThrows? then Err(Pull(src, k).error) else Ok(Stop(!Pull(src, k).Done?)))
  {
    IterStep(rev, host, h, src, limit, k, fuel);
  }

  /** An item below the limit with no stack left to describe it overflows. */
  lemma {:induction false} IterNoStack(rev: Revision, host: Host, h: Heap, src: Source<Value>, limit: Limit, k: nat)
    requires Valid(h) && (forall i: nat :: ValueIn(h, src.at(i)))
    requires Stops(src, limit) && k <= StopBound(src, limit)
    requires Pull(src, k).Item? && Admits(limit, k)
    ensures PassMeets(rev, host, h, src, limit, k, 0, Err(StackOverflow))
  {
    IterStep(rev, host, h, src, limit, k, 0);
  }

  /** An item below the limit is described one call deeper, then the loop goes on. */
  lemma {:induction false} IterItem(rev: Revision, host: Host, h: Heap, src: Source<Value>, limit: Limit, k: nat, fuel: nat,
                                    d: Result<Report, Error>)
    requires Valid(h) && (forall i: nat :: ValueIn(h, src.at(i)))
    requires Stops(src, limit) && k <= StopBound(src, limit)
    requires Pull(src, k).Item? && Admits(limit, k) && fuel > 0
    requires d == DescribeOld(rev, host, h, src.at(k), Undefined, fuel - 1)
    ensures PassMeets(rev, host, h, src, limit, k, fuel, if d.Err? then Err(d.error) else Ok(Next(d.value)))
  {
    IterStep(rev, host, h, src, limit, k, fuel);
  }

  /** The loop body for the `next()` call `k`. */
  method PullStep(rev: Revision, host: Host, h: Heap, src: Source<Value>, limit: Limit, k: nat, fuel: nat)
    returns (r: Result<Pass, Error>)
    requires Valid(h) && (forall i: nat :: ValueIn(h, src.at(i)))
    requires Stops(src, limit) && k <= StopBound(src, limit)
    ensures PassMeets(rev, host, h, src, limit, k, fuel, r)
    decreases fuel, 2, 0
  {
    var pulled := Pull(src, k);
    if !(pulled.Item? && Admits(limit, k)) {
      IterEnds(rev, host, h, src, limit, k, fuel);
      if pulled.PullThrows? {
        return Err(pulled.error);
      }
      return Ok(Stop(!pulled.Done?));
    }
    if fuel == 0 {
      IterNoStack(rev, host, h, src, limit, k);
      return Err(StackOverflow);
    }
    r := ItemStep(rev, host, h, src, limit, k, fuel);
  }

  /** An item below the limit: its description, one call deeper. */
  method ItemStep(rev: Revision, host: Host, h: Heap, src: Source<Value>, limit: Limit, k: nat, fuel: nat)
    returns (r: Result<Pass, Error>)
    requires Valid(h) && (forall i: nat :: ValueIn(h, src.at(i)))
    requires Stops(src, limit) && k <= StopBound(src, limit)
    requires Pull(src, k).Item? && Admits(limit, k) && fuel > 0
    ensures PassMeets(rev, host, h, src, limit, k, fuel, r)
    decreases fuel, 1, 0
  {
    var d := DescribeOldStep(rev, host, h, src.at(k), Undefined, fuel - 1);
    IterItem(rev, host, h, src, limit, k, fuel, d);
    r := if d.Err? then Err(d.error) else Ok(Next(d.value));
  }

  /**
   * The iteration loop's invariant: `values` are the descriptions of the
   * first `j` items, and the whole result is they followed by the loop from
   * the `next()` call `j` on.
   */
  ghost predicate IterLoop(rev: Revision, host: Host, h: Heap, src: Source<Value>, limit: Limit, fuel: nat, j: nat,
                           values: seq<Report>, whole: Result<IterableValues, Error>)
  {
    && Valid(h) && (forall i: nat :: ValueIn(h, src.at(i))) && Stops(src, limit)
    && j == |values| && j <= StopBound(src, limit)
    && whole == PrefixedValues(values, IterValues(rev, host, h, src, limit, j, fuel))
  }

  lemma {:induction false} IterLoopStart(rev: Revision, host: Host, h: Heap, src: Source<Value>, limit: Limit, fuel: nat)
    requires Valid(h) && (forall i: nat :: ValueIn(h, src.at(i))) && Stops(src, limit)
    ensures IterLoop(rev, host, h, src, limit, fuel, 0, [], IterValues(rev, host, h, src, limit, 0, fuel))
  {
    PrefixedValuesNothing(IterValues(rev, host, h, src, limit, 0, fuel));
  }

  /** A `next()` call that throws, or an item that fails to describe, is the loop's result. */
  lemma {:induction false} IterLoopErr(rev: Revision, host: Host, h: Heap, src: Source<Value>, limit: Limit, fuel: nat, j: nat,
                                       values: seq<Report>, whole: Result<IterableValues, Error>, e: Error)
    requires IterLoop(rev, host, h, src, limit, fuel, j, values, whole)
    requires PassMeets(rev, host, h, src, limit, j, fuel, Err(e))
    ensures whole == Err(e)
  {
  }

  /** A stop gives the values so far, truncated or not. */
  lemma {:induction false} IterLoopStop(rev: Revision, host: Host, h: Heap, src: Source<Value>, limit: Limit, fuel: nat, j: nat,
                                        values: seq<Report>, whole: Result<IterableValues, Error>, truncated: bool)
    requires IterLoop(rev, host, h, src, limit, fuel, j, values, whole)
    requires PassMeets(rev, host, h, src, limit, j, fuel, Ok(Stop(truncated)))
    ensures whole == Ok(IterableValues(values, truncated))
  {
    PrefixedValuesDone(values, truncated);
  }

  /** A described item is pushed, and the loop goes on with the next call. */
  lemma {:induction false} IterLoopNext(rev: Revision, host: Host, h: Heap, src: Source<Value>, limit: Limit, fuel: nat, j: nat,
                                        values: seq<Report>, whole: Result<IterableValues, Error>, d: Report)
    requires IterLoop(rev, host, h, src, limit, fuel, j, values, whole)
    requires PassMeets(rev, host, h, src, limit, j, fuel, Ok(Next(d)))
    ensures j < StopBound(src, limit)
    ensures IterLoop(rev, host, h, src, limit, fuel, j + 1, values + [d], whole)
  {
    PrefixedValuesNest(values, d, IterValues(rev, host, h, src, limit, j + 1, fuel));
  }

  /** `for (const item of obj) { if (j++ < limit) ... else { truncated = true; break; } }` */
  method IterateStep(rev: Revision, host: Host, h: Heap, src: Source<Value>, limit: Limit, fuel: nat)
    returns (r: Result<IterableValues, Error>)
    requires Valid(h) && (forall i: nat :: ValueIn(h, src.at(i)))
    requires Stops(src, limit)
    ensures r == IterValues(rev, host, h, src, limit, 0, fuel)
    decreases fuel, 3, 0
  {
    var values: seq<Report> := [];
    var j := 0;
    ghost var whole := IterValues(rev, host, h, src, limit, 0, fuel);
    IterLoopStart(rev, host, h, src, limit, fuel);
    while true
      invariant IterLoop(rev, host, h, src, limit, fuel, j, values, whole)
      decreases StopBound(src, limit) - j
    {
      var pass := PullStep(rev, host, h, src, limit, j, fuel);
      if pass.Err? {
        IterLoopErr(rev, host, h, src, limit, fuel, j, values, whole, pass.error);
        return Err(pass.error);
      }
      if pass.value.Stop? {
        IterLoopStop(rev, host, h, src, limit, fuel, j, values, whole, pass.value.truncated);
        return Ok(IterableValues(values, pass.value.truncated));
      }
      IterLoopNext(rev, host, h, src, limit, fuel, j, values, whole, pass.value.d);
      values := values + [pass.value.d];
      j := j + 1;
    }
  }

  /** The outer loop's step, on the walk's results. */
  lemma {:induction false} ChainParts(rev: Revision, host: Host, h: Heap, top: Value, cur: Value, fuel: nat)
    requires Valid(h) && ValueIn(h, top) && ValueIn(h, cur) && !IsNullOrUndefined(cur)
    ensures LevelEntries(rev, host, h, top, cur, 0, fuel).Err? ==>
              ChainEntries(rev, host, h, top, cur, fuel) == Err(LevelEntries(rev, host, h, top, cur, 0, fuel).error)
    ensures LevelEntries(rev, host, h, top, cur, 0, fuel).Ok? && ProtoOf(h, cur).None? ==>
              ChainEntries(rev, host, h, top, cur, fuel) == LevelEntries(rev, host, h, top, cur, 0, fuel)
    ensures LevelEntries(rev, host, h, top, cur, 0, fuel).Ok? && ProtoOf(h, cur).Some? ==>
              ChainEntries(rev, host, h, top, cur, fuel) ==
              Prefixed(LevelEntries(rev, host, h, top, cur, 0, fuel).value, ChainEntries(rev, host, h, top, Ref(ProtoOf(h, cur).value), fuel))
  {
    ChainStep(rev, host, h, top, cur, fuel);
  }

  lemma {:induction false} PrefixedNest(found: seq<Found>, here: seq<Found>, rest: Result<seq<Found>, Error>)
    ensures Prefixed(found, Prefixed(here, rest)) == Prefixed(found + here, rest)
  {
    if rest.Ok? {
      assert found + (here + rest.value) == (found + here) + rest.value;
    }
  }

  /** The `do ... while (obj = Object.getPrototypeOf(obj))` loop, pushing marked entries onto `properties`. */
  method WalkChain(rev: Revision, host: Host, h: Heap, top: Value, fuel: nat) returns (r: Result<seq<Entry>, Error>)
    requires Valid(h) && ValueIn(h, top)
    ensures r == Marked(ChainEntries(rev, host, h, top, top, fuel))
    decreases fuel, 3, 0
  {
    if IsNullOrUndefined(top) {
      return Err(TypeError("Cannot convert undefined or null to object"));
    }
    var cur := top;
    var properties: seq<Entry> := [];
    ghost var found: seq<Found> := [];
    ghost var whole := ChainEntries(rev, host, h, top, top, fuel);
    PrefixedNothing(whole);
    while true
      invariant ValueIn(h, cur) && !IsNullOrUndefined(cur)
      invariant properties == MarkAll(found)
      invariant whole == Prefixed(found, ChainEntries(rev, host, h, top, cur, fuel))
      decreases Rank(h, cur)
    {
      var level, proto;
      ghost var here;
      level, proto, here := ChainPass(rev, host, h, top, cur, fuel, properties, found, whole);
      if level.Err? {
        return Err(level.error);
      }
      if proto.None? {
        return Ok(level.value);
      }
      found := found + here;
      properties := level.value;
      cur := Ref(proto.value);
    }
  }

  /** One pass of the outer loop: the level `cur`'s entries pushed onto `properties`, and the next level. */
  method ChainPass(rev: Revision, host: Host, h: Heap, top: Value, cur: Value, fuel: nat, properties: seq<Entry>,
                   ghost found: seq<Found>, ghost whole: Result<seq<Found>, Error>)
    returns (r: Result<seq<Entry>, Error>, next: Option<Ref>, ghost here: seq<Found>)
    requires Valid(h) && ValueIn(h, top) && ValueIn(h, cur) && !IsNullOrUndefined(cur)
    requires properties == MarkAll(found)
    requires whole == Prefixed(found, ChainEntries(rev, host, h, top, cur, fuel))
    ensures r.Err? ==> whole == Err(r.error)
    ensures r.Ok? ==> r.value == MarkAll(found + here) && next == ProtoOf(h, cur)
    ensures r.Ok? && next.None? ==> whole == Ok(found + here)
    ensures r.Ok? && next.Some? ==> whole == Prefixed(found + here, ChainEntries(rev, host, h, top, Ref(next.value), fuel))
    decreases fuel, 2, 1
  {
    ChainParts(rev, host, h, top, cur, fuel);
    here := [];
    next := ProtoOf(h, cur);
    r := WalkLevel(rev, host, h, top, cur, fuel, properties, found);
    if r.Ok? {
      here := LevelEntries(rev, host, h, top, cur, 0, fuel).value;
      if next.Some? {
        PrefixedNest(found, here, ChainEntries(rev, host, h, top, Ref(next.value), fuel));
      }
    }
  }

  /**
   * `properties.push(p)` after the override check: when earlier entries have
   * the same (string) name the new one is marked overridden, and when exactly
   * one has, that one's `overrideOf` is set to the new entry's `from`.
   */
  method Push(properties: seq<Entry>, key: Key, p: Entry) returns (out: seq<Entry>)
    ensures out == MarkOne(properties, key, p)
  {
    var q := p;
    out := properties;
    if key.NameKey? {
      var n := NamedCount(properties, key.name);
      if n > 0 {
        q := q.(isOverridden := true);
        if n == 1 {
          var j := FirstNamed(properties, key.name);
          out := out[j := out[j].(overrideOf := p.from)];
        }
      }
    }
    out := out + [q];
  }

  /** The inner loop's step, on the walk's results. */
  lemma {:induction false} LevelParts(rev: Revision, host: Host, h: Heap, top: Value, cur: Value, i: nat, fuel: nat)
    requires Valid(h) && ValueIn(h, top) && ValueIn(h, cur) && !IsNullOrUndefined(cur)
    requires i < |LevelSlots(h, cur)|
    ensures RawEntry(rev, host, h, top, cur, LevelSlots(h, cur)[i], fuel).Err? ==>
              LevelEntries(rev, host, h, top, cur, i, fuel) == Err(RawEntry(rev, host, h, top, cur, LevelSlots(h, cur)[i], fuel).error)
    ensures RawEntry(rev, host, h, top, cur, LevelSlots(h, cur)[i], fuel).Ok? ==>
              LevelEntries(rev, host, h, top, cur, i, fuel) ==
              Prefixed([RawEntry(rev, host, h, top, cur, LevelSlots(h, cur)[i], fuel).value], LevelEntries(rev, host, h, top, cur, i + 1, fuel))
  {
  }

  /** The entries of a level, marked after those found before it. */
  function MarkedAfter(found: seq<Found>, r: Result<seq<Found>, Error>): Result<seq<Entry>, Error>
  {
    if r.Ok? then Ok(MarkAll(found + r.value)) else Err(r.error)
  }

  /** The inner loop ends after the level's last property. */
  lemma {:induction false} LevelDone(rev: Revision, host: Host, h: Heap, top: Value, cur: Value, fuel: nat)
    requires Valid(h) && ValueIn(h, top) && ValueIn(h, cur) && !IsNullOrUndefined(cur)
    ensures LevelEntries(rev, host, h, top, cur, |LevelSlots(h, cur)|, fuel) == Ok([])
  {
  }

  lemma {:induction false} AppendNothing(found: seq<Found>)
    ensures found + [] == found
  {
  }

  /**
   * The inner loop's invariant before property `i`: `properties` holds the
   * marked entries found so far, and the level's entries are `level`
   * followed by those from property `i` on.
   */
  ghost predicate LevelLoop(rev: Revision, host: Host, h: Heap, top: Value, cur: Value, fuel: nat, i: nat,
                            properties: seq<Entry>, found: seq<Found>, level: seq<Found>, whole: Result<seq<Found>, Error>)
  {
    && Valid(h) && ValueIn(h, top) && ValueIn(h, cur) && !IsNullOrUndefined(cur)
    && i <= |LevelSlots(h, cur)|
    && properties == MarkAll(found + level)
    && whole == Prefixed(level, LevelEntries(rev, host, h, top, cur, i, fuel))
  }

  /** The invariant holds before the first property. */
  lemma {:induction false} LevelStart(rev: Revision, host: Host, h: Heap, top: Value, cur: Value, fuel: nat,
                                      properties: seq<Entry>, found: seq<Found>)
    requires Valid(h) && ValueIn(h, top) && ValueIn(h, cur) && !IsNullOrUndefined(cur)
    requires properties == MarkAll(found)
    ensures LevelLoop(rev, host, h, top, cur, fuel, 0, properties, found, [], LevelEntries(rev, host, h, top, cur, 0, fuel))
  {
    PrefixedNothing(LevelEntries(rev, host, h, top, cur, 0, fuel));
    AppendNothing(found);
  }

  /** After the level's last property the entries found are the level's. */
  lemma {:induction false} LevelFinish(rev: Revision, host: Host, h: Heap, top: Value, cur: Value, fuel: nat,
                                       properties: seq<Entry>, found: seq<Found>, level: seq<Found>, whole: Result<seq<Found>, Error>)
    requires Valid(h) && ValueIn(h, top) && ValueIn(h, cur) && !IsNullOrUndefined(cur)
    requires LevelLoop(rev, host, h, top, cur, fuel, |LevelSlots(h, cur)|, properties, found, level, whole)
    ensures MarkedAfter(found, whole) == Ok(properties)
  {
    LevelDone(rev, host, h, top, cur, fuel);
    PrefixedDone(level);
  }

  /** The invariant after one more entry `f`. */
  lemma {:induction false} LevelAdvance(rev: Revision, host: Host, h: Heap, top: Value, cur: Value, fuel: nat, i: nat,
                                        properties: seq<Entry>, found: seq<Found>, level: seq<Found>, whole: Result<seq<Found>, Error>,
                                        f: Found)
    requires Valid(h) && ValueIn(h, top) && ValueIn(h, cur) && !IsNullOrUndefined(cur)
    requires LevelLoop(rev, host, h, top, cur, fuel, i, properties, found, level, whole)
    requires i < |LevelSlots(h, cur)|
    requires RawEntry(rev, host, h, top, cur, LevelSlots(h, cur)[i], fuel) == Ok(f)
    ensures LevelLoop(rev, host, h, top, cur, fuel, i + 1, MarkOne(properties, f.key, f.entry), found, level + [f], whole)
  {
    LevelParts(rev, host, h, top, cur, i, fuel);
    PrefixedNest(level, [f], LevelEntries(rev, host, h, top, cur, i + 1, fuel));
    MarkAdvance(found, level, f);
  }

  /** A property that fails ends the level with its error. */
  lemma {:induction false} LevelFails(rev: Revision, host: Host, h: Heap, top: Value, cur: Value, fuel: nat, i: nat,
                                      properties: seq<Entry>, found: seq<Found>, level: seq<Found>, whole: Result<seq<Found>, Error>)
    requires Valid(h) && ValueIn(h, top) && ValueIn(h, cur) && !IsNullOrUndefined(cur)
    requires LevelLoop(rev, host, h, top, cur, fuel, i, properties, found, level, whole)
    requires i < |LevelSlots(h, cur)|
    requires RawEntry(rev, host, h, top, cur, LevelSlots(h, cur)[i], fuel).Err?
    ensures whole == Err(RawEntry(rev, host, h, top, cur, LevelSlots(h, cur)[i], fuel).error)
  {
    LevelParts(rev, host, h, top, cur, i, fuel);
  }

  lemma {:induction false} MarkAdvance(found: seq<Found>, level: seq<Found>, f: Found)
    ensures MarkOne(MarkAll(found + level), f.key, f.entry) == MarkAll(found + (level + [f]))
  {
    MarkAllSnoc(found + level, f);
    assert (found + level) + [f] == found + (level + [f]);
  }

  /**
   * The inner `for` loop over the own keys of one level: each entry is
   * pushed after marking it, and the single earlier entry of the same name,
   * as overridden.
   */
  method WalkLevel(rev: Revision, host: Host, h: Heap, top: Value, cur: Value, fuel: nat,
                   properties0: seq<Entry>, ghost found: seq<Found>)
    returns (r: Result<seq<Entry>, Error>)
    requires Valid(h) && ValueIn(h, top) && ValueIn(h, cur) && !IsNullOrUndefined(cur)
    requires properties0 == MarkAll(found)
    ensures r == MarkedAfter(found, LevelEntries(rev, host, h, top, cur, 0, fuel))
    decreases fuel, 2, 0
  {
    var n := |LevelSlots(h, cur)|;
    var properties := properties0;
    ghost var level: seq<Found> := [];
    ghost var whole := LevelEntries(rev, host, h, top, cur, 0, fuel);
    LevelStart(rev, host, h, top, cur, fuel, properties, found);
    var i := 0;
    while i < n
      invariant i <= n
      invariant LevelLoop(rev, host, h, top, cur, fuel, i, properties, found, level, whole)
      decreases n - i
    {
      var next;
      ghost var f;
      next, f := LevelPass(rev, host, h, top, cur, fuel, i, properties, found, level, whole);
      if next.Err? {
        return Err(next.error);
      }
      properties := next.value;
      level := level + [f];
      i := i + 1;
    }
    LevelFinish(rev, host, h, top, cur, fuel, properties, found, level, whole);
    return Ok(properties);
  }

  /** One pass of the inner loop: the `i`-th entry, pushed onto `properties`. */
  method LevelPass(rev: Revision, host: Host, h: Heap, top: Value, cur: Value, fuel: nat, i: nat, properties: seq<Entry>,
                   ghost found: seq<Found>, ghost level: seq<Found>, ghost whole: Result<seq<Found>, Error>)
    returns (r: Result<seq<Entry>, Error>, ghost f: Found)
    requires Valid(h) && ValueIn(h, top) && ValueIn(h, cur) && !IsNullOrUndefined(cur)
    requires LevelLoop(rev, host, h, top, cur, fuel, i, properties, found, level, whole)
    requires i < |LevelSlots(h, cur)|
    ensures r.Err? ==> whole == Err(r.error)
    ensures r.Ok? ==> LevelLoop(rev, host, h, top, cur, fuel, i + 1, r.value, found, level + [f], whole)
    decreases fuel, 1, 1
  {
    var e := PropertyStep(rev, host, h, top, cur, LevelSlots(h, cur)[i], fuel);
    if e.Err? {
      LevelFails(rev, host, h, top, cur, fuel, i, properties, found, level, whole);
      return Err(e.error), Found(NameKey(""), Entry("", EntryValue.Text(""), "", None, None, false, None));
    }
    f := e.value;
    var pushed := Push(properties, e.value.key, e.value.entry);
    LevelAdvance(rev, host, h, top, cur, fuel, i, properties, found, level, whole, f);
    return Ok(pushed), f;
  }

  /** One property of a level: read it, show its value, build the entry. The body of the level's property loop, which has no loop of its own. */
  method PropertyStep(rev: Revision, host: Host, h: Heap, top: Value, cur: Value, slot: Slot, fuel: nat)
    returns (r: Result<Found, Error>)
    requires Valid(h) && ValueIn(h, top) && ValueIn(h, cur) && !IsNullOrUndefined(cur)
    requires slot.read.Returns? ==> ValueIn(h, slot.read.value)
    ensures r == RawEntry(rev, host, h, top, cur, slot, fuel)
    decreases fuel, 1, 0
  {
    if slot.read.Throws? {
      return Err(slot.read.error);
    }
    var shown := ShowStep(rev, host, h, slot.read.value, fuel);
    if shown.Err? {
      return Err(shown.error);
    }
    return EntryOf(rev, h, top, cur, slot, shown.value);
  }

  /** `String(value)` for a primitive property value, otherwise its description one call deeper: the link from a level's property loop back to the whole walk. */
  method ShowStep(rev: Revision, host: Host, h: Heap, value: Value, fuel: nat) returns (r: Result<EntryValue, Error>)
    requires Valid(h) && ValueIn(h, value)
    ensures r == ShowValue(rev, host, h, value, fuel)
    decreases fuel, 0, 0
  {
    var prim := Primitive(rev, h, value);
    if prim.Err? {
      return Err(prim.error);
    }
    if prim.value {
      return Ok(EntryValue.Text(ToJsString(host, h, value)));
    }
    if fuel == 0 {
      return Err(StackOverflow);
    }
    var d := DescribeOldStep(rev, host, h, value, Undefined, fuel - 1);
    if d.Err? {
      return Err(d.error);
    }
    return Ok(Described(d.value));
  }
}
