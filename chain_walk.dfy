/**
 * The older `describe` of src/describe.js, duplicated in object-describe.js:
 * a report with the value's kind, its serialization when it is primitive,
 * optionally its first iterable values, and one flat list of properties
 * gathered level by level up the prototype chain, where a later entry with
 * an earlier entry's name is marked as overridden. The two files differ only
 * in the classifier and serializer they call, so one model takes the
 * revision as a parameter. There is no cycle guard: the JavaScript call
 * stack is a `fuel` budget whose exhaustion is the RangeError the engine
 * would raise.
 */
module ChainWalk {
  import opened Wrappers
  import opened JsValues
  import opened Classifier
  import opened Serializer

  /** Which copy of the walk: src/describe.js (with src/util.js and src/render.js) or object-describe.js. */
  datatype Revision = Src | Original

  /** A property entry's `value`: `String(value)` for a primitive, otherwise a nested report. */
  datatype EntryValue = Text(text: string) | Described(report: Report)

  datatype Entry = Entry(
    name: string,                 // String(key)
    value: EntryValue,
    instanceOf: string,
    from: Option<string>,         // the declaring level's kind, above the starting object
    isEnumerable: Option<bool>,   // undefined when the level has no propertyIsEnumerable
    isOverridden: bool,
    overrideOf: Option<string>)   // set on an entry that exactly one later entry overrides

  datatype IterableValues = IterableValues(values: seq<Report>, truncated: bool)

  datatype Report = Report(
    instanceOf: string,
    value: Option<string>,
    iterableValues: Option<IterableValues>,
    properties: seq<Entry>)

  // ---------------------------------------------------------------------
  // The revision's classifier and serializer
  // ---------------------------------------------------------------------

  function Kind(rev: Revision, h: Heap, v: Value): Result<string, Error>
    requires Valid(h) && ValueIn(h, v)
  {
    if rev == Src then UtilInstanceType(h, v) else OriginalInstanceType(h, v)
  }

  /**
   * Whether `isPrimitiveOrNull(v)` is truthy. In object-describe.js a bigint
   * gives undefined, which is falsy; in src/util.js it throws.
   */
  function Primitive(rev: Revision, h: Heap, v: Value): (r: Result<bool, Error>)
    requires ValueIn(h, v)
    ensures r == Ok(true) ==> (v.Ref? ==> h.objects[v.r].callable)
    ensures r.Err? <==> rev == Src && v.BigInt?
  {
    if rev == Src then UtilIsPrimitiveOrNull(h, v) else Ok(OriginalIsPrimitiveOrNull(h, v) == Some(true))
  }

  function SerializeTop(rev: Revision, host: Host, h: Heap, v: Value): Result<Option<string>, Error>
    requires ValueIn(h, v)
  {
    if rev == Src then SerializePrimitive(host, h, v) else OriginalSerializePrimitive(host, h, v)
  }

  /** `isIterable(obj)`: src/util.js guards null and undefined and skips strings; object-describe.js does neither. */
  function Iterable(rev: Revision, h: Heap, v: Value): Result<bool, Error>
    requires Valid(h) && ValueIn(h, v)
  {
    if rev == Src then Ok(IsIterable(h, v, false)) else OriginalIsIterable(h, v)
  }

  // ---------------------------------------------------------------------
  // The iterable limit
  // ---------------------------------------------------------------------

  /** How many iterable values are described: all of them, or those below an index. */
  datatype Limit = Unlimited | Below(n: int)

  predicate Admits(limit: Limit, j: nat)
  {
    limit.Unlimited? || j < limit.n
  }

  /**
   * The validation of a truthy `expandIterables`: `true` becomes +Infinity,
   * anything but a number throws a TypeError, and so does a finite number
   * that is not an integer. -Infinity admits nothing, like any bound at or
   * below 0.
   */
  function IterableLimit(v: Value): (r: Result<Limit, Error>)
    requires Truthy(v)
    ensures v == Bool(true) || v == Num(PosInfinity) ==> r == Ok(Unlimited)
    ensures !v.Bool? && !v.Num? ==> r == Err(TypeError(""))
    ensures v.Num? && v.n.Finite? ==>
              (r.Ok? <==> v.n.x.Floor as real == v.n.x) &&
              (r.Ok? ==> r.value == Below(v.n.x.Floor)) &&
              (r.Err? ==> r.error == TypeError("Must be a finite integer or infinity"))
    ensures r.Ok? && r.value.Below? ==> forall j: nat :: Admits(r.value, j) <==> (v.Num? && v.n.Finite? && (j as real) < v.n.x)
  {
    match v
    case Bool(_) => Ok(Unlimited)
    case Num(n) =>
      (match n
       case PosInfinity => Ok(Unlimited)
       case NegInfinity => Ok(Below(0))
       case Finite(x) =>
         if x.Floor as real == x then Ok(Below(x.Floor))
         else Err(TypeError("Must be a finite integer or infinity"))
       // NaN is falsy.
       case NaN => Ok(Below(0)))
    case _ => Err(TypeError(""))
  }

  // ---------------------------------------------------------------------
  // A level of the chain
  // ---------------------------------------------------------------------

  /** An own property as the walk sees it: its key, what `obj[key]` does, and its own enumerability. */
  datatype Slot = Slot(key: Key, read: ReadOutcome, enumerable: bool)

  /**
   * The own properties of one level, names first, then symbols. A string
   * primitive has its indices, each reading one character, and `length`;
   * other primitives have none.
   */
  function LevelSlots(h: Heap, cur: Value): (slots: seq<Slot>)
    requires Valid(h) && ValueIn(h, cur) && !IsNullOrUndefined(cur)
    ensures forall i :: 0 <= i < |slots| && slots[i].read.Returns? ==> ValueIn(h, slots[i].read.value)
    ensures cur.Ref? ==> |slots| == |OwnKeys(h.objects[cur.r])| &&
                         forall i :: 0 <= i < |slots| ==> slots[i].key == OwnKeys(h.objects[cur.r])[i]
    ensures cur.Str? ==> |slots| == |cur.s| + 1 && forall i :: 0 <= i < |slots| ==> slots[i].key.NameKey?
    ensures cur.Ref? ==> forall i :: 0 <= i < |slots| ==>
              (slots[i].key in h.objects[cur.r].props && slots[i].read == h.objects[cur.r].props[slots[i].key].read)
  {
    match cur
    case Ref(r) =>
      assert ObjValid(h, h.objects[r]);
      PropSlots(h, h.objects[r], OwnKeys(h.objects[r]))
    case Str(s) => CharSlots(s, 0) + [Slot(NameKey("length"), Returns(Num(Finite(|s| as real))), false)]
    case _ => []
  }

  function PropSlots(h: Heap, o: ObjData, ks: seq<Key>): (slots: seq<Slot>)
    requires forall k :: k in ks ==> k in o.props && PropValid(h, o.props[k])
    ensures |slots| == |ks|
    ensures forall i :: 0 <= i < |ks| ==> slots[i] == Slot(ks[i], o.props[ks[i]].read, o.props[ks[i]].enumerable)
    ensures forall i :: 0 <= i < |slots| && slots[i].read.Returns? ==> ValueIn(h, slots[i].read.value)
  {
    if ks == [] then []
    else
      var rest := PropSlots(h, o, ks[1..]);
      assert forall i :: 1 <= i < |ks| ==> ks[i] == ks[1..][i - 1];
      assert ks[0] in ks && PropValid(h, o.props[ks[0]]);
      [Slot(ks[0], o.props[ks[0]].read, o.props[ks[0]].enumerable)] + rest
  }

  /** The index properties of a string from `i` on: each reads one character and is enumerable. */
  function CharSlots(s: string, i: nat): (slots: seq<Slot>)
    requires i <= |s|
    ensures |slots| == |s| - i
    ensures forall j :: 0 <= j < |slots| ==> slots[j] == Slot(NameKey(NatToString(i + j)), Returns(Str([s[i + j]])), true)
    decreases |s| - i
  {
    if i == |s| then [] else [Slot(NameKey(NatToString(i)), Returns(Str([s[i]])), true)] + CharSlots(s, i + 1)
  }

  /** `Object.getPrototypeOf(cur)`: a primitive's is its wrapper prototype. */
  function ProtoOf(h: Heap, cur: Value): (p: Option<Ref>)
    requires Valid(h) && ValueIn(h, cur) && !IsNullOrUndefined(cur)
    ensures p.Some? ==> p.value in h.objects && Rank(h, Ref(p.value)) < Rank(h, cur)
    ensures !cur.Ref? ==> p.Some?
  {
    if cur.Ref? then
      assert ObjValid(h, h.objects[cur.r]);
      h.objects[cur.r].proto
    else Some(h.boxProto[TypeOf(h, cur)])
  }

  /** The prototype as a value: null at the end of the chain. */
  function ProtoValue(h: Heap, cur: Value): Value
    requires Valid(h) && ValueIn(h, cur) && !IsNullOrUndefined(cur)
  {
    var p := ProtoOf(h, cur);
    if p.Some? then Ref(p.value) else Null
  }

  /** Distance to the end of the chain, bounded by the prototypes' ranks. */
  function Rank(h: Heap, cur: Value): nat
    requires Valid(h) && ValueIn(h, cur)
  {
    match cur
    case Ref(r) => h.objects[r].protoRank
    case Undefined => 0
    case Null => 0
    case _ => h.objects[h.boxProto[TypeOf(h, cur)]].protoRank + 1
  }

  /** The keys of every level up the chain, a level's own keys before its prototype's. */
  function ChainKeys(h: Heap, cur: Value): seq<Key>
    requires Valid(h) && ValueIn(h, cur) && !IsNullOrUndefined(cur)
    decreases Rank(h, cur)
  {
    var here := Keys(LevelSlots(h, cur));
    match ProtoOf(h, cur)
    case None => here
    case Some(p) => here + ChainKeys(h, Ref(p))
  }

  function Keys(slots: seq<Slot>): (ks: seq<Key>)
    ensures |ks| == |slots| && forall i :: 0 <= i < |slots| ==> ks[i] == slots[i].key
  {
    if slots == [] then [] else [slots[0].key] + Keys(slots[1..])
  }

  // ---------------------------------------------------------------------
  // Override marking
  // ---------------------------------------------------------------------

  /** An entry found on the walk, with the key it was found under. */
  datatype Found = Found(key: Key, entry: Entry)

  /** How many of the first `k` entries carry the name `n`. */
  function CountIn(es: seq<Entry>, k: nat, n: string): (c: nat)
    requires k <= |es|
    ensures c > 0 <==> exists i :: 0 <= i < k && es[i].name == n
  {
    if k == 0 then 0 else CountIn(es, k - 1, n) + (if es[k - 1].name == n then 1 else 0)
  }

  /** How many entries carry the name `n` (`props.filter(...).length`). */
  function NamedCount(es: seq<Entry>, n: string): nat
  {
    CountIn(es, |es|, n)
  }

  /** The index of the first entry named `n` (`props.filter(...)[0]`), or `|es|`. */
  function FirstNamed(es: seq<Entry>, n: string): (j: nat)
    ensures j <= |es|
    ensures j < |es| ==> es[j].name == n
    ensures forall i :: 0 <= i < j ==> es[i].name != n
    ensures j < |es| <==> NamedCount(es, n) > 0
  {
    if es == [] then 0 else if es[0].name == n then 0 else 1 + FirstNamed(es[1..], n)
  }

  /**
   * Pushing one entry: when earlier entries have its (string) name it is
   * marked overridden, and when exactly one has, that one's `overrideOf`
   * becomes the new entry's `from`. A symbol key never equals a name.
   */
  function MarkOne(props: seq<Entry>, key: Key, p: Entry): (r: seq<Entry>)
    ensures |r| == |props| + 1
    ensures r[|props|] == p.(isOverridden := p.isOverridden || (key.NameKey? && NamedCount(props, key.name) > 0))
    ensures forall i :: 0 <= i < |props| && r[i] != props[i] ==>
              key.NameKey? && NamedCount(props, key.name) == 1 && i == FirstNamed(props, key.name)
    ensures key.NameKey? && NamedCount(props, key.name) == 1 ==>
              r[FirstNamed(props, key.name)] == props[FirstNamed(props, key.name)].(overrideOf := p.from)
  {
    if key.SymbolKey? || NamedCount(props, key.name) == 0 then props + [p]
    else
      var p' := p.(isOverridden := true);
      if NamedCount(props, key.name) == 1 then
        var j := FirstNamed(props, key.name);
        props[j := props[j].(overrideOf := p.from)] + [p']
      else props + [p']
  }

  /** All the pushes, in order. */
  function MarkAll(fs: seq<Found>): (es: seq<Entry>)
    ensures |es| == |fs|
  {
    if fs == [] then [] else MarkOne(MarkAll(fs[..|fs| - 1]), fs[|fs| - 1].key, fs[|fs| - 1].entry)
  }

  /** How many of the first `k` found entries carry the name `n`. */
  function FoundCount(fs: seq<Found>, k: nat, n: string): nat
    requires k <= |fs|
  {
    if k == 0 then 0 else FoundCount(fs, k - 1, n) + (if fs[k - 1].entry.name == n then 1 else 0)
  }

  /** Every entry is named after its key. */
  predicate WellNamed(fs: seq<Found>)
  {
    forall i :: 0 <= i < |fs| ==> fs[i].entry.name == KeyName(fs[i].key)
  }

  /** Entry `i` has a string key that an earlier entry is named after. */
  predicate OverriddenAt(fs: seq<Found>, i: nat)
    requires i < |fs|
  {
    fs[i].key.NameKey? && FoundCount(fs, i, fs[i].key.name) > 0
  }

  /** Entry `k` finds entry `j` as the only earlier entry with its name. */
  predicate SetsOverride(fs: seq<Found>, j: nat, k: nat)
  {
    && j < k < |fs|
    && fs[k].key.NameKey?
    && fs[j].entry.name == fs[k].key.name
    && FoundCount(fs, k, fs[k].key.name) == 1
  }

  /** No later entry finds entry `j` as its only namesake. */
  predicate NoSetter(fs: seq<Found>, j: nat)
  {
    forall k {:trigger SetsOverride(fs, j, k)} :: j < k < |fs| ==> !SetsOverride(fs, j, k)
  }

  /** Entries alike except for the two marks. */
  predicate SameExceptMarks(a: Entry, b: Entry)
  {
    a.(isOverridden := false, overrideOf := None) == b.(isOverridden := false, overrideOf := None)
  }

  /** Counting names in entries that carry the same names gives the same count. */
  lemma {:induction false} CountsAgree(es: seq<Entry>, fs: seq<Found>, k: nat, n: string)
    requires k <= |es| && k <= |fs|
    requires forall i :: 0 <= i < k ==> es[i].name == fs[i].entry.name
    ensures CountIn(es, k, n) == FoundCount(fs, k, n)
  {
    if k > 0 {
      CountsAgree(es, fs, k - 1, n);
    }
  }

  lemma {:induction false} FoundCountPrefix(fs: seq<Found>, gs: seq<Found>, k: nat, n: string)
    requires k <= |fs| && k <= |gs|
    requires forall i :: 0 <= i < k ==> fs[i] == gs[i]
    ensures FoundCount(fs, k, n) == FoundCount(gs, k, n)
  {
    if k > 0 {
      FoundCountPrefix(fs, gs, k - 1, n);
    }
  }

  /** Two entries with the same name make the count at least two. */
  lemma {:induction false} CountTwo(es: seq<Entry>, k: nat, n: string, i: nat, j: nat)
    requires i < j < k <= |es| && es[i].name == n && es[j].name == n
    ensures CountIn(es, k, n) >= 2
  {
    if j < k - 1 {
      CountTwo(es, k - 1, n, i, j);
    } else {
      assert CountIn(es, k - 1, n) > 0;
    }
  }

  /** Every field but the two marks is kept. */
  predicate KeepsFields(fs: seq<Found>, out: seq<Entry>)
  {
    && |out| == |fs|
    && (forall i :: 0 <= i < |fs| ==> out[i].name == fs[i].entry.name)
    && (forall i :: 0 <= i < |fs| ==> SameExceptMarks(out[i], fs[i].entry))
  }

  /** An entry is overridden exactly when its key is a string an earlier entry is named after. */
  predicate FlagsOverridden(fs: seq<Found>, out: seq<Entry>)
    requires |out| == |fs|
  {
    forall i {:trigger out[i]} :: 0 <= i < |fs| ==> out[i].isOverridden == (fs[i].entry.isOverridden || OverriddenAt(fs, i))
  }

  /**
   * An entry's `overrideOf` is the `from` of the later entry that found it as
   * its only namesake, and is left alone when there is none.
   */
  predicate RecordsOverride(fs: seq<Found>, out: seq<Entry>)
    requires |out| == |fs|
  {
    && (forall j, k {:trigger SetsOverride(fs, j, k)} :: 0 <= j < k < |fs| && SetsOverride(fs, j, k) ==>
          out[j].overrideOf == fs[k].entry.from)
    && (forall j {:trigger NoSetter(fs, j)} :: 0 <= j < |fs| && NoSetter(fs, j) ==> out[j].overrideOf == fs[j].entry.overrideOf)
  }

  /** The marks of `out` in closed form. */
  predicate Marked(fs: seq<Found>, out: seq<Entry>)
  {
    KeepsFields(fs, out) && FlagsOverridden(fs, out) && RecordsOverride(fs, out)
  }

  /** Facts about an entry before the last are facts about the prefix without it. */
  lemma {:induction false} PrefixFacts(fs: seq<Found>, j: nat, k: nat)
    requires k < |fs| - 1
    ensures SetsOverride(fs, j, k) <==> SetsOverride(fs[..|fs| - 1], j, k)
    ensures OverriddenAt(fs, k) <==> OverriddenAt(fs[..|fs| - 1], k)
  {
    var pre := fs[..|fs| - 1];
    if fs[k].key.NameKey? {
      FoundCountPrefix(fs, pre, k, fs[k].key.name);
    }
    if j < k {
      assert pre[j] == fs[j];
    }
  }

  /** The count the last push sees is the count of the names before it. */
  lemma {:induction false} LastCount(fs: seq<Found>, out0: seq<Entry>, n: string)
    requires |fs| > 0 && KeepsFields(fs[..|fs| - 1], out0)
    ensures NamedCount(out0, n) == FoundCount(fs, |fs| - 1, n)
  {
    var m := |fs| - 1;
    var pre := fs[..m];
    CountsAgree(out0, pre, m, n);
    FoundCountPrefix(fs, pre, m, n);
  }

  lemma {:induction false} StepFields(fs: seq<Found>, out0: seq<Entry>)
    requires |fs| > 0 && KeepsFields(fs[..|fs| - 1], out0)
    ensures KeepsFields(fs, MarkOne(out0, fs[|fs| - 1].key, fs[|fs| - 1].entry))
  {
    var m := |fs| - 1;
    var out := MarkOne(out0, fs[m].key, fs[m].entry);
    forall i | 0 <= i < |fs|
      ensures SameExceptMarks(out[i], fs[i].entry) && out[i].name == fs[i].entry.name
    {
      if i < m {
        assert fs[..m][i] == fs[i];
      }
    }
  }

  lemma {:induction false} StepFlags(fs: seq<Found>, out0: seq<Entry>)
    requires |fs| > 0 && KeepsFields(fs[..|fs| - 1], out0) && FlagsOverridden(fs[..|fs| - 1], out0)
    ensures var out := MarkOne(out0, fs[|fs| - 1].key, fs[|fs| - 1].entry);
            |out| == |fs| && FlagsOverridden(fs, out)
  {
    var m := |fs| - 1;
    var f := fs[m];
    var out := MarkOne(out0, f.key, f.entry);
    if f.key.NameKey? {
      LastCount(fs, out0, f.key.name);
    }
    forall i | 0 <= i < |fs|
      ensures out[i].isOverridden == (fs[i].entry.isOverridden || OverriddenAt(fs, i))
    {
      if i < m {
        PrefixFacts(fs, 0, i);
        assert fs[..m][i] == fs[i];
        assert out[i].isOverridden == out0[i].isOverridden;
      }
    }
  }

  /** Entries before the last keep their `overrideOf` facts when nothing is set in them. */
  lemma {:induction false} StepUntouched(fs: seq<Found>, out0: seq<Entry>, out: seq<Entry>, j: nat)
    requires |fs| > 0 && |out0| == |fs| - 1 && |out| == |fs| && RecordsOverride(fs[..|fs| - 1], out0)
    requires j < |fs| - 1 && out[j] == out0[j] && !SetsOverride(fs, j, |fs| - 1)
    ensures forall k :: j < k < |fs| && SetsOverride(fs, j, k) ==> out[j].overrideOf == fs[k].entry.from
    ensures NoSetter(fs, j) ==> out[j].overrideOf == fs[j].entry.overrideOf
  {
    var m := |fs| - 1;
    var pre := fs[..m];
    forall k | j < k < m
      ensures SetsOverride(fs, j, k) <==> SetsOverride(pre, j, k)
      ensures pre[k] == fs[k]
    {
      PrefixFacts(fs, j, k);
    }
    assert pre[j] == fs[j];
    if NoSetter(fs, j) {
      assert NoSetter(pre, j);
    }
  }

  lemma {:induction false} NameBefore(fs: seq<Found>, out0: seq<Entry>, j: nat)
    requires |fs| > 0 && KeepsFields(fs[..|fs| - 1], out0) && j < |fs| - 1
    ensures out0[j].name == fs[j].entry.name
  {
    assert fs[..|fs| - 1][j] == fs[j];
  }

  /** The push of an entry whose key has no single namesake so far. */
  lemma {:induction false} StepPlain(fs: seq<Found>, out0: seq<Entry>)
    requires |fs| > 0 && KeepsFields(fs[..|fs| - 1], out0) && RecordsOverride(fs[..|fs| - 1], out0)
    requires fs[|fs| - 1].key.SymbolKey? || NamedCount(out0, fs[|fs| - 1].key.name) != 1
    ensures var out := MarkOne(out0, fs[|fs| - 1].key, fs[|fs| - 1].entry);
            |out| == |fs| && RecordsOverride(fs, out)
  {
    var m := |fs| - 1;
    var f := fs[m];
    var out := MarkOne(out0, f.key, f.entry);
    if f.key.NameKey? {
      LastCount(fs, out0, f.key.name);
      assert FoundCount(fs, m, f.key.name) != 1;
    }
    forall j | 0 <= j < m
      ensures RecordsAt(fs, out, j)
    {
      assert out[j] == out0[j];
      assert !SetsOverride(fs, j, m);
      StepUntouched(fs, out0, out, j);
    }
    assert out[m].overrideOf == f.entry.overrideOf;
    assert RecordsAt(fs, out, m);
    RecordsFromAt(fs, out);
  }

  /** Entry `j`'s `overrideOf` is what `RecordsOverride` asks of it. */
  predicate RecordsAt(fs: seq<Found>, out: seq<Entry>, j: nat)
    requires j < |out| == |fs|
  {
    && (forall k {:trigger SetsOverride(fs, j, k)} :: j < k < |fs| && SetsOverride(fs, j, k) ==> out[j].overrideOf == fs[k].entry.from)
    && (NoSetter(fs, j) ==> out[j].overrideOf == fs[j].entry.overrideOf)
  }

  lemma RecordsFromAt(fs: seq<Found>, out: seq<Entry>)
    requires |out| == |fs| && forall j :: 0 <= j < |fs| ==> RecordsAt(fs, out, j)
    ensures RecordsOverride(fs, out)
  {
    forall j, k | 0 <= j < k < |fs| && SetsOverride(fs, j, k)
      ensures out[j].overrideOf == fs[k].entry.from
    {
      assert RecordsAt(fs, out, j);
    }
    forall j | 0 <= j < |fs| && NoSetter(fs, j)
      ensures out[j].overrideOf == fs[j].entry.overrideOf
    {
      assert RecordsAt(fs, out, j);
    }
  }

  /**
   * When exactly one earlier entry has the last entry's name, the last entry
   * finds that one and no other, and nothing between them found it.
   */
  lemma {:induction false} SingleNamesake(fs: seq<Found>, out0: seq<Entry>, m: nat)
    requires m == |fs| - 1 && KeepsFields(fs[..m], out0) && WellNamed(fs)
    requires fs[m].key.NameKey? && NamedCount(out0, fs[m].key.name) == 1
    ensures var t := FirstNamed(out0, fs[m].key.name);
            && t < m && SetsOverride(fs, t, m)
            && (forall j :: 0 <= j < m && j != t ==> !SetsOverride(fs, j, m))
            && (forall k :: t < k < m ==> !SetsOverride(fs, t, k))
  {
    var n := fs[m].key.name;
    LastCount(fs, out0, n);
    var t := FirstNamed(out0, n);
    NameBefore(fs, out0, t);
    forall j | 0 <= j < m && j != t
      ensures !SetsOverride(fs, j, m)
    {
      if SetsOverride(fs, j, m) {
        NameBefore(fs, out0, j);
        if j < t {
          CountTwo(out0, m, n, j, t);
        } else {
          CountTwo(out0, m, n, t, j);
        }
      }
    }
    forall k | t < k < m
      ensures !SetsOverride(fs, t, k)
    {
      if SetsOverride(fs, t, k) {
        assert fs[k].entry.name == KeyName(fs[k].key) == n;
        NameBefore(fs, out0, k);
        CountTwo(out0, m, n, t, k);
      }
    }
  }

  /**
   * The push of an entry whose name exactly one earlier entry has: that
   * one's `overrideOf` is set, and no other entry's.
   */
  lemma {:induction false} StepSingle(fs: seq<Found>, out0: seq<Entry>)
    requires |fs| > 0 && KeepsFields(fs[..|fs| - 1], out0) && RecordsOverride(fs[..|fs| - 1], out0)
    requires WellNamed(fs)
    requires fs[|fs| - 1].key.NameKey? && NamedCount(out0, fs[|fs| - 1].key.name) == 1
    ensures var out := MarkOne(out0, fs[|fs| - 1].key, fs[|fs| - 1].entry);
            |out| == |fs| && RecordsOverride(fs, out)
  {
    var m := |fs| - 1;
    var f := fs[m];
    var out := MarkOne(out0, f.key, f.entry);
    SingleNamesake(fs, out0, m);
    var t := FirstNamed(out0, f.key.name);
    assert out[t].overrideOf == f.entry.from && out[m].overrideOf == f.entry.overrideOf;
    forall j, k | 0 <= j < k < |fs| && SetsOverride(fs, j, k)
      ensures out[j].overrideOf == fs[k].entry.from
    {
      if j == t {
        if k < m {
          assert false;
        }
        assert k == m;
      } else {
        StepUntouched(fs, out0, out, j);
      }
    }
    forall j | 0 <= j < |fs| && NoSetter(fs, j)
      ensures out[j].overrideOf == fs[j].entry.overrideOf
    {
      if j == t {
        assert false;
      } else if j < m {
        StepUntouched(fs, out0, out, j);
      }
    }
  }

  /**
   * Pushing the entries one at a time in order leaves the marks described
   * by `Marked`.
   */
  lemma {:induction false} MarkAllSpec(fs: seq<Found>)
    requires WellNamed(fs)
    ensures |MarkAll(fs)| == |fs| && Marked(fs, MarkAll(fs))
  {
    if fs != [] {
      var m := |fs| - 1;
      var pre := fs[..m];
      assert WellNamed(pre);
      MarkAllSpec(pre);
      var out0 := MarkAll(pre);
      StepFields(fs, out0);
      StepFlags(fs, out0);
      if fs[m].key.SymbolKey? || NamedCount(out0, fs[m].key.name) != 1 {
        StepPlain(fs, out0);
      } else {
        StepSingle(fs, out0);
      }
    }
  }

  // ---------------------------------------------------------------------
  // The walk
  // ---------------------------------------------------------------------

  /** What `for (const item of obj)` visits: a string's characters, otherwise the object's (or its wrapper's) items. */
  function ItemsOf(h: Heap, v: Value): (src: Source<Value>)
    requires Valid(h) && ValueIn(h, v) && !IsNullOrUndefined(v)
    ensures forall i: nat :: ValueIn(h, src.at(i))
    ensures v.Str? ==> src.length == Some(|v.s|) && src.failure.None? &&
                       forall i :: 0 <= i < |v.s| ==> src.at(i) == Str([v.s[i]])
    ensures !v.Str? ==> src == ReadTarget(h, v).items
  {
    if v.Str? then CharItems(v.s)
    else
      ItemsValid(h, if v.Ref? then v.r else h.boxProto[TypeOf(h, v)]);
      ReadTarget(h, v).items
  }

  /** A string's iterator: one single-character string per character, then done. */
  function CharItems(s: string): (src: Source<Value>)
    ensures src.length == Some(|s|) && src.failure.None?
    ensures forall i :: 0 <= i < |s| ==> src.at(i) == Str([s[i]])
    ensures forall i: nat :: !src.at(i).Ref?
  {
    Source((i: nat) => if i < |s| then Str([s[i]]) else Undefined, Some(|s|), None)
  }

  /** Whether a `for ... of` loop cut at `limit` ends: the iterator finishes or throws, or the limit is finite. */
  predicate Stops(src: Source<Value>, limit: Limit)
  {
    src.length.Some? || src.failure.Some? || limit.Below?
  }

  /** The index of the `next()` call at which such a loop has stopped at the latest. */
  function StopBound(src: Source<Value>, limit: Limit): (b: nat)
    requires Stops(src, limit)
    ensures src.length.Some? ==> b <= src.length.value
    ensures src.failure.Some? ==> b <= src.failure.value.at
    ensures limit.Below? ==> b <= limit.n || b == 0
    ensures || (src.length.Some? && b == src.length.value)
            || (src.failure.Some? && b == src.failure.value.at)
            || (limit.Below? && (b == limit.n || (b == 0 && limit.n < 0)))
  {
    var a: nat := if limit.Below? then (if limit.n < 0 then 0 else limit.n)
                  else if src.length.Some? then src.length.value
                  else src.failure.value.at;
    var b: nat := if src.length.Some? && src.length.value < a then src.length.value else a;
    if src.failure.Some? && src.failure.value.at < b then src.failure.value.at else b
  }

  /**
   * The walk's own requirement: an expansion without a finite limit is only
   * asked of an iterable whose iterator finishes or throws (otherwise the
   * JavaScript loop never ends).
   */
  predicate ExpansionStops(rev: Revision, h: Heap, v: Value, expand: Value)
    requires Valid(h) && ValueIn(h, v)
  {
    !IsNullOrUndefined(v) && Iterable(rev, h, v) == Ok(true) && Truthy(expand) && IterableLimit(expand).Ok? ==>
      Stops(ItemsOf(h, v), IterableLimit(expand).value)
  }

  /**
   * `describe(obj, expandIterables)`: the kind, the serialization of a
   * primitive, the iterable values when `expand` is truthy, and the entries
   * of every level of the chain with their override marks. A call with no
   * `fuel` left is the stack overflow.
   */
  function DescribeOld(rev: Revision, host: Host, h: Heap, v: Value, expand: Value, fuel: nat): (r: Result<Report, Error>)
    requires Valid(h) && ValueIn(h, v) && ValueIn(h, expand)
    requires ExpansionStops(rev, h, v, expand)
    decreases fuel, 5, 0
  {
    if fuel == 0 then Err(StackOverflow)
    else
      var head :- Head(rev, host, h, v);
      var values :- ExpandOld(rev, host, h, v, expand, fuel);
      var found :- ChainEntries(rev, host, h, v, v, fuel);
      Ok(Report(head.0, head.1, values, MarkAll(found)))
  }

  /** The report's `instanceOf`, then its `value` when `isPrimitiveOrNull` holds. */
  function Head(rev: Revision, host: Host, h: Heap, v: Value): (r: Result<(string, Option<string>), Error>)
    requires Valid(h) && ValueIn(h, v)
    ensures r.Ok? <==> Kind(rev, h, v).Ok? && Primitive(rev, h, v).Ok? &&
                       (Primitive(rev, h, v).value ==> SerializeTop(rev, host, h, v).Ok?)
    ensures r.Ok? ==> && Kind(rev, h, v) == Ok(r.value.0)
                      && (Primitive(rev, h, v) == Ok(true) ==> SerializeTop(rev, host, h, v) == Ok(r.value.1))
                      && (Primitive(rev, h, v) == Ok(false) ==> r.value.1.None?)
  {
    var kind :- Kind(rev, h, v);
    var prim :- Primitive(rev, h, v);
    var value :- if prim then SerializeTop(rev, host, h, v) else Ok(None);
    Ok((kind, value))
  }

  /** `if (isIterable(obj) && expandIterables)`: the validated limit, then the loop. */
  function ExpandOld(rev: Revision, host: Host, h: Heap, v: Value, expand: Value, fuel: nat): (r: Result<Option<IterableValues>, Error>)
    requires Valid(h) && ValueIn(h, v) && ValueIn(h, expand)
    requires ExpansionStops(rev, h, v, expand)
    decreases fuel, 4, 0
  {
    var iterable :- Iterable(rev, h, v);
    if iterable && Truthy(expand) then
      var limit :- IterableLimit(expand);
      var iv :- IterValues(rev, host, h, ItemsOf(h, v), limit, 0, fuel);
      Ok(Some(iv))
    else Ok(None)
  }

  /** The `for ... of` loop from the `next()` call `k` on: items below the limit are described, the first one past it truncates. */
  function IterValues(rev: Revision, host: Host, h: Heap, src: Source<Value>, limit: Limit, k: nat, fuel: nat): (r: Result<IterableValues, Error>)
    requires Valid(h) && (forall i: nat :: ValueIn(h, src.at(i)))
    requires Stops(src, limit) && k <= StopBound(src, limit)
    decreases fuel, 3, StopBound(src, limit) - k
  {
    match Pull(src, k)
    case PullThrows(e) => Err(e)
    case Done => Ok(IterableValues([], false))
    case Item(x) =>
      if !Admits(limit, k) then Ok(IterableValues([], true))
      else if fuel == 0 then Err(StackOverflow)
      else
        var d :- DescribeOld(rev, host, h, x, Undefined, fuel - 1);
        var rest :- IterValues(rev, host, h, src, limit, k + 1, fuel);
        Ok(IterableValues([d] + rest.values, rest.truncated))
  }

  /**
   * The `do ... while (obj = Object.getPrototypeOf(obj))` loop from the level
   * `cur` on: the level's entries, then its prototype's. Reading the own
   * keys of null or undefined throws.
   */
  function ChainEntries(rev: Revision, host: Host, h: Heap, top: Value, cur: Value, fuel: nat): (r: Result<seq<Found>, Error>)
    requires Valid(h) && ValueIn(h, top) && ValueIn(h, cur)
    decreases fuel, 3, Rank(h, cur)
  {
    if IsNullOrUndefined(cur) then Err(TypeError("Cannot convert undefined or null to object"))
    else
      var here :- LevelEntries(rev, host, h, top, cur, 0, fuel);
      var p := ProtoOf(h, cur);
      if p.None? then Ok(here)
      else
        var rest :- ChainEntries(rev, host, h, top, Ref(p.value), fuel);
        Ok(here + rest)
  }

  /** The entries of the level `cur` from its `i`-th own property on, stopping at the first that throws. */
  function LevelEntries(rev: Revision, host: Host, h: Heap, top: Value, cur: Value, i: nat, fuel: nat): (r: Result<seq<Found>, Error>)
    requires Valid(h) && ValueIn(h, top) && ValueIn(h, cur) && !IsNullOrUndefined(cur)
    requires i <= |LevelSlots(h, cur)|
    decreases fuel, 2, |LevelSlots(h, cur)| - i
  {
    var slots := LevelSlots(h, cur);
    if i == |slots| then Ok([])
    else
      var f :- RawEntry(rev, host, h, top, cur, slots[i], fuel);
      var rest :- LevelEntries(rev, host, h, top, cur, i + 1, fuel);
      Ok([f] + rest)
  }

  /**
   * One pass of the inner `for` loop, before the override check: read the
   * property, show its value, then build the entry.
   */
  function RawEntry(rev: Revision, host: Host, h: Heap, top: Value, cur: Value, slot: Slot, fuel: nat): (r: Result<Found, Error>)
    requires Valid(h) && ValueIn(h, top) && ValueIn(h, cur) && !IsNullOrUndefined(cur)
    requires slot.read.Returns? ==> ValueIn(h, slot.read.value)
    decreases fuel, 1, 0
  {
    if slot.read.Throws? then Err(slot.read.error)
    else
      var shown :- ShowValue(rev, host, h, slot.read.value, fuel);
      EntryOf(rev, h, top, cur, slot, shown)
  }

  /** A primitive property value is shown as `String(value)`, anything else by its own description, one call deeper. */
  function ShowValue(rev: Revision, host: Host, h: Heap, value: Value, fuel: nat): (r: Result<EntryValue, Error>)
    requires Valid(h) && ValueIn(h, value)
    decreases fuel, 0, 0
  {
    var prim :- Primitive(rev, h, value);
    if prim then Ok(EntryValue.Text(ToJsString(host, h, value)))
    else if fuel == 0 then Err(StackOverflow)
    else
      var d :- DescribeOld(rev, host, h, value, Undefined, fuel - 1);
      Ok(Described(d))
  }

  /**
   * The entry for a property whose value reads and shows as `shown`: its
   * value's kind, the declaring level's kind when the level lies above the
   * starting object, and the level's answer to `propertyIsEnumerable` when it
   * has that method.
   */
  function EntryOf(rev: Revision, h: Heap, top: Value, cur: Value, slot: Slot, shown: EntryValue): (r: Result<Found, Error>)
    requires Valid(h) && ValueIn(h, top) && ValueIn(h, cur) && !IsNullOrUndefined(cur)
    requires slot.read.Returns? && ValueIn(h, slot.read.value)
    ensures r.Ok? ==> && r.value.key == slot.key && Unmarked(r.value) && r.value.entry.value == shown
                      && Kind(rev, h, slot.read.value) == Ok(r.value.entry.instanceOf)
                      && (r.value.entry.from.Some? <==> AboveTop(h, top, cur))
                      && (r.value.entry.from.Some? ==> Kind(rev, h, cur) == Ok(r.value.entry.from.value))
                      && r.value.entry.isEnumerable == (if ReadTarget(h, cur).hasPropertyIsEnumerable then Some(slot.enumerable) else None)
    ensures r.Err? <==> Kind(rev, h, slot.read.value).Err? || (AboveTop(h, top, cur) && Kind(rev, h, cur).Err?)
  {
    var kind :- Kind(rev, h, slot.read.value);
    var from :- if AboveTop(h, top, cur) then (var k :- Kind(rev, h, cur); Ok(Some(k))) else Ok(None);
    var enumerable := if ReadTarget(h, cur).hasPropertyIsEnumerable then Some(slot.enumerable) else None;
    Ok(Found(slot.key, Entry(KeyName(slot.key), shown, kind, from, enumerable, false, None)))
  }

  // ---------------------------------------------------------------------
  // What the walk produces
  // ---------------------------------------------------------------------

  /** An entry as the inner loop builds it, before any later entry overrides it. */
  predicate Unmarked(f: Found)
  {
    f.entry.name == KeyName(f.key) && !f.entry.isOverridden && f.entry.overrideOf.None?
  }

  /** Whether entries of the level `cur` name their level in `from`. */
  predicate AboveTop(h: Heap, top: Value, cur: Value)
    requires Valid(h) && ValueIn(h, cur) && !IsNullOrUndefined(cur)
  {
    !StrictEquals(top, cur) && !StrictEquals(cur, ProtoValue(h, cur))
  }

  /** A property whose read throws ends the walk with that error; one that reads is shown, then built into its entry. */
  lemma {:induction false} RawEntrySteps(rev: Revision, host: Host, h: Heap, top: Value, cur: Value, slot: Slot, fuel: nat)
    requires Valid(h) && ValueIn(h, top) && ValueIn(h, cur) && !IsNullOrUndefined(cur)
    requires slot.read.Returns? ==> ValueIn(h, slot.read.value)
    ensures slot.read.Throws? ==> RawEntry(rev, host, h, top, cur, slot, fuel) == Err(slot.read.error)
    ensures slot.read.Returns? ==>
              RawEntry(rev, host, h, top, cur, slot, fuel).Ok? ==
              (ShowValue(rev, host, h, slot.read.value, fuel).Ok? &&
               EntryOf(rev, h, top, cur, slot, ShowValue(rev, host, h, slot.read.value, fuel).value).Ok?)
    ensures RawEntry(rev, host, h, top, cur, slot, fuel).Ok? ==>
              RawEntry(rev, host, h, top, cur, slot, fuel) == EntryOf(rev, h, top, cur, slot, ShowValue(rev, host, h, slot.read.value, fuel).value)
  {
  }

  /** The shown value: `String(value)` for a primitive, the nested description otherwise. */
  lemma {:induction false} ShowValueFacts(rev: Revision, host: Host, h: Heap, value: Value, fuel: nat)
    requires Valid(h) && ValueIn(h, value)
    ensures Primitive(rev, h, value).Err? ==> ShowValue(rev, host, h, value, fuel) == Err(Primitive(rev, h, value).error)
    ensures Primitive(rev, h, value) == Ok(true) ==>
              ShowValue(rev, host, h, value, fuel) == Ok(EntryValue.Text(ToJsString(host, h, value)))
    ensures Primitive(rev, h, value) == Ok(false) ==>
              ShowValue(rev, host, h, value, fuel) ==
              (if fuel == 0 then Err(StackOverflow)
               else match DescribeOld(rev, host, h, value, Undefined, fuel - 1)
                    case Ok(d) => Ok(Described(d))
                    case Err(e) => Err(e))
  {
  }

  /** A level that succeeds from property `i` on is property `i`'s entry followed by the rest of the level. */
  lemma {:induction false} LevelStep(rev: Revision, host: Host, h: Heap, top: Value, cur: Value, i: nat, fuel: nat)
    requires Valid(h) && ValueIn(h, top) && ValueIn(h, cur) && !IsNullOrUndefined(cur)
    requires i < |LevelSlots(h, cur)|
    ensures var slots := LevelSlots(h, cur);
            var r := RawEntry(rev, host, h, top, cur, slots[i], fuel);
            var rest := LevelEntries(rev, host, h, top, cur, i + 1, fuel);
            LevelEntries(rev, host, h, top, cur, i, fuel) ==
              if r.Err? then Err(r.error) else if rest.Err? then Err(rest.error) else Ok([r.value] + rest.value)
  {
  }

  /** `fs` are the entries for the keys of `slots` from `i` on, as the inner loop built them. */
  predicate ShapedAfter(fs: seq<Found>, slots: seq<Slot>, i: nat)
  {
    && i <= |slots| && |fs| == |slots| - i
    && forall j :: 0 <= j < |fs| ==> fs[j].key == slots[i + j].key && Unmarked(fs[j])
  }

  /** Every entry of `fs` names its level in `from`, or none does. */
  predicate AllFrom(fs: seq<Found>, named: bool)
  {
    forall j :: 0 <= j < |fs| ==> fs[j].entry.from.Some? == named
  }

  lemma {:induction false} ShapedCons(f: Found, rest: seq<Found>, slots: seq<Slot>, i: nat, named: bool)
    requires i < |slots| && f.key == slots[i].key && Unmarked(f) && ShapedAfter(rest, slots, i + 1)
    requires f.entry.from.Some? == named && AllFrom(rest, named)
    ensures ShapedAfter([f] + rest, slots, i) && AllFrom([f] + rest, named)
  {
    assert forall j :: 0 < j < |rest| + 1 ==> ([f] + rest)[j] == rest[j - 1];
  }

  /**
   * A level's entries follow its own keys in order, each as the inner loop
   * built it, and name the level in `from` exactly when it lies above the start.
   */
  lemma {:induction false} LevelEntriesKeys(rev: Revision, host: Host, h: Heap, top: Value, cur: Value, i: nat, fuel: nat)
    requires Valid(h) && ValueIn(h, top) && ValueIn(h, cur) && !IsNullOrUndefined(cur)
    requires i <= |LevelSlots(h, cur)|
    requires LevelEntries(rev, host, h, top, cur, i, fuel).Ok?
    ensures LevelShape(LevelEntries(rev, host, h, top, cur, i, fuel).value, LevelSlots(h, cur), i, AboveTop(h, top, cur))
    decreases |LevelSlots(h, cur)| - i
  {
    if i < |LevelSlots(h, cur)| {
      LevelStepOk(rev, host, h, top, cur, i, fuel);
      LevelEntriesKeys(rev, host, h, top, cur, i + 1, fuel);
      LevelKeysStep(rev, host, h, top, cur, i, fuel);
    }
  }

  /** A level that describes without error describes its `i`-th property and the rest. */
  lemma {:induction false} LevelStepOk(rev: Revision, host: Host, h: Heap, top: Value, cur: Value, i: nat, fuel: nat)
    requires Valid(h) && ValueIn(h, top) && ValueIn(h, cur) && !IsNullOrUndefined(cur)
    requires i < |LevelSlots(h, cur)| && LevelEntries(rev, host, h, top, cur, i, fuel).Ok?
    ensures RawEntry(rev, host, h, top, cur, LevelSlots(h, cur)[i], fuel).Ok?
    ensures LevelEntries(rev, host, h, top, cur, i + 1, fuel).Ok?
    ensures LevelEntries(rev, host, h, top, cur, i, fuel).value ==
              [RawEntry(rev, host, h, top, cur, LevelSlots(h, cur)[i], fuel).value] + LevelEntries(rev, host, h, top, cur, i + 1, fuel).value
  {
    LevelStep(rev, host, h, top, cur, i, fuel);
  }

  /** An entry built without error carries its slot's key, is not yet marked and names its level exactly above the start. */
  lemma {:induction false} RawEntryShape(rev: Revision, host: Host, h: Heap, top: Value, cur: Value, slot: Slot, fuel: nat)
    requires Valid(h) && ValueIn(h, top) && ValueIn(h, cur) && !IsNullOrUndefined(cur)
    requires slot.read.Returns? ==> ValueIn(h, slot.read.value)
    requires RawEntry(rev, host, h, top, cur, slot, fuel).Ok?
    ensures RawEntry(rev, host, h, top, cur, slot, fuel).value.key == slot.key
    ensures Unmarked(RawEntry(rev, host, h, top, cur, slot, fuel).value)
    ensures RawEntry(rev, host, h, top, cur, slot, fuel).value.entry.from.Some? == AboveTop(h, top, cur)
  {
    RawEntrySteps(rev, host, h, top, cur, slot, fuel);
  }

  /** What `LevelEntriesKeys` states of the entries `fs` of `slots` from `i` on. */
  predicate LevelShape(fs: seq<Found>, slots: seq<Slot>, i: nat, named: bool)
  {
    ShapedAfter(fs, slots, i) && AllFrom(fs, named)
  }

  lemma {:induction false} LevelKeysStep(rev: Revision, host: Host, h: Heap, top: Value, cur: Value, i: nat, fuel: nat)
    requires Valid(h) && ValueIn(h, top) && ValueIn(h, cur) && !IsNullOrUndefined(cur)
    requires i < |LevelSlots(h, cur)| && LevelEntries(rev, host, h, top, cur, i, fuel).Ok?
    requires LevelEntries(rev, host, h, top, cur, i + 1, fuel).Ok? &&
             LevelShape(LevelEntries(rev, host, h, top, cur, i + 1, fuel).value, LevelSlots(h, cur), i + 1, AboveTop(h, top, cur))
    ensures LevelShape(LevelEntries(rev, host, h, top, cur, i, fuel).value, LevelSlots(h, cur), i, AboveTop(h, top, cur))
  {
    var slots := LevelSlots(h, cur);
    LevelStepOk(rev, host, h, top, cur, i, fuel);
    RawEntryShape(rev, host, h, top, cur, slots[i], fuel);
    var f := RawEntry(rev, host, h, top, cur, slots[i], fuel).value;
    var rest := LevelEntries(rev, host, h, top, cur, i + 1, fuel).value;
    ShapedCons(f, rest, slots, i, AboveTop(h, top, cur));
  }

  /** `fs` are the entries for `keys`, in order, as the inner loop built them. */
  predicate KeyedBy(fs: seq<Found>, keys: seq<Key>)
  {
    |fs| == |keys| && forall j :: 0 <= j < |fs| ==> fs[j].key == keys[j] && Unmarked(fs[j])
  }

  lemma {:induction false} KeyedLevel(fs: seq<Found>, slots: seq<Slot>)
    requires ShapedAfter(fs, slots, 0)
    ensures KeyedBy(fs, Keys(slots))
  {
  }

  lemma {:induction false} KeyedAppend(a: seq<Found>, ka: seq<Key>, b: seq<Found>, kb: seq<Key>)
    requires KeyedBy(a, ka) && KeyedBy(b, kb)
    ensures KeyedBy(a + b, ka + kb)
  {
    assert forall j :: |a| <= j < |a| + |b| ==> (a + b)[j] == b[j - |a|] && (ka + kb)[j] == kb[j - |a|];
  }

  lemma {:induction false} AllFromAppend(a: seq<Found>, b: seq<Found>, named: bool)
    requires AllFrom(a, named) && AllFrom(b, named)
    ensures AllFrom(a + b, named)
  {
    assert forall j :: |a| <= j < |a| + |b| ==> (a + b)[j] == b[j - |a|];
  }

  /** The outer loop's step: the level's entries, then, when there is a prototype, the rest of the chain. */
  lemma {:induction false} ChainStep(rev: Revision, host: Host, h: Heap, top: Value, cur: Value, fuel: nat)
    requires Valid(h) && ValueIn(h, top) && ValueIn(h, cur) && !IsNullOrUndefined(cur)
    ensures var here := LevelEntries(rev, host, h, top, cur, 0, fuel);
            var p := ProtoOf(h, cur);
            ChainEntries(rev, host, h, top, cur, fuel) ==
              if here.Err? then Err(here.error)
              else if p.None? then here
              else
                var rest := ChainEntries(rev, host, h, top, Ref(p.value), fuel);
                if rest.Err? then Err(rest.error) else Ok(here.value + rest.value)
  {
  }

  /** A successful walk from `cur` is the level's entries followed by the walk from its prototype. */
  lemma {:induction false} ChainStepOk(rev: Revision, host: Host, h: Heap, top: Value, cur: Value, fuel: nat)
    requires Valid(h) && ValueIn(h, top) && ValueIn(h, cur) && !IsNullOrUndefined(cur)
    requires ChainEntries(rev, host, h, top, cur, fuel).Ok?
    ensures LevelEntries(rev, host, h, top, cur, 0, fuel).Ok?
    ensures ProtoOf(h, cur).None? ==>
              ChainEntries(rev, host, h, top, cur, fuel).value == LevelEntries(rev, host, h, top, cur, 0, fuel).value
    ensures ProtoOf(h, cur).Some? ==>
              && ChainEntries(rev, host, h, top, Ref(ProtoOf(h, cur).value), fuel).Ok?
              && ChainEntries(rev, host, h, top, cur, fuel).value ==
                 LevelEntries(rev, host, h, top, cur, 0, fuel).value + ChainEntries(rev, host, h, top, Ref(ProtoOf(h, cur).value), fuel).value
  {
  }

  /** The walk's entries follow the keys of the chain, level by level, each as the inner loop built it. */
  lemma {:induction false} ChainEntriesKeys(rev: Revision, host: Host, h: Heap, top: Value, cur: Value, fuel: nat)
    requires Valid(h) && ValueIn(h, top) && ValueIn(h, cur) && !IsNullOrUndefined(cur)
    requires ChainEntries(rev, host, h, top, cur, fuel).Ok?
    ensures KeyedBy(ChainEntries(rev, host, h, top, cur, fuel).value, ChainKeys(h, cur))
    decreases Rank(h, cur)
  {
    if ProtoOf(h, cur).Some? {
      ChainStepOk(rev, host, h, top, cur, fuel);
      ChainEntriesKeys(rev, host, h, top, Ref(ProtoOf(h, cur).value), fuel);
      ChainKeysAbove(rev, host, h, top, cur, fuel);
    } else {
      ChainKeysLast(rev, host, h, top, cur, fuel);
    }
  }

  lemma {:induction false} ChainKeysAbove(rev: Revision, host: Host, h: Heap, top: Value, cur: Value, fuel: nat)
    requires Valid(h) && ValueIn(h, top) && ValueIn(h, cur) && !IsNullOrUndefined(cur)
    requires ChainEntries(rev, host, h, top, cur, fuel).Ok? && ProtoOf(h, cur).Some?
    requires ChainEntries(rev, host, h, top, Ref(ProtoOf(h, cur).value), fuel).Ok?
    requires KeyedBy(ChainEntries(rev, host, h, top, Ref(ProtoOf(h, cur).value), fuel).value, ChainKeys(h, Ref(ProtoOf(h, cur).value)))
    ensures KeyedBy(ChainEntries(rev, host, h, top, cur, fuel).value, ChainKeys(h, cur))
  {
    ChainStepOk(rev, host, h, top, cur, fuel);
    var slots := LevelSlots(h, cur);
    LevelEntriesKeys(rev, host, h, top, cur, 0, fuel);
    var here := LevelEntries(rev, host, h, top, cur, 0, fuel).value;
    KeyedLevel(here, slots);
    var p := ProtoOf(h, cur).value;
    KeyedAppend(here, Keys(slots), ChainEntries(rev, host, h, top, Ref(p), fuel).value, ChainKeys(h, Ref(p)));
  }

  lemma {:induction false} ChainKeysLast(rev: Revision, host: Host, h: Heap, top: Value, cur: Value, fuel: nat)
    requires Valid(h) && ValueIn(h, top) && ValueIn(h, cur) && !IsNullOrUndefined(cur)
    requires ChainEntries(rev, host, h, top, cur, fuel).Ok? && ProtoOf(h, cur).None?
    ensures KeyedBy(ChainEntries(rev, host, h, top, cur, fuel).value, ChainKeys(h, cur))
  {
    ChainStepOk(rev, host, h, top, cur, fuel);
    LevelEntriesKeys(rev, host, h, top, cur, 0, fuel);
    KeyedLevel(LevelEntries(rev, host, h, top, cur, 0, fuel).value, LevelSlots(h, cur));
  }

  /** A level strictly up the chain from the start is above it; the start itself is not, unless it is NaN. */
  lemma {:induction false} AboveTopFacts(h: Heap, top: Value, cur: Value)
    requires Valid(h) && ValueIn(h, top) && ValueIn(h, cur) && !IsNullOrUndefined(cur)
    ensures cur.Ref? && Rank(h, cur) < Rank(h, top) ==> AboveTop(h, top, cur)
    ensures top == cur && cur != Num(NaN) ==> !AboveTop(h, top, cur)
  {
  }

  /** Every entry found above the start names its level. */
  lemma {:induction false} ChainFromAbove(rev: Revision, host: Host, h: Heap, top: Value, cur: Value, fuel: nat)
    requires Valid(h) && ValueIn(h, top) && ValueIn(h, cur) && cur.Ref? && Rank(h, cur) < Rank(h, top)
    requires ChainEntries(rev, host, h, top, cur, fuel).Ok?
    ensures AllFrom(ChainEntries(rev, host, h, top, cur, fuel).value, true)
    decreases Rank(h, cur)
  {
    ChainStepOk(rev, host, h, top, cur, fuel);
    LevelEntriesKeys(rev, host, h, top, cur, 0, fuel);
    AboveTopFacts(h, top, cur);
    var p := ProtoOf(h, cur);
    if p.Some? {
      ChainFromAbove(rev, host, h, top, Ref(p.value), fuel);
      AllFromAppend(LevelEntries(rev, host, h, top, cur, 0, fuel).value, ChainEntries(rev, host, h, top, Ref(p.value), fuel).value, true);
    }
  }

  /** The first `n` entries carry no `from`, the others do. */
  predicate FromSplit(fs: seq<Found>, n: nat)
  {
    && n <= |fs|
    && (forall j :: 0 <= j < n ==> fs[j].entry.from.None?)
    && (forall j :: n <= j < |fs| ==> fs[j].entry.from.Some?)
  }

  lemma {:induction false} FromSplitAppend(a: seq<Found>, b: seq<Found>)
    requires AllFrom(a, false) && AllFrom(b, true)
    ensures FromSplit(a + b, |a|)
  {
    assert forall j :: |a| <= j < |a| + |b| ==> (a + b)[j] == b[j - |a|];
  }

  /**
   * Walking from `v`: the entries of `v`'s own properties carry no `from`,
   * and every entry found on a prototype does.
   */
  lemma {:induction false} ChainFrom(rev: Revision, host: Host, h: Heap, v: Value, fuel: nat)
    requires Valid(h) && ValueIn(h, v) && !IsNullOrUndefined(v)
    requires ChainEntries(rev, host, h, v, v, fuel).Ok?
    ensures FromSplit(ChainEntries(rev, host, h, v, v, fuel).value, |LevelSlots(h, v)|)
  {
    ChainStepOk(rev, host, h, v, v, fuel);
    LevelEntriesKeys(rev, host, h, v, v, 0, fuel);
    AboveTopFacts(h, v, v);
    var here := LevelEntries(rev, host, h, v, v, 0, fuel).value;
    assert AllFrom(here, false);
    var p := ProtoOf(h, v);
    if p.Some? {
      ChainFromAbove(rev, host, h, v, Ref(p.value), fuel);
      FromSplitAppend(here, ChainEntries(rev, host, h, v, Ref(p.value), fuel).value);
    } else {
      FromSplitAppend(here, []);
      assert here + [] == here;
    }
  }

  // ---------------------------------------------------------------------
  // The iterable values
  // ---------------------------------------------------------------------

  /**
   * The pulls behind `n` described values from the `next()` call `k` on:
   * each was an item the limit admits, and the pull after them either found
   * an item past the limit (truncated) or found the iterator done.
   */
  predicate PullsShaped(src: Source<Value>, limit: Limit, k: nat, n: nat, truncated: bool)
  {
    && (forall j :: k <= j < k + n ==> Pull(src, j).Item? && Admits(limit, j))
    && (truncated <==> Pull(src, k + n).Item? && !Admits(limit, k + n))
    && (!truncated ==> Pull(src, k + n).Done?)
  }

  lemma {:induction false} PullsCons(src: Source<Value>, limit: Limit, k: nat, n: nat, truncated: bool)
    requires Pull(src, k).Item? && Admits(limit, k) && PullsShaped(src, limit, k + 1, n, truncated)
    ensures PullsShaped(src, limit, k, n + 1, truncated)
  {
    assert k + (n + 1) == (k + 1) + n;
  }

  /** The `next()` call `k` of the loop and what follows it. */
  lemma {:induction false} IterStep(rev: Revision, host: Host, h: Heap, src: Source<Value>, limit: Limit, k: nat, fuel: nat)
    requires Valid(h) && (forall i: nat :: ValueIn(h, src.at(i)))
    requires Stops(src, limit) && k <= StopBound(src, limit)
    ensures Pull(src, k).PullThrows? ==> IterValues(rev, host, h, src, limit, k, fuel) == Err(Pull(src, k).error)
    ensures Pull(src, k).Done? ==> IterValues(rev, host, h, src, limit, k, fuel) == Ok(IterableValues([], false))
    ensures Pull(src, k).Item? && !Admits(limit, k) ==> IterValues(rev, host, h, src, limit, k, fuel) == Ok(IterableValues([], true))
    ensures Pull(src, k).Item? && Admits(limit, k) ==>
              && k < StopBound(src, limit)
              && IterValues(rev, host, h, src, limit, k, fuel) ==
                 if fuel == 0 then Err(StackOverflow)
                 else
                   var d := DescribeOld(rev, host, h, src.at(k), Undefined, fuel - 1);
                   var rest := IterValues(rev, host, h, src, limit, k + 1, fuel);
                   if d.Err? then Err(d.error)
                   else if rest.Err? then Err(rest.error)
                   else Ok(IterableValues([d.value] + rest.value.values, rest.value.truncated))
  {
  }

  /** A successful loop whose first pull is an admitted item: that item's description, then the rest. */
  lemma {:induction false} IterStepOk(rev: Revision, host: Host, h: Heap, src: Source<Value>, limit: Limit, k: nat, fuel: nat)
    requires Valid(h) && (forall i: nat :: ValueIn(h, src.at(i)))
    requires Stops(src, limit) && k <= StopBound(src, limit)
    requires IterValues(rev, host, h, src, limit, k, fuel).Ok?
    requires Pull(src, k).Item? && Admits(limit, k)
    ensures k < StopBound(src, limit) && fuel > 0
    ensures DescribeOld(rev, host, h, src.at(k), Undefined, fuel - 1).Ok?
    ensures IterValues(rev, host, h, src, limit, k + 1, fuel).Ok?
    ensures var rest := IterValues(rev, host, h, src, limit, k + 1, fuel).value;
            IterValues(rev, host, h, src, limit, k, fuel).value ==
              IterableValues([DescribeOld(rev, host, h, src.at(k), Undefined, fuel - 1).value] + rest.values, rest.truncated)
  {
  }

  /** The pulls behind a successful loop. */
  lemma {:induction false} IterValuesPulls(rev: Revision, host: Host, h: Heap, src: Source<Value>, limit: Limit, k: nat, fuel: nat)
    requires Valid(h) && (forall i: nat :: ValueIn(h, src.at(i)))
    requires Stops(src, limit) && k <= StopBound(src, limit)
    requires IterValues(rev, host, h, src, limit, k, fuel).Ok?
    ensures var r := IterValues(rev, host, h, src, limit, k, fuel).value;
            PullsShaped(src, limit, k, |r.values|, r.truncated)
    decreases StopBound(src, limit) - k
  {
    if Pull(src, k).Item? && Admits(limit, k) {
      IterStepOk(rev, host, h, src, limit, k, fuel);
      IterValuesPulls(rev, host, h, src, limit, k + 1, fuel);
      PullsItem(rev, host, h, src, limit, k, fuel);
    } else {
      PullsEnd(rev, host, h, src, limit, k, fuel);
    }
  }

  lemma {:induction false} PullsItem(rev: Revision, host: Host, h: Heap, src: Source<Value>, limit: Limit, k: nat, fuel: nat)
    requires Valid(h) && (forall i: nat :: ValueIn(h, src.at(i)))
    requires Stops(src, limit) && k < StopBound(src, limit)
    requires IterValues(rev, host, h, src, limit, k, fuel).Ok? && Pull(src, k).Item? && Admits(limit, k)
    requires IterValues(rev, host, h, src, limit, k + 1, fuel).Ok?
    requires var r := IterValues(rev, host, h, src, limit, k + 1, fuel).value;
             PullsShaped(src, limit, k + 1, |r.values|, r.truncated)
    ensures var r := IterValues(rev, host, h, src, limit, k, fuel).value;
            PullsShaped(src, limit, k, |r.values|, r.truncated)
  {
    IterStepOk(rev, host, h, src, limit, k, fuel);
    var rest := IterValues(rev, host, h, src, limit, k + 1, fuel).value;
    PullsCons(src, limit, k, |rest.values|, rest.truncated);
  }

  lemma {:induction false} PullsEnd(rev: Revision, host: Host, h: Heap, src: Source<Value>, limit: Limit, k: nat, fuel: nat)
    requires Valid(h) && (forall i: nat :: ValueIn(h, src.at(i)))
    requires Stops(src, limit) && k <= StopBound(src, limit)
    requires IterValues(rev, host, h, src, limit, k, fuel).Ok? && !(Pull(src, k).Item? && Admits(limit, k))
    ensures var r := IterValues(rev, host, h, src, limit, k, fuel).value;
            PullsShaped(src, limit, k, |r.values|, r.truncated)
  {
    IterStep(rev, host, h, src, limit, k, fuel);
  }

  /** A loop with a first value: that value is the description of the first item, one call deeper. */
  lemma {:induction false} IterValueFirst(rev: Revision, host: Host, h: Heap, src: Source<Value>, limit: Limit, k: nat, fuel: nat)
    requires Valid(h) && (forall i: nat :: ValueIn(h, src.at(i)))
    requires Stops(src, limit) && k <= StopBound(src, limit)
    requires IterValues(rev, host, h, src, limit, k, fuel).Ok?
    requires 0 < |IterValues(rev, host, h, src, limit, k, fuel).value.values|
    ensures fuel > 0
    ensures DescribeOld(rev, host, h, src.at(k), Undefined, fuel - 1) == Ok(IterValues(rev, host, h, src, limit, k, fuel).value.values[0])
  {
    IterStepOk(rev, host, h, src, limit, k, fuel);
  }

  /** A loop's later values are the values of the loop from the next pull on. */
  lemma {:induction false} IterValueLater(rev: Revision, host: Host, h: Heap, src: Source<Value>, limit: Limit, k: nat, fuel: nat, i: nat)
    requires Valid(h) && (forall i: nat :: ValueIn(h, src.at(i)))
    requires Stops(src, limit) && k <= StopBound(src, limit)
    requires IterValues(rev, host, h, src, limit, k, fuel).Ok?
    requires 0 < i < |IterValues(rev, host, h, src, limit, k, fuel).value.values|
    ensures k + 1 <= StopBound(src, limit) && IterValues(rev, host, h, src, limit, k + 1, fuel).Ok?
    ensures i - 1 < |IterValues(rev, host, h, src, limit, k + 1, fuel).value.values|
    ensures IterValues(rev, host, h, src, limit, k, fuel).value.values[i] == IterValues(rev, host, h, src, limit, k + 1, fuel).value.values[i - 1]
  {
    IterStepOk(rev, host, h, src, limit, k, fuel);
  }

  /** A finite limit bounds the number of values; a loop without a limit is never truncated. */
  lemma {:induction false} IterValuesBound(src: Source<Value>, limit: Limit, n: nat, truncated: bool)
    requires PullsShaped(src, limit, 0, n, truncated)
    ensures limit.Below? ==> n <= (if limit.n < 0 then 0 else limit.n)
    ensures limit.Below? && truncated ==> n == (if limit.n < 0 then 0 else limit.n)
    ensures limit.Unlimited? ==> !truncated
  {
    if limit.Below? && n > 0 {
      assert Admits(limit, n - 1);
    }
  }

  // ---------------------------------------------------------------------
  // The report's properties in terms of the chain's keys
  // ---------------------------------------------------------------------

  /** How many of the first `k` keys read as `n`. */
  function KeyCount(ks: seq<Key>, k: nat, n: string): (c: nat)
    requires k <= |ks|
    ensures c > 0 <==> exists j :: 0 <= j < k && KeyName(ks[j]) == n
  {
    if k == 0 then 0 else KeyCount(ks, k - 1, n) + (if KeyName(ks[k - 1]) == n then 1 else 0)
  }

  /** The property under key `k` overrides the one under key `j`, which is the only earlier one of that name. */
  predicate OverrideAt(ks: seq<Key>, j: nat, k: nat)
  {
    j < k < |ks| && ks[k].NameKey? && KeyName(ks[j]) == ks[k].name && KeyCount(ks, k, ks[k].name) == 1
  }

  /** No later property is the single override of the one under key `j`. */
  predicate NotOverriddenOnce(ks: seq<Key>, j: nat)
  {
    forall k {:trigger OverrideAt(ks, j, k)} :: j < k < |ks| ==> !OverrideAt(ks, j, k)
  }

  /**
   * The properties of a report for the chain keys `ks`, of which the first
   * `n` are the start's own: one per key, in order, named `String(key)`;
   * the own ones carry no `from` and the inherited ones do; a property is
   * overridden exactly when its key is a string some earlier key reads as;
   * one whose name exactly one later property overrides records that
   * property's `from`, and any other records nothing.
   */
  predicate PropertiesOf(ks: seq<Key>, n: nat, out: seq<Entry>)
  {
    && |out| == |ks| && n <= |ks|
    && (forall i :: 0 <= i < |ks| ==> out[i].name == KeyName(ks[i]))
    && (forall i :: 0 <= i < |ks| ==> (out[i].from.None? <==> i < n))
    && (forall i :: 0 <= i < |ks| ==> (out[i].isOverridden <==> ks[i].NameKey? && KeyCount(ks, i, ks[i].name) > 0))
    && (forall j, k {:trigger OverrideAt(ks, j, k)} :: 0 <= j < k < |ks| && OverrideAt(ks, j, k) ==> out[j].overrideOf == out[k].from)
    && (forall j :: 0 <= j < |ks| && NotOverriddenOnce(ks, j) ==> out[j].overrideOf.None?)
  }

  lemma {:induction false} FoundKeyCount(fs: seq<Found>, ks: seq<Key>, k: nat, n: string)
    requires KeyedBy(fs, ks) && k <= |fs|
    ensures FoundCount(fs, k, n) == KeyCount(ks, k, n)
  {
    forall j | 0 <= j < k
      ensures fs[j].entry.name == KeyName(ks[j])
    {
      assert fs[j].key == ks[j] && Unmarked(fs[j]);
    }
    NamesCount(fs, ks, k, n);
  }

  lemma {:induction false} NamesCount(fs: seq<Found>, ks: seq<Key>, k: nat, n: string)
    requires k <= |fs| && k <= |ks| && forall j :: 0 <= j < k ==> fs[j].entry.name == KeyName(ks[j])
    ensures FoundCount(fs, k, n) == KeyCount(ks, k, n)
    decreases k
  {
    if k > 0 {
      NamesCount(fs, ks, k - 1, n);
    }
  }

  lemma {:induction false} SameExceptMarksFrom(a: Entry, b: Entry)
    requires SameExceptMarks(a, b)
    ensures a.from == b.from && a.name == b.name
  {
    assert a.(isOverridden := false, overrideOf := None).from == b.(isOverridden := false, overrideOf := None).from;
    assert a.(isOverridden := false, overrideOf := None).name == b.(isOverridden := false, overrideOf := None).name;
  }

  /** Marking entries found for `ks` whose first `n` carry no `from` gives the properties described by `PropertiesOf`. */
  lemma {:induction false} MarkedProperties(fs: seq<Found>, ks: seq<Key>, n: nat, out: seq<Entry>)
    requires KeyedBy(fs, ks) && FromSplit(fs, n) && Marked(fs, out)
    ensures PropertiesOf(ks, n, out)
  {
    forall i | 0 <= i < |ks|
      ensures out[i].name == KeyName(ks[i])
      ensures out[i].from.None? <==> i < n
      ensures out[i].isOverridden <==> ks[i].NameKey? && KeyCount(ks, i, ks[i].name) > 0
    {
      SameExceptMarksFrom(out[i], fs[i].entry);
      FoundKeyCount(fs, ks, i, KeyName(ks[i]));
      assert out[i].isOverridden == (fs[i].entry.isOverridden || OverriddenAt(fs, i));
    }
    forall j, k | 0 <= j < k < |ks| && OverrideAt(ks, j, k)
      ensures out[j].overrideOf == out[k].from
    {
      FoundKeyCount(fs, ks, k, ks[k].name);
      SameExceptMarksFrom(out[k], fs[k].entry);
      assert SetsOverride(fs, j, k);
    }
    forall j | 0 <= j < |ks| && NotOverriddenOnce(ks, j)
      ensures out[j].overrideOf.None?
    {
      forall k | j < k < |fs|
        ensures !SetsOverride(fs, j, k)
      {
        FoundKeyCount(fs, ks, k, KeyName(ks[k]));
        assert !OverrideAt(ks, j, k);
      }
      assert NoSetter(fs, j);
    }
  }

  // ---------------------------------------------------------------------
  // What `describe` reports
  // ---------------------------------------------------------------------

  /** A description that succeeds had stack left and is built from its three successful parts. */
  lemma {:induction false} DescribeOldOk(rev: Revision, host: Host, h: Heap, v: Value, expand: Value, fuel: nat)
    requires Valid(h) && ValueIn(h, v) && ValueIn(h, expand) && ExpansionStops(rev, h, v, expand)
    requires DescribeOld(rev, host, h, v, expand, fuel).Ok?
    ensures fuel > 0
    ensures Head(rev, host, h, v).Ok? && ExpandOld(rev, host, h, v, expand, fuel).Ok? && ChainEntries(rev, host, h, v, v, fuel).Ok?
    ensures DescribeOld(rev, host, h, v, expand, fuel).value ==
            Report(Head(rev, host, h, v).value.0, Head(rev, host, h, v).value.1,
                   ExpandOld(rev, host, h, v, expand, fuel).value, MarkAll(ChainEntries(rev, host, h, v, v, fuel).value))
  {
  }

  /** A report's properties are the marked entries of the walk from the value itself. */
  lemma {:induction false} DescribeOldChain(rev: Revision, host: Host, h: Heap, v: Value, expand: Value, fuel: nat)
    requires Valid(h) && ValueIn(h, v) && ValueIn(h, expand) && ExpansionStops(rev, h, v, expand)
    requires DescribeOld(rev, host, h, v, expand, fuel).Ok?
    ensures fuel > 0 && ChainEntries(rev, host, h, v, v, fuel).Ok?
    ensures DescribeOld(rev, host, h, v, expand, fuel).value.properties == MarkAll(ChainEntries(rev, host, h, v, v, fuel).value)
  {
    DescribeOldOk(rev, host, h, v, expand, fuel);
  }

  /** A report's kind is the value's; a primitive's value is its serialization, anything else has none. */
  lemma {:induction false} DescribeOldHead(rev: Revision, host: Host, h: Heap, v: Value, expand: Value, fuel: nat)
    requires Valid(h) && ValueIn(h, v) && ValueIn(h, expand) && ExpansionStops(rev, h, v, expand)
    requires DescribeOld(rev, host, h, v, expand, fuel).Ok?
    ensures Head(rev, host, h, v).Ok?
    ensures DescribeOld(rev, host, h, v, expand, fuel).value.instanceOf == Head(rev, host, h, v).value.0
    ensures DescribeOld(rev, host, h, v, expand, fuel).value.value == Head(rev, host, h, v).value.1
  {
    DescribeOldOk(rev, host, h, v, expand, fuel);
  }

  /** Iterable values are reported exactly for an iterable with a truthy `expand`. */
  lemma {:induction false} DescribeOldIterable(rev: Revision, host: Host, h: Heap, v: Value, expand: Value, fuel: nat)
    requires Valid(h) && ValueIn(h, v) && ValueIn(h, expand) && ExpansionStops(rev, h, v, expand)
    requires DescribeOld(rev, host, h, v, expand, fuel).Ok?
    ensures ExpandOld(rev, host, h, v, expand, fuel) == Ok(DescribeOld(rev, host, h, v, expand, fuel).value.iterableValues)
  {
    DescribeOldOk(rev, host, h, v, expand, fuel);
  }

  /** The loop runs exactly for an iterable with a truthy `expand`, over its items with the validated limit. */
  lemma {:induction false} ExpandOldFacts(rev: Revision, host: Host, h: Heap, v: Value, expand: Value, fuel: nat)
    requires Valid(h) && ValueIn(h, v) && ValueIn(h, expand) && ExpansionStops(rev, h, v, expand)
    requires ExpandOld(rev, host, h, v, expand, fuel).Ok?
    ensures var r := ExpandOld(rev, host, h, v, expand, fuel).value;
            && (r.Some? <==> Iterable(rev, h, v) == Ok(true) && Truthy(expand))
            && (r.Some? ==>
                  && !IsNullOrUndefined(v) && IterableLimit(expand).Ok?
                  && Stops(ItemsOf(h, v), IterableLimit(expand).value)
                  && IterValues(rev, host, h, ItemsOf(h, v), IterableLimit(expand).value, 0, fuel) == Ok(r.value))
  {
  }

  /**
   * The properties of a report: one per key of the chain from the value,
   * in order, as `PropertiesOf` describes them, the value's own keys first.
   */
  lemma {:induction false} DescribeOldProperties(rev: Revision, host: Host, h: Heap, v: Value, expand: Value, fuel: nat)
    requires Valid(h) && ValueIn(h, v) && ValueIn(h, expand) && ExpansionStops(rev, h, v, expand)
    requires DescribeOld(rev, host, h, v, expand, fuel).Ok?
    ensures !IsNullOrUndefined(v)
    ensures PropertiesOf(ChainKeys(h, v), |LevelSlots(h, v)|, DescribeOld(rev, host, h, v, expand, fuel).value.properties)
  {
    DescribeOldChain(rev, host, h, v, expand, fuel);
    assert !IsNullOrUndefined(v);
    var fs := ChainEntries(rev, host, h, v, v, fuel).value;
    ChainEntriesKeys(rev, host, h, v, v, fuel);
    ChainFrom(rev, host, h, v, fuel);
    assert WellNamed(fs) by {
      forall i | 0 <= i < |fs| ensures fs[i].entry.name == KeyName(fs[i].key) {
        assert Unmarked(fs[i]);
      }
    }
    MarkAllSpec(fs);
    MarkedProperties(fs, ChainKeys(h, v), |LevelSlots(h, v)|, MarkAll(fs));
  }

  /** src/util.js lets null and undefined through to `Object.getOwnPropertyNames`, which throws. */
  lemma {:induction false} DescribeOldNullishSrc(host: Host, h: Heap, v: Value, expand: Value, fuel: nat)
    requires Valid(h) && ValueIn(h, expand) && IsNullOrUndefined(v) && fuel > 0
    ensures DescribeOld(Src, host, h, v, expand, fuel) == Err(TypeError("Cannot convert undefined or null to object"))
  {
    assert Head(Src, host, h, v).Ok?;
    assert ExpandOld(Src, host, h, v, expand, fuel) == Ok(None);
    assert ChainEntries(Src, host, h, v, v, fuel) == Err(TypeError("Cannot convert undefined or null to object"));
  }

  /** object-describe.js's `isIterable` reads `Symbol.iterator` from null or undefined, which throws. */
  lemma {:induction false} DescribeOldNullishOriginal(host: Host, h: Heap, v: Value, expand: Value, fuel: nat)
    requires Valid(h) && ValueIn(h, expand) && IsNullOrUndefined(v) && fuel > 0
    ensures DescribeOld(Original, host, h, v, expand, fuel) ==
            Err(TypeError("Cannot read properties of " + (if v.Null? then "null" else "undefined")))
  {
    assert Head(Original, host, h, v).Ok?;
    assert ExpandOld(Original, host, h, v, expand, fuel) == Err(TypeError("Cannot read properties of " + (if v.Null? then "null" else "undefined")));
  }

  /**
   * There is no guard against cycles: an object whose first own property
   * holds the object itself overflows the stack whatever the budget.
   */
  lemma {:induction false} SelfReferenceOverflows(rev: Revision, host: Host, h: Heap, r: Ref, fuel: nat)
    requires Valid(h) && r in h.objects && !h.objects[r].callable
    requires Kind(rev, h, Ref(r)).Ok?
    requires |LevelSlots(h, Ref(r))| > 0 && LevelSlots(h, Ref(r))[0].read == Returns(Ref(r))
    ensures DescribeOld(rev, host, h, Ref(r), Undefined, fuel) == Err(StackOverflow)
    decreases fuel
  {
    if fuel > 0 {
      SelfReferenceOverflows(rev, host, h, r, fuel - 1);
      var slot := LevelSlots(h, Ref(r))[0];
      assert ShowValue(rev, host, h, Ref(r), fuel) == Err(StackOverflow);
      assert RawEntry(rev, host, h, Ref(r), Ref(r), slot, fuel) == Err(StackOverflow);
      LevelStep(rev, host, h, Ref(r), Ref(r), 0, fuel);
      ChainStep(rev, host, h, Ref(r), Ref(r), fuel);
    }
  }
}
