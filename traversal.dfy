/**
 * The traversal engine of describe.js: `describe`, with `overriddenBy`,
 * `expandIterables`, `getPropertyValue` and `isIgnored`, over the abstract
 * heap. The JavaScript call stack is a `fuel` budget: when it is spent the
 * next call fails with the RangeError the engine would raise, and like every
 * other error that is caught only inside `expandIterables`.
 */
module Traversal {
  import opened Wrappers
  import opened JsValues
  import opened Classifier
  import opened Serializer
  import opened Buckets

  // ---------------------------------------------------------------------
  // Descriptions
  // ---------------------------------------------------------------------

  /**
   * A property's `value`: a serialization (`isPrimitive`), the engine's
   * restricted-property marker, a `CircularReference` (`isCircular`), or a
   * nested description.
   */
  datatype PropertyValue =
    | Serialized(serialized: Serializer.Serialized)
    | Restricted
    | Circular(reference: Value)
    | Nested(description: Description)

  datatype PropertyDescription = PropertyDescription(
    name: string,
    enumerable: bool,
    configurable: bool,
    getter: Option<ParsedSignature>,
    setter: Option<ParsedSignature>,
    from: string,
    overriddenBy: Option<seq<string>>,
    kind: string,                      // the `is` field
    value: PropertyValue)

  /** What `describe` returns: a primitive's value, or an object's full report. */
  datatype Description =
    | PrimitiveDescription(kind: string, value: Serializer.Serialized)
    | ObjectDescription(
        kind: string,                  // the `is` field
        summary: Serializer.Serialized,
        isIterable: bool,
        isIterator: bool,
        properties: seq<PropertyDescription>,
        iterables: Option<Buckets<Description>>,
        prototype: Option<Description>)

  predicate RefsIn(h: Heap, rs: seq<Ref>)
  {
    forall i :: 0 <= i < |rs| ==> rs[i] in h.objects
  }

  // ---------------------------------------------------------------------
  // Helpers
  // ---------------------------------------------------------------------

  lemma RefsInSnoc(h: Heap, rs: seq<Ref>, r: Ref)
    requires RefsIn(h, rs) && r in h.objects
    ensures RefsIn(h, rs + [r])
  {
    forall i | 0 <= i < |rs + [r]| ensures (rs + [r])[i] in h.objects {
      if i < |rs| {
        assert (rs + [r])[i] == rs[i];
      }
    }
  }

  /** `isIgnored`: the object's truthy `constructor` is identical to an entry of `ignore`. */
  predicate IsIgnored(h: Heap, ignore: seq<Value>, p: Ref)
    requires p in h.objects
  {
    var c := h.objects[p].ctor;
    Truthy(c) && exists i :: 0 <= i < |ignore| && StrictEquals(c, ignore[i])
  }

  /** The prototypes that own a string property named like `key`, in order; a symbol key is never found among names. */
  function Owners(h: Heap, key: Key, ps: seq<Ref>): (owners: seq<Ref>)
    requires RefsIn(h, ps)
    ensures RefsIn(h, owners)
    ensures Subsequence(owners, ps)
    ensures forall p :: p in owners <==> p in ps && key.NameKey? && key.name in h.objects[p].names
  {
    if ps == [] then []
    else
      var rest := Owners(h, key, ps[1..]);
      assert forall p :: p in ps <==> p == ps[0] || p in ps[1..];
      if key.NameKey? && key.name in h.objects[ps[0]].names then [ps[0]] + rest
      else SubsequenceSkip(rest, ps); rest
  }

  lemma {:induction false} SubsequenceSkip<T>(sub: seq<T>, s: seq<T>)
    requires s != [] && Subsequence(sub, s[1..])
    ensures Subsequence(sub, s)
    decreases |s|, 0
  {
    if sub != [] && sub[0] == s[0] {
      SubsequenceDrop(sub, s[1..]);
    }
  }

  lemma {:induction false} SubsequenceDrop<T>(sub: seq<T>, t: seq<T>)
    requires sub != [] && Subsequence(sub, t)
    ensures t != [] && Subsequence(sub[1..], t)
    decreases |t|, 1
  {
    if sub[0] == t[0] {
      SubsequenceSkip(sub[1..], t);
    } else {
      SubsequenceDrop(sub, t[1..]);
      SubsequenceSkip(sub[1..], t);
    }
  }

  /** `ps.map(instanceType)`, failing on the first kind that fails. */
  function Kinds(h: Heap, ps: seq<Ref>): (r: Result<seq<string>, Error>)
    requires Valid(h) && RefsIn(h, ps)
    ensures r.Ok? <==> forall i :: 0 <= i < |ps| ==> InstanceType(h, Ref(ps[i])).Ok?
    ensures r.Ok? ==> |r.value| == |ps| && forall i :: 0 <= i < |ps| ==> r.value[i] == InstanceType(h, Ref(ps[i])).value
  {
    Collect(KindResults(h, ps))
  }

  /** `instanceType` of each prototype, in order. */
  function KindResults(h: Heap, ps: seq<Ref>): (rs: seq<Result<string, Error>>)
    requires Valid(h) && RefsIn(h, ps)
    ensures |rs| == |ps| && forall i :: 0 <= i < |ps| ==> rs[i] == InstanceType(h, Ref(ps[i]))
  {
    seq(|ps|, i requires 0 <= i < |ps| => InstanceType(h, Ref(ps[i])))
  }

  /**
   * `overriddenBy(name, prototypes)`: undefined when there are no prototypes
   * or none owns the name, otherwise the kinds of the owners in chain order.
   */
  function OverriddenBy(h: Heap, key: Key, prototypes: seq<Ref>): (r: Result<Option<seq<string>>, Error>)
    requires Valid(h) && RefsIn(h, prototypes)
    ensures r == Ok(None) <==> Owners(h, key, prototypes) == []
    ensures r.Ok? && r.value.Some? ==> Kinds(h, Owners(h, key, prototypes)) == Ok(r.value.value)
    ensures r.Err? <==> Owners(h, key, prototypes) != [] && Kinds(h, Owners(h, key, prototypes)).Err?
  {
    if prototypes == [] then Ok(None)
    else
      var owners := Owners(h, key, prototypes);
      if owners == [] then Ok(None)
      else
        var kinds :- Kinds(h, owners);
        Ok(Some(kinds))
  }

  /** What reading a property gave: a value, or the restricted-property marker. */
  datatype PropertyRead = Read(value: Value) | RestrictedRead

  /** `getPropertyValue`: a TypeError from the read becomes the marker; any other error propagates. */
  function GetPropertyValue(h: Heap, r: Ref, key: Key): (v: Result<PropertyRead, Error>)
    requires Valid(h) && r in h.objects && key in OwnKeys(h.objects[r])
    ensures v.Ok? && v.value.Read? ==> ValueIn(h, v.value.value)
    ensures h.objects[r].props[key].read.Returns? ==> v == Ok(Read(h.objects[r].props[key].read.value))
    ensures v == Ok(RestrictedRead) <==> h.objects[r].props[key].read.Throws? && h.objects[r].props[key].read.error.TypeError?
    ensures v.Err? <==> h.objects[r].props[key].read.Throws? && !h.objects[r].props[key].read.error.TypeError?
  {
    OwnKeyValid(h, r, key);
    match h.objects[r].props[key].read
    case Returns(x) => Ok(Read(x))
    case Throws(e) => if e.TypeError? then Ok(RestrictedRead) else Err(e)
  }

  /** `instanceType(value)`; the marker is a symbol. */
  function ReadKind(h: Heap, pr: PropertyRead): Result<string, Error>
    requires Valid(h) && (pr.Read? ==> ValueIn(h, pr.value))
  {
    if pr.RestrictedRead? then Ok("symbol") else InstanceType(h, pr.value)
  }

  /** `descriptor.get` or `descriptor.set` as a value. */
  function Accessor(f: Option<Ref>): Value
  {
    if f.Some? then Ref(f.value) else Undefined
  }

  /**
   * The keys the property loop visits: own names, then own symbols; on an
   * `instanceof Array` object a name containing a digit is dropped, and a
   * symbol makes the pattern test throw.
   */
  function PropertyKeys(h: Heap, r: Ref): (keys: Result<seq<Key>, Error>)
    requires r in h.objects
    ensures keys.Ok? ==> forall k :: k in keys.value ==> k in OwnKeys(h.objects[r])
    ensures keys.Err? <==> h.objects[r].instanceOfArray && |h.objects[r].symbols| > 0
    ensures keys.Ok? && !h.objects[r].instanceOfArray ==> keys.value == OwnKeys(h.objects[r])
    ensures keys.Ok? && h.objects[r].instanceOfArray ==>
              forall k :: k in keys.value <==> k.NameKey? && k.name in h.objects[r].names && !HasDigit(k.name)
  {
    var o := h.objects[r];
    if !o.instanceOfArray then Ok(OwnKeys(o))
    else if |o.symbols| > 0 then Err(TypeError("Cannot convert a Symbol value to a string"))
    else
      var keys := NameKeys(WithoutDigitNames(o.names));
      assert forall k :: k in keys <==> k.NameKey? && k.name in WithoutDigitNames(o.names) by {
        forall k | k in keys ensures k.NameKey? && k.name in WithoutDigitNames(o.names) {
          var i :| 0 <= i < |keys| && keys[i] == k;
        }
        forall k: Key | k.NameKey? && k.name in WithoutDigitNames(o.names) ensures k in keys {
          var i :| 0 <= i < |WithoutDigitNames(o.names)| && WithoutDigitNames(o.names)[i] == k.name;
          assert keys[i] == k;
        }
      }
      assert forall k :: k in keys ==> k in OwnKeys(o) by {
        forall k | k in keys ensures k in OwnKeys(o) {
          var i :| 0 <= i < |o.names| && o.names[i] == k.name;
          assert OwnKeys(o)[i] == k;
        }
      }
      Ok(keys)
  }

  // ---------------------------------------------------------------------
  // describe
  // ---------------------------------------------------------------------

  /** The heap facts every call of the traversal relies on. */
  ghost predicate Context(h: Heap, prototypes: seq<Ref>)
  {
    Valid(h) && RefsIn(h, prototypes)
  }

  /**
   * `describe(obj, ignore, history, prototypes)`. A primitive (in the
   * pragmatic sense) gets its kind and serialization; an object gets its
   * kind, summary, flags, properties, iterables and, unless it is null or
   * ignored, its prototype's description.
   */
  function DescribeSpec(host: Host, h: Heap, ignore: seq<Value>, history: seq<Ref>, prototypes: seq<Ref>, v: Value, fuel: nat)
    : (d: Result<Description, Error>)
    requires Context(h, prototypes) && ValueIn(h, v)
    ensures fuel == 0 ==> d == Err(StackOverflow)
    ensures d.Ok? && d.value.ObjectDescription? ==> v.Ref?
    decreases fuel, 6
  {
    if fuel == 0 then Err(StackOverflow)
    else
      var kind :- InstanceType(h, v);
      if IsNullOrUndefined(v) || IsPrimitiveOrNull(h, v) then
        var value :- Serialize(host, h, v);
        Ok(PrimitiveDescription(kind, value))
      else
        var summary :- Serialize(host, h, v);
        match v
        case Ref(r) => DescribeRef(host, h, ignore, history, prototypes, r, kind, summary, fuel)
        // Only a bigint gets here, and serializing it has already failed.
        case _ => Err(TypeError("bigint"))
  }

  /** The object branch of `describe`, once the kind and summary are known. */
  function DescribeRef(host: Host, h: Heap, ignore: seq<Value>, history: seq<Ref>, prototypes: seq<Ref>,
                       r: Ref, kind: string, summary: Serializer.Serialized, fuel: nat)
    : (d: Result<Description, Error>)
    requires Context(h, prototypes) && r in h.objects && fuel >= 1
    ensures d.Ok? ==> d.value.ObjectDescription? && d.value.kind == kind && d.value.summary == summary
    decreases fuel, 5
  {
    var isCycle := r in history;
    var history' := history + [r];
    var keys :- PropertyKeys(h, r);
    var properties :- DescribeProperties(host, h, ignore, history', prototypes, r, isCycle, kind, keys, fuel);
    var iterables := ExpandIterables(host, h, ignore, history', prototypes, r, fuel);
    var prototype :- DescribePrototype(host, h, ignore, history', prototypes, r, fuel);
    Ok(ObjectDescription(kind, summary, IsIterable(h, Ref(r), false), IsIterator(h, Ref(r)), properties, iterables, prototype))
  }

  /** The `prototype` field: the prototype described with `obj` appended to `prototypes`, unless it is null or ignored. */
  function DescribePrototype(host: Host, h: Heap, ignore: seq<Value>, history: seq<Ref>, prototypes: seq<Ref>, r: Ref, fuel: nat)
    : (d: Result<Option<Description>, Error>)
    requires Context(h, prototypes) && r in h.objects && fuel >= 1
    ensures d.Ok? ==> (d.value.Some? <==> h.objects[r].proto.Some? && !IsIgnored(h, ignore, h.objects[r].proto.value))
    ensures d.Ok? && d.value.Some? ==>
              && h.objects[r].proto.Some? && h.objects[r].proto.value in h.objects
              && DescribeSpec(host, h, ignore, history, prototypes + [r], Ref(h.objects[r].proto.value), fuel - 1) == Ok(d.value.value)
    ensures d.Err? <==>
              && h.objects[r].proto.Some? && !IsIgnored(h, ignore, h.objects[r].proto.value)
              && h.objects[r].proto.value in h.objects
              && DescribeSpec(host, h, ignore, history, prototypes + [r], Ref(h.objects[r].proto.value), fuel - 1).Err?
    decreases fuel, 2
  {
    assert ObjValid(h, h.objects[r]);
    var proto := h.objects[r].proto;
    if proto.Some? && !IsIgnored(h, ignore, proto.value) then
      var d :- DescribeSpec(host, h, ignore, history, prototypes + [r], Ref(proto.value), fuel - 1);
      Ok(Some(d))
    else Ok(None)
  }

  /** The property loop: one description per key, stopping at the first error. */
  function DescribeProperties(host: Host, h: Heap, ignore: seq<Value>, history: seq<Ref>, prototypes: seq<Ref>,
                              r: Ref, isCycle: bool, from: string, keys: seq<Key>, fuel: nat)
    : (ps: Result<seq<PropertyDescription>, Error>)
    requires Context(h, prototypes) && r in h.objects && fuel >= 1
    requires forall k :: k in keys ==> k in OwnKeys(h.objects[r])
    decreases fuel, 4
  {
    Collect(PropertyResults(host, h, ignore, history, prototypes, r, isCycle, from, keys, fuel))
  }

  /** What each pass of the property loop gives, key by key. */
  function PropertyResults(host: Host, h: Heap, ignore: seq<Value>, history: seq<Ref>, prototypes: seq<Ref>,
                           r: Ref, isCycle: bool, from: string, keys: seq<Key>, fuel: nat)
    : (rs: seq<Result<PropertyDescription, Error>>)
    requires Context(h, prototypes) && r in h.objects && fuel >= 1
    requires forall k :: k in keys ==> k in OwnKeys(h.objects[r])
    ensures |rs| == |keys|
    decreases fuel, 3
  {
    seq(|keys|, j requires 0 <= j < |keys| =>
          DescribeProperty(host, h, ignore, history, prototypes, r, isCycle, from, keys[j], fuel))
  }

  /**
   * One pass of the property loop: descriptor, `from`, `overriddenBy`, the
   * value's kind, and the value itself, which is serialized when primitive,
   * cut to a circular reference when the container is a repeat, and
   * described (with no prototypes) otherwise.
   */
  function DescribeProperty(host: Host, h: Heap, ignore: seq<Value>, history: seq<Ref>, prototypes: seq<Ref>,
                            r: Ref, isCycle: bool, from: string, key: Key, fuel: nat)
    : (p: Result<PropertyDescription, Error>)
    requires Context(h, prototypes) && r in h.objects && fuel >= 1 && key in OwnKeys(h.objects[r])
    ensures p.Ok? ==> p.value.name == KeyName(key) && p.value.from == from
    ensures p.Ok? ==> (p.value.getter.Some? <==> h.objects[r].props[key].getter.Some?)
    ensures p.Ok? ==> (p.value.setter.Some? <==> h.objects[r].props[key].setter.Some?)
    ensures p.Ok? && p.value.value.Circular? ==> isCycle
    ensures p.Ok? && p.value.value.Nested? ==> !isCycle
    ensures p.Ok? ==> OverriddenBy(h, key, prototypes) == Ok(p.value.overriddenBy)
    ensures p.Ok? ==> ValueFromRead(host, h, ignore, history, isCycle, h.objects[r].props[key].read, fuel, p.value.value)
    decreases fuel, 2
  {
    OwnKeyValid(h, r, key);
    var prop := h.objects[r].props[key];
    var getter :- ParseFunctionSignature(host, h, Accessor(prop.getter));
    var setter :- ParseFunctionSignature(host, h, Accessor(prop.setter));
    var overridden :- OverriddenBy(h, key, prototypes);
    var read :- GetPropertyValue(h, r, key);
    var kind :- ReadKind(h, read);
    var value :- PropertyValueOf(host, h, ignore, history, isCycle, read, fuel);
    Ok(PropertyDescription(KeyName(key), prop.enumerable, prop.configurable, getter, setter, from, overridden, kind, value))
  }

  /**
   * A property's `value`: the marker for a restricted property, the
   * serialization of a primitive, a circular reference when the container
   * is a repeat, and otherwise the value described with no prototypes.
   */
  function PropertyValueOf(host: Host, h: Heap, ignore: seq<Value>, history: seq<Ref>, isCycle: bool, read: PropertyRead, fuel: nat)
    : (pv: Result<PropertyValue, Error>)
    requires Valid(h) && (read.Read? ==> ValueIn(h, read.value)) && fuel >= 1
    ensures pv.Ok? && pv.value.Circular? ==> isCycle
    ensures pv.Ok? && pv.value.Nested? ==> !isCycle
    ensures read.RestrictedRead? ==> pv == Ok(Restricted)
    ensures read.Read? && IsPrimitiveOrNull(h, read.value) ==>
              (pv.Ok? <==> Serialize(host, h, read.value).Ok?) &&
              (pv.Ok? ==> pv.value == Serialized(Serialize(host, h, read.value).value))
    ensures read.Read? && !IsPrimitiveOrNull(h, read.value) && isCycle ==> pv == Ok(Circular(read.value))
    ensures read.Read? && !IsPrimitiveOrNull(h, read.value) && !isCycle ==>
              (pv.Ok? <==> DescribeSpec(host, h, ignore, history, [], read.value, fuel - 1).Ok?) &&
              (pv.Ok? ==> pv.value == Nested(DescribeSpec(host, h, ignore, history, [], read.value, fuel - 1).value))
    ensures pv.Ok? && read.Read? ==> ValueFromRead(host, h, ignore, history, isCycle, Returns(read.value), fuel, pv.value)
    decreases fuel, 1
  {
    if read.RestrictedRead? then Ok(Restricted)
    else if IsPrimitiveOrNull(h, read.value) then
      var text :- Serialize(host, h, read.value);
      Ok(Serialized(text))
    else if isCycle then Ok(Circular(read.value))
    else
      var nested :- DescribeSpec(host, h, ignore, history, [], read.value, fuel - 1);
      Ok(Nested(nested))
  }

  /**
   * The `value` a successful pass gives for a property whose read did `rd`:
   * the marker for a read that threw, the serialization of a primitive, a
   * circular reference to a non-primitive under a repeat, and otherwise its
   * description with no prototypes.
   */
  predicate ValueFromRead(host: Host, h: Heap, ignore: seq<Value>, history: seq<Ref>, isCycle: bool,
                          rd: ReadOutcome, fuel: nat, value: PropertyValue)
    requires Valid(h) && fuel >= 1
    decreases fuel, 0
  {
    match rd
    case Throws(_) => value == Restricted
    case Returns(x) =>
      && ValueIn(h, x)
      && (IsPrimitiveOrNull(h, x) ==> value.Serialized? && Serialize(host, h, x) == Ok(value.serialized))
      && (!IsPrimitiveOrNull(h, x) && isCycle ==> value == Circular(x))
      && (!IsPrimitiveOrNull(h, x) && !isCycle ==>
            value.Nested? && DescribeSpec(host, h, ignore, history, [], x, fuel - 1) == Ok(value.description))
  }

  /**
   * `expandIterables`: an iterable object whose chain below it (after the
   * start of the walk) holds nothing iterable is grouped into buckets of
   * described items; any error on the way gives undefined.
   */
  function ExpandIterables(host: Host, h: Heap, ignore: seq<Value>, history: seq<Ref>, prototypes: seq<Ref>, r: Ref, fuel: nat)
    : (b: Option<Buckets<Description>>)
    requires Context(h, prototypes) && r in h.objects && fuel >= 1
    ensures b.Some? ==> ShouldIterate(h, prototypes, r)
    decreases fuel, 2
  {
    if !ShouldIterate(h, prototypes, r) then None
    else
      var src := h.objects[r].items;
      match GroupByBucketsSpec(true, src, 10.0, 50)
      case Err(_) => None
      case Ok(grouped) =>
        assert ObjValid(h, h.objects[r]);
        BucketItemsIn(h, src, 10.0, 50);
        var bs := grouped.buckets;
        match Collect(seq(|bs|, j requires 0 <= j < |bs| => DescribeBucket(host, h, ignore, history, bs[j], fuel)))
        case Err(_) => None
        case Ok(described) => Some(Buckets(described, grouped.truncated))
  }

  /** `isIterable(obj)`, and nothing after the first entry of `prototypes` is iterable. */
  predicate ShouldIterate(h: Heap, prototypes: seq<Ref>, r: Ref)
    requires Valid(h) && RefsIn(h, prototypes) && r in h.objects
  {
    IsIterable(h, Ref(r), false) && forall i :: 1 <= i < |prototypes| ==> !IsIterable(h, Ref(prototypes[i]), false)
  }

  ghost predicate ItemsIn(h: Heap, bs: seq<Bucket<Value>>)
  {
    forall j, x :: 0 <= j < |bs| && x in bs[j].items ==> ValueIn(h, x)
  }

  lemma BucketItemsIn(h: Heap, src: Source<Value>, size: real, maxTotal: int)
    requires forall i: nat :: ValueIn(h, src.at(i))
    requires GroupByBucketsSpec(true, src, size, maxTotal).Ok?
    ensures ItemsIn(h, GroupByBucketsSpec(true, src, size, maxTotal).value.buckets)
  {
    var n := Taken(src, maxTotal);
    var bs := GroupByBucketsSpec(true, src, size, maxTotal).value.buckets;
    ItemsMembers(src, n);
    ChunksMembers(Items(src, n), size.Floor, 0, maxTotal);
    forall j, x | 0 <= j < |bs| && x in bs[j].items ensures ValueIn(h, x) {
      assert bs[j] in bs;
      assert x in Items(src, n);
      var k: nat :| x == src.at(k);
    }
  }

  /** One bucket with its bounds kept and every item described (no prototypes). */
  function DescribeBucket(host: Host, h: Heap, ignore: seq<Value>, history: seq<Ref>, b: Bucket<Value>, fuel: nat)
    : (d: Result<Bucket<Description>, Error>)
    requires Valid(h) && (forall x :: x in b.items ==> ValueIn(h, x)) && fuel >= 1
    ensures d.Ok? ==> d.value.lower == b.lower && d.value.upper == b.upper && |d.value.items| == |b.items|
    ensures d.Ok? <==> forall k :: 0 <= k < |b.items| ==> DescribeSpec(host, h, ignore, history, [], b.items[k], fuel - 1).Ok?
    ensures d.Ok? ==> forall k :: 0 <= k < |b.items| ==> DescribeSpec(host, h, ignore, history, [], b.items[k], fuel - 1) == Ok(d.value.items[k])
    decreases fuel, 1
  {
    var rs := seq(|b.items|, k requires 0 <= k < |b.items| => DescribeSpec(host, h, ignore, history, [], b.items[k], fuel - 1));
    assert forall k :: 0 <= k < |b.items| ==> rs[k] == DescribeSpec(host, h, ignore, history, [], b.items[k], fuel - 1);
    var items :- Collect(rs);
    Ok(Bucket(b.lower, b.upper, items))
  }

  /** `describe$1(obj, ignore)`: the public entry point, which starts from an empty history and chain. */
  function DescribeEntry(host: Host, h: Heap, v: Value, ignore: seq<Value>, fuel: nat): (d: Result<Description, Error>)
    requires Valid(h) && ValueIn(h, v)
    ensures d == DescribeSpec(host, h, ignore, [], [], v, fuel)
  {
    DescribeSpec(host, h, ignore, [], [], v, fuel)
  }

  // ---------------------------------------------------------------------
  // Properties of describe
  // ---------------------------------------------------------------------

  /**
   * A primitive is described by its kind and serialization alone: neither
   * the history, the prototype chain, the ignore list nor the remaining
   * budget changes the result.
   */
  lemma DescribePrimitive(host: Host, h: Heap, ignore: seq<Value>, history: seq<Ref>, prototypes: seq<Ref>, v: Value, fuel: nat)
    requires Context(h, prototypes) && ValueIn(h, v) && fuel >= 1
    requires IsNullOrUndefined(v) || IsPrimitiveOrNull(h, v)
    ensures var d := DescribeSpec(host, h, ignore, history, prototypes, v, fuel);
            && (d.Ok? <==> InstanceType(h, v).Ok? && Serialize(host, h, v).Ok?)
            && (d.Ok? ==> d.value == PrimitiveDescription(InstanceType(h, v).value, Serialize(host, h, v).value))
            && d == DescribeSpec(host, h, [], [], [], v, 1)
  {
  }

  /** The report of an object that is described without error. */
  ghost predicate ObjectReport(host: Host, h: Heap, ignore: seq<Value>, history: seq<Ref>, prototypes: seq<Ref>, r: Ref, fuel: nat, d: Description)
    requires Context(h, prototypes) && r in h.objects && fuel >= 1
  {
    && d.ObjectDescription?
    && InstanceType(h, Ref(r)) == Ok(d.kind)
    && Serialize(host, h, Ref(r)) == Ok(d.summary)
    && d.isIterable == IsIterable(h, Ref(r), false)
    && d.isIterator == IsIterator(h, Ref(r))
    && PropertyKeys(h, r).Ok?
    && DescribeProperties(host, h, ignore, history + [r], prototypes, r, r in history, d.kind, PropertyKeys(h, r).value, fuel)
       == Ok(d.properties)
    && d.iterables == ExpandIterables(host, h, ignore, history + [r], prototypes, r, fuel)
    && DescribePrototype(host, h, ignore, history + [r], prototypes, r, fuel) == Ok(d.prototype)
  }

  /** A described non-primitive is an object report. */
  lemma DescribeObject(host: Host, h: Heap, ignore: seq<Value>, history: seq<Ref>, prototypes: seq<Ref>, v: Value, fuel: nat)
    requires Context(h, prototypes) && ValueIn(h, v) && fuel >= 1
    requires !IsNullOrUndefined(v) && !IsPrimitiveOrNull(h, v)
    requires DescribeSpec(host, h, ignore, history, prototypes, v, fuel).Ok?
    ensures v.Ref? && ObjectReport(host, h, ignore, history, prototypes, v.r, fuel, DescribeSpec(host, h, ignore, history, prototypes, v, fuel).value)
  {
  }

  /**
   * The property loop: one entry per visited key, in key order, each named
   * after its key and attributed to the object's kind, and each entry's value
   * is cut to a circular reference exactly when the object was already in the
   * history (a primitive value or restricted property is kept either way).
   */
  lemma PropertiesInKeyOrder(host: Host, h: Heap, ignore: seq<Value>, history: seq<Ref>, prototypes: seq<Ref>,
                             r: Ref, isCycle: bool, from: string, keys: seq<Key>, fuel: nat)
    requires Context(h, prototypes) && r in h.objects && fuel >= 1
    requires forall k :: k in keys ==> k in OwnKeys(h.objects[r])
    requires DescribeProperties(host, h, ignore, history, prototypes, r, isCycle, from, keys, fuel).Ok?
    ensures var ps := DescribeProperties(host, h, ignore, history, prototypes, r, isCycle, from, keys, fuel).value;
            && |ps| == |keys|
            && (forall j :: 0 <= j < |ps| ==> ps[j].name == KeyName(keys[j]) && ps[j].from == from)
            && (isCycle ==> forall j :: 0 <= j < |ps| ==> !ps[j].value.Nested?)
            && (!isCycle ==> forall j :: 0 <= j < |ps| ==> !ps[j].value.Circular?)
  {
    var ps := DescribeProperties(host, h, ignore, history, prototypes, r, isCycle, from, keys, fuel).value;
    forall j | 0 <= j < |ps|
      ensures ps[j].name == KeyName(keys[j]) && ps[j].from == from
      ensures isCycle ==> !ps[j].value.Nested?
      ensures !isCycle ==> !ps[j].value.Circular?
    {
      assert DescribeProperty(host, h, ignore, history, prototypes, r, isCycle, from, keys[j], fuel) == Ok(ps[j]);
    }
  }

  /**
   * An object whose property at position `j` reads back the object itself
   * (`o.self = o`), described from a history without it: that property holds
   * a nested description of the object, and in it the same property, now
   * under a repeat, is cut to a circular reference to the object.
   */
  lemma SelfIsCircularOneLevelDown(host: Host, h: Heap, ignore: seq<Value>, history: seq<Ref>, prototypes: seq<Ref>,
                                   r: Ref, fuel: nat, j: nat, d: Description)
    requires Context(h, prototypes) && r in h.objects && r !in history && !IsPrimitiveOrNull(h, Ref(r))
    requires PropertyKeys(h, r).Ok? && j < |PropertyKeys(h, r).value|
    requires PropertyKeys(h, r).value[j] in h.objects[r].props
    requires h.objects[r].props[PropertyKeys(h, r).value[j]].read == Returns(Ref(r))
    requires DescribeSpec(host, h, ignore, history, prototypes, Ref(r), fuel) == Ok(d)
    ensures && d.ObjectDescription? && j < |d.properties|
            && d.properties[j].value.Nested?
            && var inner := d.properties[j].value.description;
               && inner.ObjectDescription? && j < |inner.properties|
               && inner.properties[j].value == Circular(Ref(r))
  {
    DescribedNestedAt(host, h, ignore, history, prototypes, r, fuel, j, Ref(r), d);
    var inner := d.properties[j].value.description;
    DescribedCircularAt(host, h, ignore, history + [r], [], r, fuel - 1, j, Ref(r), inner);
  }

  /**
   * Entry `j` of the description `d` of an object not yet in the history,
   * whose key `j` reads an object `x`: the description of `x` with the object
   * added to the history.
   */
  lemma DescribedNestedAt(host: Host, h: Heap, ignore: seq<Value>, history: seq<Ref>, prototypes: seq<Ref>,
                          r: Ref, fuel: nat, j: nat, x: Value, d: Description)
    requires Context(h, prototypes) && r in h.objects && r !in history && !IsPrimitiveOrNull(h, Ref(r))
    requires PropertyKeys(h, r).Ok? && j < |PropertyKeys(h, r).value|
    requires PropertyKeys(h, r).value[j] in h.objects[r].props
    requires h.objects[r].props[PropertyKeys(h, r).value[j]].read == Returns(x) && !IsPrimitiveOrNull(h, x)
    requires DescribeSpec(host, h, ignore, history, prototypes, Ref(r), fuel) == Ok(d)
    ensures fuel >= 1 && ValueIn(h, x)
    ensures d.ObjectDescription? && j < |d.properties| && d.properties[j].value.Nested?
    ensures DescribeSpec(host, h, ignore, history + [r], [], x, fuel - 1) == Ok(d.properties[j].value.description)
  {
    DescribedPropertyAt(host, h, ignore, history, prototypes, r, fuel, j, d);
  }

  /**
   * Entry `j` of the description `d` of an object already in the history,
   * whose key `j` reads an object `x`: a circular reference to `x`.
   */
  lemma DescribedCircularAt(host: Host, h: Heap, ignore: seq<Value>, history: seq<Ref>, prototypes: seq<Ref>,
                            r: Ref, fuel: nat, j: nat, x: Value, d: Description)
    requires Context(h, prototypes) && r in h.objects && r in history && !IsPrimitiveOrNull(h, Ref(r))
    requires PropertyKeys(h, r).Ok? && j < |PropertyKeys(h, r).value|
    requires PropertyKeys(h, r).value[j] in h.objects[r].props
    requires h.objects[r].props[PropertyKeys(h, r).value[j]].read == Returns(x) && !IsPrimitiveOrNull(h, x)
    requires DescribeSpec(host, h, ignore, history, prototypes, Ref(r), fuel) == Ok(d)
    ensures d.ObjectDescription? && j < |d.properties| && d.properties[j].value == Circular(x)
  {
    DescribedPropertyAt(host, h, ignore, history, prototypes, r, fuel, j, d);
  }

  /**
   * Override detection: when an object owns a name that its prototype also
   * owns, the prototype's description (made with the object appended to the
   * chain) lists the object's kind among the overriders of that property.
   */
  lemma OverrideDetected(host: Host, h: Heap, ignore: seq<Value>, history: seq<Ref>, prototypes: seq<Ref>,
                         r: Ref, fuel: nat, j: nat, d: Description)
    requires Context(h, prototypes) && r in h.objects && !IsPrimitiveOrNull(h, Ref(r))
    requires DescribeSpec(host, h, ignore, history, prototypes, Ref(r), fuel) == Ok(d)
    requires h.objects[r].proto.Some? && !IsIgnored(h, ignore, h.objects[r].proto.value)
    requires var p := h.objects[r].proto.value;
             && p in h.objects && !IsPrimitiveOrNull(h, Ref(p))
             && PropertyKeys(h, p).Ok? && j < |PropertyKeys(h, p).value|
             && PropertyKeys(h, p).value[j].NameKey? && PropertyKeys(h, p).value[j].name in h.objects[r].names
    ensures && d.ObjectDescription? && d.prototype.Some?
            && var pd := d.prototype.value;
               && pd.ObjectDescription? && j < |pd.properties|
               && pd.properties[j].overriddenBy.Some?
               && d.kind in pd.properties[j].overriddenBy.value
  {
    var p := h.objects[r].proto.value;
    PrototypeDescribed(host, h, ignore, history, prototypes, r, fuel, d, p);
    var pd := d.prototype.value;
    var kind := d.kind;
    OverriderListedAt(host, h, ignore, history, prototypes, r, p, fuel - 1, j, pd, kind);
  }

  /**
   * Entry `j` of the description `pd` of the prototype `p` of `r`, made with
   * `r` appended to the chain, lists the kind of `r` when `r` owns the name
   * of key `j`.
   */
  lemma OverriderListedAt(host: Host, h: Heap, ignore: seq<Value>, history: seq<Ref>, prototypes: seq<Ref>,
                          r: Ref, p: Ref, fuel: nat, j: nat, pd: Description, kind: string)
    requires Context(h, prototypes + [r]) && r in h.objects && p in h.objects && !IsPrimitiveOrNull(h, Ref(p))
    requires PropertyKeys(h, p).Ok? && j < |PropertyKeys(h, p).value|
    requires PropertyKeys(h, p).value[j].NameKey? && PropertyKeys(h, p).value[j].name in h.objects[r].names
    requires InstanceType(h, Ref(r)) == Ok(kind)
    requires DescribeSpec(host, h, ignore, history + [r], prototypes + [r], Ref(p), fuel) == Ok(pd)
    ensures pd.ObjectDescription? && j < |pd.properties| && pd.properties[j].overriddenBy.Some?
    ensures kind in pd.properties[j].overriddenBy.value
  {
    var key := PropertyKeys(h, p).value[j];
    DescribedPropertyAt(host, h, ignore, history + [r], prototypes + [r], p, fuel, j, pd);
    assert OverriddenBy(h, key, prototypes + [r]) == Ok(pd.properties[j].overriddenBy);
    OwnerKindListed(h, key, prototypes + [r], r);
  }

  /** A described object whose prototype is neither null nor ignored carries the prototype's description. */
  lemma PrototypeDescribed(host: Host, h: Heap, ignore: seq<Value>, history: seq<Ref>, prototypes: seq<Ref>, r: Ref, fuel: nat,
                           d: Description, p: Ref)
    requires Context(h, prototypes) && r in h.objects && !IsPrimitiveOrNull(h, Ref(r))
    requires h.objects[r].proto == Some(p) && p in h.objects && !IsIgnored(h, ignore, p)
    requires DescribeSpec(host, h, ignore, history, prototypes, Ref(r), fuel) == Ok(d)
    ensures fuel >= 1 && Context(h, prototypes + [r])
    ensures && d.ObjectDescription? && d.prototype.Some? && InstanceType(h, Ref(r)) == Ok(d.kind)
            && DescribeSpec(host, h, ignore, history + [r], prototypes + [r], Ref(p), fuel - 1) == Ok(d.prototype.value)
  {
    DescribeObject(host, h, ignore, history, prototypes, Ref(r), fuel);
    RefsInSnoc(h, prototypes, r);
  }

  /** A chain member that owns the name is among the owners, so its kind is listed in `overriddenBy`. */
  lemma OwnerKindListed(h: Heap, key: Key, ps: seq<Ref>, r: Ref)
    requires Valid(h) && RefsIn(h, ps) && r in ps
    requires key.NameKey? && key.name in h.objects[r].names
    requires OverriddenBy(h, key, ps).Ok?
    ensures OverriddenBy(h, key, ps).value.Some?
    ensures InstanceType(h, Ref(r)).Ok? && InstanceType(h, Ref(r)).value in OverriddenBy(h, key, ps).value.value
  {
    var owners := Owners(h, key, ps);
    assert r in owners;
    var i :| 0 <= i < |owners| && owners[i] == r;
    assert OverriddenBy(h, key, ps).value.value[i] == InstanceType(h, Ref(r)).value;
  }

  /** Entry `j` of a described object's properties is the pass of the property loop over key `j`. */
  lemma DescribedPropertyAt(host: Host, h: Heap, ignore: seq<Value>, history: seq<Ref>, prototypes: seq<Ref>,
                            r: Ref, fuel: nat, j: nat, d: Description)
    requires Context(h, prototypes) && r in h.objects && !IsPrimitiveOrNull(h, Ref(r))
    requires PropertyKeys(h, r).Ok? && j < |PropertyKeys(h, r).value|
    requires DescribeSpec(host, h, ignore, history, prototypes, Ref(r), fuel) == Ok(d)
    ensures fuel >= 1
    ensures && d.ObjectDescription? && |d.properties| == |PropertyKeys(h, r).value|
            && DescribeProperty(host, h, ignore, history + [r], prototypes, r, r in history, d.kind, PropertyKeys(h, r).value[j], fuel)
               == Ok(d.properties[j])
  {
    var keys := PropertyKeys(h, r).value;
    DescribeObject(host, h, ignore, history, prototypes, Ref(r), fuel);
    PropertyResultAt(host, h, ignore, history + [r], prototypes, r, r in history, d.kind, keys, fuel, j);
  }

  lemma PropertyResultAt(host: Host, h: Heap, ignore: seq<Value>, history: seq<Ref>, prototypes: seq<Ref>,
                         r: Ref, isCycle: bool, from: string, keys: seq<Key>, fuel: nat, j: nat)
    requires Context(h, prototypes) && r in h.objects && fuel >= 1
    requires forall k :: k in keys ==> k in OwnKeys(h.objects[r])
    requires j < |keys|
    ensures PropertyResults(host, h, ignore, history, prototypes, r, isCycle, from, keys, fuel)[j]
            == DescribeProperty(host, h, ignore, history, prototypes, r, isCycle, from, keys[j], fuel)
  {
  }

  /** The first property that fails makes the whole description fail with its error. */
  lemma PropertyFailurePropagates(host: Host, h: Heap, ignore: seq<Value>, history: seq<Ref>, prototypes: seq<Ref>,
                                  r: Ref, isCycle: bool, from: string, keys: seq<Key>, fuel: nat, j: nat)
    requires Context(h, prototypes) && r in h.objects && fuel >= 1
    requires forall k :: k in keys ==> k in OwnKeys(h.objects[r])
    requires j < |keys| && DescribeProperty(host, h, ignore, history, prototypes, r, isCycle, from, keys[j], fuel).Err?
    requires forall i :: 0 <= i < j ==> DescribeProperty(host, h, ignore, history, prototypes, r, isCycle, from, keys[i], fuel).Ok?
    ensures DescribeProperties(host, h, ignore, history, prototypes, r, isCycle, from, keys, fuel)
            == Err(DescribeProperty(host, h, ignore, history, prototypes, r, isCycle, from, keys[j], fuel).error)
  {
    CollectFirstErr(PropertyResults(host, h, ignore, history, prototypes, r, isCycle, from, keys, fuel), j);
  }

  /**
   * Expanded iterables keep the grouping of `groupByBuckets` (default size 10,
   * at most 50 items): the same number of buckets, each with the same bounds
   * and as many described items, and the same `truncated` flag.
   */
  lemma IterablesShape(host: Host, h: Heap, ignore: seq<Value>, history: seq<Ref>, prototypes: seq<Ref>, r: Ref, fuel: nat)
    requires Context(h, prototypes) && r in h.objects && fuel >= 1
    requires ExpandIterables(host, h, ignore, history, prototypes, r, fuel).Some?
    ensures var g := GroupByBucketsSpec(true, h.objects[r].items, 10.0, 50);
            var b := ExpandIterables(host, h, ignore, history, prototypes, r, fuel).value;
            && g.Ok?
            && b.truncated == g.value.truncated
            && |b.buckets| == |g.value.buckets|
            && forall j :: 0 <= j < |b.buckets| ==>
                 && b.buckets[j].lower == g.value.buckets[j].lower
                 && b.buckets[j].upper == g.value.buckets[j].upper
                 && |b.buckets[j].items| == |g.value.buckets[j].items|
  {
    var g := GroupByBucketsSpec(true, h.objects[r].items, 10.0, 50);
    assert ObjValid(h, h.objects[r]);
    BucketItemsIn(h, h.objects[r].items, 10.0, 50);
    var bs := g.value.buckets;
    var rs := seq(|bs|, j requires 0 <= j < |bs| => DescribeBucket(host, h, ignore, history, bs[j], fuel));
    var b := ExpandIterables(host, h, ignore, history, prototypes, r, fuel).value;
    assert Collect(rs).Ok? && b.buckets == Collect(rs).value;
    forall j | 0 <= j < |b.buckets|
      ensures b.buckets[j].lower == bs[j].lower && b.buckets[j].upper == bs[j].upper
      ensures |b.buckets[j].items| == |bs[j].items|
    {
      assert rs[j] == Ok(b.buckets[j]);
    }
  }

  /** Every item of every bucket is described (no prototypes) without error. */
  ghost predicate ItemsDescribed(host: Host, h: Heap, ignore: seq<Value>, history: seq<Ref>, bs: seq<Bucket<Value>>, fuel: nat)
    requires Valid(h) && ItemsIn(h, bs) && fuel >= 1
  {
    forall j, k :: 0 <= j < |bs| && 0 <= k < |bs[j].items| ==>
      DescribeSpec(host, h, ignore, history, [], bs[j].items[k], fuel - 1).Ok?
  }

  /**
   * The iterables are expanded exactly when the object should be iterated,
   * grouping succeeds and every grouped item is described; any error on the
   * way gives undefined. Each expanded item is the description of the item
   * in the same place of the grouping.
   */
  lemma IterablesExpanded(host: Host, h: Heap, ignore: seq<Value>, history: seq<Ref>, prototypes: seq<Ref>, r: Ref, fuel: nat)
    requires Context(h, prototypes) && r in h.objects && fuel >= 1
    ensures var g := GroupByBucketsSpec(true, h.objects[r].items, 10.0, 50);
            var b := ExpandIterables(host, h, ignore, history, prototypes, r, fuel);
            && (g.Ok? ==> ItemsIn(h, g.value.buckets))
            && (b.Some? <==> ShouldIterate(h, prototypes, r) && g.Ok? && ItemsDescribed(host, h, ignore, history, g.value.buckets, fuel))
            && (b.Some? ==>
                  && b.value.truncated == g.value.truncated && |b.value.buckets| == |g.value.buckets|
                  && forall j :: 0 <= j < |b.value.buckets| ==>
                       && b.value.buckets[j].lower == g.value.buckets[j].lower
                       && b.value.buckets[j].upper == g.value.buckets[j].upper
                       && |b.value.buckets[j].items| == |g.value.buckets[j].items|
                       && forall k :: 0 <= k < |b.value.buckets[j].items| ==>
                            DescribeSpec(host, h, ignore, history, [], g.value.buckets[j].items[k], fuel - 1)
                            == Ok(b.value.buckets[j].items[k]))
  {
    var g := GroupByBucketsSpec(true, h.objects[r].items, 10.0, 50);
    assert ObjValid(h, h.objects[r]);
    if g.Ok? {
      BucketItemsIn(h, h.objects[r].items, 10.0, 50);
      var bs := g.value.buckets;
      var rs := seq(|bs|, j requires 0 <= j < |bs| => DescribeBucket(host, h, ignore, history, bs[j], fuel));
      assert Collect(rs).Ok? <==> ItemsDescribed(host, h, ignore, history, bs, fuel) by {
        if Collect(rs).Ok? {
          forall j, k | 0 <= j < |bs| && 0 <= k < |bs[j].items|
            ensures DescribeSpec(host, h, ignore, history, [], bs[j].items[k], fuel - 1).Ok?
          {
            assert rs[j].Ok?;
          }
        }
        if ItemsDescribed(host, h, ignore, history, bs, fuel) {
          forall j | 0 <= j < |bs| ensures rs[j].Ok? {
            assert forall k :: 0 <= k < |bs[j].items| ==> DescribeSpec(host, h, ignore, history, [], bs[j].items[k], fuel - 1).Ok?;
          }
        }
      }
      if ShouldIterate(h, prototypes, r) && Collect(rs).Ok? {
        var b := ExpandIterables(host, h, ignore, history, prototypes, r, fuel).value;
        assert b.buckets == Collect(rs).value;
        forall j | 0 <= j < |b.buckets|
          ensures b.buckets[j].lower == bs[j].lower && b.buckets[j].upper == bs[j].upper
          ensures |b.buckets[j].items| == |bs[j].items|
          ensures forall k :: 0 <= k < |b.buckets[j].items| ==>
                    DescribeSpec(host, h, ignore, history, [], bs[j].items[k], fuel - 1) == Ok(b.buckets[j].items[k])
        {
          assert rs[j] == Ok(b.buckets[j]);
        }
      }
    }
  }

  /**
   * An iterable whose only item is itself (`a = [a]`): the item is described
   * in full whatever the history holds, since only properties are cut to
   * circular references, and that description expands the same iterable
   * again one call deeper. When the nested description fails (in the end
   * because the stack is spent) the failure is swallowed and the iterables
   * are undefined.
   */
  lemma SelfIterableRecurses(host: Host, h: Heap, ignore: seq<Value>, history: seq<Ref>, prototypes: seq<Ref>, r: Ref, fuel: nat)
    requires Context(h, prototypes) && r in h.objects && fuel >= 1 && !IsPrimitiveOrNull(h, Ref(r))
    requires ShouldIterate(h, prototypes, r)
    requires h.objects[r].items.length == Some(1) && h.objects[r].items.failure.None? && h.objects[r].items.at(0) == Ref(r)
    ensures var e := DescribeSpec(host, h, ignore, history, [], Ref(r), fuel - 1);
            var b := ExpandIterables(host, h, ignore, history, prototypes, r, fuel);
            && (e.Ok? ==> b == Some(Buckets([Bucket(0, 9, [e.value])], false)))
            && (e.Err? ==> b == None)
            && (e.Ok? ==> && ShouldIterate(h, [], r) && e.value.ObjectDescription?
                          && e.value.iterables == ExpandIterables(host, h, ignore, history + [r], [], r, fuel - 1))
  {
    SingleItemExpanded(host, h, ignore, history, prototypes, r, fuel, Ref(r));
    var e := DescribeSpec(host, h, ignore, history, [], Ref(r), fuel - 1);
    if e.Ok? {
      InnerIterables(host, h, ignore, history, r, fuel - 1, e.value);
    }
  }

  /** The description of an object lists, as its iterables, the expansion of that same object one level deeper. */
  lemma InnerIterables(host: Host, h: Heap, ignore: seq<Value>, history: seq<Ref>, r: Ref, fuel: nat, d: Description)
    requires Valid(h) && r in h.objects && !IsPrimitiveOrNull(h, Ref(r))
    requires DescribeSpec(host, h, ignore, history, [], Ref(r), fuel) == Ok(d)
    ensures fuel >= 1 && d.ObjectDescription?
    ensures d.iterables == ExpandIterables(host, h, ignore, history + [r], [], r, fuel)
  {
    DescribeObject(host, h, ignore, history, [], Ref(r), fuel);
  }

  /** The iterables of an object whose only item is `x`: one bucket holding the description of `x`, or undefined. */
  lemma SingleItemExpanded(host: Host, h: Heap, ignore: seq<Value>, history: seq<Ref>, prototypes: seq<Ref>, r: Ref, fuel: nat, x: Value)
    requires Context(h, prototypes) && r in h.objects && fuel >= 1
    requires ShouldIterate(h, prototypes, r)
    requires h.objects[r].items.length == Some(1) && h.objects[r].items.failure.None? && h.objects[r].items.at(0) == x
    ensures ValueIn(h, x)
    ensures var e := DescribeSpec(host, h, ignore, history, [], x, fuel - 1);
            var b := ExpandIterables(host, h, ignore, history, prototypes, r, fuel);
            && (e.Ok? ==> b == Some(Buckets([Bucket(0, 9, [e.value])], false)))
            && (e.Err? ==> b == None)
  {
    assert ObjValid(h, h.objects[r]);
    SingleItemGrouping(h.objects[r].items);
    var e := DescribeSpec(host, h, ignore, history, [], x, fuel - 1);
    if e.Ok? {
      SingleItemDescribed(host, h, ignore, history, prototypes, r, fuel, x, e.value);
    } else {
      SingleItemFails(host, h, ignore, history, prototypes, r, fuel, x);
    }
  }

  lemma SingleItemDescribed(host: Host, h: Heap, ignore: seq<Value>, history: seq<Ref>, prototypes: seq<Ref>, r: Ref, fuel: nat, x: Value, d: Description)
    requires Context(h, prototypes) && r in h.objects && fuel >= 1 && ValueIn(h, x)
    requires ShouldIterate(h, prototypes, r)
    requires GroupByBucketsSpec(true, h.objects[r].items, 10.0, 50) == Ok(Buckets([Bucket(0, 9, [x])], false))
    requires DescribeSpec(host, h, ignore, history, [], x, fuel - 1) == Ok(d)
    ensures ExpandIterables(host, h, ignore, history, prototypes, r, fuel) == Some(Buckets([Bucket(0, 9, [d])], false))
  {
    SingleItemShape(host, h, ignore, history, prototypes, r, fuel, x);
    var b := ExpandIterables(host, h, ignore, history, prototypes, r, fuel).value;
    OneBucket(b, d);
  }

  lemma SingleItemShape(host: Host, h: Heap, ignore: seq<Value>, history: seq<Ref>, prototypes: seq<Ref>, r: Ref, fuel: nat, x: Value)
    requires Context(h, prototypes) && r in h.objects && fuel >= 1 && ValueIn(h, x)
    requires ShouldIterate(h, prototypes, r)
    requires GroupByBucketsSpec(true, h.objects[r].items, 10.0, 50) == Ok(Buckets([Bucket(0, 9, [x])], false))
    requires DescribeSpec(host, h, ignore, history, [], x, fuel - 1).Ok?
    ensures var b := ExpandIterables(host, h, ignore, history, prototypes, r, fuel);
            && b.Some? && !b.value.truncated && |b.value.buckets| == 1
            && b.value.buckets[0].lower == 0 && b.value.buckets[0].upper == 9 && |b.value.buckets[0].items| == 1
            && DescribeSpec(host, h, ignore, history, [], x, fuel - 1) == Ok(b.value.buckets[0].items[0])
  {
    var bs := [Bucket(0, 9, [x])];
    IterablesExpanded(host, h, ignore, history, prototypes, r, fuel);
    assert bs[0].items[0] == x;
    assert ItemsDescribed(host, h, ignore, history, bs, fuel);
  }

  /** A bucket list of one bucket `[0, 9]` holding one item is determined by that item. */
  lemma OneBucket<T>(b: Buckets<T>, d: T)
    requires !b.truncated && |b.buckets| == 1 && b.buckets[0].lower == 0 && b.buckets[0].upper == 9
    requires |b.buckets[0].items| == 1 && b.buckets[0].items[0] == d
    ensures b == Buckets([Bucket(0, 9, [d])], false)
  {
    assert b.buckets[0].items == [d];
    assert b.buckets == [Bucket(0, 9, [d])];
  }

  lemma SingleItemFails(host: Host, h: Heap, ignore: seq<Value>, history: seq<Ref>, prototypes: seq<Ref>, r: Ref, fuel: nat, x: Value)
    requires Context(h, prototypes) && r in h.objects && fuel >= 1 && ValueIn(h, x)
    requires GroupByBucketsSpec(true, h.objects[r].items, 10.0, 50) == Ok(Buckets([Bucket(0, 9, [x])], false))
    requires DescribeSpec(host, h, ignore, history, [], x, fuel - 1).Err?
    ensures ExpandIterables(host, h, ignore, history, prototypes, r, fuel) == None
  {
    var bs := [Bucket(0, 9, [x])];
    IterablesExpanded(host, h, ignore, history, prototypes, r, fuel);
    assert bs[0].items[0] == x;
    assert !ItemsDescribed(host, h, ignore, history, bs, fuel);
  }

  /** `groupByBuckets` with the default size over a single item: one bucket `[0, 9]`, not truncated. */
  lemma SingleItemGrouping<T>(src: Source<T>)
    requires src.length == Some(1) && src.failure.None?
    ensures GroupByBucketsSpec(true, src, 10.0, 50) == Ok(Buckets([Bucket(0, 9, [src.at(0)])], false))
  {
    assert Items(src, 1) == [src.at(0)];
  }

  // ---------------------------------------------------------------------
  // describe, step by step
  // ---------------------------------------------------------------------

  /**
   * `describe` as the engine runs it: the properties are pushed one key at a
   * time, nested values and the prototype are described by recursive calls,
   * and the result is the one `DescribeSpec` defines.
   */
  method Describe(host: Host, h: Heap, ignore: seq<Value>, history: seq<Ref>, prototypes: seq<Ref>, v: Value, fuel: nat)
    returns (d: Result<Description, Error>)
    requires Context(h, prototypes) && ValueIn(h, v)
    ensures d == DescribeSpec(host, h, ignore, history, prototypes, v, fuel)
    decreases fuel, 4
  {
    if fuel == 0 {
      return Err(StackOverflow);
    }
    var kind :- InstanceType(h, v);
    if IsNullOrUndefined(v) || IsPrimitiveOrNull(h, v) {
      var value :- Serialize(host, h, v);
      return Ok(PrimitiveDescription(kind, value));
    }
    var summary :- Serialize(host, h, v);
    if !v.Ref? {
      return Err(TypeError("bigint"));
    }
    d := DescribeObjectStep(host, h, ignore, history, prototypes, v.r, kind, summary, fuel);
  }

  /** The object branch: the property loop, the iterables and the prototype. */
  method DescribeObjectStep(host: Host, h: Heap, ignore: seq<Value>, history: seq<Ref>, prototypes: seq<Ref>,
                            r: Ref, kind: string, summary: Serializer.Serialized, fuel: nat)
    returns (d: Result<Description, Error>)
    requires Context(h, prototypes) && r in h.objects && fuel >= 1
    ensures d == DescribeRef(host, h, ignore, history, prototypes, r, kind, summary, fuel)
    decreases fuel, 3
  {
    var isCycle := r in history;
    var history' := history + [r];
    var keys :- PropertyKeys(h, r);
    var properties :- DescribePropertiesStep(host, h, ignore, history', prototypes, r, isCycle, kind, keys, fuel);
    var iterables := ExpandIterables(host, h, ignore, history', prototypes, r, fuel);
    var prototype :- DescribePrototypeStep(host, h, ignore, history', prototypes, r, fuel);
    return Ok(ObjectDescription(kind, summary, IsIterable(h, Ref(r), false), IsIterator(h, Ref(r)), properties, iterables, prototype));
  }

  /** The property loop: `object.properties.push(property)` for each key in turn. */
  method DescribePropertiesStep(host: Host, h: Heap, ignore: seq<Value>, history: seq<Ref>, prototypes: seq<Ref>,
                                r: Ref, isCycle: bool, from: string, keys: seq<Key>, fuel: nat)
    returns (ps: Result<seq<PropertyDescription>, Error>)
    requires Context(h, prototypes) && r in h.objects && fuel >= 1
    requires forall k :: k in keys ==> k in OwnKeys(h.objects[r])
    ensures ps == DescribeProperties(host, h, ignore, history, prototypes, r, isCycle, from, keys, fuel)
    decreases fuel, 2
  {
    ghost var rs := PropertyResults(host, h, ignore, history, prototypes, r, isCycle, from, keys, fuel);
    var properties: seq<PropertyDescription> := [];
    var i := 0;
    while i < |keys|
      invariant |properties| == i && |rs| == |keys| && OkPrefix(rs, properties)
    {
      var p := DescribePropertyStep(host, h, ignore, history, prototypes, r, isCycle, from, keys[i], fuel);
      PropertyResultAt(host, h, ignore, history, prototypes, r, isCycle, from, keys, fuel, i);
      if p.Err? {
        CollectFirstErr(rs, i);
        return Err(p.error);
      }
      OkPrefixSnoc(rs, properties, p.value);
      properties := properties + [p.value];
      i := i + 1;
    }
    CollectAllOk(rs, properties);
    return Ok(properties);
  }

  /**
   * `object.prototype`, described by a recursive call unless it is null or
   * ignored. No loop of its own: it links the property loop to the next
   * level of the recursion.
   */
  method DescribePrototypeStep(host: Host, h: Heap, ignore: seq<Value>, history: seq<Ref>, prototypes: seq<Ref>, r: Ref, fuel: nat)
    returns (d: Result<Option<Description>, Error>)
    requires Context(h, prototypes) && r in h.objects && fuel >= 1
    ensures d == DescribePrototype(host, h, ignore, history, prototypes, r, fuel)
    decreases fuel, 2
  {
    assert ObjValid(h, h.objects[r]);
    var proto := h.objects[r].proto;
    if proto.Some? && !IsIgnored(h, ignore, proto.value) {
      var pd :- Describe(host, h, ignore, history, prototypes + [r], Ref(proto.value), fuel - 1);
      return Ok(Some(pd));
    }
    return Ok(None);
  }

  /** One pass of the property loop (see `DescribeProperty`); the loop itself is `DescribePropertiesStep`. */
  method DescribePropertyStep(host: Host, h: Heap, ignore: seq<Value>, history: seq<Ref>, prototypes: seq<Ref>,
                              r: Ref, isCycle: bool, from: string, key: Key, fuel: nat)
    returns (p: Result<PropertyDescription, Error>)
    requires Context(h, prototypes) && r in h.objects && fuel >= 1 && key in OwnKeys(h.objects[r])
    ensures p == DescribeProperty(host, h, ignore, history, prototypes, r, isCycle, from, key, fuel)
    decreases fuel, 1
  {
    OwnKeyValid(h, r, key);
    var prop := h.objects[r].props[key];
    var getter :- ParseFunctionSignature(host, h, Accessor(prop.getter));
    var setter :- ParseFunctionSignature(host, h, Accessor(prop.setter));
    var overridden :- OverriddenBy(h, key, prototypes);
    var read :- GetPropertyValue(h, r, key);
    var kind :- ReadKind(h, read);
    var value :- PropertyValueStep(host, h, ignore, history, isCycle, read, fuel);
    return Ok(PropertyDescription(KeyName(key), prop.enumerable, prop.configurable, getter, setter, from, overridden, kind, value));
  }

  /** A property's value, describing a nested object by a recursive call: the link from a pass of the property loop back to `Describe`. */
  method PropertyValueStep(host: Host, h: Heap, ignore: seq<Value>, history: seq<Ref>, isCycle: bool, read: PropertyRead, fuel: nat)
    returns (pv: Result<PropertyValue, Error>)
    requires Valid(h) && (read.Read? ==> ValueIn(h, read.value)) && fuel >= 1
    ensures pv == PropertyValueOf(host, h, ignore, history, isCycle, read, fuel)
    decreases fuel, 0
  {
    if read.RestrictedRead? {
      return Ok(Restricted);
    } else if IsPrimitiveOrNull(h, read.value) {
      var text :- Serialize(host, h, read.value);
      return Ok(Serialized(text));
    } else if isCycle {
      return Ok(Circular(read.value));
    }
    var nested :- Describe(host, h, ignore, history, [], read.value, fuel - 1);
    return Ok(Nested(nested));
  }
}
