/**
 * The type classifier and the structural predicates, in the three revisions
 * of the code: the bundled engine (describe.js), the library utilities
 * (src/util.js) and the first single-file version (object-describe.js).
 */
module Classifier {
  import opened Wrappers
  import opened JsValues

  // ---------------------------------------------------------------------
  // Shared pieces
  // ---------------------------------------------------------------------

  predicate IsNullOrUndefined(v: Value)
  {
    v.Undefined? || v.Null?
  }

  /** The object that a property read on `v` consults: `v` itself, or the wrapper prototype of a primitive. */
  function ReadTarget(h: Heap, v: Value): (o: ObjData)
    requires Valid(h) && ValueIn(h, v) && !IsNullOrUndefined(v)
  {
    if v.Ref? then h.objects[v.r] else h.objects[h.boxProto[TypeOf(h, v)]]
  }

  /** The object's own `Symbol.toStringTag`, if it has one. */
  function OwnTag(h: Heap, r: Ref): (t: Option<string>)
    requires Valid(h) && r in h.objects
    ensures t.Some? <==> ToStringTagSym in h.objects[r].symbols
    ensures t.Some? ==> h.objects[r].props[SymbolKey(ToStringTagSym)].read == Returns(Str(t.value))
  {
    var o := h.objects[r];
    if ToStringTagSym in o.symbols then
      TagValid(h, r);
      Some(o.props[SymbolKey(ToStringTagSym)].read.value.s)
    else None
  }

  /**
   * `toStringTagImmediate`: the tag of the immediate prototype, consulted only
   * when the object itself has a truthy own tag; reading the tag of a null
   * prototype throws.
   */
  function ToStringTagImmediate(h: Heap, r: Ref): (t: Result<Option<string>, Error>)
    requires Valid(h) && r in h.objects
    ensures t.Err? <==> (OwnTag(h, r).Some? && OwnTag(h, r).value != "" && h.objects[r].proto.None?)
    ensures t.Ok? && t.value.Some? <==>
              && OwnTag(h, r).Some? && OwnTag(h, r).value != ""
              && h.objects[r].proto.Some? && OwnTag(h, h.objects[r].proto.value).Some?
    ensures t.Ok? && t.value.Some? ==> t.value == OwnTag(h, h.objects[r].proto.value)
  {
    var own := OwnTag(h, r);
    if own.Some? && own.value != "" then
      match h.objects[r].proto
      case None => Err(TypeError("Cannot convert undefined or null to object"))
      case Some(p) => assert ObjValid(h, h.objects[r]); Ok(OwnTag(h, p))
    else Ok(None)
  }

  /**
   * `obj.constructor.name` when the constructor and its name are truthy,
   * else the `[object X]` tag; an empty tag fails the tag pattern and indexing
   * its null match throws.
   */
  function ObjectKind(o: ObjData): (k: Result<string, Error>)
    ensures k.Ok? ==> k.value != ""
    ensures k.Ok? <==> (Truthy(o.ctor) && o.ctorName != "") || o.builtinTag != ""
    ensures k.Ok? && Truthy(o.ctor) && o.ctorName != "" ==> k.value == o.ctorName
  {
    if Truthy(o.ctor) && o.ctorName != "" then Ok(o.ctorName)
    else if o.builtinTag != "" then Ok(o.builtinTag)
    else Err(TypeError("Cannot read properties of null (reading '1')"))
  }

  // ---------------------------------------------------------------------
  // describe.js (the bundled engine)
  // ---------------------------------------------------------------------

  /**
   * `instanceType`: the `typeof` name of undefined, numbers, strings,
   * booleans and symbols; 'null' for null; for everything else (functions
   * included) the immediate tag, then the constructor name, then the
   * structural tag.
   */
  function InstanceType(h: Heap, v: Value): (k: Result<string, Error>)
    requires Valid(h) && ValueIn(h, v)
    ensures (v.Undefined? || v.Num? || v.Str? || v.Bool? || v.Symbol?) ==> k == Ok(TypeofName(TypeOf(h, v)))
    ensures v.Null? ==> k == Ok("null")
    ensures v.BigInt? ==> k == ObjectKind(ReadTarget(h, v))
    ensures v.Ref? ==> k == match ToStringTagImmediate(h, v.r)
                            case Err(e) => Err(e)
                            case Ok(Some(t)) => Ok(t)
                            case Ok(None) => ObjectKind(h.objects[v.r])
  {
    var t := TypeOf(h, v);
    if t in {TUndefined, TNumber, TString, TBoolean, TSymbol} then Ok(TypeofName(t))
    else if v.Null? then Ok("null")
    // A bigint has no own symbols, so its immediate tag is undefined.
    else if v.BigInt? then ObjectKind(ReadTarget(h, v))
    else
      var tag :- ToStringTagImmediate(h, v.r);
      if tag.Some? then Ok(tag.value) else ObjectKind(h.objects[v.r])
  }

  /** `isPrimitiveOrNull`, the pragmatic version: functions and Dates count as primitive. */
  predicate IsPrimitiveOrNull(h: Heap, v: Value)
    requires ValueIn(h, v)
  {
    match v
    case Null => true
    case Undefined => true
    case Str(_) => true
    case Num(_) => true
    case Bool(_) => true
    case Symbol(_) => true
    case BigInt(_) => false
    case Ref(r) => h.objects[r].callable || h.objects[r].instanceOfDate
  }

  /** Whether `typeof v[Symbol.iterator] === 'function'`. */
  predicate HasIteratorMethod(h: Heap, v: Value)
    requires Valid(h) && ValueIn(h, v) && !IsNullOrUndefined(v)
  {
    ReadTarget(h, v).hasIterator
  }

  /**
   * `isIterable` (identical in describe.js and src/util.js): never for
   * null or undefined, for strings only when `includeStrings` is set,
   * otherwise exactly when an iterator method is present.
   */
  predicate IsIterable(h: Heap, v: Value, includeStrings: bool)
    requires Valid(h) && ValueIn(h, v)
  {
    if IsNullOrUndefined(v) then false
    else if HasIteratorMethod(h, v) then (v.Str? ==> includeStrings)
    else false
  }

  /** `isIterator`: compares the string 'function' with `obj.next` itself, not with its `typeof`. */
  predicate IsIterator(h: Heap, v: Value)
    requires Valid(h) && ValueIn(h, v)
  {
    if IsNullOrUndefined(v) then false else ReadTarget(h, v).next == Str("function")
  }

  /** `typeof obj.next === 'function'`: the duck typing that `isIterator`'s documentation describes. */
  predicate HasNextMethod(h: Heap, v: Value)
    requires Valid(h) && ValueIn(h, v)
  {
    !IsNullOrUndefined(v) && TypeOf(h, ReadTarget(h, v).next) == TFunction
  }

  /**
   * `isIterator` is set only by a `next` that is the string 'function', so no
   * object with an actual `next()` method (an iterator) is ever flagged, and
   * a flagged object has no callable `next`.
   */
  lemma IsIteratorOnlyForTheString(h: Heap, v: Value)
    requires Valid(h) && ValueIn(h, v)
    ensures HasNextMethod(h, v) ==> !IsIterator(h, v)
    ensures IsIterator(h, v) ==> !HasNextMethod(h, v) && TypeOf(h, ReadTarget(h, v).next) == TString
  {
    if !IsNullOrUndefined(v) {
      assert ObjValid(h, ReadTarget(h, v));
    }
  }

  // ---------------------------------------------------------------------
  // src/util.js and object-describe.js (the earlier revisions)
  // ---------------------------------------------------------------------

  /** The earlier `instanceType` for anything but null: functions are 'function', no tag lookup. */
  function LegacyKind(h: Heap, v: Value): (k: Result<string, Error>)
    requires Valid(h) && ValueIn(h, v) && !v.Null?
    ensures (v.Undefined? || v.Num? || v.Str? || v.Bool? || v.Symbol? || TypeOf(h, v) == TFunction) ==> k == Ok(TypeofName(TypeOf(h, v)))
    ensures (v.BigInt? || TypeOf(h, v) == TObject) ==> k == ObjectKind(ReadTarget(h, v))
  {
    var t := TypeOf(h, v);
    if t in {TUndefined, TNumber, TString, TBoolean, TFunction, TSymbol} then Ok(TypeofName(t))
    else ObjectKind(ReadTarget(h, v))
  }

  /** src/util.js `instanceType`: null classifies as 'Object'. */
  function UtilInstanceType(h: Heap, v: Value): (k: Result<string, Error>)
    requires Valid(h) && ValueIn(h, v)
    ensures v.Null? ==> k == Ok("Object")
    ensures !v.Null? ==> k == LegacyKind(h, v)
  {
    if v.Null? then Ok("Object") else LegacyKind(h, v)
  }

  /** object-describe.js `instanceType`: null classifies as 'null'. */
  function OriginalInstanceType(h: Heap, v: Value): (k: Result<string, Error>)
    requires Valid(h) && ValueIn(h, v)
    ensures v.Null? ==> k == Ok("null")
    ensures !v.Null? ==> k == LegacyKind(h, v)
  {
    if v.Null? then Ok("null") else LegacyKind(h, v)
  }

  /**
   * The revisions agree on every value except null, functions, and objects
   * whose own tag is truthy (only the bundled engine looks at tags).
   */
  lemma InstanceTypeRevisionsAgree(h: Heap, v: Value)
    requires Valid(h) && ValueIn(h, v)
    requires !v.Null?
    requires v.Ref? ==> !h.objects[v.r].callable && (OwnTag(h, v.r).None? || OwnTag(h, v.r).value == "")
    ensures InstanceType(h, v) == UtilInstanceType(h, v) == OriginalInstanceType(h, v)
  {
  }

  /**
   * src/util.js `isPrimitiveOrNull`: true for the six primitive `typeof`s
   * (function included) and for null, false for any other object, and a
   * TypeError for any other `typeof`.
   */
  function UtilIsPrimitiveOrNull(h: Heap, v: Value): (r: Result<bool, Error>)
    requires ValueIn(h, v)
    ensures r.Err? <==> v.BigInt?
    ensures r == Ok(true) <==> v.Null? || (!v.BigInt? && TypeOf(h, v) != TObject)
    ensures r == Ok(false) <==> v.Ref? && TypeOf(h, v) == TObject
  {
    match v
    case Undefined => Ok(true)
    case Num(_) => Ok(true)
    case Str(_) => Ok(true)
    case Bool(_) => Ok(true)
    case Symbol(_) => Ok(true)
    case Null => Ok(true)
    case BigInt(_) => Err(TypeError("bigint is not a valid type"))
    case Ref(r) => Ok(h.objects[r].callable)
  }

  /**
   * object-describe.js `isPrimitiveOrNull`: like src/util.js, but an
   * unlisted `typeof` falls out of the switch (undefined, here None). Its
   * 'date' case can never match, so Dates are not primitive.
   */
  function OriginalIsPrimitiveOrNull(h: Heap, v: Value): (r: Option<bool>)
    requires ValueIn(h, v)
    ensures r.None? <==> v.BigInt?
    ensures r.Some? ==> UtilIsPrimitiveOrNull(h, v) == Ok(r.value)
  {
    match v
    case Undefined => Some(true)
    case Num(_) => Some(true)
    case Str(_) => Some(true)
    case Bool(_) => Some(true)
    case Symbol(_) => Some(true)
    case Null => Some(true)
    case BigInt(_) => None
    case Ref(r) => Some(h.objects[r].callable)
  }

  /** The revisions differ on Dates (primitive only in the bundled engine) and bigints. */
  lemma PrimitiveRevisionsDiffer(h: Heap, v: Value)
    requires ValueIn(h, v)
    ensures v.Ref? && !h.objects[v.r].callable && h.objects[v.r].instanceOfDate ==>
              IsPrimitiveOrNull(h, v) && UtilIsPrimitiveOrNull(h, v) == Ok(false) && OriginalIsPrimitiveOrNull(h, v) == Some(false)
    ensures !v.BigInt? && !(v.Ref? && h.objects[v.r].instanceOfDate) ==>
              UtilIsPrimitiveOrNull(h, v) == Ok(IsPrimitiveOrNull(h, v))
  {
  }

  /** src/util.js `isArrayLike`: never for null or undefined, always for arrays, else when `length` is a number. */
  predicate UtilIsArrayLike(h: Heap, v: Value)
    requires Valid(h) && ValueIn(h, v)
  {
    if IsNullOrUndefined(v) then false
    else if v.Ref? && h.objects[v.r].isArray then true
    else LengthIsNumber(h, v)
  }

  /** object-describe.js `isArrayLike`: the same test without the `Array.isArray` shortcut. */
  predicate OriginalIsArrayLike(h: Heap, v: Value)
    requires Valid(h) && ValueIn(h, v)
  {
    if IsNullOrUndefined(v) then false else LengthIsNumber(h, v)
  }

  /** `typeof v.length === 'number'`; a string's own `length` is a number. */
  predicate LengthIsNumber(h: Heap, v: Value)
    requires Valid(h) && ValueIn(h, v) && !IsNullOrUndefined(v)
  {
    v.Str? || ReadTarget(h, v).length.Num?
  }

  lemma ArrayLikeRevisions(h: Heap, v: Value)
    requires Valid(h) && ValueIn(h, v)
    ensures OriginalIsArrayLike(h, v) ==> UtilIsArrayLike(h, v)
    ensures UtilIsArrayLike(h, v) && !OriginalIsArrayLike(h, v) <==> v.Ref? && h.objects[v.r].isArray && !h.objects[v.r].length.Num?
    ensures v.Str? ==> UtilIsArrayLike(h, v) && OriginalIsArrayLike(h, v)
  {
  }

  /** object-describe.js `isIterable`: reads `obj[Symbol.iterator]` unguarded, so null and undefined throw, and strings count. */
  function OriginalIsIterable(h: Heap, v: Value): (r: Result<bool, Error>)
    requires Valid(h) && ValueIn(h, v)
    ensures r.Err? <==> IsNullOrUndefined(v)
    ensures r.Ok? ==> r.value == HasIteratorMethod(h, v)
    ensures r.Ok? ==> (r.value <==> IsIterable(h, v, true))
  {
    if IsNullOrUndefined(v) then Err(TypeError("Cannot read properties of " + (if v.Null? then "null" else "undefined")))
    else Ok(HasIteratorMethod(h, v))
  }

  // ---------------------------------------------------------------------
  // Own property names without the numeric ones
  // ---------------------------------------------------------------------

  /** What the unanchored pattern `/\d+/` tests: the name contains an ASCII digit somewhere. */
  predicate HasDigit(s: string)
  {
    exists i :: 0 <= i < |s| && '0' <= s[i] <= '9'
  }

  /** `sub` keeps some elements of `s`, in their order. */
  ghost predicate Subsequence<T>(sub: seq<T>, s: seq<T>)
    decreases |s|
  {
    if sub == [] then true
    else if s == [] then false
    else if sub[0] == s[0] then Subsequence(sub[1..], s[1..])
    else Subsequence(sub, s[1..])
  }

  /** `names.filter(n => !/\d+/.test(n))`. */
  function WithoutDigitNames(names: seq<string>): (r: seq<string>)
    ensures forall n :: n in r <==> n in names && !HasDigit(n)
    ensures Subsequence(r, names)
    ensures |r| <= |names|
    ensures (forall i :: 0 <= i < |names| ==> !HasDigit(names[i])) ==> r == names
  {
    if names == [] then []
    else if HasDigit(names[0]) then WithoutDigitNames(names[1..])
    else [names[0]] + WithoutDigitNames(names[1..])
  }

  /** `Object.getOwnPropertyNames(v)`: a string has its indices and `length`; other primitives have none. */
  function OwnNames(h: Heap, v: Value): seq<string>
    requires ValueIn(h, v) && !IsNullOrUndefined(v)
  {
    match v
    case Ref(r) => h.objects[r].names
    case Str(s) => IndexNames(|s|) + ["length"]
    case _ => []
  }

  function IndexNames(n: nat): (names: seq<string>)
    ensures |names| == n
    ensures forall i :: 0 <= i < n ==> names[i] == NatToString(i) && HasDigit(names[i])
  {
    var names := seq(n, i requires 0 <= i => NatToString(i));
    assert forall i :: 0 <= i < n ==> '0' <= names[i][0] <= '9';
    names
  }

  /** `getNonArrayLikeOwnPropertyNames` of src/util.js. */
  function UtilNonArrayLikeOwnPropertyNames(h: Heap, v: Value): (r: seq<string>)
    requires Valid(h) && ValueIn(h, v)
    ensures IsNullOrUndefined(v) ==> r == []
    ensures !IsNullOrUndefined(v) ==> Subsequence(r, OwnNames(h, v))
    ensures !IsNullOrUndefined(v) && UtilIsArrayLike(h, v) ==>
              forall n :: n in r <==> n in OwnNames(h, v) && !HasDigit(n)
    ensures !IsNullOrUndefined(v) && !UtilIsArrayLike(h, v) ==> r == OwnNames(h, v)
  {
    if IsNullOrUndefined(v) then []
    else if UtilIsArrayLike(h, v) then WithoutDigitNames(OwnNames(h, v))
    else SubsequenceOfSelf(OwnNames(h, v)); OwnNames(h, v)
  }

  /** `getNonArrayLikeOwnPropertyNames` of object-describe.js. */
  function OriginalNonArrayLikeOwnPropertyNames(h: Heap, v: Value): (r: seq<string>)
    requires Valid(h) && ValueIn(h, v)
    ensures IsNullOrUndefined(v) ==> r == []
    ensures !IsNullOrUndefined(v) ==> Subsequence(r, OwnNames(h, v))
    ensures !IsNullOrUndefined(v) && OriginalIsArrayLike(h, v) ==>
              forall n :: n in r <==> n in OwnNames(h, v) && !HasDigit(n)
    ensures !IsNullOrUndefined(v) && !OriginalIsArrayLike(h, v) ==> r == OwnNames(h, v)
  {
    if IsNullOrUndefined(v) then []
    else if OriginalIsArrayLike(h, v) then WithoutDigitNames(OwnNames(h, v))
    else SubsequenceOfSelf(OwnNames(h, v)); OwnNames(h, v)
  }

  lemma {:induction false} SubsequenceOfSelf<T>(s: seq<T>)
    ensures Subsequence(s, s)
  {
    if s != [] {
      SubsequenceOfSelf(s[1..]);
    }
  }

  /** For a string only `length` survives the filter. */
  lemma StringOwnNamesFiltered(h: Heap, s: string)
    requires Valid(h)
    ensures UtilNonArrayLikeOwnPropertyNames(h, Str(s)) == ["length"]
  {
    assert UtilIsArrayLike(h, Str(s));
    assert OwnNames(h, Str(s)) == IndexNames(|s|) + ["length"];
    IndexLengthFiltered(|s|);
  }

  lemma IndexLengthFiltered(n: nat)
    ensures WithoutDigitNames(IndexNames(n) + ["length"]) == ["length"]
  {
    WithoutDigitsAppend(IndexNames(n), ["length"]);
    AllDigitNamesDropped(IndexNames(n));
    LengthKept();
  }

  /** "length" holds no digit, so it survives the filter. */
  lemma LengthKept()
    ensures WithoutDigitNames(["length"]) == ["length"]
  {
    assert !HasDigit("length") by {
      forall i | 0 <= i < |"length"| ensures !('0' <= "length"[i] <= '9') { }
    }
  }

  lemma {:induction false} WithoutDigitsAppend(a: seq<string>, b: seq<string>)
    ensures WithoutDigitNames(a + b) == WithoutDigitNames(a) + WithoutDigitNames(b)
  {
    if a == [] {
      assert a + b == b;
    } else {
      assert (a + b)[1..] == a[1..] + b;
      WithoutDigitsAppend(a[1..], b);
    }
  }

  lemma {:induction false} AllDigitNamesDropped(a: seq<string>)
    requires forall i :: 0 <= i < |a| ==> HasDigit(a[i])
    ensures WithoutDigitNames(a) == []
  {
    if a != [] {
      AllDigitNamesDropped(a[1..]);
    }
  }
}
