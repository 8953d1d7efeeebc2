/**
 * The test suite's helpers: set equality under a comparator (`equalSets`),
 * a copy of a set without one entry (`cloneWithout`) and the key selection
 * of an object (`select`).
 */
module TestUtil {
  import opened Wrappers
  import opened JsValues

  // ---------------------------------------------------------------------
  // Sets
  // ---------------------------------------------------------------------

  /**
   * A value as `Set` membership sees it: SameValueZero compares symbols by
   * identity only, so the description is dropped.
   */
  function Canon(v: Value): Value
  {
    if v.Symbol? then Symbol(Sym(v.sym.id, "")) else v
  }

  /** SameValueZero is equality of canonical forms. */
  lemma SameValueZeroCanon(a: Value, b: Value)
    ensures SameValueZero(a, b) <==> Canon(a) == Canon(b)
  {
  }

  /** `===` is equality of canonical forms, except that NaN equals nothing. */
  lemma StrictEqualsCanon(a: Value, b: Value)
    ensures StrictEquals(a, b) <==> Canon(a) == Canon(b) && a != Num(NaN)
  {
  }

  /** The members of a set, up to SameValueZero. */
  function CanonSet(s: seq<Value>): set<Value>
  {
    if s == [] then {} else {Canon(s[0])} + CanonSet(s[1..])
  }

  /** No two entries are the same as far as `Set` membership goes. */
  predicate Distinct(s: seq<Value>)
  {
    s == [] || (Canon(s[0]) !in CanonSet(s[1..]) && Distinct(s[1..]))
  }

  /** A `Set`: its entries in insertion order. */
  class JsSet {
    var elements: seq<Value>

    ghost predicate Valid()
      reads this
    {
      Distinct(elements)
    }

    /** `new Set(other)`: a copy holding the same entries in the same order. */
    constructor Copy(from: seq<Value>)
      ensures elements == from
      ensures Distinct(from) ==> Valid()
    {
      elements := from;
    }

    /** `set.delete(entry)`: removes the entry that is SameValueZero to `entry`, if any. */
    method Delete(entry: Value)
      modifies this
      ensures elements == Removed(old(elements), entry)
      ensures old(Valid()) ==> Valid()
    {
      if Valid() {
        RemovedDistinct(elements, entry);
      }
      elements := Removed(elements, entry);
    }
  }

  /** The entries other than those SameValueZero to `e`, in order. */
  function Removed(s: seq<Value>, e: Value): seq<Value>
  {
    if s == [] then [] else (if SameValueZero(s[0], e) then [] else [s[0]]) + Removed(s[1..], e)
  }

  /** An argument that should be a `Set`: the set itself, or what `String(arg)` gives for anything else. */
  datatype SetArg = IsSet(jsSet: JsSet) | NotSet(text: string)

  function Elements(arg: SetArg): (r: Option<seq<Value>>)
    reads if arg.IsSet? then {arg.jsSet} else {}
    ensures r.Some? <==> arg.IsSet?
  {
    if arg.IsSet? then Some(arg.jsSet.elements) else None
  }

  /**
   * What `cloneWithout(set, entry)` leaves: every entry but `entry`, except
   * that an undefined `entry` removes nothing when `keepUndefined` holds (the
   * guard `undefined !== entry` as written).
   */
  function Without(s: seq<Value>, e: Value, keepUndefined: bool): seq<Value>
  {
    if keepUndefined && e == Undefined then s else Removed(s, e)
  }

  /**
   * `cloneWithout(set, entry)`: a TypeError showing the argument when it is
   * not a Set; otherwise a new set without `entry`, the argument untouched.
   */
  method CloneWithout(arg: SetArg, entry: Value) returns (r: Result<JsSet, Error>)
    ensures arg.NotSet? ==> r == Err(TypeError(arg.text))
    ensures arg.IsSet? ==> r.Ok? && fresh(r.value) && r.value.elements == Without(arg.jsSet.elements, entry, true)
    ensures arg.IsSet? ==> unchanged(arg.jsSet)
    ensures arg.IsSet? && arg.jsSet.Valid() ==> r.value.Valid()
  {
    if !arg.IsSet? {
      return Err(TypeError(arg.text));
    }
    var clone := new JsSet.Copy(arg.jsSet.elements);
    if Undefined != entry {
      clone.Delete(entry);
    }
    return Ok(clone);
  }

  lemma {:induction false} RemovedCanonSet(s: seq<Value>, e: Value)
    ensures CanonSet(Removed(s, e)) == CanonSet(s) - {Canon(e)}
    decreases |s|
  {
    if s != [] {
      RemovedCanonSet(s[1..], e);
      var head := if SameValueZero(s[0], e) then [] else [s[0]];
      CanonSetAppend(head, Removed(s[1..], e));
    }
  }

  lemma {:induction false} CanonSetAppend(a: seq<Value>, b: seq<Value>)
    ensures CanonSet(a + b) == CanonSet(a) + CanonSet(b)
    decreases |a|
  {
    if a == [] {
      assert a + b == b;
    } else {
      assert (a + b)[1..] == a[1..] + b;
      CanonSetAppend(a[1..], b);
    }
  }

  /** Removing an entry keeps the entries distinct. */
  lemma {:induction false} RemovedDistinct(s: seq<Value>, e: Value)
    requires Distinct(s)
    ensures Distinct(Removed(s, e))
    decreases |s|
  {
    if s != [] {
      RemovedDistinct(s[1..], e);
      RemovedCanonSet(s[1..], e);
      var rest := Removed(s[1..], e);
      var r := Removed(s, e);
      if !SameValueZero(s[0], e) {
        assert r == [s[0]] + rest;
        assert r[0] == s[0] && r[1..] == rest;
      } else {
        assert r == [] + rest;
        assert r == rest;
      }
    }
  }

  /** What remains is a sub-sequence: every remaining entry was an entry. */
  lemma {:induction false} RemovedShorter(s: seq<Value>, e: Value)
    ensures |Removed(s, e)| <= |s|
    ensures s != [] && SameValueZero(s[0], e) ==> |Removed(s, e)| < |s|
    ensures forall v :: v in Removed(s, e) ==> v in s
    decreases |s|
  {
    if s != [] {
      RemovedShorter(s[1..], e);
    }
  }

  /** Distinct entries: as many members as entries. */
  lemma {:induction false} DistinctSize(s: seq<Value>)
    requires Distinct(s)
    ensures |CanonSet(s)| == |s|
    decreases |s|
  {
    if s != [] {
      DistinctSize(s[1..]);
    }
  }

  lemma {:induction false} CanonSetMember(s: seq<Value>, i: nat)
    requires i < |s|
    ensures Canon(s[i]) in CanonSet(s)
    decreases i
  {
    if i > 0 {
      CanonSetMember(s[1..], i - 1);
    }
  }

  lemma {:induction false} CanonSetWitness(s: seq<Value>, c: Value)
    requires c in CanonSet(s)
    ensures exists i :: 0 <= i < |s| && Canon(s[i]) == c
    decreases |s|
  {
    if Canon(s[0]) != c {
      CanonSetWitness(s[1..], c);
      var i :| 0 <= i < |s[1..]| && Canon(s[1..][i]) == c;
      assert Canon(s[i + 1]) == c;
    }
  }

  // ---------------------------------------------------------------------
  // equalSets
  // ---------------------------------------------------------------------

  /** The comparator argument: a function, or the `typeof` of anything else. */
  datatype Comparator = Callable(eq: (Value, Value) -> bool) | NotCallable(kind: Typeof)

  /** The default comparator, `(x, y) => x === y`. */
  const Strict: Comparator := Callable((x: Value, y: Value) => StrictEquals(x, y))

  /** The first index from `j` on whose entry the comparator matches with `x`. */
  function FirstMatch(eq: (Value, Value) -> bool, x: Value, ys: seq<Value>, j: nat): (m: Option<nat>)
    requires j <= |ys|
    ensures m.Some? ==> j <= m.value < |ys| && eq(x, ys[m.value])
    ensures m.Some? ==> forall k :: j <= k < m.value ==> !eq(x, ys[k])
    ensures m.None? ==> forall k :: j <= k < |ys| ==> !eq(x, ys[k])
    decreases |ys| - j
  {
    if j == |ys| then None
    else if eq(x, ys[j]) then Some(j)
    else FirstMatch(eq, x, ys, j + 1)
  }

  /**
   * What `equalSets(aaa, bbb, comparator)` returns or throws with `fuel`
   * frames of stack left: the arguments are checked, then the first entry of
   * `aaa` is paired with the first entry of `bbb` it matches and the rest
   * compared without the two.
   */
  function EqualSetsSpec(a: Option<seq<Value>>, b: Option<seq<Value>>, cmp: Comparator, fuel: nat, keepUndefined: bool)
    : (r: Result<bool, Error>)
    ensures fuel >= 1 && cmp.NotCallable? ==> r == Err(TypeError(TypeofName(cmp.kind)))
    ensures fuel >= 1 && cmp.Callable? && (a.None? || b.None?) ==> r == Ok(false)
    ensures fuel >= 1 && cmp.Callable? && a.Some? && b.Some? && |a.value| != |b.value| ==> r == Ok(false)
    decreases fuel
  {
    if fuel == 0 then Err(StackOverflow)
    else if cmp.NotCallable? then Err(TypeError(TypeofName(cmp.kind)))
    else if a.None? || b.None? then Ok(false)
    else if |a.value| != |b.value| then Ok(false)
    else if a.value == [] then Ok(true)
    else
      var x := a.value[0];
      match FirstMatch(cmp.eq, x, b.value, 0)
      case None => Ok(false)
      case Some(j) =>
        EqualSetsSpec(Some(Without(a.value, x, keepUndefined)), Some(Without(b.value, b.value[j], keepUndefined)),
                      cmp, fuel - 1, keepUndefined)
  }

  /**
   * `equalSets(aaa, bbb, comparator)`. Its outer `for` never reaches a second
   * entry of `aaa`: the first either finds a match and returns the recursive
   * comparison, or finds none and returns false.
   */
  method EqualSets(aaa: SetArg, bbb: SetArg, cmp: Comparator, fuel: nat) returns (r: Result<bool, Error>)
    ensures r == EqualSetsSpec(Elements(aaa), Elements(bbb), cmp, fuel, true)
    decreases fuel
  {
    if fuel == 0 {
      return Err(StackOverflow);
    }
    if cmp.NotCallable? {
      return Err(TypeError(TypeofName(cmp.kind)));
    }
    if !aaa.IsSet? || !bbb.IsSet? {
      return Ok(false);
    }
    var xs, ys := aaa.jsSet.elements, bbb.jsSet.elements;
    if |xs| != |ys| {
      return Ok(false);
    }
    if |xs| > 0 {
      var itemA := xs[0];
      var hasB := false;
      var j := 0;
      while j < |ys|
        invariant j <= |ys| && !hasB
        invariant FirstMatch(cmp.eq, itemA, ys, 0) == FirstMatch(cmp.eq, itemA, ys, j)
        invariant aaa.jsSet.elements == xs && bbb.jsSet.elements == ys
      {
        var itemB := ys[j];
        hasB := cmp.eq(itemA, itemB);
        if hasB {
          var restA := CloneWithout(aaa, itemA);
          var restB := CloneWithout(bbb, itemB);
          r := EqualSets(IsSet(restA.value), IsSet(restB.value), cmp, fuel - 1);
          return;
        }
        j := j + 1;
      }
      return Ok(false);
    }
    return Ok(true);
  }

  /**
   * With the default `===` comparator and stack enough for one frame per
   * entry, two sets are equal exactly when they have the same members and
   * `aaa` holds no NaN (NaN `===` nothing). As written this needs `aaa` to
   * hold no undefined; with the guard removed it holds for every pair of sets.
   */
  lemma {:induction false} StrictEqualSets(a: seq<Value>, b: seq<Value>, fuel: nat, keepUndefined: bool)
    requires Distinct(a) && Distinct(b) && fuel > |a|
    requires keepUndefined ==> Undefined !in a
    ensures EqualSetsSpec(Some(a), Some(b), Strict, fuel, keepUndefined) == Ok(SameMembers(a, b))
    decreases |a|
  {
    if |a| != |b| {
      SizesDiffer(a, b, fuel, keepUndefined);
    } else if a == [] {
      BothEmpty(a, b, fuel, keepUndefined);
    } else if FirstMatch(Strict.eq, a[0], b, 0).None? {
      NoMatch(a, b, fuel, keepUndefined);
    } else {
      var j := FirstMatch(Strict.eq, a[0], b, 0).value;
      var a', b' := MatchStep(a, b, j, keepUndefined);
      StrictEqualSets(a', b', fuel - 1, keepUndefined);
      Matched(a, b, a', b', fuel, keepUndefined, j);
    }
  }

  lemma SizesDiffer(a: seq<Value>, b: seq<Value>, fuel: nat, keepUndefined: bool)
    requires Distinct(a) && Distinct(b) && fuel >= 1 && |a| != |b|
    ensures EqualSetsSpec(Some(a), Some(b), Strict, fuel, keepUndefined) == Ok(SameMembers(a, b))
  {
    DistinctSize(a);
    DistinctSize(b);
  }

  lemma BothEmpty(a: seq<Value>, b: seq<Value>, fuel: nat, keepUndefined: bool)
    requires fuel >= 1 && a == [] && b == []
    ensures EqualSetsSpec(Some(a), Some(b), Strict, fuel, keepUndefined) == Ok(SameMembers(a, b))
  {
    SpecEmpty(Strict, fuel, keepUndefined);
  }

  lemma NoMatch(a: seq<Value>, b: seq<Value>, fuel: nat, keepUndefined: bool)
    requires fuel >= 1 && |a| == |b| && a != [] && FirstMatch(Strict.eq, a[0], b, 0).None?
    ensures EqualSetsSpec(Some(a), Some(b), Strict, fuel, keepUndefined) == Ok(SameMembers(a, b))
  {
    SpecNoMatch(a, b, Strict, fuel, keepUndefined);
    NoMatchDiffers(a, b);
  }

  lemma Matched(a: seq<Value>, b: seq<Value>, a': seq<Value>, b': seq<Value>, fuel: nat, keepUndefined: bool, j: nat)
    requires fuel >= 1 && |a| == |b| && a != [] && FirstMatch(Strict.eq, a[0], b, 0) == Some(j)
    requires a' == Without(a, a[0], keepUndefined) && b' == Without(b, b[j], keepUndefined)
    requires SameMembers(a, b) == SameMembers(a', b')
             && EqualSetsSpec(Some(a'), Some(b'), Strict, fuel - 1, keepUndefined) == Ok(SameMembers(a', b'))
    ensures EqualSetsSpec(Some(a), Some(b), Strict, fuel, keepUndefined) == Ok(SameMembers(a, b))
  {
    SpecMatch(a, b, Strict, fuel, keepUndefined, j);
  }

  /** The sets have the same members and the first holds no NaN. */
  predicate SameMembers(a: seq<Value>, b: seq<Value>)
  {
    CanonSet(a) == CanonSet(b) && Num(NaN) !in a
  }

  lemma SpecEmpty(cmp: Comparator, fuel: nat, keepUndefined: bool)
    requires fuel >= 1 && cmp.Callable?
    ensures EqualSetsSpec(Some([]), Some([]), cmp, fuel, keepUndefined) == Ok(true)
  {
  }

  lemma SpecNoMatch(a: seq<Value>, b: seq<Value>, cmp: Comparator, fuel: nat, keepUndefined: bool)
    requires fuel >= 1 && cmp.Callable? && |a| == |b| && a != [] && FirstMatch(cmp.eq, a[0], b, 0).None?
    ensures EqualSetsSpec(Some(a), Some(b), cmp, fuel, keepUndefined) == Ok(false)
  {
  }

  lemma SpecMatch(a: seq<Value>, b: seq<Value>, cmp: Comparator, fuel: nat, keepUndefined: bool, j: nat)
    requires fuel >= 1 && cmp.Callable? && |a| == |b| && a != [] && FirstMatch(cmp.eq, a[0], b, 0) == Some(j)
    ensures EqualSetsSpec(Some(a), Some(b), cmp, fuel, keepUndefined) ==
            EqualSetsSpec(Some(Without(a, a[0], keepUndefined)), Some(Without(b, b[j], keepUndefined)), cmp, fuel - 1, keepUndefined)
  {
  }

  lemma NoMatchDiffers(a: seq<Value>, b: seq<Value>)
    requires a != [] && FirstMatch(Strict.eq, a[0], b, 0).None?
    ensures !SameMembers(a, b)
  {
    if a[0] != Num(NaN) {
      NoMatchAbsent(a[0], b);
      CanonSetMember(a, 0);
    }
  }

  /** No entry of `b` is `===` to a non-NaN `x`: `x` is not a member of `b`. */
  lemma NoMatchAbsent(x: Value, b: seq<Value>)
    requires x != Num(NaN) && FirstMatch(Strict.eq, x, b, 0).None?
    ensures Canon(x) !in CanonSet(b)
  {
    if Canon(x) in CanonSet(b) {
      CanonSetWitness(b, Canon(x));
      var i :| 0 <= i < |b| && Canon(b[i]) == Canon(x);
      StrictEqualsCanon(x, b[i]);
    }
  }

  /**
   * One round of `equalSets` on a matched pair: the remaining sets are
   * distinct and smaller, and they have the same members (and `aaa` no NaN)
   * exactly when the whole sets do.
   */
  lemma MatchStep(a: seq<Value>, b: seq<Value>, j: nat, keepUndefined: bool) returns (a': seq<Value>, b': seq<Value>)
    requires Distinct(a) && Distinct(b) && a != [] && j < |b| && StrictEquals(a[0], b[j])
    requires keepUndefined ==> Undefined !in a
    ensures a' == Without(a, a[0], keepUndefined) && b' == Without(b, b[j], keepUndefined)
    ensures Distinct(a') && Distinct(b') && |a'| < |a|
    ensures keepUndefined ==> Undefined !in a'
    ensures SameMembers(a, b) == SameMembers(a', b')
  {
    var x, y := a[0], b[j];
    a', b' := Removed(a, x), Removed(b, y);
    assert a' == Without(a, x, keepUndefined) && b' == Without(b, y, keepUndefined);
    RemovedShorter(a, x);
    RemovedDistinct(a, x);
    RemovedDistinct(b, y);
    MembersStep(a, b, j);
  }

  /** Removing a strictly equal pair keeps the two member sets equal or unequal, and NaN out or in. */
  lemma MembersStep(a: seq<Value>, b: seq<Value>, j: nat)
    requires a != [] && j < |b| && StrictEquals(a[0], b[j])
    ensures SameMembers(a, b) == SameMembers(Removed(a, a[0]), Removed(b, b[j]))
  {
    var x, y := a[0], b[j];
    StrictEqualsCanon(x, y);
    SameValueZeroCanon(x, x);
    RemovedCanonSet(a, x);
    RemovedCanonSet(b, y);
    CanonSetMember(a, 0);
    CanonSetMember(b, j);
    assert CanonSet(a) == CanonSet(Removed(a, x)) + {Canon(x)};
    assert CanonSet(b) == CanonSet(Removed(b, y)) + {Canon(x)};
    NoNaNRemoved(a, x);
  }

  /** Removing a non-NaN entry changes nothing about NaN. */
  lemma NoNaNRemoved(a: seq<Value>, x: Value)
    requires x != Num(NaN)
    ensures Num(NaN) in a <==> Num(NaN) in Removed(a, x)
  {
    RemovedShorter(a, x);
    if Num(NaN) in a {
      var i :| 0 <= i < |a| && a[i] == Num(NaN);
      RemovedKeeps(a, x, i);
    }
  }

  /** An entry that is not SameValueZero to `x` survives its removal. */
  lemma {:induction false} RemovedKeeps(a: seq<Value>, x: Value, i: nat)
    requires i < |a| && !SameValueZero(a[i], x)
    ensures a[i] in Removed(a, x)
    decreases i
  {
    if i > 0 {
      RemovedKeeps(a[1..], x, i - 1);
    }
  }

  /** As written, two sets holding just undefined exhaust any stack instead of comparing equal. */
  lemma {:induction false} UndefinedOverflows(fuel: nat)
    ensures EqualSetsSpec(Some([Undefined]), Some([Undefined]), Strict, fuel, true) == Err(StackOverflow)
    decreases fuel
  {
    if fuel > 0 {
      assert FirstMatch(Strict.eq, Undefined, [Undefined], 0) == Some(0);
      UndefinedOverflows(fuel - 1);
    }
  }

  /** Without the guard, the same two sets compare equal once the stack has two frames. */
  lemma UndefinedEqualFixed(fuel: nat)
    requires fuel >= 2
    ensures EqualSetsSpec(Some([Undefined]), Some([Undefined]), Strict, fuel, false) == Ok(true)
  {
    assert CanonSet([Undefined]) == {Undefined} by {
      assert [Undefined][1..] == [];
    }
    StrictEqualSets([Undefined], [Undefined], fuel, false);
  }

  // ---------------------------------------------------------------------
  // select
  // ---------------------------------------------------------------------

  /** The object `select` is given: null, undefined, or an object's own keys and values. */
  datatype Target = NullTarget | UndefinedTarget | Record(fields: map<string, Value>)

  /** `obj[key]`: undefined for a missing key. */
  function Get(fields: map<string, Value>, k: string): Value
  {
    if k in fields then fields[k] else Undefined
  }

  /**
   * What `select(obj, keys, inverse)` returns: null and undefined unchanged;
   * a copy of everything without `keys`; the listed keys, each mapped to
   * `obj[key]`; or, with `inverse`, a copy without the listed keys.
   */
  function Selected(obj: Target, keys: Option<seq<string>>, inverse: bool): Target
  {
    if !obj.Record? then obj
    else if keys.None? then Record(obj.fields)
    else if inverse then Record(map k | k in obj.fields && k !in keys.value :: obj.fields[k])
    else Record(map k | k in keys.value :: Get(obj.fields, k))
  }

  /** `select(obj, keys, inverse)`: fills or prunes a fresh object one listed key at a time. */
  method Select(obj: Target, keys: Option<seq<string>>, inverse: bool) returns (r: Target)
    ensures r == Selected(obj, keys, inverse)
  {
    if !obj.Record? {
      return obj;
    }
    var out: map<string, Value> := if inverse then obj.fields else map[];
    if keys.None? {
      return Record(out + obj.fields);
    }
    var ks := keys.value;
    var i := 0;
    while i < |ks|
      invariant i <= |ks|
      invariant inverse ==> out == map k | k in obj.fields && k !in ks[..i] :: obj.fields[k]
      invariant !inverse ==> out == map k | k in ks[..i] :: Get(obj.fields, k)
    {
      assert ks[..i + 1] == ks[..i] + [ks[i]];
      if inverse {
        out := out - {ks[i]};
      } else {
        out := out[ks[i] := Get(obj.fields, ks[i])];
      }
      i := i + 1;
    }
    assert ks[..i] == ks;
    return Record(out);
  }

  /**
   * Selecting some of an object's keys and selecting the rest split it: the
   * two results share no key and together give the object back.
   */
  lemma SelectSplits(fields: map<string, Value>, ks: seq<string>)
    requires forall i :: 0 <= i < |ks| ==> ks[i] in fields
    ensures var kept := Selected(Record(fields), Some(ks), false).fields;
            var pruned := Selected(Record(fields), Some(ks), true).fields;
            kept.Keys !! pruned.Keys && kept + pruned == fields
  {
    var kept := Selected(Record(fields), Some(ks), false).fields;
    var pruned := Selected(Record(fields), Some(ks), true).fields;
    assert (kept + pruned).Keys == fields.Keys;
  }

  /** Selecting the same keys again changes nothing. */
  lemma SelectIdempotent(obj: Target, keys: Option<seq<string>>, inverse: bool)
    ensures Selected(Selected(obj, keys, inverse), keys, inverse) == Selected(obj, keys, inverse)
  {
    if obj.Record? && keys.Some? {
      var once := Selected(obj, keys, inverse);
      assert Selected(once, keys, inverse).fields == once.fields;
    }
  }
}
