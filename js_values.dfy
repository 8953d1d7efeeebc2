/**
 * JavaScript values and an abstract heap of objects: the reflective facts the
 * describe engine reads from a value (own keys, descriptors, prototype,
 * constructor, iteration protocol) and nothing else.
 */
module JsValues {
  import opened Wrappers

  /** Object identity. */
  type Ref = nat

  /** Numbers: only what the engine distinguishes (NaN, the infinities, finite values). */
  datatype NumVal = NaN | PosInfinity | NegInfinity | Finite(x: real)

  /** Symbols are unique by `id`; `description` is what `String(sym)` shows. */
  datatype Sym = Sym(id: nat, description: string)

  datatype Value =
    | Undefined
    | Null
    | Bool(b: bool)
    | Num(n: NumVal)
    | BigInt(i: int)
    | Str(s: string)
    | Symbol(sym: Sym)
    | Ref(r: Ref)

  /** The results of the `typeof` operator. */
  datatype Typeof = TUndefined | TObject | TBoolean | TNumber | TBigInt | TString | TSymbol | TFunction

  function TypeofName(t: Typeof): string
  {
    match t
    case TUndefined => "undefined"
    case TObject => "object"
    case TBoolean => "boolean"
    case TNumber => "number"
    case TBigInt => "bigint"
    case TString => "string"
    case TSymbol => "symbol"
    case TFunction => "function"
  }

  /** The errors JavaScript code can throw here. `RangeError` stands for call-stack exhaustion. */
  datatype Error =
    | TypeError(message: string)
    | ReferenceError(message: string)
    | RangeError(message: string)
    | ThrownError(message: string)

  const StackOverflow: Error := RangeError("Maximum call stack size exceeded")

  /** A property key: a string name or a symbol. */
  datatype Key = NameKey(name: string) | SymbolKey(sym: Sym)

  /** `String(key)`: symbols read as `Symbol(description)`. */
  function KeyName(k: Key): string
  {
    match k
    case NameKey(n) => n
    case SymbolKey(s) => "Symbol(" + s.description + ")"
  }

  /** The well-known symbol `Symbol.toStringTag`. */
  const ToStringTagSym: Sym := Sym(0, "Symbol.toStringTag")

  /** What reading `obj[key]` does: it yields a value or throws. */
  datatype ReadOutcome = Returns(value: Value) | Throws(error: Error)

  /** An own property: its descriptor and what reading it does. */
  datatype Prop = Prop(enumerable: bool, configurable: bool, getter: Option<Ref>, setter: Option<Ref>, read: ReadOutcome)

  /** What a call of `obj.toString()` does. */
  datatype CallOutcome = ReturnsText(text: string) | ThrowsWithStack(stack: string)

  /** Which `toString` an object inherits. */
  datatype ToStringMethod = NotCallable | ObjectDefault | ArrayDefault | Custom(outcome: CallOutcome)

  /** The failure of the `next()` call with index `at` of an iteration. */
  datatype Failure = Failure(at: nat, error: Error)

  /**
   * What a `for ... of` loop over a value sees: element `i` is `at(i)`, there
   * are `length` elements (`None`: the iterator never finishes), and the
   * `next()` call with index `failure.at` throws.
   */
  datatype Source<T> = Source(at: nat -> T, length: Option<nat>, failure: Option<Failure>)

  predicate Has<T>(src: Source<T>, i: nat)
  {
    src.length.None? || i < src.length.value
  }

  /** The outcome of the `next()` call with index `k`. */
  datatype Pulled<T> = PullThrows(error: Error) | Done | Item(item: T)

  function Pull<T>(src: Source<T>, k: nat): (p: Pulled<T>)
    ensures p.Item? ==> Has(src, k) && p.item == src.at(k)
    ensures p.Done? <==> (src.failure.None? || src.failure.value.at != k) && !Has(src, k)
  {
    if src.failure.Some? && src.failure.value.at == k then PullThrows(src.failure.value.error)
    else if Has(src, k) then Item(src.at(k))
    else Done
  }

  /** The facts about one object that the engine reads. */
  datatype ObjData = ObjData(
    names: seq<string>,              // Object.getOwnPropertyNames(obj), in order
    symbols: seq<Sym>,               // Object.getOwnPropertySymbols(obj), in order
    props: map<Key, Prop>,           // the own properties under those keys
    proto: Option<Ref>,              // Object.getPrototypeOf(obj); None for null
    protoRank: nat,                  // strictly greater than the prototype's: chains are acyclic
    callable: bool,                  // typeof obj === 'function'
    source: string,                  // String(obj) for a function
    isArray: bool,                   // Array.isArray(obj)
    instanceOfArray: bool,           // obj instanceof Array
    instanceOfDate: bool,            // obj instanceof Date
    ctor: Value,                     // obj.constructor
    ctorName: string,                // obj.constructor.name, "" when that is falsy
    builtinTag: string,              // X in Object.prototype.toString.call(obj) === '[object X]'
    hasIterator: bool,               // typeof obj[Symbol.iterator] === 'function'
    items: Source<Value>,            // what iterating obj yields
    next: Value,                     // obj.next
    length: Value,                   // obj.length
    toStringMethod: ToStringMethod,  // obj.toString
    hasPropertyIsEnumerable: bool    // whether obj.propertyIsEnumerable is truthy
  )

  /** All objects, and the prototypes that primitives of each `typeof` box to. */
  datatype Heap = Heap(objects: map<Ref, ObjData>, boxProto: map<Typeof, Ref>)

  predicate ValueIn(h: Heap, v: Value)
  {
    v.Ref? ==> v.r in h.objects
  }

  function OwnKeys(o: ObjData): (ks: seq<Key>)
    ensures |ks| == |o.names| + |o.symbols|
  {
    NameKeys(o.names) + SymbolKeys(o.symbols)
  }

  function NameKeys(names: seq<string>): (ks: seq<Key>)
    ensures |ks| == |names|
    ensures forall i :: 0 <= i < |names| ==> ks[i] == NameKey(names[i])
  {
    if names == [] then [] else [NameKey(names[0])] + NameKeys(names[1..])
  }

  function SymbolKeys(syms: seq<Sym>): (ks: seq<Key>)
    ensures |ks| == |syms|
    ensures forall i :: 0 <= i < |syms| ==> ks[i] == SymbolKey(syms[i])
  {
    if syms == [] then [] else [SymbolKey(syms[0])] + SymbolKeys(syms[1..])
  }

  ghost predicate PropValid(h: Heap, p: Prop)
  {
    && (p.getter.Some? ==> p.getter.value in h.objects && h.objects[p.getter.value].callable)
    && (p.setter.Some? ==> p.setter.value in h.objects && h.objects[p.setter.value].callable)
    && (p.read.Returns? ==> ValueIn(h, p.read.value))
  }

  /**
   * A heap that JavaScript can produce: no dangling references, every own key
   * has a descriptor, prototype chains end, an own `Symbol.toStringTag` is a
   * string, and every primitive type has its wrapper prototype.
   */
  ghost predicate ObjValid(h: Heap, o: ObjData)
  {
    && (forall k :: k in OwnKeys(o) ==> k in o.props && PropValid(h, o.props[k]))
    && (o.proto.Some? ==> o.proto.value in h.objects && h.objects[o.proto.value].protoRank < o.protoRank)
    && ValueIn(h, o.ctor)
    && ValueIn(h, o.next)
    && ValueIn(h, o.length)
    && (forall i: nat :: ValueIn(h, o.items.at(i)))
    && (forall i :: 0 <= i < |o.symbols| && o.symbols[i].id == ToStringTagSym.id ==> o.symbols[i] == ToStringTagSym)
    && (ToStringTagSym in o.symbols ==> o.props[SymbolKey(ToStringTagSym)].read.Returns? && o.props[SymbolKey(ToStringTagSym)].read.value.Str?)
  }

  ghost predicate Valid(h: Heap)
  {
    && (forall r :: r in h.objects ==> ObjValid(h, h.objects[r]))
    && (forall t :: t in h.boxProto ==> h.boxProto[t] in h.objects)
    && (forall t :: t in BoxedTypes ==> t in h.boxProto)
  }

  /** The `typeof`s whose values box to a wrapper object when a property is read. */
  const BoxedTypes: set<Typeof> := {TBoolean, TNumber, TBigInt, TString, TSymbol}

  /** Every item an object's iterator yields lies in the heap. */
  lemma ItemsValid(h: Heap, r: Ref)
    requires Valid(h) && r in h.objects
    ensures forall i: nat :: ValueIn(h, h.objects[r].items.at(i))
  {
    assert ObjValid(h, h.objects[r]);
  }

  /** An own `Symbol.toStringTag` is a data property holding a string. */
  lemma TagValid(h: Heap, r: Ref)
    requires Valid(h) && r in h.objects && ToStringTagSym in h.objects[r].symbols
    ensures SymbolKey(ToStringTagSym) in h.objects[r].props
    ensures h.objects[r].props[SymbolKey(ToStringTagSym)].read.Returns?
    ensures h.objects[r].props[SymbolKey(ToStringTagSym)].read.value.Str?
  {
    var o := h.objects[r];
    assert ObjValid(h, o);
    var i :| 0 <= i < |o.symbols| && o.symbols[i] == ToStringTagSym;
    assert OwnKeys(o)[|o.names| + i] == SymbolKey(ToStringTagSym);
  }

  lemma OwnKeyValid(h: Heap, r: Ref, k: Key)
    requires Valid(h) && r in h.objects && k in OwnKeys(h.objects[r])
    ensures k in h.objects[r].props && PropValid(h, h.objects[r].props[k])
  {
    assert ObjValid(h, h.objects[r]);
  }

  function TypeOf(h: Heap, v: Value): Typeof
    requires ValueIn(h, v)
  {
    match v
    case Undefined => TUndefined
    case Null => TObject
    case Bool(_) => TBoolean
    case Num(_) => TNumber
    case BigInt(_) => TBigInt
    case Str(_) => TString
    case Symbol(_) => TSymbol
    case Ref(r) => if h.objects[r].callable then TFunction else TObject
  }

  /** JavaScript truthiness (`document.all` and `-0` are not modelled). */
  predicate Truthy(v: Value)
  {
    match v
    case Undefined => false
    case Null => false
    case Bool(b) => b
    case Num(n) => n != NaN && n != Finite(0.0)
    case BigInt(i) => i != 0
    case Str(s) => s != ""
    case Symbol(_) => true
    case Ref(_) => true
  }

  /** `a === b`: NaN is unequal to everything, symbols and objects compare by identity. */
  predicate StrictEquals(a: Value, b: Value)
  {
    match (a, b)
    case (Num(x), Num(y)) => x != NaN && x == y
    case (Symbol(s), Symbol(t)) => s.id == t.id
    case _ => a == b
  }

  /** SameValueZero, the equality of `Set` membership: like `===` except that NaN equals NaN. */
  predicate SameValueZero(a: Value, b: Value)
  {
    match (a, b)
    case (Num(x), Num(y)) => x == y
    case (Symbol(s), Symbol(t)) => s.id == t.id
    case _ => a == b
  }

  /** Decimal digits of a natural number. */
  function NatToString(n: nat): (s: string)
    ensures |s| >= 1
    ensures forall i :: 0 <= i < |s| ==> '0' <= s[i] <= '9'
    decreases n
  {
    if n < 10 then [DigitChar(n)] else NatToString(n / 10) + [DigitChar(n % 10)]
  }

  function DigitChar(d: nat): (c: char)
    requires d < 10
    ensures '0' <= c <= '9'
  {
    ['0', '1', '2', '3', '4', '5', '6', '7', '8', '9'][d]
  }

  function IntToString(i: int): string
  {
    if i < 0 then "-" + NatToString(-i) else NatToString(i)
  }

  /** Pattern-match results of the two function-source shapes (the regular expressions are not modelled). */
  datatype LambdaMatch = LambdaMatch(parenParams: Option<string>, bareParam: Option<string>, body: string)
  datatype FunctionMatch = FunctionMatch(keyword: Option<string>, name: string, params: string, body: string)

  /**
   * The host facilities the engine calls but this model does not interpret:
   * locale and default formatting of numbers and dates, and regular-expression
   * matching of function source text.
   */
  datatype Host = Host(
    numberToLocale: NumVal -> string,
    numberToString: NumVal -> string,
    dateToLocale: Ref -> string,
    dateToString: Ref -> string,
    matchLambda: string -> Option<LambdaMatch>,
    matchFunction: string -> Option<FunctionMatch>,
    stripBody: string -> string
  )

  /** `String(v)` for a value that is not a plain object. */
  function ToJsString(host: Host, h: Heap, v: Value): string
    requires ValueIn(h, v)
    requires v.Ref? ==> h.objects[v.r].callable
  {
    match v
    case Undefined => "undefined"
    case Null => "null"
    case Bool(b) => if b then "true" else "false"
    case Num(n) => host.numberToString(n)
    case BigInt(i) => IntToString(i)
    case Str(s) => s
    case Symbol(s) => "Symbol(" + s.description + ")"
    case Ref(r) => h.objects[r].source
  }
}
