/**
 * The primitive serializer and the function-signature parser: describe.js
 * `serialize` and `parseFunctionSignature`, and the earlier
 * `serializePrimitive` of src/render.js and object-describe.js.
 */
module Serializer {
  import opened Wrappers
  import opened JsValues
  import opened Classifier

  // ---------------------------------------------------------------------
  // Truncation
  // ---------------------------------------------------------------------

  /** `str.substring(0, n)`: the end is clamped into `[0, |str|]`. */
  function Prefix(s: string, n: int): (p: string)
    ensures |p| == if n < 0 then 0 else if n > |s| then |s| else n
    ensures p == s[..|p|]
  {
    if n < 0 then "" else if n > |s| then s else s[..n]
  }

  /** The inner `truncate`: at most `trunc` characters, then '…' when something was cut. */
  function Truncate(s: string, trunc: int): (r: string)
  {
    Prefix(s, trunc) + (if |s| > trunc then "…" else "")
  }

  lemma TruncateSpec(s: string, trunc: int)
    ensures |s| <= trunc ==> Truncate(s, trunc) == s
    ensures |s| > trunc ==>
              |Truncate(s, trunc)| == (if trunc < 0 then 0 else trunc) + 1
              && Truncate(s, trunc)[|Truncate(s, trunc)| - 1] == '…'
              && Truncate(s, trunc)[..|Truncate(s, trunc)| - 1] == s[..if trunc < 0 then 0 else trunc]
    ensures |Truncate(s, trunc)| <= (if trunc < 0 then 0 else trunc) + 1
  {
    if |s| <= trunc {
      assert Prefix(s, trunc) == s;
    }
  }

  // ---------------------------------------------------------------------
  // Parameter lists
  // ---------------------------------------------------------------------

  /** Drops the spaces that the separator pattern (a comma, then any spaces) swallows after a comma. */
  function SkipSpaces(s: string): (r: string)
    ensures |r| <= |s| && r == s[|s| - |r|..]
    ensures r == [] || r[0] != ' '
  {
    if s != [] && s[0] == ' ' then SkipSpaces(s[1..]) else s
  }

  /** Splitting on a comma and the spaces after it: the pieces between commas. */
  function SplitParams(s: string): (parts: seq<string>)
    ensures |parts| >= 1
    decreases |s|
  {
    if s == [] then [""]
    else if s[0] == ',' then [""] + SplitParams(SkipSpaces(s[1..]))
    else
      var rest := SplitParams(s[1..]);
      [[s[0]] + rest[0]] + rest[1..]
  }

  /** `parseParams`: an empty parameter list gives no parameters rather than one empty one. */
  function ParseParams(s: string): seq<string>
  {
    var parts := SplitParams(s);
    if |parts| == 1 && parts[0] == "" then [] else parts
  }

  function CommaCount(s: string): nat
  {
    if s == [] then 0 else (if s[0] == ',' then 1 else 0) + CommaCount(s[1..])
  }

  /** No comma of `s` is directly followed by a space. */
  predicate NoSpaceAfterComma(s: string)
  {
    forall i :: 0 <= i < |s| - 1 && s[i] == ',' ==> s[i + 1] != ' '
  }

  /** The pieces joined back with ','. */
  function JoinWithCommas(parts: seq<string>): string
  {
    if parts == [] then "" else if |parts| == 1 then parts[0] else parts[0] + "," + JoinWithCommas(parts[1..])
  }

  lemma {:induction false} SkipSpacesNoop(s: string)
    requires s == [] || s[0] != ' '
    ensures SkipSpaces(s) == s
  {
  }

  /** No piece contains a comma, and there is one piece more than the input has commas. */
  lemma {:induction false} SplitParamsPieces(s: string)
    ensures |SplitParams(s)| == CommaCount(s) + 1
    ensures forall i :: 0 <= i < |SplitParams(s)| ==> ',' !in SplitParams(s)[i]
    decreases |s|
  {
    if s == [] {
    } else if s[0] == ',' {
      var t := SkipSpaces(s[1..]);
      SplitParamsPieces(t);
      SkipSpacesCommas(s[1..]);
    } else {
      SplitParamsPieces(s[1..]);
      var rest := SplitParams(s[1..]);
      assert ',' !in rest[0];
      assert ',' !in [s[0]] + rest[0];
    }
  }

  lemma {:induction false} SkipSpacesCommas(s: string)
    ensures CommaCount(SkipSpaces(s)) == CommaCount(s)
  {
    if s != [] && s[0] == ' ' {
      SkipSpacesCommas(s[1..]);
    }
  }

  /** Without spaces after commas, splitting loses nothing: joining the pieces gives the input back. */
  lemma {:induction false} SplitParamsJoin(s: string)
    requires NoSpaceAfterComma(s)
    ensures JoinWithCommas(SplitParams(s)) == s
    decreases |s|
  {
    if s == [] {
    } else if s[0] == ',' {
      assert s[1..] == [] || s[1..][0] != ' ';
      SkipSpacesNoop(s[1..]);
      assert NoSpaceAfterComma(s[1..]) by {
        forall i | 0 <= i < |s[1..]| - 1 && s[1..][i] == ',' ensures s[1..][i + 1] != ' ' {
          assert s[i + 1] == ',';
        }
      }
      SplitParamsJoin(s[1..]);
      var rest := SplitParams(s[1..]);
      assert SplitParams(s) == [""] + rest;
      assert ([""] + rest)[1..] == rest;
      assert s == "" + "," + s[1..];
    } else {
      assert NoSpaceAfterComma(s[1..]) by {
        forall i | 0 <= i < |s[1..]| - 1 && s[1..][i] == ',' ensures s[1..][i + 1] != ' ' {
          assert s[i + 1] == ',';
        }
      }
      SplitParamsJoin(s[1..]);
      var rest := SplitParams(s[1..]);
      var parts := [[s[0]] + rest[0]] + rest[1..];
      assert SplitParams(s) == parts;
      if |rest| == 1 {
        assert JoinWithCommas(parts) == [s[0]] + rest[0];
      } else {
        assert parts[1..] == rest[1..];
        assert JoinWithCommas(rest) == rest[0] + "," + JoinWithCommas(rest[1..]);
        assert JoinWithCommas(parts) == ([s[0]] + rest[0]) + "," + JoinWithCommas(rest[1..]);
      }
    }
  }

  /** `parseParams` is empty exactly for the empty list; otherwise it has one parameter per comma plus one. */
  lemma ParseParamsCount(s: string)
    ensures ParseParams(s) == [] <==> s == ""
    ensures s != "" ==> |ParseParams(s)| == CommaCount(s) + 1
  {
    SplitParamsPieces(s);
    if s != "" && |SplitParams(s)| == 1 {
      SplitParamsNoComma(s);
    }
  }

  lemma {:induction false} SplitParamsNoComma(s: string)
    requires CommaCount(s) == 0
    ensures SplitParams(s) == [s]
    decreases |s|
  {
    if s != [] {
      assert s[0] != ',';
      SplitParamsNoComma(s[1..]);
      assert [s[0]] + s[1..] == s;
    }
  }

  // ---------------------------------------------------------------------
  // Function signatures
  // ---------------------------------------------------------------------

  /** A parsed signature; its `toString()` gives back `source`. */
  datatype ParsedSignature =
    | LambdaSignature(parameters: seq<string>, body: string, source: string)
    | FunctionSignature(name: string, parameters: seq<string>, body: string, isNative: bool, isGenerator: bool, source: string)

  /** `s.includes(t)`. */
  predicate Contains(s: string, t: string)
  {
    t <= s || (s != [] && Contains(s[1..], t))
  }

  /**
   * `parseFunctionSignature`: undefined gives undefined, a non-function is a
   * TypeError; the arrow shape is tried first, then the function shape; a
   * source matching neither is an Error.
   */
  function ParseFunctionSignature(host: Host, h: Heap, f: Value): (r: Result<Option<ParsedSignature>, Error>)
    requires ValueIn(h, f)
    ensures f.Undefined? <==> r == Ok(None)
    ensures !f.Undefined? && TypeOf(h, f) != TFunction ==> r.Err? && r.error.TypeError?
    ensures TypeOf(h, f) == TFunction ==>
              var src := h.objects[f.r].source;
              && (host.matchLambda(src).Some? ==> r.Ok? && r.value.Some? && r.value.value.LambdaSignature?)
              && (host.matchLambda(src).None? && host.matchFunction(src).Some? ==> r.Ok? && r.value.Some? && r.value.value.FunctionSignature?)
              && (r.Err? <==> host.matchLambda(src).None? && host.matchFunction(src).None?)
              && (r.Ok? ==> r.value.Some? && r.value.value.source == src)
  {
    if f.Undefined? then Ok(None)
    else if TypeOf(h, f) != TFunction then Err(TypeError(TypeofName(TypeOf(h, f)) + " is not a function"))
    else
      var src := h.objects[f.r].source;
      match host.matchLambda(src)
      case Some(m) =>
        var params := if m.parenParams.Some? && m.parenParams.value != "" then m.parenParams.value
                       else if m.bareParam.Some? then m.bareParam.value else "";
        Ok(Some(LambdaSignature(ParseParams(params), host.stripBody(m.body), src)))
      case None =>
        match host.matchFunction(src)
        case Some(m) =>
          var body := host.stripBody(m.body);
          Ok(Some(FunctionSignature(m.name, ParseParams(m.params), body,
                                    Contains(body, "[native code]"),
                                    m.keyword == Some("*") || m.keyword == Some("function*"), src)))
        case None => Err(ThrownError("Unable to parse " + src))
  }

  // ---------------------------------------------------------------------
  // describe.js serialize
  // ---------------------------------------------------------------------

  /** A serialization: text, or for a function the parsed signature object. */
  datatype Serialized = Text(text: string) | Signature(signature: ParsedSignature)

  /** Double-quoted and truncated, as the serializers render strings. */
  function Quoted(s: string, trunc: int): string
  {
    "\"" + Truncate(s, trunc) + "\""
  }

  /**
   * `serialize`: a string is quoted and truncated; numbers and Dates go
   * through the host's locale formatting; a function becomes its parsed
   * signature; an object with its own non-default `toString` uses that
   * (truncated, or the thrown error's stack), any other object gives ''.
   */
  function Serialize(host: Host, h: Heap, v: Value, trunc: int := 100): (r: Result<Serialized, Error>)
    requires ValueIn(h, v)
    ensures v.Str? ==> r == Ok(Text(Quoted(v.s, trunc)))
    ensures v.Null? ==> r == Ok(Text("null"))
    ensures v.Undefined? ==> r == Ok(Text("undefined"))
    ensures v == Num(NaN) ==> r == Ok(Text("NaN"))
    ensures r.Err? <==> v.BigInt? || (TypeOf(h, v) == TFunction && ParseFunctionSignature(host, h, v).Err?)
    ensures r.Ok? && r.value.Signature? <==> TypeOf(h, v) == TFunction && ParseFunctionSignature(host, h, v).Ok?
  {
    match v
    case Null => Ok(Text("null"))
    case Undefined => Ok(Text("undefined"))
    case Str(s) => Ok(Text(Quoted(s, trunc)))
    case Num(n) => if n == NaN then Ok(Text("NaN")) else Ok(Text(host.numberToLocale(n)))
    case Bool(_) => Ok(Text(ToJsString(host, h, v)))
    case Symbol(_) => Ok(Text(ToJsString(host, h, v)))
    case BigInt(_) => Err(TypeError("bigint"))
    case Ref(r) =>
      var o := h.objects[r];
      if o.callable then
        var sig :- ParseFunctionSignature(host, h, v);
        Ok(Signature(sig.value))
      else if o.instanceOfDate then Ok(Text(host.dateToLocale(r)))
      else
        match o.toStringMethod
        case NotCallable => Ok(Text(""))
        case ObjectDefault => Ok(Text(""))
        case ArrayDefault => Ok(Text(""))
        case Custom(ReturnsText(t)) => Ok(Text(Truncate(t, trunc)))
        case Custom(ThrowsWithStack(stack)) => Ok(Text(stack))
  }

  /** A serialized string is the string in double quotes, untouched when short, cut to `trunc` characters and '…' when long. */
  lemma SerializeString(host: Host, h: Heap, s: string, trunc: nat)
    ensures var q := Serialize(host, h, Str(s), trunc);
            && q.Ok? && q.value.Text?
            && var t := q.value.text;
               && |t| >= 2 && t[0] == '"' && t[|t| - 1] == '"'
               && (|s| <= trunc ==> t[1..|t| - 1] == s)
               && (|s| > trunc ==> t[1..|t| - 1] == s[..trunc] + "…")
  {
    TruncateSpec(s, trunc);
    var t := Quoted(s, trunc);
    assert t[1..|t| - 1] == Truncate(s, trunc);
  }

  // ---------------------------------------------------------------------
  // src/render.js and object-describe.js serializePrimitive
  // ---------------------------------------------------------------------

  /** `trunc || 50`: `trunc` is an integer here; 0 stands for every falsy argument (undefined, 0, NaN). */
  function TruncLimit(trunc: int): (t: int)
    ensures t != 0
    ensures trunc != 0 ==> t == trunc
    ensures trunc == 0 ==> t == 50
  {
    if trunc == 0 then 50 else trunc
  }

  /**
   * src/render.js `serializePrimitive`. The boolean/function/symbol branch
   * reads the unbound identifier `boolean` and so throws a ReferenceError;
   * a bigint falls out of the switch (None).
   */
  function SerializePrimitive(host: Host, h: Heap, v: Value, trunc: int := 0): (r: Result<Option<string>, Error>)
    requires ValueIn(h, v)
    ensures v.Str? ==> r == Ok(Some(Quoted(v.s, TruncLimit(trunc))))
    ensures r.Err? && r.error.ReferenceError? <==> v.Bool? || v.Symbol? || TypeOf(h, v) == TFunction
    ensures r.Err? && r.error.TypeError? <==> v.Ref? && TypeOf(h, v) == TObject && !h.objects[v.r].instanceOfDate
    ensures r == Ok(None) <==> v.BigInt?
    ensures v.Null? ==> r == Ok(Some("null"))
    ensures v.Undefined? ==> r == Ok(Some("undefined"))
    ensures v.Num? ==> r == Ok(Some(if v.n == NaN then "NaN" else host.numberToString(v.n)))
    ensures v.Ref? && !h.objects[v.r].callable && h.objects[v.r].instanceOfDate ==> r == Ok(Some(host.dateToString(v.r)))
  {
    var t := TruncLimit(trunc);
    match v
    case Null => Ok(Some("null"))
    case Undefined => Ok(Some("undefined"))
    case Str(s) => Ok(Some(Quoted(s, t)))
    case Num(n) => if n == NaN then Ok(Some("NaN")) else Ok(Some(host.numberToString(n)))
    case Bool(_) => Err(ReferenceError("boolean is not defined"))
    case Symbol(_) => Err(ReferenceError("boolean is not defined"))
    case BigInt(_) => Ok(None)
    case Ref(r) =>
      if h.objects[r].callable then Err(ReferenceError("boolean is not defined"))
      else if h.objects[r].instanceOfDate then Ok(Some(host.dateToString(r)))
      else Err(TypeError("Can’t format objects"))
  }

  /** object-describe.js `serializePrimitive`: its 'date' case never matches, so every non-function object throws. */
  function OriginalSerializePrimitive(host: Host, h: Heap, v: Value, trunc: int := 0): (r: Result<Option<string>, Error>)
    requires ValueIn(h, v)
    ensures v.Str? ==> r == Ok(Some(Quoted(v.s, TruncLimit(trunc))))
    ensures r.Err? && r.error.TypeError? <==> v.Ref? && TypeOf(h, v) == TObject
    ensures r.Err? && r.error.ReferenceError? <==> v.Bool? || v.Symbol? || TypeOf(h, v) == TFunction
    ensures r == Ok(None) <==> v.BigInt?
    ensures v.Null? ==> r == Ok(Some("null"))
    ensures v.Undefined? ==> r == Ok(Some("undefined"))
    ensures v.Num? ==> r == Ok(Some(if v.n == NaN then "NaN" else host.numberToString(v.n)))
  {
    var t := TruncLimit(trunc);
    match v
    case Null => Ok(Some("null"))
    case Undefined => Ok(Some("undefined"))
    case Str(s) => Ok(Some(Quoted(s, t)))
    case Num(n) => if n == NaN then Ok(Some("NaN")) else Ok(Some(host.numberToString(n)))
    case Bool(_) => Err(ReferenceError("boolean is not defined"))
    case Symbol(_) => Err(ReferenceError("boolean is not defined"))
    case BigInt(_) => Ok(None)
    case Ref(r) =>
      if h.objects[r].callable then Err(ReferenceError("boolean is not defined"))
      else Err(TypeError("Can’t format objects"))
  }

  /** The two earlier serializers differ only on Dates. */
  lemma SerializePrimitiveRevisions(host: Host, h: Heap, v: Value, trunc: int)
    requires ValueIn(h, v)
    ensures !(v.Ref? && h.objects[v.r].instanceOfDate && !h.objects[v.r].callable) ==>
              SerializePrimitive(host, h, v, trunc) == OriginalSerializePrimitive(host, h, v, trunc)
    ensures v.Ref? && h.objects[v.r].instanceOfDate && !h.objects[v.r].callable ==>
              SerializePrimitive(host, h, v, trunc).Ok? && OriginalSerializePrimitive(host, h, v, trunc).Err?
  {
  }
}
