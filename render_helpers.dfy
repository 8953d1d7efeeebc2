/**
 * The small helpers of the HTML renderer: HTML escaping, the `iif`/`iis`
 * conditionals, the accessor test, the labels of an iterable's buckets and
 * the guard that renders nothing for a description without iterables.
 */
module RenderHelpers {
  import opened Wrappers
  import opened JsValues
  import opened Buckets
  import opened Traversal

  // ---------------------------------------------------------------------
  // escapeHTML
  // ---------------------------------------------------------------------

  /** `s.replace(/c/g, rep)` for a single character `c`. */
  function ReplaceAll(s: string, c: char, rep: string): string
  {
    if s == [] then [] else (if s[0] == c then rep else [s[0]]) + ReplaceAll(s[1..], c, rep)
  }

  /** The three replacements in the renderer's order: `&` first, then `<`, then `>`. */
  function Escape(s: string): string
  {
    ReplaceAll(ReplaceAll(ReplaceAll(s, '&', "&amp;"), '<', "&lt;"), '>', "&gt;")
  }

  /** `escapeHTML(str)`: a non-string argument throws a TypeError naming its `typeof`. */
  function EscapeHTML(h: Heap, v: Value): (r: Result<string, Error>)
    requires ValueIn(h, v)
    ensures v.Str? ==> r.Ok? && r.value == EscapeEach(v.s)
    ensures !v.Str? ==> r == Err(TypeError(TypeofName(TypeOf(h, v)) + " is not a string"))
  {
    if !v.Str? then Err(TypeError(TypeofName(TypeOf(h, v)) + " is not a string"))
    else
      EscapeIsEach(v.s);
      Ok(Escape(v.s))
  }

  /** The entity for one character: the reference definition of the escaping. */
  function EscapeChar(c: char): string
  {
    if c == '&' then "&amp;" else if c == '<' then "&lt;" else if c == '>' then "&gt;" else [c]
  }

  /** Each character replaced by its entity, in one pass. */
  function EscapeEach(s: string): string
  {
    if s == [] then [] else EscapeChar(s[0]) + EscapeEach(s[1..])
  }

  /** Reading the entities `&amp;`, `&lt;` and `&gt;` back as characters. */
  function Unescape(s: string): string
    decreases |s|
  {
    if s == [] then []
    else if "&amp;" <= s then "&" + Unescape(s[5..])
    else if "&lt;" <= s then "<" + Unescape(s[4..])
    else if "&gt;" <= s then ">" + Unescape(s[4..])
    else [s[0]] + Unescape(s[1..])
  }

  predicate Special(c: char)
  {
    c == '&' || c == '<' || c == '>'
  }

  lemma {:induction false} ReplaceAppend(a: string, b: string, c: char, rep: string)
    ensures ReplaceAll(a + b, c, rep) == ReplaceAll(a, c, rep) + ReplaceAll(b, c, rep)
    decreases |a|
  {
    if a != [] {
      assert (a + b)[1..] == a[1..] + b;
      ReplaceAppend(a[1..], b, c, rep);
    } else {
      assert a + b == b;
    }
  }

  /** A replacement of a character the string does not contain changes nothing. */
  lemma {:induction false} ReplaceAbsent(s: string, c: char, rep: string)
    requires forall i :: 0 <= i < |s| ==> s[i] != c
    ensures ReplaceAll(s, c, rep) == s
    decreases |s|
  {
    if s != [] {
      ReplaceAbsent(s[1..], c, rep);
    }
  }

  /** The three passes give each character's entity: replacing `&` first never touches an entity made later. */
  lemma {:induction false} EscapeIsEach(s: string)
    ensures Escape(s) == EscapeEach(s)
    decreases |s|
  {
    if s != [] {
      var x, t := s[..1], s[1..];
      assert s == x + t;
      var r1x, r1t := ReplaceAll(x, '&', "&amp;"), ReplaceAll(t, '&', "&amp;");
      ReplaceAppend(x, t, '&', "&amp;");
      var r2x, r2t := ReplaceAll(r1x, '<', "&lt;"), ReplaceAll(r1t, '<', "&lt;");
      ReplaceAppend(r1x, r1t, '<', "&lt;");
      ReplaceAppend(r2x, r2t, '>', "&gt;");
      EscapeIsEach(t);
      CharPasses(s[0]);
    }
  }

  /** The three passes on one character give its entity. */
  lemma CharPasses(c: char)
    ensures ReplaceAll(ReplaceAll(ReplaceAll([c], '&', "&amp;"), '<', "&lt;"), '>', "&gt;") == EscapeChar(c)
  {
    OneChar(c, '&', "&amp;");
    if c == '&' {
      ReplaceAbsent("&amp;", '<', "&lt;");
      ReplaceAbsent("&amp;", '>', "&gt;");
    } else {
      OneChar(c, '<', "&lt;");
      if c == '<' {
        ReplaceAbsent("&lt;", '>', "&gt;");
      } else {
        OneChar(c, '>', "&gt;");
      }
    }
  }

  lemma OneChar(c: char, d: char, rep: string)
    ensures ReplaceAll([c], d, rep) == if c == d then rep else [c]
  {
    assert [c][1..] == [];
    var head := if c == d then rep else [c];
    assert ReplaceAll([c], d, rep) == head + ReplaceAll([], d, rep);
    assert head + [] == head;
  }

  /** Unescaping an escaped string gives the string back. */
  lemma {:induction false} UnescapeEscape(s: string)
    ensures Unescape(EscapeEach(s)) == s
    decreases |s|
  {
    if s != [] {
      var rest := EscapeEach(s[1..]);
      var e := EscapeChar(s[0]) + rest;
      UnescapeEscape(s[1..]);
      if s[0] == '&' {
        assert e[..5] == "&amp;" && e[5..] == rest;
      } else if s[0] == '<' {
        assert e[1] == 'l' && "&amp;"[1] == 'a';
        assert e[..4] == "&lt;" && e[4..] == rest;
      } else if s[0] == '>' {
        assert e[1] == 'g' && "&amp;"[1] == 'a' && "&lt;"[1] == 'l';
        assert e[..4] == "&gt;" && e[4..] == rest;
      } else {
        assert e[0] == s[0] && e[1..] == rest;
        assert !("&amp;" <= e) && !("&lt;" <= e) && !("&gt;" <= e);
      }
      assert s == [s[0]] + s[1..];
    }
  }

  /** The escaped text holds no `<` and no `>`. */
  lemma {:induction false} EscapeNoAngles(s: string)
    ensures forall i :: 0 <= i < |EscapeEach(s)| ==> EscapeEach(s)[i] != '<' && EscapeEach(s)[i] != '>'
    decreases |s|
  {
    if s != [] {
      EscapeNoAngles(s[1..]);
      var e := EscapeChar(s[0]);
      assert forall i :: 0 <= i < |e| ==> e[i] != '<' && e[i] != '>';
      var r := EscapeEach(s);
      assert forall i :: |e| <= i < |r| ==> r[i] == EscapeEach(s[1..])[i - |e|];
    }
  }

  /** Text without `&`, `<` or `>` is returned unchanged. */
  lemma {:induction false} EscapePlain(s: string)
    requires forall i :: 0 <= i < |s| ==> !Special(s[i])
    ensures EscapeEach(s) == s
    decreases |s|
  {
    if s != [] {
      EscapePlain(s[1..]);
    }
  }

  /** Escaping never shortens, and lengthens any text holding `&`, `<` or `>`. */
  lemma {:induction false} EscapeLength(s: string)
    ensures |EscapeEach(s)| >= |s|
    ensures (exists i :: 0 <= i < |s| && Special(s[i])) ==> |EscapeEach(s)| > |s|
    decreases |s|
  {
    if s != [] {
      EscapeLength(s[1..]);
      if exists i :: 0 <= i < |s| && Special(s[i]) {
        var i :| 0 <= i < |s| && Special(s[i]);
        if i > 0 {
          assert Special(s[1..][i - 1]);
        }
      }
    }
  }

  /** Any `&`, `<` or `>` leaves an `&` in the escaped text. */
  lemma {:induction false} EscapeKeepsAmpersand(s: string, i: nat)
    requires i < |s| && Special(s[i])
    ensures exists j :: 0 <= j < |EscapeEach(s)| && EscapeEach(s)[j] == '&'
    decreases |s|
  {
    if i == 0 {
      assert EscapeEach(s)[0] == '&';
    } else {
      EscapeKeepsAmpersand(s[1..], i - 1);
      var j :| 0 <= j < |EscapeEach(s[1..])| && EscapeEach(s[1..])[j] == '&';
      assert EscapeEach(s)[|EscapeChar(s[0])| + j] == '&';
    }
  }

  /** Escaping twice differs from escaping once exactly when the text holds `&`, `<` or `>`. */
  lemma DoubleEscape(s: string)
    ensures EscapeEach(EscapeEach(s)) == EscapeEach(s) <==> forall i :: 0 <= i < |s| ==> !Special(s[i])
  {
    if exists i :: 0 <= i < |s| && Special(s[i]) {
      var i :| 0 <= i < |s| && Special(s[i]);
      EscapeKeepsAmpersand(s, i);
      EscapeLength(EscapeEach(s));
    } else {
      EscapePlain(s);
      EscapePlain(s);
    }
  }

  // ---------------------------------------------------------------------
  // iif, iis
  // ---------------------------------------------------------------------

  /** `isCallable(v) ? v() : v`; calling a function is the `call` oracle's outcome. */
  function Resolve(h: Heap, call: Ref -> Result<Value, Error>, v: Value): Result<Value, Error>
    requires ValueIn(h, v)
  {
    if TypeOf(h, v) == TFunction then call(v.r) else Ok(v)
  }

  /** `iif(test, success, failure)`: the branch `test`'s truthiness picks, called when it is a function. */
  function Iif(h: Heap, call: Ref -> Result<Value, Error>, test: Value, success: Value, failure: Value): (r: Result<Value, Error>)
    requires ValueIn(h, success) && ValueIn(h, failure)
    ensures var chosen := if Truthy(test) then success else failure;
            && (TypeOf(h, chosen) != TFunction ==> r == Ok(chosen))
            && (TypeOf(h, chosen) == TFunction ==> r == call(chosen.r))
  {
    Resolve(h, call, if Truthy(test) then success else failure)
  }

  /** `iis(test, success)`: `iif` with `''` as the failure and `test` itself standing in for a missing success. */
  function Iis(h: Heap, call: Ref -> Result<Value, Error>, test: Value, success: Value): Result<Value, Error>
    requires ValueIn(h, test) && ValueIn(h, success)
  {
    Iif(h, call, test, if success.Undefined? then test else success, Str(""))
  }

  /** A falsy test gives the empty string, never calling anything. */
  lemma IisFalsy(h: Heap, call: Ref -> Result<Value, Error>, test: Value, success: Value)
    requires ValueIn(h, test) && ValueIn(h, success) && !Truthy(test)
    ensures Iis(h, call, test, success) == Ok(Str(""))
  {
  }

  /** A truthy test with no success value gives the test itself (called, when it is a function). */
  lemma IisEcho(h: Heap, call: Ref -> Result<Value, Error>, test: Value)
    requires ValueIn(h, test) && Truthy(test)
    ensures TypeOf(h, test) != TFunction ==> Iis(h, call, test, Undefined) == Ok(test)
    ensures TypeOf(h, test) == TFunction ==> Iis(h, call, test, Undefined) == call(test.r)
  {
  }

  /** A truthy test with a success value gives that value, called when it is a function. */
  lemma IisSuccess(h: Heap, call: Ref -> Result<Value, Error>, test: Value, success: Value)
    requires ValueIn(h, test) && ValueIn(h, success) && Truthy(test) && !success.Undefined?
    ensures Iis(h, call, test, success) == Resolve(h, call, success)
  {
  }

  // ---------------------------------------------------------------------
  // hasAccessor
  // ---------------------------------------------------------------------

  /** `Boolean(prop.getter || prop.setter)`: a parsed signature is an object, so always truthy. */
  predicate HasAccessor(prop: PropertyDescription)
  {
    prop.getter.Some? || prop.setter.Some?
  }

  /** A described property has an accessor exactly when its descriptor has a getter or a setter. */
  lemma HasAccessorDescribed(host: Host, h: Heap, ignore: seq<Value>, history: seq<Ref>, prototypes: seq<Ref>,
                             r: Ref, isCycle: bool, from: string, key: Key, fuel: nat)
    requires Context(h, prototypes) && r in h.objects && fuel >= 1 && key in OwnKeys(h.objects[r])
    requires DescribeProperty(host, h, ignore, history, prototypes, r, isCycle, from, key, fuel).Ok?
    ensures HasAccessor(DescribeProperty(host, h, ignore, history, prototypes, r, isCycle, from, key, fuel).value) <==>
            (h.objects[r].props[key].getter.Some? || h.objects[r].props[key].setter.Some?)
  {
  }

  // ---------------------------------------------------------------------
  // renderBucket, renderIterables
  // ---------------------------------------------------------------------

  /** The range a bucket is labelled with: `lower` to `min(upper, lower + items.length - 1)`. */
  function BucketLabel<T>(b: Bucket<T>): (int, int)
  {
    (b.lower, Min(b.upper, b.lower + |b.items| - 1))
  }

  /** Item `i` of a bucket is labelled `lower + i`. */
  function ItemLabels<T>(b: Bucket<T>): (ls: seq<int>)
    ensures |ls| == |b.items| && forall i :: 0 <= i < |ls| ==> ls[i] == b.lower + i
  {
    seq(|b.items|, (i: int) => b.lower + i)
  }

  /** What `renderIterables` lays out: each bucket's label and item labels, then the truncation marker. */
  datatype IterablesView = IterablesView(labels: seq<(int, int)>, itemLabels: seq<seq<int>>, marker: string)

  /**
   * `renderIterables(iterables)`: nothing for an undefined `iterables`;
   * otherwise the buckets' labels and the `…` marker through `iis` when the
   * values were truncated.
   */
  function RenderIterables<T>(h: Heap, call: Ref -> Result<Value, Error>, iterables: Option<Buckets<T>>): (r: Option<IterablesView>)
    ensures iterables.None? <==> r.None?
    ensures r.Some? ==> |r.value.labels| == |iterables.value.buckets| == |r.value.itemLabels|
  {
    if iterables.None? then None
    else
      var bs := iterables.value.buckets;
      var marker := Iis(h, call, Bool(iterables.value.truncated), Str(TruncatedMarker));
      Some(IterablesView(seq(|bs|, (i: int) requires 0 <= i < |bs| => BucketLabel(bs[i])),
                         seq(|bs|, (i: int) requires 0 <= i < |bs| => ItemLabels(bs[i])),
                         if marker.Ok? && marker.value.Str? then marker.value.s else ""))
  }

  const TruncatedMarker: string := "<div class=\"truncated\">…</div>"

  /** The marker shows exactly when the values were truncated. */
  lemma RenderIterablesMarker<T>(h: Heap, call: Ref -> Result<Value, Error>, bs: Buckets<T>)
    ensures RenderIterables(h, call, Some(bs)).value.marker == if bs.truncated then TruncatedMarker else ""
  {
  }

  /** A group of items that stay below `maxTotal` ends at or before its upper bound. */
  lemma {:induction false} ChunkFits<T>(xs: seq<T>, size: nat, first: int, maxTotal: int, b: nat)
    requires size >= 1 && first + |xs| <= maxTotal && b < |Chunks(xs, size, first, maxTotal)|
    ensures Chunks(xs, size, first, maxTotal)[b].lower + |Chunks(xs, size, first, maxTotal)[b].items| - 1
            <= Chunks(xs, size, first, maxTotal)[b].upper
    decreases b
  {
    if |xs| > size {
      var rest := Chunks(xs[size..], size, first + size, maxTotal);
      assert Chunks(xs, size, first, maxTotal) == [Bucket(first, Min(first + size, maxTotal) - 1, xs[..size])] + rest;
      if b > 0 {
        ChunkFits(xs[size..], size, first + size, maxTotal, b - 1);
      }
    }
  }

  /**
   * Every bucket `groupByBuckets` builds holds at least one item and is
   * labelled from its first item's index to its last item's index; the
   * labels of consecutive buckets start `size` apart.
   */
  lemma BucketLabelsTight<T>(iterable: bool, src: Source<T>, size: real, maxTotal: int)
    requires GroupByBucketsSpec(iterable, src, size, maxTotal).Ok?
    ensures var bs := GroupByBucketsSpec(iterable, src, size, maxTotal).value.buckets;
            forall b :: 0 <= b < |bs| ==>
              && |bs[b].items| >= 1
              && BucketLabel(bs[b]) == (ItemLabels(bs[b])[0], ItemLabels(bs[b])[|bs[b].items| - 1])
              && BucketLabel(bs[b]).0 == b * size.Floor
  {
    var n := Taken(src, maxTotal);
    var xs := Items(src, n);
    var bs := GroupByBucketsSpec(iterable, src, size, maxTotal).value.buckets;
    assert bs == Chunks(xs, size.Floor, 0, maxTotal);
    forall b | 0 <= b < |bs|
      ensures |bs[b].items| >= 1
      ensures BucketLabel(bs[b]) == (ItemLabels(bs[b])[0], ItemLabels(bs[b])[|bs[b].items| - 1])
      ensures BucketLabel(bs[b]).0 == b * size.Floor
    {
      ChunkAt(xs, size.Floor, 0, maxTotal, b);
      ChunkFits(xs, size.Floor, 0, maxTotal, b);
      var ls := ItemLabels(bs[b]);
      assert ls[0] == bs[b].lower && ls[|bs[b].items| - 1] == bs[b].lower + |bs[b].items| - 1;
    }
  }
}
