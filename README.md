# object-describe in Dafny

object-describe is a JavaScript object inspector. `describe(obj)` returns a
report on any value:

- its kind (`instanceType`);
- a short serialization;
- its own properties and symbols with their descriptors;
- the kinds of the prototypes that override each property;
- the first items of an iterable, grouped into index-labelled buckets;
- the same report for its prototype, recursively.

A repeated object is cut short by a circular-reference marker. The HTML
renderer turns the report into markup. The test suite compares sets of
results with a comparator.

This project models the logic of three revisions of that engine:

- **the bundled engine** (`marklogic-describe/public/js/describe.js`). It
  provides the classifier (`instanceType`, `toStringTagImmediate`,
  `isPrimitiveOrNull`, `isIterable`, `isIterator`), `serialize`,
  `parseFunctionSignature`, `getPropertyValue`, `groupByBuckets` and the
  traversal (`describe`, `overriddenBy`, `expandIterables`, `describe$1`);
- **the library revision** (`src/util.js`, `src/render.js`,
  `src/describe.js`). It has an older classifier, `serializePrimitive`, and
  a flat walk up the prototype chain that marks overridden entries in place;
- **the first single-file version** (`object-describe.js`). It repeats the
  library revision with small differences in the classifier and the
  serializer. The model shares one chain walk between the two revisions,
  parameterised by the revision.

The model also covers the renderer's helpers (`escapeHTML`, `iif`, `iis`,
`hasAccessor`, the bucket labels, and the undefined guard of
`renderIterables`) and the test helpers (`equalSets`, `cloneWithout`,
`select`).

JavaScript values live in an abstract heap (`JsValues`). Each object records:

- its own string names, then its own symbols, each with a descriptor and
  what reading it does (a value, or a thrown error);
- its prototype;
- its constructor and the constructor's name;
- its built-in `[object X]` tag;
- its array and Date brands;
- whether it is callable, and its function source text;
- what `for ... of` over it visits: an item stream, a length, and an
  optional failing `next()` call.

Primitives box to a wrapper prototype per `typeof`. The host facilities
that the engine calls but this model does not interpret are parameters of
the `Host` datatype: locale formatting, `String(number)`, and the
regular-expression match of function source.

The JavaScript call stack is a `fuel` budget. When it runs out, the next
call fails with the RangeError that the engine would raise. Like every
other error, that RangeError propagates, except inside `expandIterables`,
whose `try` turns any error into `undefined`. The model therefore never
claims that the traversal terminates without a budget, and it shows two
ways the code as written recurses without bound:

- iterable items are described without the cycle guard. An object whose
  only item is itself gets, as that item, its own description one level
  deeper, which expands the same object again and never shows a circular
  reference (`Traversal.SelfIterableRecurses`). Only the exhausted budget
  ends this: the deepest level fails, and the `try` of `expandIterables`
  turns that failure into `undefined`;
- the older walk has no cycle guard at all (`ChainWalk.SelfReferenceOverflows`).

Modules, one file each:

| module | file | models |
|---|---|---|
| `Wrappers` | wrappers.dfy | Option/Result and the first-error `Collect` |
| `JsValues` | js_values.dfy | values, `typeof`, errors, the heap, the iteration protocol |
| `Classifier` | classifier.dfy | the classifier and predicates of the three revisions |
| `Serializer` | serializer.dfy | `serialize`, `parseFunctionSignature`/`parseParams`, `serializePrimitive` |
| `Buckets` | buckets.dfy | `groupByBuckets` (a loop method proved against a specification) |
| `Traversal` | traversal.dfy | the bundled `describe` (specification functions plus the step-by-step methods) |
| `ChainWalk` | chain_walk.dfy | the older `describe` as specification functions, and its properties |
| `ChainWalkSteps` | chain_walk_steps.dfy | the older `describe` as loops that push and mark entries in place |
| `RenderHelpers` | render_helpers.dfy | `escapeHTML`, `iif`/`iis`, `hasAccessor`, bucket labels, `renderIterables` |
| `TestUtil` | test_util.dfy | `equalSets`, `cloneWithout` (on a `JsSet` class), `select` |

## Model

| member | source | states |
|---|---|---|
| Classifier.OwnTag | marklogic-describe/public/js/describe.js:75-79 | There is an own tag exactly when the own symbols include `Symbol.toStringTag`, and the tag is the string that reading that key gives. |
| Classifier.ToStringTagImmediate | marklogic-describe/public/js/describe.js:74-81 | It throws exactly when the object has a truthy own tag and a null prototype. It gives a tag exactly when the own tag is truthy and the prototype has its own tag, and that tag is the prototype's, not the object's. |
| Classifier.ObjectKind | marklogic-describe/public/js/describe.js:57-61 | A truthy constructor with a non-empty name gives that name. Otherwise the kind is the non-empty `[object X]` tag, and an empty tag fails. A kind is never empty. |
| Classifier.InstanceType | marklogic-describe/public/js/describe.js:37-62 | It gives the `typeof` name for undefined, numbers, strings, booleans and symbols, and 'null' for null. A bigint gets the constructor or structural kind of its wrapper. Functions and objects get the immediate tag first, then the constructor or structural kind. |
| Classifier.IsIteratorOnlyForTheString | marklogic-describe/public/js/describe.js:142-154 | No value with a callable `next` (the duck-typed iterator the doc comment describes) is ever flagged as an iterator. A flagged value's `next` is a string. |
| Classifier.LegacyKind | src/util.js:11-28 | The older kind of non-null values: the `typeof` name for the six primitive `typeof`s, functions included. Anything else gets the constructor or structural kind, and no tag is consulted. |
| Classifier.UtilInstanceType | src/util.js:10-29 | null is 'Object'; every other value gets the older kind. |
| Classifier.OriginalInstanceType | object-describe.js:10-27 | null is 'null'; every other value gets the older kind. |
| Classifier.InstanceTypeRevisionsAgree | marklogic-describe/public/js/describe.js:37-62 | The three revisions classify every value alike except null, functions, and objects with a truthy own tag. |
| Classifier.UtilIsPrimitiveOrNull | src/util.js:37-51 | True for null and for every non-object `typeof`, functions included. False exactly for non-null objects. A TypeError exactly for the unlisted `typeof` (bigint). |
| Classifier.OriginalIsPrimitiveOrNull | object-describe.js:35-48 | Undefined (None) exactly for bigint. Otherwise it agrees with src/util.js, because the 'date' case never matches. |
| Classifier.PrimitiveRevisionsDiffer | marklogic-describe/public/js/describe.js:93-107 | Only the bundled engine calls a Date primitive. Apart from Dates and bigints, the bundled and library revisions agree. |
| Classifier.ArrayLikeRevisions | src/util.js:69-73 | The first version's `isArrayLike` implies the library's. They differ exactly on arrays whose `length` is not a number, and both hold for strings. |
| Classifier.OriginalIsIterable | object-describe.js:129-131 | It throws exactly for null and undefined. Otherwise it is whether `Symbol.iterator` is a function, which is `isIterable` with strings included. |
| Classifier.WithoutDigitNames | src/util.js:106 | It keeps the names with no digit anywhere, in order, and keeps every name when none has a digit. |
| Classifier.UtilNonArrayLikeOwnPropertyNames | src/util.js:101-109 | `[]` for null and undefined. Otherwise an order-preserving subsequence of the own names: exactly the digit-free ones for array-likes, all of them for anything else. |
| Classifier.OriginalNonArrayLikeOwnPropertyNames | object-describe.js:78-86 | The same as the library's, with the first version's `isArrayLike`. |
| Classifier.StringOwnNamesFiltered | src/util.js:104-106 | For a string, only `length` survives the digit filter. |
| Serializer.Prefix | marklogic-describe/public/js/describe.js:173 | `substring(0, n)` is the prefix of length `n` clamped into `[0, length]`. |
| Serializer.TruncateSpec | marklogic-describe/public/js/describe.js:170-174 | A string no longer than `trunc` is unchanged. A longer one becomes its first `trunc` characters followed by '…'. The result is at most `trunc + 1` long. |
| Serializer.SplitParams | marklogic-describe/public/js/describe.js:265 | Splitting on a comma and the spaces after it always gives at least one piece. |
| Serializer.SplitParamsPieces | marklogic-describe/public/js/describe.js:265 | There is one piece more than there are commas, and no piece holds a comma. |
| Serializer.SplitParamsJoin | marklogic-describe/public/js/describe.js:265 | When no comma is followed by a space, joining the pieces with ',' gives the list back. |
| Serializer.ParseParamsCount | marklogic-describe/public/js/describe.js:264-268 | `parseParams` is empty exactly for the empty list. Otherwise it has one entry per comma plus one. |
| Serializer.ParseFunctionSignature | marklogic-describe/public/js/describe.js:254-299 | undefined gives undefined. A non-function is a TypeError. For a function, the lambda shape is tried first, then the function shape, and a source matching neither is an Error. |
| Serializer.Serialize | marklogic-describe/public/js/describe.js:168-216 | Strings are quoted and truncated; null, undefined and NaN have fixed texts. It fails exactly for bigint or a function whose signature cannot be parsed, and it gives a parsed signature exactly for functions that parse. |
| Serializer.SerializeString | marklogic-describe/public/js/describe.js:170-180 | A serialized string is the text in double quotes: unchanged when short, else cut to `trunc` characters followed by '…'. |
| Serializer.TruncLimit | src/render.js:17 | The limit is never falsy. A falsy `trunc` becomes 50, and any other `trunc` is kept. |
| Serializer.SerializePrimitive | src/render.js:16-43 | null gives 'null' and undefined gives 'undefined'. NaN gives 'NaN', and any other number `String(n)`. Strings are quoted and cut at the limit. A non-callable Date gives `String(date)`. Booleans, functions and symbols, and nothing else, throw the ReferenceError of the unbound `boolean`. Non-Date objects, and nothing else, throw a TypeError. A bigint, and nothing else, falls out of the switch. |
| Serializer.OriginalSerializePrimitive | object-describe.js:96-121 | It throws a TypeError for every non-function object, Dates included, and for nothing else. null, undefined, numbers and strings are serialized as in the library revision. Booleans, functions and symbols throw the ReferenceError. A bigint falls out of the switch. |
| Serializer.SerializePrimitiveRevisions | src/render.js:36-41 | The two earlier serializers agree on everything but Dates. On a Date, the library's gives `String(date)` and the first version's throws. |
| Buckets.GroupByBuckets | marklogic-describe/public/js/describe.js:360-386 | The loop returns or throws exactly what `GroupByBucketsSpec` defines: the TypeErrors for a non-iterable or `floor(size) < 1`, a `next()` that throws at an index no later than `min(n, maxTotal)` (where `n` is the number of items), or the chunked first items and the truncation flag. |
| Buckets.GroupByBucketsResult | marklogic-describe/public/js/describe.js:366-384 | On success, `truncated` holds exactly when the iterable has more than `maxTotal` items, and the buckets concatenate to exactly its first `min(n, maxTotal)` items in order. |
| Buckets.ChunksBounds | marklogic-describe/public/js/describe.js:373-381 | Bucket `b` has bounds `[b*size, min((b+1)*size, maxTotal) - 1]`, holds between 1 and `size` items, and holds exactly `size` items unless it is the last. |
| Buckets.ChunksFlatten | marklogic-describe/public/js/describe.js:367-384 | Concatenating the buckets' items gives the grouped items back: nothing is lost, duplicated or reordered. |
| Buckets.ChunksSnoc | marklogic-describe/public/js/describe.js:373-381 | Grouping one more item joins the last bucket when it has room, and otherwise opens the next. |
| Buckets.ChunksMembers | marklogic-describe/public/js/describe.js:375-380 | Every item in a bucket is an item of the input. |
| Buckets.AddItem | marklogic-describe/public/js/describe.js:373-381 | Placing item `i` into bucket `floor(i / size)` keeps the grouping invariant, whether that bucket exists or is opened. |
| Buckets.Place | marklogic-describe/public/js/describe.js:374-381 | An existing bucket gets the item appended. A missing one is opened with the item at lower bound `b*size`. |
| Buckets.Pulled | marklogic-describe/public/js/describe.js:373-383 | One placed item below `maxTotal` advances the loop's invariant by one. |
| Buckets.ExitThrows | marklogic-describe/public/js/describe.js:368 | A `next()` call that throws makes `groupByBuckets` throw that error. |
| Buckets.ExitDone | marklogic-describe/public/js/describe.js:368 | An iterator that is done gives the buckets so far, not truncated. |
| Buckets.ExitTruncated | marklogic-describe/public/js/describe.js:369-372 | An item at index `maxTotal` or beyond gives the buckets so far, marked truncated. |
| Traversal.Owners | marklogic-describe/public/js/describe.js:520-522 | The owners are exactly the prototypes that own a string property of the name, in chain order. |
| Traversal.Kinds | marklogic-describe/public/js/describe.js:524 | `map(instanceType)` succeeds exactly when every kind does, and then gives each prototype's kind at its position. |
| Traversal.OverriddenBy | marklogic-describe/public/js/describe.js:518-525 | undefined exactly when no prototype owns the name, an empty list included. Otherwise the owners' kinds in chain order, failing exactly when a kind fails. |
| Traversal.GetPropertyValue | marklogic-describe/public/js/describe.js:335-346 | A read that throws a TypeError gives the restricted-property marker. Any other thrown error propagates. A read that returns gives exactly the value it returned. |
| Traversal.PropertyKeys | marklogic-describe/public/js/describe.js:469-476 | Own names, then own symbols. On an array, every name containing a digit is dropped and a symbol makes the pattern test throw. Every visited key is an own key. |
| Traversal.DescribeSpec | marklogic-describe/public/js/describe.js:421-507 | With no stack left, `describe` overflows. An object report is only ever produced for an object. |
| Traversal.DescribeRef | marklogic-describe/public/js/describe.js:454-506 | A successful object branch keeps the kind and summary computed before it. |
| Traversal.DescribePrototype | marklogic-describe/public/js/describe.js:502-505 | A prototype description is present exactly when the prototype is not null and not ignored. It is then the description of the prototype with the object appended to the chain (`[...prototypes, obj]`). The step fails exactly when that description fails. |
| Traversal.DescribeProperty | marklogic-describe/public/js/describe.js:478-497 | The entry is named `String(key)`, and its `from` is the kind it is attributed to. It has a getter or setter exactly when the descriptor does. Its `overriddenBy` is `overriddenBy(name, prototypes)`. Its value follows the read as `PropertyValueOf` states. |
| Traversal.PropertyValueOf | marklogic-describe/public/js/describe.js:484-496 | A restricted read gives the restricted marker. A primitive value is serialized, failing exactly when `serialize` does. For an object value: under a repeat container it is exactly a circular reference to that value; otherwise it is exactly the value's description with the same history and an empty chain, failing when that fails. |
| Traversal.ExpandIterables | marklogic-describe/public/js/describe.js:537-574 | Buckets are returned only when the object is iterable and nothing after the first entry of `prototypes` is iterable. |
| Traversal.IterablesExpanded | marklogic-describe/public/js/describe.js:537-574 | The iterables are present exactly when the object should be iterated, `groupByBuckets` succeeds, and every item's description succeeds. Any failure gives `undefined`. When present, they keep the grouping's buckets, bounds and `truncated` flag, and each item is replaced by its description. |
| Traversal.DescribeBucket | marklogic-describe/public/js/describe.js:550-553 | A described bucket keeps its bounds and has one description per item. It succeeds exactly when every item's description succeeds, and each entry is that item's description. |
| Traversal.DescribeEntry | marklogic-describe/public/js/describe.js:611-615 | `describe$1` starts from an empty history and an empty prototype chain. |
| Traversal.DescribePrimitive | marklogic-describe/public/js/describe.js:438-442 | A pragmatic primitive is described by its kind and serialization alone, flagged primitive. The history, chain, ignore list and remaining budget do not affect it. |
| Traversal.DescribeObject | marklogic-describe/public/js/describe.js:444-506 | A described non-primitive is an object report whose parts are: the kind, the summary, and the iterable and iterator flags; the properties described with `history + [obj]` and `isCycle` equal to `obj in history`; the iterables; and the prototype. |
| Traversal.PropertiesInKeyOrder | marklogic-describe/public/js/describe.js:472-498 | One property per visited key, in key order, each named after its key and attributed to the object. Values are never described under a repeat and never circular otherwise. |
| Traversal.PropertyFailurePropagates | marklogic-describe/public/js/describe.js:473-498 | The first property that fails makes the whole loop fail with its error. |
| Traversal.SelfIsCircularOneLevelDown | marklogic-describe/public/js/describe.js:454-496 | An object not yet seen whose property `j` holds the object itself is described at `j` by a nested description. In that nested description, property `j` is a circular reference to the object. |
| Traversal.OverrideDetected | marklogic-describe/public/js/describe.js:478-525 | When an object owns a name that its non-ignored prototype also owns, the prototype's description lists the object's kind in that property's `overriddenBy`. |
| Traversal.SelfIterableRecurses | marklogic-describe/public/js/describe.js:499-553 | An iterable whose only item is itself gets one bucket `[0, 9]` holding its own description, made without a circular marker. That description expands the same object again, with the object added to the history. When the deeper description fails, the iterables are `undefined`. |
| Traversal.IterablesShape | marklogic-describe/public/js/describe.js:546-555 | Expanded iterables keep the grouping of `groupByBuckets(obj)` with its defaults: the same number of buckets, the same bounds and item counts, and the same `truncated` flag. |
| Traversal.Describe | marklogic-describe/public/js/describe.js:421-507 | As the engine runs it, `describe` computes exactly `DescribeSpec`. |
| Traversal.DescribeObjectStep | marklogic-describe/public/js/describe.js:454-506 | The object branch computes exactly `DescribeRef`. |
| Traversal.DescribePropertiesStep | marklogic-describe/public/js/describe.js:472-498 | The push loop builds exactly the property list of `DescribeProperties`. |
| Traversal.DescribePrototypeStep | marklogic-describe/public/js/describe.js:502-505 | The prototype step computes exactly `DescribePrototype`. |
| Traversal.DescribePropertyStep | marklogic-describe/public/js/describe.js:478-497 | One loop pass computes exactly `DescribeProperty`. |
| Traversal.PropertyValueStep | marklogic-describe/public/js/describe.js:484-496 | The value step computes exactly `PropertyValueOf`. |
| ChainWalk.Primitive | src/describe.js:164 | A fails-or-truthy `isPrimitiveOrNull`: it throws only in the library revision and only for bigint. A truthy answer never comes from a non-callable object. |
| ChainWalk.IterableLimit | src/describe.js:131-141 | `true` and +Infinity are unlimited. A non-number throws a TypeError, and so does a finite non-integer. A finite integer admits exactly the indices below it. |
| ChainWalk.LevelSlots | src/describe.js:155-162 | A level's properties are its own names, then its own symbols, one per own key. A string has one per index and one for `length`. |
| ChainWalk.ProtoOf | src/describe.js:190 | The prototype, when there is one, lies strictly closer to the end of the chain. A primitive always has one. |
| ChainWalk.MarkOne | src/describe.js:181-188 | The pushed entry is overridden exactly when an earlier entry has its string name. When exactly one has, that one's `overrideOf` becomes the new entry's `from`, and no other earlier entry changes. |
| ChainWalk.MarkAllSpec | object-describe.js:305-312 | Pushing the entries in order leaves every field but the two marks alone, flags exactly the entries that an earlier one is named like, and records in each entry the `from` of the one later entry that found it as its only namesake. |
| ChainWalk.ItemsOf | src/describe.js:143 | `for ... of` visits a string's characters one by one, and otherwise the object's (or wrapper's) items. |
| ChainWalk.Head | src/describe.js:121-126 | The report's `instanceOf` is the kind. `value` is the serialization exactly when `isPrimitiveOrNull` is truthy. |
| ChainWalk.EntryOf | src/describe.js:161-177 | The entry keeps the key and shown value and is not yet marked. `from` is the level's kind exactly for levels above the start. It fails exactly when a needed kind fails. |
| ChainWalk.RawEntrySteps | src/describe.js:160-168 | A property whose read throws ends the walk with that error. One that reads is shown, then built into its entry. |
| ChainWalk.ShowValueFacts | src/describe.js:164-168 | A primitive value is shown as `String(value)`. Anything else is described one call deeper with no expansion. |
| ChainWalk.LevelEntriesKeys | src/describe.js:155-189 | A level's entries follow its own keys in order, unmarked. They name the level in `from` exactly when it lies above the start. |
| ChainWalk.ChainEntriesKeys | src/describe.js:153-190 | The walk's entries follow the keys of each level from the start up to the end of the chain, level by level. |
| ChainWalk.AboveTopFacts | src/describe.js:172 | Levels strictly up the chain are above the start. The start itself is not, unless it is NaN (NaN `!==` NaN). |
| ChainWalk.ChainFrom | src/describe.js:172-174 | The start's own entries carry no `from`, and every entry found on a prototype does. |
| ChainWalk.IterStep | src/describe.js:143-150 | Each `next()` call either throws, ends the loop (done, or truncated past the limit), or describes the item and goes on. |
| ChainWalk.IterValuesPulls | src/describe.js:142-150 | Every described value came from an item the limit admits. `truncated` holds exactly when the next item lies past the limit. Otherwise the iterator was done. |
| ChainWalk.IterValueFirst | src/describe.js:144-145 | The first value is the description of the first item, one call deeper. |
| ChainWalk.IterValueLater | src/describe.js:143-145 | Later values are, in order, the values of the loop from the next call on. |
| ChainWalk.IterValuesBound | object-describe.js:266-274 | A finite limit bounds the number of values, which reach it exactly when truncated. An unlimited loop is never truncated. |
| ChainWalk.MarkedProperties | src/describe.js:181-187 | Marking the found entries gives `PropertiesOf` the chain keys. |
| ChainWalk.DescribeOldOk | src/describe.js:119-193 | A successful description had stack left. It is built from its head, its iterable values and its marked chain, each of which succeeded. |
| ChainWalk.DescribeOldChain | src/describe.js:153-191 | The report's properties are the marked entries of the walk from the value itself. |
| ChainWalk.DescribeOldHead | src/describe.js:121-126 | The report's kind and primitive value are those of its head. |
| ChainWalk.DescribeOldIterable | src/describe.js:129-151 | `iterableValues` is the expansion's result. |
| ChainWalk.ExpandOldFacts | src/describe.js:129-150 | Values are present exactly for an iterable with a truthy `expandIterables`. They are then the loop over its items with the validated limit. |
| ChainWalk.DescribeOldProperties | src/describe.js:153-191 | Properties come one per key of the chain, in order, named `String(key)`, with the start's own keys first and without `from`. Entries are overridden exactly when an earlier key has their string name. `overrideOf` is the `from` of the single later override, or nothing. |
| ChainWalk.DescribeOldNullishSrc | src/describe.js:157 | In the library revision, null and undefined throw the TypeError of `Object.getOwnPropertyNames`. |
| ChainWalk.DescribeOldNullishOriginal | object-describe.js:253 | In the first version, null and undefined throw already in `isIterable`. |
| ChainWalk.SelfReferenceOverflows | src/describe.js:164-168 | An object whose first property holds the object itself overflows whatever the stack budget: there is no cycle guard. |
| ChainWalkSteps.DescribeOldStep | src/describe.js:119-193 | Statement by statement, `describe` computes exactly `DescribeOld`. |
| ChainWalkSteps.ExpandOldSkips | src/describe.js:129 | Without an iterable and a truthy `expandIterables` there are no iterable values. |
| ChainWalkSteps.ExpandOldBadLimit | src/describe.js:134-141 | An invalid limit ends the description with its TypeError. |
| ChainWalkSteps.ExpandStep | src/describe.js:129-151 | The guard, the limit validation and the loop compute exactly `ExpandOld`. |
| ChainWalkSteps.PullStep | src/describe.js:143-149 | One `next()` call leads to exactly what `IterValues` says about that call. |
| ChainWalkSteps.ItemStep | src/describe.js:144-145 | An admitted item is described one call deeper, and the loop goes on. |
| ChainWalkSteps.IterateStep | src/describe.js:142-150 | The counted `for ... of` loop with `truncated` and `break` computes exactly `IterValues` from the first call. |
| ChainWalkSteps.WalkChain | src/describe.js:153-190 | `do ... while (obj = Object.getPrototypeOf(obj))`, pushing marked entries, leaves exactly the marked entries of the chain walk, or its first error. |
| ChainWalkSteps.ChainPass | src/describe.js:154-190 | One level is pushed onto `properties`, and the walk continues with its prototype. |
| ChainWalkSteps.Push | object-describe.js:305-312 | In-place override marking followed by `props.push(p)` is `MarkOne`. |
| ChainWalkSteps.WalkLevel | src/describe.js:160-189 | The inner loop leaves the level's entries marked after the entries found before it, or the level's first error. |
| ChainWalkSteps.LevelPass | src/describe.js:161-188 | One pass pushes the next entry and keeps the inner loop's invariant, or ends with the pass's error. |
| ChainWalkSteps.PropertyStep | src/describe.js:161-177 | One property is read, shown and built into exactly `RawEntry`. |
| ChainWalkSteps.ShowStep | src/describe.js:164-168 | `String(value)` or the recursive description, exactly `ShowValue`. |
| RenderHelpers.EscapeHTML | marklogic-describe/public/js/render.js:311-319 | A non-string throws a TypeError naming its `typeof`. A string is escaped character by character. |
| RenderHelpers.EscapeIsEach | marklogic-describe/public/js/render.js:315-318 | The three chained replacements equal escaping each character in one pass, because `&` is replaced first. |
| RenderHelpers.UnescapeEscape | marklogic-describe/public/js/render.js:315-318 | Unescaping `&amp;`, `&lt;` and `&gt;` recovers the input exactly. |
| RenderHelpers.EscapeNoAngles | marklogic-describe/public/js/render.js:315-318 | The escaped text holds no `<` and no `>`. |
| RenderHelpers.EscapePlain | marklogic-describe/public/js/render.js:315-318 | Text without `&`, `<` or `>` is returned unchanged. |
| RenderHelpers.EscapeLength | marklogic-describe/public/js/render.js:315-318 | Escaping never shortens, and it lengthens any text holding `&`, `<` or `>`. |
| RenderHelpers.DoubleEscape | marklogic-describe/public/js/render.js:302-303 | Escaping twice equals escaping once exactly when the text holds no `&`, `<` or `>`. |
| RenderHelpers.Iif | marklogic-describe/public/js/render.js:47-52 | The branch that the test's truthiness picks, called when it is a function and returned as is otherwise. |
| RenderHelpers.IisFalsy | marklogic-describe/public/js/render.js:64-66 | A falsy test gives '' and calls nothing. |
| RenderHelpers.IisEcho | marklogic-describe/public/js/render.js:64-66 | A truthy test with an undefined success gives the test itself, called when it is a function. |
| RenderHelpers.IisSuccess | marklogic-describe/public/js/render.js:64-66 | A truthy test with a success value gives that value, called when it is a function. |
| RenderHelpers.HasAccessorDescribed | marklogic-describe/public/js/render.js:204-206 | A described property has an accessor exactly when its descriptor has a getter or a setter. |
| RenderHelpers.ItemLabels | marklogic-describe/public/js/render.js:188 | Item `i` of a bucket is labelled `lower + i`. |
| RenderHelpers.RenderIterables | marklogic-describe/public/js/render.js:151-163 | Nothing is rendered exactly for undefined iterables. Otherwise each bucket gets one label and one list of item labels. |
| RenderHelpers.RenderIterablesMarker | marklogic-describe/public/js/render.js:158-161 | The `…` marker shows exactly when the values were truncated. |
| RenderHelpers.BucketLabelsTight | marklogic-describe/public/js/render.js:180-183 | Every bucket of `groupByBuckets` is labelled from its first item's index to its last item's index, and bucket `b`'s label starts at `b * size`. |
| TestUtil.JsSet.Copy | test/test-util.js:64 | `new Set(set)` holds the same entries in the same order, so a copy of distinct entries is a valid set. |
| TestUtil.JsSet.Delete | test/test-util.js:66 | `delete` removes the entry that is SameValueZero to the argument and changes nothing else. A valid set stays valid. |
| TestUtil.Elements | test/test-util.js:31 | The entries are known exactly when the argument is a Set. |
| TestUtil.CloneWithout | test/test-util.js:60-69 | A non-Set throws a TypeError showing the argument. A Set gives a fresh set without `entry` (a full copy when `entry` is undefined) and leaves the argument untouched. |
| TestUtil.RemovedCanonSet | test/test-util.js:64-67 | Deleting an entry removes exactly its member from the set's members. |
| TestUtil.FirstMatch | test/test-util.js:35-37 | The inner loop stops at the first `bbb` entry that the comparator matches, and no earlier entry matches. |
| TestUtil.EqualSetsSpec | test/test-util.js:27-49 | A non-function comparator throws a TypeError with its `typeof`. Non-Sets and sets of different sizes compare false. |
| TestUtil.EqualSets | test/test-util.js:27-49 | The nested loops with a recursive call on the clones compute exactly `EqualSetsSpec` with the guard as written. |
| TestUtil.SpecEmpty | test/test-util.js:33-48 | Two empty sets compare true. |
| TestUtil.SpecNoMatch | test/test-util.js:46 | A first entry without a match compares false. |
| TestUtil.SpecMatch | test/test-util.js:36-43 | A first entry with a match compares the two clones without the pair, one frame deeper. |
| TestUtil.StrictEqualSets | test/test-util.js:27-48 | With `===` and one stack frame per entry, two sets compare equal exactly when they have the same members and `aaa` holds no NaN. As written this needs `aaa` to hold no undefined. |
| TestUtil.UndefinedOverflows | test/test-util.js:65-67 | As written, `{undefined}` against `{undefined}` overflows any stack. |
| TestUtil.UndefinedEqualFixed | test/test-util.js:65-67 | Without the guard, `{undefined}` equals `{undefined}` with two frames. |
| TestUtil.Select | test/test-util.js:86-98 | The loop that fills or prunes `out` gives exactly `Selected`: null and undefined unchanged, a copy when `keys` is absent, the listed keys mapped to `obj[key]`, or with `inverse` a copy without them. |
| TestUtil.SelectSplits | test/test-util.js:88-97 | For keys that the object has, selecting them and selecting the rest (with `inverse`) share no key, and together give the object back. |
| TestUtil.SelectIdempotent | test/test-util.js:86-98 | Selecting the same keys twice is selecting them once. |

## Left out

- DOM and UI wiring are not part of this model: both `Input.js` files, `Output.js` and `docs/ui.js`. The same goes for the server (`marklogic-describe/app.js`), the build configuration (`rollup.config.js`) and the test runner (`test/test.js`).
- The demo and I/O at object-describe.js:363-401 (`xdmp.save`, `xdmp.unquote`) are not modelled.
- Host facilities are uninterpreted `Host` fields, not modelled: locale formatting of numbers and Dates, `String(number)`, `String(date)`, the function-source regular expressions and `parseBody`'s replacement.
- JavaScript strings are sequences of UTF-16 code units, while a model `string` is a sequence of Unicode characters. `length` and `substring` in the truncation (`Serializer.Truncate`, `Serializer.Prefix`) and the index names of a string's property slots (`ChainWalk.CharSlots`) count code units in JavaScript, and `for ... of` over a string (`ChainWalk.ItemsOf`) visits code points. The model counts characters in all of these, so it agrees with JavaScript only on strings inside the Basic Multilingual Plane.
- Floating point is not modelled. Numbers are NaN, the two infinities, or a finite real; `-0` and `document.all` are not distinguished.
- JavaScript reflection is reduced to what the heap records. Proxies, getters with side effects, `error.stack` text, and `Object.defineProperty` in `toStringifyInstance` and `CircularReference` become plain datatype fields.
- Reading a property on a level reads that level's own property. Indirect reads through the chain (`obj.constructor`, `obj.next`, `obj.length`, `obj.toString`, `Symbol.iterator`) are recorded per object as the value they give.
- An own `Symbol.toStringTag` is assumed to be a data property holding a string (part of the heap's validity). A non-string or throwing tag is not modelled.
- The HTML templates of `renderProperty`, `renderObject`, `renderBucket` and `renderIterables` are not modelled. Only the labels, the marker and the undefined guard are.
- `getPropertyValue`'s `undefined === property` ReferenceError (marklogic-describe/public/js/describe.js:336-337) cannot happen, because the engine passes only own keys. It is not modelled.
- Termination of the traversal is not claimed. Both walks carry a `fuel` budget standing for the call stack, and exhausting it is the RangeError.
- ChainWalk.DescribeOld: requires that an expansion with no finite limit is only asked of an iterable whose iterator finishes or throws, because the JavaScript loop never ends otherwise.
- The bundled `expandIterables` tests `prototypes.slice(1)`, which skips the first prototype entry (the start of the walk), not `obj` itself. The model follows the code.
- TestUtil.EqualSetsSpec: the comparator is a total function to booleans. A comparator that throws or returns a truthy non-boolean is not modelled.
- TestUtil.EqualSets: the outer `for` is an `if` on the first entry, because both of its branches return before a second entry is reached.
- TestUtil.StrictEqualSets: it is stated for sets of distinct entries (which is what a `Set` holds) and a stack of more than `|aaa|` frames.
- TestUtil.Select: objects are modelled as maps, so key order is not modelled, and a primitive `obj` (which `Object.assign` would box) is not modelled.
- The argument `String(set)` of `cloneWithout`'s TypeError is taken as the given text of a non-Set argument.

## Findings

| source | as written | input that shows it | evidently intended | confidence | as-written member | corrected member |
|---|---|---|---|---|---|---|
| test/test-util.js:65-67 | `cloneWithout` deletes nothing when `entry` is undefined, so `equalSets` recurses on the same two sets after matching undefined (test/test-util.js:39-43) | `equalSets(new Set([undefined]), new Set([undefined]))` exhausts the stack instead of returning true | clones that lose the matched entry even when it is undefined, so the sets compare equal | not executed | TestUtil.UndefinedOverflows | TestUtil.UndefinedEqualFixed |
