# FluffIt in Dafny

A model of the C# helper library FluffIt, with proofs about it. The model covers:

- its null/default-aware combinators: `IsNullOrDefault`, `Default`, `SelectOrDefault`, `Maybe` and `As`, plus the static `ObjectEx.Equals`;
- its sequence combinators: `ForEach`, `None`, comparer-based `First`/`FirstOrDefault`, key/value `FirstOrDefault`, `Do`, `Prepend`, `Append`, `Safe`, `Require`, `Distribute` and `DistributeWithOverflow`;
- its small string, dictionary and `StringBuilder` accessors.

How C# is represented:

- **Null.** A possibly-null C# value is an `Option<T>`, with `None` as null.
- **Type facts.** `ObjectExtensions.TypeInfo<T>` carries what the combinators need to know about a C# type: `default(T)` and `T`'s own `Equals`.
- **Comparers.** An optional `IEqualityComparer<T>` is an `Option` of a function.
- **Delegates.** Selectors, factories and predicates are Dafny functions. Actions are not passed in. Instead the model returns, in order, the arguments each action would receive: `ForEach` and `Do` do this, and so do `Maybe` and the `As` with an action (`Acted` events) and `Distribute` and `DistributeWithOverflow` (a target and an element per call). An action's effect on the caller's state is left to the caller.
- **Traces.** The object combinators (`IsNullOrDefault`, `Default`, `SelectOrDefault`, `Maybe`, the `As` with an action, and `ObjectEx.Equals`) return, next to their result, a trace of the comparer, selector, factory and action calls they make. "The factory is not called" can therefore be stated and proved. The pure sequence functions (`None`, `First`, `FirstOrDefault` with a comparer, key/value `FirstOrDefault`) return their result only; see "## Left out".
- **Loops.** The operations the library writes as `foreach`, `for` or `yield` loops are methods with loops and invariants. Their out-parameters record what their delegates received:
  - `ForEach`: the action's arguments.
  - `Do`: the action and yield steps.
  - `Distribute` and `DistributeWithOverflow`: the dispatches.
  - `FirstOrDefault` with a factory: the number of elements compared, and whether the factory ran.
  - `RequireMatching`: the prefix the predicate saw.

  Where reading stops early, some also return the number of source elements pulled: `Prepend`, `Append`, `Require` and `Distribute`.
- **Laziness.** Lazily evaluated sequences (`Do`, `Prepend`, `Append`, `ToEnumerable`) take `demand`, the number of elements the consumer pulls.

Modules:

- `Common`: `Option`, `Result`, `Min` and `Max`.
- `Linq`: the `System.Linq` behaviour the library calls.
  - `Any` and `First` are called directly.
  - `FirstIndex`, a search for the first matching position, stands for the `FirstOrDefault(predicate)` calls. It also underlies `Any(predicate)` and `First(predicate)`.
  - The `Where` in `FirstOrDefault` with a factory is written as that method's own loop.
  - `CountWhere`, with lemmas, counts matching elements. It gives `Require` its meaning and counts events in traces.
  - `Last` is there only for the `StringBuilder` test scenarios.
- `ObjectExtensions`, `ObjectEx`, `EnumerableExtensions`, `StringExtensions`, `DictionaryExtensions`, `StringBuilderExtensions`: one module per C# class.
- `Scenarios`: the outcomes the library's unit tests assert, stated over the model.

Where the code and its documentation read differently, the model follows the code:

- **`IsNullOrDefault`.** C# precedence makes the expression read `(source == null || comparer == null) ? Equals(source, default) : comparer.Equals(source, default)`, and that is what is modelled. `ObjectExtensions.IsNullOrDefaultMatchesDocumentation` proves this agrees with the documented "null, or default by the comparer" on every value the type can hold.
- **`Require`.** Its comment promises true when the sequence has "at least count elements". The code decides only inside the loop, so an empty sequence gives false even when `count <= 0`. The model does the same.
- **Cast failure.** The cast in `As` is the class-constrained `as`, which gives null on failure.
- **`Require` counters.** Both `Require` loops return as soon as their counter reaches `count`. So the counter never exceeds `max(count, 1)`, which fits in the C# `int` that `count` is, and the unbounded Dafny counter is exact.

## Model

| member | source | states |
|---|---|---|
| ObjectExtensions.ObjectEquals | FluffIt/ObjectExtensions.cs:46 | static `object.Equals`: two nulls are equal, null never equals a non-null value, otherwise the first value's `Equals` decides |
| ObjectExtensions.IsNullOrDefault | FluffIt/ObjectExtensions.cs:41-48 | a null source answers true without consulting the comparer; a non-null source without a comparer answers `Equals(source, default)`; with a comparer it answers `comparer(source, default)`, called exactly once |
| ObjectExtensions.IsNullOrDefaultMatchesDocumentation | FluffIt/ObjectExtensions.cs:33-48 | for every value the type admits, the as-parsed expression gives the documented answer "null, or equal to default by the comparer or by `Equals`" |
| ObjectExtensions.NullIsNullOrDefault | FluffIt/ObjectExtensions.cs:43-46 | for a type whose default is null, a null source is "null or default" and no delegate runs |
| ObjectExtensions.DefaultWithFactory | FluffIt/ObjectExtensions.cs:58-63 | a present source is returned unchanged and the factory is not called; otherwise the result is the factory's, after one call |
| ObjectExtensions.DefaultWithFactoryLaziness | FluffIt/ObjectExtensions.cs:58-63 | the factory runs exactly once when the source is null or default, and never otherwise |
| ObjectExtensions.DefaultWithValue | FluffIt/ObjectExtensions.cs:73-78 | the result is `defaultValue` when the source is null or default, and the source otherwise; the comparer is called once exactly when the source is non-null and a comparer is given |
| ObjectExtensions.DefaultWithValueIsConstantFactory | FluffIt/ObjectExtensions.cs:58-78 | `Default(src, value)` gives what `Default(src, () => value)` gives |
| ObjectExtensions.SelectOrDefault | FluffIt/ObjectExtensions.cs:89-94 | a present source gives `selector(source)` after one selector call; otherwise `default(TResult)` with no selector call |
| ObjectExtensions.SelectOrDefaultWithFactory | FluffIt/ObjectExtensions.cs:106-116 | a present source gives `selector(source)` and the factory is not called; otherwise the factory's result and the selector is not called |
| ObjectExtensions.SelectOrDefaultInvokesExactlyOne | FluffIt/ObjectExtensions.cs:106-116 | exactly one of selector and factory is invoked, and it is the selector iff the source is present |
| ObjectExtensions.SelectOrDefaultWithValue | FluffIt/ObjectExtensions.cs:128-138 | a present source gives `selector(source)`; otherwise the given default value, with no selector call |
| ObjectExtensions.Maybe | FluffIt/ObjectExtensions.cs:147-153 | the action runs on the source iff it is neither null nor default, and never otherwise |
| ObjectExtensions.MaybeActsOnceIffPresent | FluffIt/ObjectExtensions.cs:147-153 | the action runs exactly once if the source is present, zero times otherwise, and only ever on the source |
| ObjectExtensions.As | FluffIt/ObjectExtensions.cs:161-165 | null stays null; a non-null source gives exactly its cast, which is null when the value is not an instance of the target type |
| ObjectExtensions.AsThen | FluffIt/ObjectExtensions.cs:176-184 | the original source is always returned; the action runs once, on the cast value, iff the cast yields non-null |
| ObjectEx.ComparerType | FluffIt/StaticExtensions/ObjectEx.cs:15 | `IEqualityComparer<T>` is an interface, so its default is null |
| ObjectEx.Equals | FluffIt/StaticExtensions/ObjectEx.cs:15-18 | with a comparer the answer is `comparer(left, right)`, from one selector call; without one it is static `object.Equals(left, right)`, from the factory alone |
| ObjectEx.EqualsKeepsArgumentOrder | FluffIt/StaticExtensions/ObjectEx.cs:17 | with the asymmetric comparer `x == y - 1`, `Equals(0, 1)` holds and `Equals(1, 0)` does not, so the arguments reach the comparer as (left, right) |
| EnumerableExtensions.ForEach | FluffIt/EnumerableExtensions.cs:45-53 | the action receives exactly the source's elements, once each, in order; none on an empty source |
| EnumerableExtensions.None | FluffIt/EnumerableExtensions.cs:63-66 | true iff the source is empty |
| EnumerableExtensions.NoneMatching | FluffIt/EnumerableExtensions.cs:77-82 | true iff no element satisfies the predicate, so true on an empty source |
| EnumerableExtensions.NoneIsNoneMatchingAnything | FluffIt/EnumerableExtensions.cs:63-82 | the overload without a predicate is the one with an always-true predicate |
| EnumerableExtensions.First | FluffIt/EnumerableExtensions.cs:98-104 | fails, with no matching element, iff no element `e` has `comparer(e, value)`; otherwise gives the first such element |
| EnumerableExtensions.FirstOrDefault | FluffIt/EnumerableExtensions.cs:117-123 | the first element `e` with `comparer(e, value)`, or `default(T)` when there is none |
| EnumerableExtensions.FirstMatchUnique | FluffIt/EnumerableExtensions.cs:98-123 | "first element matching by the comparer" names a single position |
| EnumerableExtensions.FirstOrDefaultAgreesWithFirst | FluffIt/EnumerableExtensions.cs:98-123 | `FirstOrDefault` returns what `First` returns, and the default exactly where `First` fails |
| EnumerableExtensions.FirstOrDefaultWithFactory | FluffIt/EnumerableExtensions.cs:138-150 | the factory is called iff no element matches, and then its result is returned after every element was compared; otherwise the first match is returned and the comparison stops there |
| EnumerableExtensions.PairType | FluffIt/EnumerableExtensions.cs:166-168 | `default(KeyValuePair)` is the pair of the key's and the value's defaults |
| EnumerableExtensions.ValueOfFirstKey | FluffIt/EnumerableExtensions.cs:182-190 | no matching key gives `default(TValue)`; otherwise the first pair whose key matches gives its value, unless that pair equals `default(KeyValuePair)`, which gives `default(TValue)` |
| EnumerableExtensions.FirstOrDefaultByKey | FluffIt/EnumerableExtensions.cs:162-169 | keys compared by static `object.Equals(key, needle)`: the value of the first pair whose key matches, or `default(TValue)` when none does or that pair equals `default(KeyValuePair)` |
| EnumerableExtensions.FirstOrDefaultByKeyWith | FluffIt/EnumerableExtensions.cs:182-190 | keys compared by `comparer(key, needle)`: the value of the first pair whose key matches, or `default(TValue)` when none does or that pair equals `default(KeyValuePair)` |
| EnumerableExtensions.FirstOrDefaultByKeyIsFirstValue | FluffIt/EnumerableExtensions.cs:182-190 | when the value type's `Equals` is equality, the result is exactly the first matching pair's value |
| EnumerableExtensions.Do | FluffIt/EnumerableExtensions.cs:201-211 | pulling k elements runs the action on each of the first k elements immediately before yielding it, and nothing more |
| EnumerableExtensions.Prepend | FluffIt/EnumerableExtensions.cs:221-231 | yields a prefix of `[value] + source` as long as the demand allows; the source is pulled only after `value` has been yielded |
| EnumerableExtensions.Append | FluffIt/EnumerableExtensions.cs:241-251 | yields a prefix of `source + [value]` as long as the demand allows, pulling one source element per yielded source element |
| EnumerableExtensions.Safe | FluffIt/EnumerableExtensions.cs:260-263 | null becomes the empty sequence; any other sequence is returned as is |
| EnumerableExtensions.SafeIdempotent | FluffIt/EnumerableExtensions.cs:260-263 | applying `Safe` twice gives what applying it once gives |
| EnumerableExtensions.Require | FluffIt/EnumerableExtensions.cs:273-288 | true iff the source is non-empty and has at least `count` elements; it stops after `max(count, 1)` elements when true and pulls everything when false |
| EnumerableExtensions.RequireMatching | FluffIt/EnumerableExtensions.cs:300-321 | true iff the source is non-empty and at least `count` elements match; the predicate sees exactly the prefix up to the first element at which the match count reaches `count`, or the whole source when false |
| EnumerableExtensions.RequireCountsEveryElement | FluffIt/EnumerableExtensions.cs:273-321 | counting with an always-true predicate counts every element, so the two overloads agree |
| EnumerableExtensions.Distribute | FluffIt/EnumerableExtensions.cs:332-347 | `actions[i]` runs on `source[i]` for each i below both lengths, and no other action runs; `min(|source|, |actions| + 1)` elements are pulled |
| EnumerableExtensions.DistributeWithOverflow | FluffIt/EnumerableExtensions.cs:360-378 | every element is dispatched: `source[i]` goes to `actions[i]` while there is one and to the overflow action afterwards |
| StringExtensions.StringType | FluffIt/StringExtensions.cs:83 | `default(string)` is null and string equality is value equality |
| StringExtensions.IsNullOrEmpty | FluffIt/StringExtensions.cs:38-41 | true iff the string is null or `""` |
| StringExtensions.Safe | FluffIt/StringExtensions.cs:81-84 | null becomes `""`; a non-null string, `""` included, is returned unchanged |
| StringExtensions.SafeOnlyReplacesNull | FluffIt/StringExtensions.cs:76-84 | `Safe` is idempotent and the identity on non-null strings; its result is `""` iff the input is null or empty |
| DictionaryExtensions.GetOrDefault | FluffIt/DictionaryExtensions.cs:41-48 | the value stored under the key when present, `default(TValue)` when absent; the dictionary is only read |
| DictionaryExtensions.Add | FluffIt.Tests/DictionaryExtensionsTests/GivenDictionary.cs:40 | `Dictionary.Add` fails iff the key is present; otherwise it adds the key with the value and keeps every other entry |
| DictionaryExtensions.GetOrDefaultAfterAdd | FluffIt.Tests/DictionaryExtensionsTests/GivenDictionary.cs:36-57 | after adding a new key, looking it up gives the added value, and every other lookup is unchanged |
| StringBuilderExtensions.ToEnumerable | FluffIt/StringBuilderExtensions.cs:8-14 | pulling k characters yields `builder[0..k)`, in order, bounded by the builder's length |
| StringBuilderExtensions.ToEnumerableAll | FluffIt/StringBuilderExtensions.cs:10-13 | enumerating to the end yields exactly the builder's characters: `Length` of them, in order |
| Scenarios.FirstWithFakeComparer | FluffIt.Tests/EnumerableExtensionsTests/GivenMultipleValuesEnumerable.cs:68-75 | with the comparer `x == y - 1`, `First([0, 1, 2], 3)` is 2 |
| Scenarios.FirstOrDefaultWithFakeComparer | FluffIt.Tests/EnumerableExtensionsTests/GivenMultipleValuesEnumerable.cs:78-95 | `FirstOrDefault([1, 2, 3], 4)` is 3; with 5 it is the default 0 |
| Scenarios.FirstOrDefaultWithFactoryScenario | FluffIt.Tests/EnumerableExtensionsTests/GivenMultipleValuesEnumerable.cs:98-115 | with value 4 the match 3 is returned and not the factory's 5; with value 1 the factory's 4 is returned |
| Scenarios.NoneScenarios | FluffIt.Tests/EnumerableExtensionsTests/GivenMultipleValuesEnumerable.cs:48-65 | `None([1, 2, 3])` is false, and no element of `[1, 2, 3]` is below 1 or above 4 |
| Scenarios.ForEachCounts | FluffIt.Tests/EnumerableExtensionsTests/GivenMultipleValuesEnumerable.cs:37-45 | `ForEach` over three elements runs its action three times |
| Scenarios.DoThenForEach | FluffIt.Tests/EnumerableExtensionsTests/GivenMultipleValuesEnumerable.cs:118-129 | `Do` then `ForEach` over `[0, 1, 2]` interleaves the two actions, as the rendering "0:0,1:1,2:2," shows |
| Scenarios.PrependAppendScenarios | FluffIt.Tests/EnumerableExtensionsTests/GivenMultipleValuesEnumerable.cs:132-157 | `Prepend([0, 1, 2], -1)` is `[-1, 0, 1, 2]` and `Append([0, 1, 2], 3)` is `[0, 1, 2, 3]` |
| Scenarios.DistributeScenario | FluffIt.Tests/EnumerableExtensionsTests/GivenMultipleValuesEnumerable.cs:160-169 | actions adding 1, 3, 5 and 7, distributed over three elements, add up to 9 |
| Scenarios.DistributeWithOverflowScenarios | FluffIt.Tests/EnumerableExtensionsTests/GivenMultipleValuesEnumerable.cs:172-198 | the overflow action adds 1: with actions 3, 5, 7 and 11 the sum is 15, with the single action 3 it is 5 |
| Scenarios.SingleValueScenarios | FluffIt.Tests/EnumerableExtensionsTests/GivenSingleValueEnumerable.cs:63-110 | on a one-element source: `First([0], 1)` is 0; `FirstOrDefault([1], 2)` is 1 and `FirstOrDefault([1], 1)` is the default 0; `None([1])` is false, and no element of `[1]` differs from 1 |
| Scenarios.EmptySourceScenarios | FluffIt.Tests/EnumerableExtensionsTests/GivenEmptyEnumerable.cs:46-118 | on an empty source: `First` fails, `FirstOrDefault` is the default, both `None` forms are true, `Do` runs no action, and `Prepend` and `Append` give the single inserted value |
| Scenarios.NullObjectScenarios | FluffIt.Tests/ObjectExtensionsTests/GivenNullObject.cs:35-71 | for a null string: `Default` gives the factory's "1", `SelectOrDefault` gives null and, with a factory, the factory's "d", and `Maybe` runs no action |
| Scenarios.ValidObjectScenarios | FluffIt.Tests/ObjectExtensionsTests/GivenValidObject.cs:35-73 | for "a": `Default` never calls its factory, both `SelectOrDefault` forms give the selector's "1", and `Maybe` acts on "a" once |
| Scenarios.AsScenarios | FluffIt.Tests/ObjectExtensionsTests/GivenNullObject.cs:74-87 | a failed cast of "a" gives null, and `As` with an action then returns "a" without running the action |
| Scenarios.DictionaryScenario | FluffIt.Tests/DictionaryExtensionsTests/GivenDictionary.cs:36-57 | after `Add(1, 5.6)`, `GetOrDefault(1)` is 5.6 and `GetOrDefault(0)` is the default 0.0 |
| Scenarios.StringBuilderLast | FluffIt.Tests/StringBuilderExtensionsTests/GivenTestString.cs:15-29 | the last character enumerated from "abcd" is 'd'; on an empty builder `Last` fails |

## Left out

- `DoubleCheckedLocked` (FluffIt/ObjectExtensions.cs:193-206) is not modelled. Its point is locking between threads, and the model is sequential.
- `Format` (FluffIt/StringExtensions.cs:59-74) is not modelled. It delegates entirely to `string.Format` and culture-specific formatting, both outside the library.
- `IsNullOrWhiteSpace` (FluffIt/StringExtensions.cs:48-51) is not modelled. It depends on the framework's Unicode white-space table.
- `MaybeAs` is exercised by a test but defined in no source file, so it is not modelled.
- ObjectExtensions.As: the CLR type test behind `as` is the caller-supplied `cast` function. The model does not know the type hierarchy.
- In `Distribute` and `DistributeWithOverflow`, the `As<Action<TSource>>()` of each array element always succeeds, so the model indexes the actions directly. Actions are identified by their position rather than run.
- Exceptions raised by null sources, comparers and delegates are not modelled. That is `ArgumentNullException` from LINQ and `NullReferenceException` elsewhere, deferred until enumeration in the iterator methods `Do`, `Prepend` and `Append`. Those arguments are non-null by construction in the model.
- A delegate or comparer that throws is not modelled. Delegates are total functions.
- `GetHashCode` of comparers is not modelled, since no modelled operation uses it.
- Sources are finite sequences. Re-enumeration, side effects of the source itself, and a `StringBuilder` mutated during enumeration are not modelled.
- EnumerableExtensions.None: the result is modelled, but not how many elements `Any` pulls before it stops.
- EnumerableExtensions.NoneMatching: the result is modelled, but not the predicate calls `Any(predicate)` makes, which stop at the first match.
- EnumerableExtensions.First: the result is modelled, but not the comparer calls, which stop at the first match.
- EnumerableExtensions.FirstOrDefault: the result is modelled, but not the comparer calls, which stop at the first match.
- EnumerableExtensions.ValueOfFirstKey: the result is modelled, but not the key comparer calls or the `Equals` calls of the default-pair test. `FirstOrDefaultByKey` and `FirstOrDefaultByKeyWith` inherit this.
- ObjectEx.Equals: the trace records which branch of `SelectOrDefault` ran. The comparer's own `Equals` call inside the selector is not recorded as a separate event.
- EnumerableExtensions.ForEach, EnumerableExtensions.Do, EnumerableExtensions.DistributeWithOverflow and StringBuilderExtensions.ToEnumerable return no separate pull count. For them it equals the length of what they return: `|calls|`, `|trace| / 2`, `|calls|` and `|yielded|`.
- DictionaryExtensions.GetOrDefault: keys are looked up by Dafny equality on `map<K, V>`. A dictionary built with its own `IEqualityComparer<TKey>`, such as a case-insensitive one, is not modelled. `DictionaryExtensions.Add` has the same limit.
- StringBuilderExtensions.ToEnumerable: a builder is a `seq<char>` of Unicode scalar values. C# yields UTF-16 code units, so each half of a surrogate pair comes out separately. A builder holding characters outside the Basic Multilingual Plane, which has no such `seq<char>`, is not modelled.
- EnumerableExtensions.Do: the trace records the action and each yield. The downstream consumer's own callback, which runs right after each yield, is left to the caller.
- ObjectExtensions.ObjectEquals: the `ReferenceEquals` short-circuit of static `object.Equals` is folded into `T.Equals`. The model is exact for any `Equals` that is reflexive on the same instance.
- ObjectEx.ComparerType: equality between two comparer objects is not modelled. `SelectOrDefault` only ever compares a comparer with the null default, which is decided without calling `Equals`.
- DictionaryExtensions.GetOrDefault: a null key, which makes `TryGetValue` throw, is outside the model. Keys are plain values.
- The `double` payload of the dictionary tests is a Dafny `real`. Otherwise the model is generic in the value type.
