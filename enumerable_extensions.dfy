/**
 * FluffIt's sequence combinators (EnumerableExtensions.cs).
 *
 * A source is the finite sequence of elements it would yield; an element type that admits null
 * simply has null among its values. Comparers and predicates are Dafny functions. The operations
 * that the source writes as foreach loops are methods with loops, returning what their delegates
 * received and, where it differs from what they yield, how far they read the source. The lazily
 * evaluated ones (Do, Prepend, Append) take `demand`, the number of elements the downstream
 * consumer asks for.
 */
module EnumerableExtensions {
  import opened Common
  import Linq
  import O = ObjectExtensions

  // ----- ForEach, None -----

  /** ForEach(source, action): the arguments the action receives, in order. */
  method ForEach<T>(source: seq<T>) returns (calls: seq<T>)
    ensures calls == source
  {
    calls := [];
    for i := 0 to |source|
      invariant calls == source[..i]
    {
      calls := calls + [source[i]];
    }
  }

  /** None(source): `!source.Any()`. */
  function None<T>(source: seq<T>): (r: bool)
    ensures r <==> |source| == 0
  {
    !Linq.Any(source)
  }

  /** None(source, predicate): `!source.Any(predicate)`. */
  function NoneMatching<T>(source: seq<T>, pred: T -> bool): (r: bool)
    ensures r <==> forall i :: 0 <= i < |source| ==> !pred(source[i])
  {
    !Linq.AnyMatching(source, pred)
  }

  /** The two overloads agree: a source has no elements iff none satisfies `true`. */
  lemma NoneIsNoneMatchingAnything<T>(source: seq<T>)
    ensures None(source) == NoneMatching(source, (x: T) => true)
  {
    if source != [] {
      assert ((x: T) => true)(source[0]);
    }
  }

  // ----- First and FirstOrDefault with a comparer -----

  /** Position `i` holds the first element `e` with `cmp(e, value)`: the element comes first. */
  ghost predicate IsFirstMatch<T>(source: seq<T>, cmp: (T, T) -> bool, value: T, i: int)
  {
    0 <= i < |source| && cmp(source[i], value) && forall j :: 0 <= j < i ==> !cmp(source[j], value)
  }

  ghost predicate NoMatch<T>(source: seq<T>, cmp: (T, T) -> bool, value: T)
  {
    forall j :: 0 <= j < |source| ==> !cmp(source[j], value)
  }

  /** First(source, comparer, value): `source.First(t => comparer.Equals(t, value))`. */
  function First<T>(source: seq<T>, cmp: (T, T) -> bool, value: T): (r: Result<T, Linq.Error>)
    ensures r.Failure? <==> NoMatch(source, cmp, value)
    ensures r.Failure? ==> r.error == Linq.NoMatchingElement
    ensures r.Success? ==> exists i :: IsFirstMatch(source, cmp, value, i) && r.value == source[i]
  {
    var pred := (t: T) => cmp(t, value);
    var r := Linq.First(source, pred);
    assert r.Success? ==> IsFirstMatch(source, cmp, value, Linq.FirstIndex(source, pred).value);
    r
  }

  /** FirstOrDefault(source, comparer, value): as First, but default(T) when nothing matches. */
  function FirstOrDefault<T>(source: seq<T>, cmp: (T, T) -> bool, value: T, dflt: T): (r: T)
    ensures NoMatch(source, cmp, value) ==> r == dflt
    ensures !NoMatch(source, cmp, value) ==> exists i :: IsFirstMatch(source, cmp, value, i) && r == source[i]
  {
    var pred := (t: T) => cmp(t, value);
    var k := Linq.FirstIndex(source, pred);
    if k.Some? then
      assert IsFirstMatch(source, cmp, value, k.value);
      source[k.value]
    else
      dflt
  }

  /** Only one position can hold the first match. */
  lemma FirstMatchUnique<T>(source: seq<T>, cmp: (T, T) -> bool, value: T, i: int, j: int)
    requires IsFirstMatch(source, cmp, value, i) && IsFirstMatch(source, cmp, value, j)
    ensures i == j
  {
  }

  /** FirstOrDefault returns what First returns, and the default exactly where First throws. */
  lemma FirstOrDefaultAgreesWithFirst<T>(source: seq<T>, cmp: (T, T) -> bool, value: T, dflt: T)
    ensures First(source, cmp, value).Success? ==> FirstOrDefault(source, cmp, value, dflt) == First(source, cmp, value).value
    ensures First(source, cmp, value).Failure? ==> FirstOrDefault(source, cmp, value, dflt) == dflt
  {
    if First(source, cmp, value).Success? {
      var i :| IsFirstMatch(source, cmp, value, i) && First(source, cmp, value).value == source[i];
      var j :| IsFirstMatch(source, cmp, value, j) && FirstOrDefault(source, cmp, value, dflt) == source[j];
      FirstMatchUnique(source, cmp, value, i, j);
    }
  }

  /**
   * FirstOrDefault(source, comparer, value, defaultValueFactory): a foreach over
   * `source.Where(s => comparer.Equals(s, value))` that returns the first element it sees, else the
   * factory's result. `compared` counts the elements pulled, each of which the comparer saw once.
   */
  method FirstOrDefaultWithFactory<T>(source: seq<T>, cmp: (T, T) -> bool, value: T, factory: () -> T)
    returns (r: T, compared: nat, factoryCalled: bool)
    ensures compared <= |source|
    ensures factoryCalled <==> NoMatch(source, cmp, value)
    ensures factoryCalled ==> r == factory() && compared == |source|
    ensures !factoryCalled ==> IsFirstMatch(source, cmp, value, compared - 1) && r == source[compared - 1]
  {
    compared := 0;
    while compared < |source|
      invariant compared <= |source|
      invariant forall j :: 0 <= j < compared ==> !cmp(source[j], value)
    {
      var s := source[compared];
      compared := compared + 1;
      if cmp(s, value) {
        return s, compared, false;
      }
    }
    r, factoryCalled := factory(), true;
  }

  // ----- FirstOrDefault over key/value pairs -----

  /** KeyValuePair<TKey, TValue>: a struct, so never null itself; key and value may be. */
  datatype KeyValuePair<K, V> = KeyValuePair(key: Option<K>, value: Option<V>)

  /** KeyValuePair as a C# type: default is the pair of defaults; Equals compares field by field. */
  function PairType<K, V>(keys: O.TypeInfo<K>, values: O.TypeInfo<V>): (ty: O.TypeInfo<KeyValuePair<K, V>>)
    ensures ty.dflt == Some(KeyValuePair(keys.dflt, values.dflt))
  {
    O.TypeInfo(
      Some(KeyValuePair(keys.dflt, values.dflt)),
      (p: KeyValuePair<K, V>, q: KeyValuePair<K, V>) =>
        O.ObjectEquals(keys, p.key, q.key) && O.ObjectEquals(values, p.value, q.value))
  }

  /** The pair equals default(KeyValuePair) by ValueType.Equals. */
  predicate IsDefaultPair<K, V>(kv: KeyValuePair<K, V>, keys: O.TypeInfo<K>, values: O.TypeInfo<V>)
  {
    O.ObjectEquals(keys, kv.key, keys.dflt) && O.ObjectEquals(values, kv.value, values.dflt)
  }

  ghost predicate IsFirstKeyMatch<K, V>(source: seq<KeyValuePair<K, V>>, keyEq: O.Comparer<K>, needle: Option<K>, i: int)
  {
    0 <= i < |source| && keyEq(source[i].key, needle) && forall j :: 0 <= j < i ==> !keyEq(source[j].key, needle)
  }

  ghost predicate NoKeyMatch<K, V>(source: seq<KeyValuePair<K, V>>, keyEq: O.Comparer<K>, needle: Option<K>)
  {
    forall j :: 0 <= j < |source| ==> !keyEq(source[j].key, needle)
  }

  /**
   * `source.FirstOrDefault(kv => keyEq(kv.Key, needle)).SelectOrDefault(kv => kv.Value)`, shared by
   * both key/value overloads. SelectOrDefault tests the found pair against default(KeyValuePair), so
   * a match that is itself an all-default pair yields default(TValue).
   */
  function ValueOfFirstKey<K, V>(source: seq<KeyValuePair<K, V>>, keyEq: O.Comparer<K>, needle: Option<K>,
                                 keys: O.TypeInfo<K>, values: O.TypeInfo<V>): (r: Option<V>)
    ensures NoKeyMatch(source, keyEq, needle) ==> r == values.dflt
    ensures !NoKeyMatch(source, keyEq, needle) ==> exists i :: (IsFirstKeyMatch(source, keyEq, needle, i)
      && r == if IsDefaultPair(source[i], keys, values) then values.dflt else source[i].value)
  {
    var pred := (kv: KeyValuePair<K, V>) => keyEq(kv.key, needle);
    var k := Linq.FirstIndex(source, pred);
    var found := if k.Some? then source[k.value] else KeyValuePair(keys.dflt, values.dflt);
    assert k.Some? ==> IsFirstKeyMatch(source, keyEq, needle, k.value);
    O.SelectOrDefault(Some(found), (kv: KeyValuePair<K, V>) => kv.value, Option.None, PairType(keys, values), values.dflt).value
  }

  /** Only one position can hold the first pair whose key matches. */
  lemma FirstKeyMatchUnique<K, V>(source: seq<KeyValuePair<K, V>>, keyEq: O.Comparer<K>, needle: Option<K>)
    ensures forall i, j :: IsFirstKeyMatch(source, keyEq, needle, i) && IsFirstKeyMatch(source, keyEq, needle, j) ==> i == j
  {
  }

  /** The key test of the overload without a comparer: static object.Equals(kv.Key, needle). */
  function StaticKeyEquals<K>(keys: O.TypeInfo<K>): O.Comparer<K>
  {
    (a: Option<K>, b: Option<K>) => O.ObjectEquals(keys, a, b)
  }

  /** FirstOrDefault(source, needle): keys compared by static object.Equals(kv.Key, needle). */
  function FirstOrDefaultByKey<K, V>(source: seq<KeyValuePair<K, V>>, needle: Option<K>,
                                     keys: O.TypeInfo<K>, values: O.TypeInfo<V>): (r: Option<V>)
    ensures NoKeyMatch(source, StaticKeyEquals(keys), needle) ==> r == values.dflt
    ensures forall i :: (IsFirstKeyMatch(source, StaticKeyEquals(keys), needle, i)
      ==> r == if IsDefaultPair(source[i], keys, values) then values.dflt else source[i].value)
  {
    FirstOrDefaultByKeyWith(source, StaticKeyEquals(keys), needle, keys, values)
  }

  /** FirstOrDefault(source, comparer, needle): keys compared by comparer.Equals(kv.Key, needle). */
  function FirstOrDefaultByKeyWith<K, V>(source: seq<KeyValuePair<K, V>>, comparer: O.Comparer<K>, needle: Option<K>,
                                         keys: O.TypeInfo<K>, values: O.TypeInfo<V>): (r: Option<V>)
    ensures NoKeyMatch(source, comparer, needle) ==> r == values.dflt
    ensures forall i :: (IsFirstKeyMatch(source, comparer, needle, i)
      ==> r == if IsDefaultPair(source[i], keys, values) then values.dflt else source[i].value)
  {
    FirstKeyMatchUnique(source, comparer, needle);
    ValueOfFirstKey(source, comparer, needle, keys, values)
  }

  /** TValue's Equals is plain equality (as for every type that does not override it oddly). */
  ghost predicate Lawful<V(!new)>(values: O.TypeInfo<V>)
  {
    forall a, b :: values.equals(a, b) ==> a == b
  }

  /**
   * For a lawful value type the all-default-pair edge is invisible: the lookup returns the value of
   * the first pair whose key matches.
   */
  lemma FirstOrDefaultByKeyIsFirstValue<K, V(!new)>(source: seq<KeyValuePair<K, V>>, comparer: O.Comparer<K>, needle: Option<K>,
                                            keys: O.TypeInfo<K>, values: O.TypeInfo<V>, i: int)
    requires Lawful(values)
    requires IsFirstKeyMatch(source, comparer, needle, i)
    ensures FirstOrDefaultByKeyWith(source, comparer, needle, keys, values) == source[i].value
  {
    if IsDefaultPair(source[i], keys, values) {
      match (source[i].value, values.dflt)
      case (Some(a), Some(b)) => assert values.equals(a, b);
      case _ =>
    }
  }

  // ----- Do, Prepend, Append, Safe -----

  /** What happens when a consumer pulls through Do: the action runs, then the element is yielded. */
  datatype DoStep<T> = Acted(item: T) | Yielded(item: T)

  /**
   * Do(source, action), pulled `demand` times: each pull takes one source element, runs the action
   * on it and yields it, so a downstream callback runs right after each Yielded step.
   */
  method Do<T>(source: seq<T>, demand: nat) returns (trace: seq<DoStep<T>>)
    ensures |trace| == 2 * Min(demand, |source|)
    ensures forall i :: 0 <= i < Min(demand, |source|) ==> trace[2 * i] == Acted(source[i]) && trace[2 * i + 1] == Yielded(source[i])
  {
    trace := [];
    var pulled := 0;
    while pulled < |source| && pulled < demand
      invariant pulled <= Min(demand, |source|)
      invariant |trace| == 2 * pulled
      invariant forall i :: 0 <= i < pulled ==> trace[2 * i] == Acted(source[i]) && trace[2 * i + 1] == Yielded(source[i])
    {
      var v := source[pulled];
      trace := trace + [Acted(v)];
      trace := trace + [Yielded(v)];
      pulled := pulled + 1;
    }
  }

  /**
   * Prepend(source, value), pulled `demand` times: `value` first, then the source's elements;
   * `pulled` counts the elements taken from the source.
   */
  method Prepend<T>(source: seq<T>, value: T, demand: nat) returns (yielded: seq<T>, pulled: nat)
    ensures yielded == ([value] + source)[..Min(demand, |source| + 1)]
    ensures pulled == Max(0, |yielded| - 1)
  {
    yielded, pulled := [], 0;
    if demand == 0 {
      return;
    }
    yielded := [value];
    while pulled < |source| && |yielded| < demand
      invariant pulled <= |source| && |yielded| == pulled + 1 <= Max(demand, 1)
      invariant yielded == ([value] + source)[..pulled + 1]
    {
      yielded := yielded + [source[pulled]];
      pulled := pulled + 1;
    }
  }

  /** Append(source, value), pulled `demand` times: the source's elements, then `value`. */
  method Append<T>(source: seq<T>, value: T, demand: nat) returns (yielded: seq<T>, pulled: nat)
    ensures yielded == (source + [value])[..Min(demand, |source| + 1)]
    ensures pulled == Min(demand, |source|)
  {
    yielded, pulled := [], 0;
    while pulled < |source| && pulled < demand
      invariant pulled <= Min(demand, |source|)
      invariant yielded == source[..pulled]
    {
      yielded := yielded + [source[pulled]];
      pulled := pulled + 1;
    }
    if pulled < demand {
      yielded := yielded + [value];
    }
  }

  /** Safe(source): `source ?? Enumerable.Empty()`. */
  function Safe<T>(source: Option<seq<T>>): (r: seq<T>)
    ensures source.None? ==> r == []
    ensures source.Some? ==> r == source.value
  {
    if source.Some? then source.value else []
  }

  /** Safe never yields null, so applying it twice changes nothing. */
  lemma SafeIdempotent<T>(source: Option<seq<T>>)
    ensures Safe(Some(Safe(source))) == Safe(source)
  {
  }

  // ----- Require -----

  /**
   * Require(source, count): the counter is tested only after an element is pulled, so an empty
   * source is rejected whatever `count` is, and the scan stops at the element that reaches `count`.
   */
  method Require<T>(source: seq<T>, count: int) returns (ok: bool, pulled: nat)
    ensures ok <==> 0 < |source| && count <= |source|
    ensures ok ==> pulled == Max(count, 1)
    ensures !ok ==> pulled == |source|
  {
    var i := 0;
    pulled := 0;
    while pulled < |source|
      invariant pulled <= |source| && i == pulled
      invariant pulled == 0 || pulled < count
    {
      pulled := pulled + 1;
      i := i + 1;
      if i >= count {
        return true, pulled;
      }
    }
    ok := false;
  }

  /**
   * Require(source, count, predicate): `tested` is the prefix the predicate was called on, once per
   * element. The scan stops at the first element at which the number of matches reaches `count`.
   */
  method RequireMatching<T>(source: seq<T>, count: int, pred: T -> bool) returns (ok: bool, tested: seq<T>)
    ensures |tested| <= |source| && tested == source[..|tested|]
    ensures ok <==> 0 < |source| && count <= Linq.CountWhere(source, pred)
    ensures ok ==> 0 < |tested| && count <= Linq.CountWhere(tested, pred)
    ensures ok ==> forall k :: 0 < k < |tested| ==> Linq.CountWhere(source[..k], pred) < count
    ensures !ok ==> tested == source
  {
    var i := 0;
    var n := 0;
    while n < |source|
      invariant n <= |source|
      invariant i == Linq.CountWhere(source[..n], pred)
      invariant forall k :: 0 < k <= n ==> Linq.CountWhere(source[..k], pred) < count
    {
      var v := source[n];
      assert source[..n + 1][..n] == source[..n];
      if pred(v) {
        i := i + 1;
      }
      n := n + 1;
      if i >= count {
        Linq.CountWherePrefix(source, n, pred);
        return true, source[..n];
      }
    }
    assert source[..n] == source;
    ok, tested := false, source;
  }

  /** Without a predicate Require counts every element: it is Require with an always-true predicate. */
  lemma RequireCountsEveryElement<T>(source: seq<T>)
    ensures Linq.CountWhere(source, (x: T) => true) == |source|
  {
    Linq.CountWhereAll(source, (x: T) => true);
  }

  // ----- Distribute, DistributeWithOverflow -----

  /** Which delegate received an element: the action at a position of the `actions` array, or `overflow`. */
  datatype Target = ActionAt(index: nat) | Overflow

  datatype Dispatch<T> = Dispatch(target: Target, item: T)

  /**
   * Distribute(source, actions): the foreach pulls an element before it asks the action enumerator
   * for the next action, so when the actions run out one more element has been pulled.
   */
  method Distribute<T, A>(source: seq<T>, actions: seq<A>) returns (calls: seq<Dispatch<T>>, pulled: nat)
    ensures pulled == Min(|source|, |actions| + 1)
    ensures |calls| == Min(|source|, |actions|)
    ensures forall i :: 0 <= i < |calls| ==> calls[i] == Dispatch(ActionAt(i), source[i])
  {
    calls, pulled := [], 0;
    var next := 0;  // how many times the action enumerator has moved successfully
    while pulled < |source|
      invariant pulled <= |source| && next == pulled <= |actions|
      invariant |calls| == next
      invariant forall i :: 0 <= i < |calls| ==> calls[i] == Dispatch(ActionAt(i), source[i])
    {
      var item := source[pulled];
      pulled := pulled + 1;
      if next >= |actions| {
        return;
      }
      calls := calls + [Dispatch(ActionAt(next), item)];
      next := next + 1;
    }
  }

  /**
   * DistributeWithOverflow(source, overflow, actions): every element is pulled; the i-th goes to
   * actions[i] while there is one and to `overflow` afterwards.
   */
  method DistributeWithOverflow<T, A>(source: seq<T>, actions: seq<A>) returns (calls: seq<Dispatch<T>>)
    ensures |calls| == |source|
    ensures forall i :: 0 <= i < |source| ==>
      calls[i] == Dispatch(if i < |actions| then ActionAt(i) else Overflow, source[i])
  {
    calls := [];
    var next := 0;
    for pulled := 0 to |source|
      invariant next == Min(pulled, |actions|)
      invariant |calls| == pulled
      invariant forall i :: 0 <= i < pulled ==>
        calls[i] == Dispatch(if i < |actions| then ActionAt(i) else Overflow, source[i])
    {
      var item := source[pulled];
      if next >= |actions| {
        calls := calls + [Dispatch(Overflow, item)];
        continue;
      }
      calls := calls + [Dispatch(ActionAt(next), item)];
      next := next + 1;
    }
  }
}
