/**
 * FluffIt's null/default-aware combinators (ObjectExtensions.cs).
 *
 * A possibly-null value of a C# type T is an `Option<T>`, None being the null reference. What the
 * combinators need to know about T itself is a `TypeInfo<T>`: default(T) (null for reference and
 * nullable types) and T's own `Equals`. Comparers, selectors and factories are Dafny functions. An
 * action is not passed in: the combinator returns the `Acted` event it would receive. Every
 * invocation is recorded, in order, in the trace each combinator returns.
 */
module ObjectExtensions {
  import opened Common
  import Linq

  /**
   * The run-time facts about a C# type T the combinators depend on: its default value, and
   * `a.Equals(b)` for two non-null values (the virtual Equals that static object.Equals calls).
   */
  datatype TypeInfo<!T> = TypeInfo(dflt: Option<T>, equals: (T, T) -> bool)

  /** IEqualityComparer<T>.Equals; either argument may be null. */
  type Comparer<!T> = (Option<T>, Option<T>) -> bool

  /** `v` is a value of type T: null occurs only in a type whose default is null. */
  predicate Admits<T>(ty: TypeInfo<T>, v: Option<T>)
  {
    v.Some? || ty.dflt.None?
  }

  /** Static object.Equals(a, b): both null, or both non-null and a.Equals(b). */
  function ObjectEquals<T>(ty: TypeInfo<T>, a: Option<T>, b: Option<T>): (r: bool)
    ensures a.None? && b.None? ==> r
    ensures a.None? != b.None? ==> !r
    ensures a.Some? && b.Some? ==> r == ty.equals(a.value, b.value)
  {
    match (a, b)
    case (None, None) => true
    case (Some(x), Some(y)) => ty.equals(x, y)
    case _ => false
  }

  /** One invocation of a caller-supplied delegate. */
  datatype Event<T> =
    | Compared(left: Option<T>, right: Option<T>)  // the comparer's Equals(left, right)
    | Selected(arg: T)                             // the selector, on the source
    | Produced                                     // the default-value factory
    | Acted(arg: T)                                // the action, on the source

  /** A result together with the delegate invocations that produced it. */
  datatype Traced<R, T> = Traced(value: R, calls: seq<Event<T>>)

  /** The comparer is consulted exactly when the source is non-null and a comparer is given. */
  function ComparerCalls<T>(src: Option<T>, ty: TypeInfo<T>, cmp: Option<Comparer<T>>): seq<Event<T>>
  {
    if src.Some? && cmp.Some? then [Compared(src, ty.dflt)] else []
  }

  /**
   * IsNullOrDefault. C# precedence makes the source's expression read
   * `(source == null || comparer == null) ? Equals(source, default) : comparer.Equals(source, default)`,
   * and this is that expression.
   */
  function IsNullOrDefault<T>(src: Option<T>, ty: TypeInfo<T>, cmp: Option<Comparer<T>>): (r: Traced<bool, T>)
    ensures src.None? && Admits(ty, src) ==> r.value
    ensures src.Some? && cmp.None? ==> r.value == (ty.dflt.Some? && ty.equals(src.value, ty.dflt.value))
    ensures src.Some? && cmp.Some? ==> r.value == cmp.value(src, ty.dflt)
    ensures r.calls == ComparerCalls(src, ty, cmp)
  {
    if src.None? || cmp.None? then Traced(ObjectEquals(ty, src, ty.dflt), [])
    else Traced(cmp.value(src, ty.dflt), [Compared(src, ty.dflt)])
  }

  /** The reading the documentation describes: null first, then the default test. */
  function IsNullOrDefaultAsDocumented<T>(src: Option<T>, ty: TypeInfo<T>, cmp: Option<Comparer<T>>): bool
  {
    src.None? || (if cmp.Some? then cmp.value(src, ty.dflt) else ObjectEquals(ty, src, ty.dflt))
  }

  /** The precedence slip is harmless: on every well-typed source both readings agree. */
  lemma IsNullOrDefaultMatchesDocumentation<T>(src: Option<T>, ty: TypeInfo<T>, cmp: Option<Comparer<T>>)
    requires Admits(ty, src)
    ensures IsNullOrDefault(src, ty, cmp).value == IsNullOrDefaultAsDocumented(src, ty, cmp)
  {
  }

  /** The source counts as present: neither null nor default. */
  predicate Present<T>(src: Option<T>, ty: TypeInfo<T>, cmp: Option<Comparer<T>>)
  {
    !IsNullOrDefault(src, ty, cmp).value
  }

  /** Default(source, defaultValueFactory, comparer). */
  function DefaultWithFactory<T>(src: Option<T>, factory: () -> Option<T>, cmp: Option<Comparer<T>>, ty: TypeInfo<T>)
    : (r: Traced<Option<T>, T>)
    ensures Present(src, ty, cmp) ==> r.value == src && r.calls == ComparerCalls(src, ty, cmp)
    ensures !Present(src, ty, cmp) ==> r.value == factory() && r.calls == ComparerCalls(src, ty, cmp) + [Produced]
  {
    var test := IsNullOrDefault(src, ty, cmp);
    if test.value then Traced(factory(), test.calls + [Produced]) else Traced(src, test.calls)
  }

  /** Default(source, defaultValue, comparer). */
  function DefaultWithValue<T>(src: Option<T>, defaultValue: Option<T>, cmp: Option<Comparer<T>>, ty: TypeInfo<T>)
    : (r: Traced<Option<T>, T>)
    ensures r.value == (if IsNullOrDefault(src, ty, cmp).value then defaultValue else src)
    ensures Present(src, ty, cmp) ==> r.value == src
    ensures r.calls == ComparerCalls(src, ty, cmp)
  {
    var test := IsNullOrDefault(src, ty, cmp);
    Traced(if test.value then defaultValue else src, test.calls)
  }

  /** SelectOrDefault(source, selector, comparer): default(TResult) stands for an absent source. */
  function SelectOrDefault<T, R>(src: Option<T>, selector: T -> R, cmp: Option<Comparer<T>>, ty: TypeInfo<T>, resultDefault: R)
    : (r: Traced<R, T>)
    requires Admits(ty, src)
    ensures Present(src, ty, cmp) ==> src.Some? && r.value == selector(src.value)
    ensures Present(src, ty, cmp) ==> r.calls == ComparerCalls(src, ty, cmp) + [Selected(src.value)]
    ensures !Present(src, ty, cmp) ==> r.value == resultDefault && r.calls == ComparerCalls(src, ty, cmp)
  {
    var test := IsNullOrDefault(src, ty, cmp);
    if test.value then Traced(resultDefault, test.calls)
    else Traced(selector(src.value), test.calls + [Selected(src.value)])
  }

  /** SelectOrDefault(source, selector, defaultValueFactory, comparer). */
  function SelectOrDefaultWithFactory<T, R>(src: Option<T>, selector: T -> R, factory: () -> R, cmp: Option<Comparer<T>>, ty: TypeInfo<T>)
    : (r: Traced<R, T>)
    requires Admits(ty, src)
    ensures Present(src, ty, cmp) ==> src.Some? && r.value == selector(src.value)
    ensures Present(src, ty, cmp) ==> r.calls == ComparerCalls(src, ty, cmp) + [Selected(src.value)]
    ensures !Present(src, ty, cmp) ==> r.value == factory() && r.calls == ComparerCalls(src, ty, cmp) + [Produced]
  {
    var test := IsNullOrDefault(src, ty, cmp);
    if test.value then Traced(factory(), test.calls + [Produced])
    else Traced(selector(src.value), test.calls + [Selected(src.value)])
  }

  /** SelectOrDefault(source, selector, defaultValue, comparer). */
  function SelectOrDefaultWithValue<T, R>(src: Option<T>, selector: T -> R, defaultValue: R, cmp: Option<Comparer<T>>, ty: TypeInfo<T>)
    : (r: Traced<R, T>)
    requires Admits(ty, src)
    ensures Present(src, ty, cmp) ==> src.Some? && r.value == selector(src.value)
    ensures Present(src, ty, cmp) ==> r.calls == ComparerCalls(src, ty, cmp) + [Selected(src.value)]
    ensures !Present(src, ty, cmp) ==> r.value == defaultValue && r.calls == ComparerCalls(src, ty, cmp)
  {
    var test := IsNullOrDefault(src, ty, cmp);
    if test.value then Traced(defaultValue, test.calls)
    else Traced(selector(src.value), test.calls + [Selected(src.value)])
  }

  /** Maybe(source, action, comparer): the action's invocations, if any. */
  function Maybe<T>(src: Option<T>, cmp: Option<Comparer<T>>, ty: TypeInfo<T>): (calls: seq<Event<T>>)
    requires Admits(ty, src)
    ensures Present(src, ty, cmp) ==> src.Some? && calls == ComparerCalls(src, ty, cmp) + [Acted(src.value)]
    ensures !Present(src, ty, cmp) ==> calls == ComparerCalls(src, ty, cmp)
  {
    var test := IsNullOrDefault(src, ty, cmp);
    if test.value then test.calls else test.calls + [Acted(src.value)]
  }

  /**
   * As<TResult>(source): `source as TResult`. Whether a non-null value is an instance of TResult is
   * the CLR's business; `cast` stands for it, giving None when the value is not one.
   */
  function As<S, R>(src: Option<S>, cast: S -> Option<R>): (r: Option<R>)
    ensures src.None? ==> r.None?
    ensures src.Some? ==> r == cast(src.value)
    ensures src.Some? && cast(src.value).None? ==> r.None?
    ensures r.Some? ==> src.Some? && cast(src.value) == r
  {
    if src.None? then None else cast(src.value)
  }

  /**
   * As<TSource, TResult>(source, maybe): casts, runs `maybe` on a successful cast through Maybe,
   * and returns the original source. `rty` describes TResult, which the source constrains to a
   * class (so its default is null).
   */
  function AsThen<S, R>(src: Option<S>, cast: S -> Option<R>, rty: TypeInfo<R>): (r: Traced<Option<S>, R>)
    requires rty.dflt.None?
    ensures r.value == src
    ensures As(src, cast).Some? ==> r.calls == [Acted(As(src, cast).value)]
    ensures As(src, cast).None? ==> r.calls == []
  {
    var result := As(src, cast);
    Traced(src, Maybe(result, None, rty))
  }

  // ----- Properties relating the combinators -----

  /** For a null source the answer is "null or default" and no comparer is consulted. */
  lemma NullIsNullOrDefault<T>(ty: TypeInfo<T>, cmp: Option<Comparer<T>>)
    requires ty.dflt.None?
    ensures IsNullOrDefault(None, ty, cmp) == Traced(true, [])
  {
  }

  /** Default with a factory: the factory runs exactly once when the source is absent, never otherwise. */
  lemma {:induction false} DefaultWithFactoryLaziness<T>(src: Option<T>, factory: () -> Option<T>, cmp: Option<Comparer<T>>, ty: TypeInfo<T>)
    ensures Linq.CountWhere(DefaultWithFactory(src, factory, cmp, ty).calls, (e: Event<T>) => e.Produced?)
            == if Present(src, ty, cmp) then 0 else 1
  {
    var calls := ComparerCalls(src, ty, cmp);
    var isFactory := (e: Event<T>) => e.Produced?;
    assert Linq.CountWhere(calls, isFactory) == 0 by {
      if calls != [] {
        assert calls[..0] == [];
      }
    }
    if !Present(src, ty, cmp) {
      var produced: seq<Event<T>> := [Produced];
      Linq.CountWhereConcat(calls, produced, isFactory);
      assert produced[..0] == [];
    }
  }

  /** Default with a value agrees with Default with a factory that returns that value. */
  lemma DefaultWithValueIsConstantFactory<T>(src: Option<T>, defaultValue: Option<T>, cmp: Option<Comparer<T>>, ty: TypeInfo<T>)
    ensures DefaultWithValue(src, defaultValue, cmp, ty).value == DefaultWithFactory(src, () => defaultValue, cmp, ty).value
  {
  }

  /** Exactly one of selector and factory is invoked, and it is the selector iff the source is present. */
  lemma {:induction false} SelectOrDefaultInvokesExactlyOne<T, R>(src: Option<T>, selector: T -> R, factory: () -> R, cmp: Option<Comparer<T>>, ty: TypeInfo<T>)
    requires Admits(ty, src)
    ensures var calls := SelectOrDefaultWithFactory(src, selector, factory, cmp, ty).calls;
      && Linq.CountWhere(calls, (e: Event<T>) => e.Selected?) == (if Present(src, ty, cmp) then 1 else 0)
      && Linq.CountWhere(calls, (e: Event<T>) => e.Produced?) == (if Present(src, ty, cmp) then 0 else 1)
  {
    var prefix := ComparerCalls(src, ty, cmp);
    var isSelector := (e: Event<T>) => e.Selected?;
    var isFactory := (e: Event<T>) => e.Produced?;
    var last := if Present(src, ty, cmp) then Selected(src.value) else Produced;
    Linq.CountWhereConcat(prefix, [last], isSelector);
    Linq.CountWhereConcat(prefix, [last], isFactory);
    assert [last][..0] == [];
    if prefix != [] {
      assert prefix[..0] == [];
    }
  }

  /** Maybe runs the action exactly once, on the source, iff it is present, and never otherwise. */
  lemma {:induction false} MaybeActsOnceIffPresent<T>(src: Option<T>, cmp: Option<Comparer<T>>, ty: TypeInfo<T>)
    requires Admits(ty, src)
    ensures Linq.CountWhere(Maybe(src, cmp, ty), (e: Event<T>) => e.Acted?) == (if Present(src, ty, cmp) then 1 else 0)
    ensures forall e | e in Maybe(src, cmp, ty) && e.Acted? :: e == Acted(src.value)
  {
    var prefix := ComparerCalls(src, ty, cmp);
    var isAction := (e: Event<T>) => e.Acted?;
    if prefix != [] {
      assert prefix[..0] == [];
    }
    if Present(src, ty, cmp) {
      Linq.CountWhereConcat(prefix, [Acted(src.value)], isAction);
      assert [Acted(src.value)][..0] == [];
    }
  }
}
