/** FluffIt's static equality helper (StaticExtensions/ObjectEx.cs). */
module ObjectEx {
  import opened Common
  import O = ObjectExtensions

  /**
   * IEqualityComparer<T> as a C# type: an interface, so its default is null. Equals between two
   * comparers is not modelled; against a null default it is never consulted.
   */
  function ComparerType<T>(): (ty: O.TypeInfo<O.Comparer<T>>)
    ensures ty.dflt.None?
  {
    O.TypeInfo(None, (a: O.Comparer<T>, b: O.Comparer<T>) => false)
  }

  /**
   * ObjectEx.Equals(left, right, comparer), written in the source as
   * `comparer.SelectOrDefault(e => e.Equals(left, right), () => Equals(left, right))`.
   * The trace records which branch of that SelectOrDefault ran.
   */
  function Equals<T>(left: Option<T>, right: Option<T>, comparer: Option<O.Comparer<T>>, ty: O.TypeInfo<T>)
    : (r: O.Traced<bool, O.Comparer<T>>)
    ensures comparer.Some? ==> r.value == comparer.value(left, right)
    ensures comparer.Some? ==> r.calls == [O.Selected(comparer.value)]
    ensures comparer.None? ==> r.value == O.ObjectEquals(ty, left, right) && r.calls == [O.Produced]
  {
    O.SelectOrDefaultWithFactory(
      comparer,
      (e: O.Comparer<T>) => e(left, right),
      () => O.ObjectEquals(ty, left, right),
      None,
      ComparerType())
  }

  /** The arguments reach the comparer as (left, right): an asymmetric comparer tells the orders apart. */
  lemma EqualsKeepsArgumentOrder(ty: O.TypeInfo<int>)
    ensures var before := (a: Option<int>, b: Option<int>) => a.Some? && b.Some? && a.value == b.value - 1;
      && Equals(Some(0), Some(1), Some(before), ty).value
      && !Equals(Some(1), Some(0), Some(before), ty).value
  {
  }
}
