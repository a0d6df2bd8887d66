/**
 * The few LINQ operators (System.Linq.Enumerable) the extensions are built on, over a finite
 * source that is consumed front to back.
 */
module Linq {
  import opened Common

  /** The two InvalidOperationException cases of Enumerable.First and Enumerable.Last. */
  datatype Error = NoMatchingElement | NoElements

  /** Enumerable.Any(): the source yields at least one element. */
  function Any<T>(source: seq<T>): (r: bool)
    ensures r <==> source != []
  {
    |source| > 0
  }

  /**
   * The position at which a front-to-back scan for `pred` stops: the first element that
   * satisfies it, or None when no element does.
   */
  function FirstIndex<T>(source: seq<T>, pred: T -> bool): (r: Option<nat>)
    ensures r.Some? ==> r.value < |source| && pred(source[r.value])
    ensures r.Some? ==> forall j :: 0 <= j < r.value ==> !pred(source[j])
    ensures r.None? <==> forall j :: 0 <= j < |source| ==> !pred(source[j])
  {
    if source == [] then None
    else if pred(source[0]) then Some(0)
    else
      match FirstIndex(source[1..], pred)
      case None =>
        assert forall j :: 1 <= j < |source| ==> source[j] == source[1..][j - 1];
        None
      case Some(i) =>
        assert forall j :: 1 <= j < i + 1 ==> source[j] == source[1..][j - 1];
        Some(i + 1)
  }

  /** Enumerable.Any(predicate): some element satisfies the predicate. */
  function AnyMatching<T>(source: seq<T>, pred: T -> bool): (r: bool)
    ensures r <==> exists i :: 0 <= i < |source| && pred(source[i])
  {
    FirstIndex(source, pred).Some?
  }

  /** Enumerable.First(predicate): the first matching element, or an InvalidOperationException. */
  function First<T>(source: seq<T>, pred: T -> bool): (r: Result<T, Error>)
    ensures r.Failure? <==> forall j :: 0 <= j < |source| ==> !pred(source[j])
    ensures r.Failure? ==> r.error == NoMatchingElement
    ensures r.Success? ==> FirstIndex(source, pred).Some? && r.value == source[FirstIndex(source, pred).value]
  {
    match FirstIndex(source, pred)
    case Some(i) => Success(source[i])
    case None => Failure(NoMatchingElement)
  }

  /** Enumerable.Last(): the final element, or an InvalidOperationException on an empty source. */
  function Last<T>(source: seq<T>): (r: Result<T, Error>)
    ensures r.Failure? <==> source == []
    ensures r.Failure? ==> r.error == NoElements
    ensures r.Success? ==> r.value == source[|source| - 1]
  {
    if source == [] then Failure(NoElements) else Success(source[|source| - 1])
  }

  /** How many elements of `source` satisfy `pred`; defined by the last element, as a scan counts. */
  function CountWhere<T>(source: seq<T>, pred: T -> bool): nat
  {
    if source == [] then 0
    else CountWhere(source[..|source| - 1], pred) + (if pred(source[|source| - 1]) then 1 else 0)
  }

  /** Counting over a concatenation adds up. */
  lemma {:induction false} CountWhereConcat<T>(a: seq<T>, b: seq<T>, pred: T -> bool)
    ensures CountWhere(a + b, pred) == CountWhere(a, pred) + CountWhere(b, pred)
  {
    if b == [] {
      assert a + b == a;
    } else {
      assert (a + b)[..|a + b| - 1] == a + b[..|b| - 1];
      CountWhereConcat(a, b[..|b| - 1], pred);
    }
  }

  /** A prefix never has more matches than the whole sequence. */
  lemma {:induction false} CountWherePrefix<T>(source: seq<T>, k: nat, pred: T -> bool)
    requires k <= |source|
    ensures CountWhere(source[..k], pred) <= CountWhere(source, pred)
  {
    assert source == source[..k] + source[k..];
    CountWhereConcat(source[..k], source[k..], pred);
  }

  /** When every element matches, the count is the length. */
  lemma {:induction false} CountWhereAll<T>(source: seq<T>, pred: T -> bool)
    requires forall i :: 0 <= i < |source| ==> pred(source[i])
    ensures CountWhere(source, pred) == |source|
  {
    if source != [] {
      CountWhereAll(source[..|source| - 1], pred);
    }
  }
}
