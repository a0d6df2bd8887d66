/**
 * The scenarios of FluffIt's unit tests, stated over the model. Each lemma or method holds the
 * outcome the corresponding test asserts; actions that add a constant to a counter are identified
 * with that constant.
 */
module Scenarios {
  import opened Common
  import Linq
  import O = ObjectExtensions
  import E = EnumerableExtensions
  import S = StringExtensions
  import D = DictionaryExtensions
  import B = StringBuilderExtensions

  /** The tests' FakeComparer: Equals(x, y) holds when x == y - 1. */
  function Fake(x: int, y: int): bool { x == y - 1 }

  // ----- A source of several values -----

  lemma FirstWithFakeComparer()
    ensures E.First([0, 1, 2], Fake, 3) == Success(2)
  {
  }

  lemma FirstOrDefaultWithFakeComparer()
    ensures E.FirstOrDefault([1, 2, 3], Fake, 4, 0) == 3
    ensures E.FirstOrDefault([1, 2, 3], Fake, 5, 0) == 0
  {
  }

  method FirstOrDefaultWithFactoryScenario() returns (found: int, fallback: int)
    ensures found == 3 && fallback == 4
  {
    var seq123: seq<int> := [1, 2, 3];
    assert !E.NoMatch(seq123, Fake, 4) by { assert Fake(seq123[2], 4); }
    var compared, called;
    found, compared, called := E.FirstOrDefaultWithFactory(seq123, Fake, 4, () => 5);
    fallback, compared, called := E.FirstOrDefaultWithFactory(seq123, Fake, 1, () => 4);
  }

  lemma NoneScenarios()
    ensures !E.None([1, 2, 3])
    ensures E.NoneMatching([1, 2, 3], (i: int) => i < 1 || i > 4)
  {
  }

  method ForEachCounts() returns (count: nat)
    ensures count == 3
  {
    var calls := E.ForEach([1, 2, 3]);
    count := |calls|;
  }

  /**
   * Do followed by ForEach: each Yielded step is where the ForEach callback runs, so the Do action
   * and the ForEach action alternate, element by element.
   */
  method DoThenForEach() returns (trace: seq<E.DoStep<int>>)
    ensures trace == [E.Acted(0), E.Yielded(0), E.Acted(1), E.Yielded(1), E.Acted(2), E.Yielded(2)]
  {
    var source := [0, 1, 2];
    trace := E.Do(source, 3);
    assert |trace| == 6;
    assert trace[2 * 0] == E.Acted(0) && trace[2 * 0 + 1] == E.Yielded(0);
    assert trace[2 * 1] == E.Acted(1) && trace[2 * 1 + 1] == E.Yielded(1);
    assert trace[2 * 2] == E.Acted(2) && trace[2 * 2 + 1] == E.Yielded(2);
  }

  method PrependAppendScenarios() returns (prepended: seq<int>, appended: seq<int>)
    ensures prepended == [-1, 0, 1, 2] && appended == [0, 1, 2, 3]
  {
    var pulled;
    prepended, pulled := E.Prepend([0, 1, 2], -1, 4);
    appended, pulled := E.Append([0, 1, 2], 3, 4);

  }

  /** The sum of what the dispatched actions add: actions[i] for ActionAt(i), `overflow` otherwise. */
  function Tally(calls: seq<E.Dispatch<int>>, actions: seq<int>, overflow: int): int
  {
    if calls == [] then 0
    else
      var last := calls[|calls| - 1];
      var add := match last.target
        case ActionAt(i) => if i < |actions| then actions[i] else 0
        case Overflow => overflow;
      Tally(calls[..|calls| - 1], actions, overflow) + add
  }

  /** Tally of three dispatches, unfolded. */
  lemma TallyOfThree(a: E.Dispatch<int>, b: E.Dispatch<int>, c: E.Dispatch<int>, actions: seq<int>, overflow: int)
    ensures Tally([a, b, c], actions, overflow) == Tally([a], actions, overflow) + Tally([b], actions, overflow) + Tally([c], actions, overflow)
  {
    assert [a, b, c][..2] == [a, b];
    assert [a, b][..1] == [a];
    assert [a][..0] == [];
  }

  method DistributeScenario() returns (total: int)
    ensures total == 9
  {
    var calls, pulled := E.Distribute([0, 1, 2], [1, 3, 5, 7]);
    assert calls == [E.Dispatch(E.ActionAt(0), 0), E.Dispatch(E.ActionAt(1), 1), E.Dispatch(E.ActionAt(2), 2)];
    total := Tally(calls, [1, 3, 5, 7], 0);
    TallyOfThree(calls[0], calls[1], calls[2], [1, 3, 5, 7], 0);
  }

  method DistributeWithOverflowScenarios() returns (spare: int, short: int)
    ensures spare == 15 && short == 5
  {
    var calls := E.DistributeWithOverflow([0, 1, 2], [3, 5, 7, 11]);
    assert calls == [E.Dispatch(E.ActionAt(0), 0), E.Dispatch(E.ActionAt(1), 1), E.Dispatch(E.ActionAt(2), 2)];
    spare := Tally(calls, [3, 5, 7, 11], 1);
    TallyOfThree(calls[0], calls[1], calls[2], [3, 5, 7, 11], 1);
    calls := E.DistributeWithOverflow([0, 1, 2], [3]);
    assert calls == [E.Dispatch(E.ActionAt(0), 0), E.Dispatch(E.Overflow, 1), E.Dispatch(E.Overflow, 2)];
    short := Tally(calls, [3], 1);
    TallyOfThree(calls[0], calls[1], calls[2], [3], 1);
  }

  // ----- A source of one value -----

  lemma SingleValueScenarios()
    ensures E.First([0], Fake, 1) == Success(0)
    ensures E.FirstOrDefault([1], Fake, 2, 0) == 1 && E.FirstOrDefault([1], Fake, 1, 0) == 0
    ensures !E.None([1]) && E.NoneMatching([1], (i: int) => i != 1)
  {
  }

  // ----- An empty source -----

  method EmptySourceScenarios() returns (prepended: seq<int>, appended: seq<int>, acted: seq<E.DoStep<int>>)
    ensures E.First([], Fake, 0).Failure? && E.FirstOrDefault([], Fake, 0, 0) == 0
    ensures E.None<int>([]) && E.NoneMatching([], (i: int) => false)
    ensures prepended == [0] && appended == [0] && acted == []
  {
    var pulled;
    prepended, pulled := E.Prepend([], 0, 1);
    appended, pulled := E.Append([], 0, 1);
    acted := E.Do([], 1);
  }

  // ----- Object combinators on strings, a reference type whose default is null -----

  lemma NullObjectScenarios()
    ensures O.DefaultWithFactory(Option.None, () => Some("1"), Option.None, S.StringType()).value == Some("1")
    ensures O.SelectOrDefault(Option.None, (s: string) => Some("1"), Option.None, S.StringType(), Option.None).value == Option.None
    ensures O.SelectOrDefaultWithFactory(Option.None, (s: string) => "1", () => "d", Option.None, S.StringType()).value == "d"
    ensures O.Maybe(Option.None, Option.None, S.StringType()) == []
  {
  }

  lemma ValidObjectScenarios()
    ensures O.DefaultWithFactory(Some("a"), () => Option.None, Option.None, S.StringType()).calls == []
    ensures O.SelectOrDefault(Some("a"), (s: string) => Some("1"), Option.None, S.StringType(), Option.None).value == Some("1")
    ensures O.SelectOrDefaultWithFactory(Some("a"), (s: string) => "1", () => "2", Option.None, S.StringType()).value == "1"
    ensures O.Maybe(Some("a"), Option.None, S.StringType()) == [O.Acted("a")]
  {
  }

  /**
   * `"a".As<GivenNullObject>()`: a string is no instance of the test class, so the cast gives null
   * and no action runs. `testClass` describes that class, a reference type whose default is null.
   */
  lemma AsScenarios<C>(testClass: O.TypeInfo<C>)
    requires testClass.dflt.None?
    ensures O.As(Some("a"), (s: string) => Option<C>.None) == Option.None
    ensures O.AsThen(Some("a"), (s: string) => Option<C>.None, testClass) == O.Traced(Some("a"), [])
  {
  }

  lemma DictionaryScenario()
    ensures D.Add(map[], 1, 5.6).Some?
    ensures D.GetOrDefault(D.Add(map[], 1, 5.6).value, 1, 0.0) == 5.6
    ensures D.GetOrDefault(D.Add(map[], 1, 5.6).value, 0, 0.0) == 0.0
  {
  }

  method StringBuilderLast() returns (last: Result<char, Linq.Error>, none: Result<char, Linq.Error>)
    ensures last == Success('d') && none == Failure(Linq.NoElements)
  {
    var chars := B.ToEnumerableAll("abcd");
    last := Linq.Last(chars);
    chars := B.ToEnumerableAll("");
    none := Linq.Last(chars);
  }
}
