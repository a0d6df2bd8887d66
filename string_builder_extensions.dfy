/** FluffIt's StringBuilder helper (StringBuilderExtensions.cs). A builder is its character sequence. */
module StringBuilderExtensions {
  import opened Common

  /**
   * ToEnumerable(builder), pulled `demand` times: an iterator whose loop yields builder[i] for
   * i = 0, 1, ... while i < builder.Length.
   */
  method ToEnumerable(builder: seq<char>, demand: nat) returns (yielded: seq<char>)
    ensures yielded == builder[..Min(demand, |builder|)]
  {
    yielded := [];
    var i := 0;
    while i < |builder| && |yielded| < demand
      invariant i <= Min(demand, |builder|)
      invariant yielded == builder[..i]
    {
      yielded := yielded + [builder[i]];
      i := i + 1;
    }
  }

  /** Enumerating to the end yields the builder's whole content. */
  method ToEnumerableAll(builder: seq<char>) returns (yielded: seq<char>)
    ensures yielded == builder
  {
    yielded := ToEnumerable(builder, |builder|);
    assert builder[..|builder|] == builder;
  }
}
