/**
 * FluffIt's string helpers (StringExtensions.cs). A C# string reference is an
 * `Option<string>`: `None` is null, and default(string) is null.
 */
module StringExtensions {
  import opened Common
  import O = ObjectExtensions

  /** System.String as a C# type: a reference type compared by ordinal value equality. */
  function StringType(): (ty: O.TypeInfo<string>)
    ensures ty.dflt.None?
    ensures forall a, b :: ty.equals(a, b) <==> a == b
  {
    O.TypeInfo(Option.None, (a: string, b: string) => a == b)
  }

  /** IsNullOrEmpty(source): string.IsNullOrEmpty. */
  function IsNullOrEmpty(source: Option<string>): (r: bool)
    ensures r <==> source.None? || source.value == ""
  {
    match source
    case None => true
    case Some(s) => |s| == 0
  }

  /** Safe(source): `source.Default(string.Empty)`, with no comparer. */
  function Safe(source: Option<string>): (r: string)
    ensures source.None? ==> r == ""
    ensures source.Some? ==> r == source.value
  {
    var d := O.DefaultWithValue(source, Some(""), Option.None, StringType()).value;
    assert d.Some?;
    d.value
  }

  /**
   * Safe only replaces null: because default(string) is null rather than "", an empty string is
   * passed through too, so Safe is the identity on every non-null string and idempotent.
   */
  lemma SafeOnlyReplacesNull(source: Option<string>)
    ensures Safe(Some(Safe(source))) == Safe(source)
    ensures source.Some? ==> Some(Safe(source)) == source
    ensures IsNullOrEmpty(source) <==> Safe(source) == ""
  {
  }
}
