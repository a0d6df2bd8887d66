/** FluffIt's dictionary helper (DictionaryExtensions.cs). A Dictionary is a finite map. */
module DictionaryExtensions {
  import opened Common

  /** GetOrDefault(dictionary, key): the value TryGetValue finds, else default(TValue). */
  function GetOrDefault<K, V>(dictionary: map<K, V>, key: K, dflt: V): (r: V)
    ensures key in dictionary ==> r == dictionary[key]
    ensures key !in dictionary ==> r == dflt
  {
    if key in dictionary then dictionary[key] else dflt
  }

  /**
   * Dictionary.Add(key, value), which throws ArgumentException on a key already present; `None` is
   * that exception.
   */
  function Add<K, V>(dictionary: map<K, V>, key: K, value: V): (r: Option<map<K, V>>)
    ensures key in dictionary <==> r.None?
    ensures r.Some? ==> r.value.Keys == dictionary.Keys + {key}
    ensures r.Some? ==> r.value[key] == value && forall k :: k in dictionary ==> r.value[k] == dictionary[k]
  {
    if key in dictionary then None else Some(dictionary[key := value])
  }

  /** After Add, GetOrDefault finds the added value at its key and leaves every other lookup as before. */
  lemma GetOrDefaultAfterAdd<K, V>(dictionary: map<K, V>, key: K, value: V, other: K, dflt: V)
    requires key !in dictionary
    ensures Add(dictionary, key, value).Some?
    ensures GetOrDefault(Add(dictionary, key, value).value, key, dflt) == value
    ensures other != key ==> GetOrDefault(Add(dictionary, key, value).value, other, dflt) == GetOrDefault(dictionary, other, dflt)
  {
  }
}
