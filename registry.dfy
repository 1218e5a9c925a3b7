/**
 * Namespace authentication, shared by both configuration layouts: look the
 * namespace up by name and accept it only when the supplied key is exactly the
 * stored one. An unknown name and a wrong key fail alike.
 */
module Registry {
  import opened Wrappers

  /** `NamespaceDefinition::auth`, for a definition type whose key `keyOf` reads. */
  function Authenticate<D>(namespaces: map<string, D>, name: string, key: string, keyOf: D -> string): (r: Option<D>)
    ensures r.Some? <==> name in namespaces && keyOf(namespaces[name]) == key
    ensures r.Some? ==> r.value == namespaces[name]
  {
    if name !in namespaces then None
    else if keyOf(namespaces[name]) != key then None
    else Some(namespaces[name])
  }

  /**
   * A caller cannot tell an unknown namespace from a wrong key: both give the
   * same answer, and a namespace with another key gives it too.
   */
  lemma {:induction false} FailuresIndistinguishable<D>(namespaces: map<string, D>, keyOf: D -> string,
                                     unknown: string, known: string, wrongKey: string, anyKey: string)
    requires unknown !in namespaces
    requires known in namespaces && keyOf(namespaces[known]) != wrongKey
    ensures Authenticate(namespaces, unknown, anyKey, keyOf) == Authenticate(namespaces, known, wrongKey, keyOf) == None
  {
  }
}
