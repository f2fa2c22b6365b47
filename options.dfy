/** The optional value used throughout the library, and the flattening of a
    nested option (the `option` module of util.rs). */
module Options {

  datatype Option<+T> = None | Some(value: T)

  /** Collapses two layers of optionality into one: a value is present in the
      result exactly when both layers are present, and it is the inner value. */
  function Flatten<T>(o: Option<Option<T>>): (r: Option<T>)
    ensures r.Some? <==> o.Some? && o.value.Some?
    ensures r.Some? ==> r.value == o.value.value
  {
    match o
    case None => None
    case Some(v) => v
  }

  /** Flattening undoes wrapping with `Some`, and a missing outer layer stays
      missing. */
  lemma FlattenCases<T>(v: T, o: Option<T>)
    ensures Flatten(Some(o)) == o
    ensures Flatten<T>(None).None?
    ensures Flatten<T>(Some(None)).None?
    ensures Flatten(Some(Some(v))) == Some(v)
  {
  }
}
