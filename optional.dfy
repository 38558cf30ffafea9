/** Nullable values and the error results of the write sequences. */
module Optional {

  datatype Option<+T> = None | Some(value: T)

  datatype Result<+T, +E> = Success(value: T) | Failure(error: E)

  /** `s || null`: an empty form field is stored as null. */
  function NullIfEmpty(s: string): (r: Option<string>)
    ensures r.None? <==> s == ""
    ensures r.Some? ==> r.value == s
  {
    if s == "" then None else Some(s)
  }

  /** `value || ''`: a null column is shown as an empty form field. */
  function OrEmpty(o: Option<string>): (r: string)
    ensures o.None? ==> r == ""
    ensures o.Some? ==> r == o.value
  {
    if o.Some? then o.value else ""
  }

  /** Loading a column into a form and saving it again gives back the column, except that an empty string becomes null. */
  lemma StoredValueRoundTrip(o: Option<string>)
    ensures NullIfEmpty(OrEmpty(o)) == (if o == Some("") then None else o)
  {
  }

  /** Saving a form field and loading it again gives back the field. */
  lemma FormValueRoundTrip(s: string)
    ensures OrEmpty(NullIfEmpty(s)) == s
  {
  }
}
