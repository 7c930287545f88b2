/** Values standing for absent data and for the answers of remote services. */
module Wrappers {

  /** A value that may be absent: JavaScript's `null` / `undefined`. */
  datatype Option<+T> = None | Some(value: T) {
    function GetOr(default: T): T {
      match this
      case Some(v) => v
      case None => default
    }
  }

  /** The answer of a remote read (record store, object store, auth service).
      `Err(message)` stands for both an error result and a thrown exception;
      `message` is `None` when the thrown value carries no message (it is not
      an `Error` instance). */
  datatype Remote<+T> = Ok(value: T) | Err(message: Option<string>)

  /** The answer of a remote write that returns nothing of interest. */
  datatype Outcome = Done | Failed(message: Option<string>)

  /** JavaScript truthiness of an optional string: present and non-empty. */
  predicate Truthy(s: Option<string>) {
    s.Some? && s.value != ""
  }

  /** `s || null` for a text field: the empty string is sent as null. */
  function EmptyToNull(s: string): (r: Option<string>)
    ensures r.None? <==> s == ""
    ensures r.Some? ==> r.value == s
  {
    if s == "" then None else Some(s)
  }

  /** Loading an optional text into a field (`value || ""`) and sending it back
      gives the same value, except that an empty text becomes null. */
  lemma EmptyToNullRoundTrip(o: Option<string>)
    ensures EmptyToNull(o.GetOr("")) == if o == Some("") then None else o
  {
  }
}
