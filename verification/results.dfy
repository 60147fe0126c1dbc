/** Optional values, the decoder's single error kind, and the failure-compatible
    Result type every decoder returns. */
module Results {

  /** A Java reference that may be null. */
  datatype Option<+T> = None | Some(value: T)

  /** The reasons org.json gives when a typed accessor does not find what it expects. */
  datatype JSONException =
    | KeyNotFound(key: string)           // `JSONObject[key] not found.`
    | NotAJSONObject(key: string)        // `JSONObject[key] is not a JSONObject.`
    | NotAJSONArray(key: string)         // `JSONObject[key] is not a JSONArray.`
    | ElementNotAJSONObject(index: nat)  // `JSONArray[index] is not a JSONObject.`

  /** The one error kind decoding can end in: either a JSON error wrapped as its
      cause, or an error raised directly by a collaborator (a bad date, say). */
  datatype FacebookException =
    | Wrapped(cause: JSONException)
    | Raised(message: string)

  /** The outcome of a decoder: a fully built value or a FacebookException,
      never both and never a partially built value. */
  datatype Result<+T> = Ok(value: T) | Err(error: FacebookException) {

    predicate IsFailure() {
      Err?
    }

    function PropagateFailure<U>(): Result<U>
      requires Err?
    {
      Err(error)
    }

    function Extract(): T
      requires Ok?
    {
      value
    }
  }

  /** The error a step ended in, if any; used to line up the steps of a decoder. */
  function ErrorOf<T>(r: Result<T>): (e: Option<FacebookException>)
    ensures e.None? <==> r.Ok?
    ensures r.Err? ==> e == Some(r.error)
  {
    match r
    case Ok(_) => None
    case Err(x) => Some(x)
  }

  /** Step `k` is the first of `steps` that failed. */
  ghost predicate FailsFirstAt(steps: seq<Option<FacebookException>>, k: int) {
    && 0 <= k < |steps|
    && steps[k].Some?
    && forall j :: 0 <= j < k ==> steps[j].None?
  }

  /** No step failed. */
  ghost predicate AllSucceed(steps: seq<Option<FacebookException>>) {
    forall j :: 0 <= j < |steps| ==> steps[j].None?
  }
}
