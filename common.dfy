/** Shared value types: the nullable wrapper and the error result every layer of the server uses. */
module Common {

  /** A Go nil, a JavaScript null/undefined or a SQL NULL column. */
  datatype Option<+T> = None | Some(value: T) {
    function GetOr(default: T): T {
      match this
      case Some(v) => v
      case None => default
    }
  }

  /** The kinds of error the GraphQL resolvers return (internal/errors). */
  datatype ErrorKind = Forbidden | NotFound | Internal

  /** A resolver's (value, error) pair: exactly one of the two is meaningful. */
  datatype Result<+T> = Ok(value: T) | Err(error: ErrorKind)

  /** An HTTP status of the legacy Express handlers, with 200 for the success message. */
  datatype Status = Ok200 | BadRequest400 | Unauthorized401 | Forbidden403

  /** A {count, total} pair as shown on the judging dashboards. */
  datatype Progress = Progress(count: int, total: int)

  /**
   * The row a lookup on a primary key selects (`WHERE <key> = id`): the
   * first element whose key is `id`, or None when no element has it.
   */
  function RowById<T>(s: seq<T>, key: T -> int, id: int): (r: Option<T>)
    ensures r.Some? ==> r.value in s && key(r.value) == id
    ensures r.None? <==> forall i :: 0 <= i < |s| ==> key(s[i]) != id
    ensures forall k :: 0 <= k < |s| && key(s[k]) == id && (forall j :: 0 <= j < k ==> key(s[j]) != id) ==>
              r == Some(s[k])
  {
    if |s| == 0 then None
    else if key(s[0]) == id then Some(s[0])
    else RowById(s[1..], key, id)
  }
}
