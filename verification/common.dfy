/** Values shared by every list builder: optional values, Go's nil-or-slice,
    the error variant the cluster API and the chart code return, and the
    metadata records the views carry. */
module Common {

  datatype Option<+T> = None | Some(value: T)

  /** A Go slice: `Nil` is the nil slice, `Elems(s)` a made slice (possibly
      empty). The distinction is observable in the views (`[]` versus `null`). */
  datatype Slice<+T> = Nil | Elems(items: seq<T>)

  /** An error value. `Status` is a structured API status error carrying the
      reason of its status; every other error is `Generic`. */
  datatype Error = Generic(msg: string) | Status(reason: string)

  /** The structured error by which the server says it does not know the
      requested resource kind. */
  predicate IsNotFound(e: Error) {
    e.Status? && e.reason == "NotFound"
  }

  /** The pair `(*T, error)` a builder returns. */
  datatype Reply<+T> = Reply(value: Option<T>, err: Option<Error>)

  /** A creation timestamp, kept opaque; `ZeroTime` is Go's zero value. */
  datatype Time = ZeroTime | Unix(seconds: int, nanos: int)

  type Labels = map<string, string>

  datatype ObjectMeta = ObjectMeta(name: string, namespace: string, labels: Labels, creation: Time)

  datatype ListMeta = ListMeta(totalItems: int)
}
