/** The envelope every backend call answers with, and the requests the mutation handlers
    send. The transport itself (`fetch`, `res.json()`) is outside the model: its outcome is
    an input. */
module Api {
  import opened Wrappers
  import opened Entries

  /** What `await fetch(...)` followed by `await res.json()` produced: either it threw
      (network failure, a body that is not JSON) with a message, or it gave the envelope
      `{ ok, data, error }`, with `error` empty when the backend sent none. */
  datatype Reply<T> = Thrown(message: string) | Json(ok: bool, data: T, error: string)

  const GetError: string := "Błąd GET"
  const PostError: string := "Błąd POST"
  const PutError: string := "Błąd PUT"
  const DeleteError: string := "Błąd DELETE"

  /** The common tail of `apiGet`/`apiPost`/`apiPut`/`apiDelete`: `json.data` when `json.ok`,
      otherwise a failure carrying `json.error || fallback`; a thrown error passes through. */
  function Unwrap<T>(reply: Reply<T>, fallback: string): (r: Result<T, string>)
    ensures r.Success? <==> reply.Json? && reply.ok
    ensures r.Success? ==> r.value == reply.data
    ensures r.Failure? && reply.Thrown? ==> r.error == reply.message
    ensures reply.Json? && !reply.ok && reply.error != "" ==> r.error == reply.error
    ensures reply.Json? && !reply.ok && reply.error == "" ==> r.error == fallback
  {
    match reply
    case Thrown(message) => Failure(message)
    case Json(ok, data, error) =>
      if ok then Success(data) else Failure(if error == "" then fallback else error)
  }

  /** The request bodies of the three mutations; `sheet` is `None` when the current sheet is
      `undefined` (and is then dropped by `JSON.stringify`). */
  datatype Request =
    | CreateRequest(sheet: Option<string>, date: string, time: string)
    | UpdateRequest(sheet: Option<string>, id: Id, date: string, time: string)
    | DeleteRequest(sheet: Option<string>, target: Option<Id>)
}
