/**
 * JSON values as the server and the client exchange them.
 *
 * A record (an astronaut, a request body, a form state) is a JSON object:
 * a map from keys to values. Only one distinction between values matters to
 * the logic modelled here: whether the "id" key holds an integer, because
 * every lookup compares `a.id === id` against an integer id.
 */
module Json {

  datatype Option<+T> = None | Some(value: T)

  /** A JSON value: an integer, a string, or anything else (a non-integer
      number, a boolean, null, an array, an object), which never compares
      strictly equal to an integer. */
  datatype Value = Int(n: int) | Text(s: string) | Other

  type Record = map<string, Value>

  /** The integer id of a record, or None when its "id" key is missing or
      holds something that is not an integer. */
  function IdOf(r: Record): Option<int>
  {
    if "id" in r && r["id"].Int? then Some(r["id"].n) else None
  }

  /** `r.id === id` for an integer `id` */
  predicate HasId(r: Record, id: int)
  {
    IdOf(r) == Some(id)
  }
}
