/** Values shared by every handler: optional values, the JSON values a request body can carry,
    date inputs, document identifiers and the length of a day. */
module Common {

  datatype Option<T> = None | Some(value: T)

  /** A document's `_id`; the store hands them out in increasing order. */
  type Id = nat

  /** One UTC day in milliseconds; dates are milliseconds since the Unix epoch. */
  const MsPerDay: int := 86_400_000

  /** A field of a JSON request body, with JavaScript's notion of `typeof`. */
  datatype JsonValue = Undefined | Null | Bool(b: bool) | Number(n: int) | Text(s: string)

  /** JavaScript truthiness of a body field. */
  predicate Truthy(v: JsonValue) {
    match v
    case Undefined => false
    case Null => false
    case Bool(b) => b
    case Number(n) => n != 0
    case Text(s) => s != ""
  }

  /** A date supplied by a client, before `new Date(value)`: absent (or empty), a string that
      parses to an instant, or one that gives an invalid date. */
  datatype DateInput = NoDate | ValidDate(ms: int) | InvalidDate

  /** A value, or the message of the 400 response that rejects the input. */
  datatype Result<T> = Ok(value: T) | Fail(message: string)

  /** What a handler sends back: the HTTP status code and the JSON payload. */
  datatype Response<B> = Response(status: int, body: B)

  /** `value ?? ""`. */
  function OrEmpty(s: Option<string>): string {
    match s
    case Some(v) => v
    case None => ""
  }
}
