/** Values and exceptions shared by the services: the JavaScript values a
    token payload can hold, and the NestJS exceptions the services throw. */
module Common {

  datatype Option<T> = None | Some(value: T)

  /** The body given to an HttpException: a bare message string, or an
      object with an `error` and a `message` key. */
  datatype ErrorBody = Text(text: string) | Detail(error: string, message: string)

  /** What an operation can throw, by exception class. */
  datatype Exception =
    | Unauthorized(body: ErrorBody)   // UnauthorizedException
    | BadRequest(message: string)     // BadRequestException
    | NotFound(message: string)       // NotFoundException
    | Conflict(message: string)       // ConflictException
    | PrismaError(code: string)       // an error raised by the store client, with its code
    | TypeError(message: string)      // a JavaScript TypeError
    | PlainError(message: string)     // `new Error(...)`

  /** A settled promise: the value it resolves to, or what it rejects with. */
  datatype Result<T> = Success(value: T) | Failure(error: Exception)

  /** A JavaScript value as it can appear in a token payload. */
  datatype Value = Undefined | Str(s: string) | Num(n: int)

  /** A plain JavaScript object. */
  type Object = map<string, Value>

  /** Property access `o[k]`: `undefined` for a missing key. */
  function Get(o: Object, k: string): (v: Value)
    ensures k !in o ==> v == Undefined
    ensures k in o ==> v == o[k]
  {
    if k in o then o[k] else Undefined
  }

  /** A character of the `\s` class of JavaScript regular expressions
      (its ASCII members and the no-break space). */
  predicate IsJsSpace(c: char) {
    c == ' ' || c == '\t' || c == '\n' || c == '\r' || c == '\U{0B}' || c == '\U{0C}' || c == '\U{A0}'
  }

  /** JavaScript truthiness of an optional string: `undefined` and "" are falsy. */
  predicate Truthy(s: Option<string>) {
    s.Some? && s.value != ""
  }
}
