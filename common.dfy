/** Values shared by every service: optional values, results, and the
    exceptions a service can raise (the framework's HTTP exceptions, the
    application's DomainException, the store's known request errors). */
module Common {

  datatype Option<+T> = None | Some(value: T)

  /** Semantic error codes carried by a resolved error. */
  datatype ErrorCode =
    | DuplicateResource
    | ResourceNotFound
    | InvalidRelation
    | Unexpected
    | Validation
    | Other(name: string)

  /** The message of a resolved error: a string, a list of strings (as a
      validation pipe produces), or a response body without a `message`
      field, which is passed through as it is. */
  datatype Message = Text(text: string) | Lines(lines: seq<string>) | Whole(body: Body)

  /** What `HttpException.getResponse()` gives back: a bare string, or an
      object that may carry a `message` field. */
  datatype Body = Plain(text: string) | Json(message: Option<Message>)

  /** Everything a service can throw. */
  datatype Exception =
    | DomainError(status: int, code: ErrorCode, text: string)
    | HttpError(status: int, body: Body)
    | PrismaKnown(prismaCode: string)
    | Unknown

  datatype Result<+T> = Ok(value: T) | Err(error: Exception)

  /** A store update that passes an absent value for a column leaves the
      column as it was. */
  function Patched<T>(current: T, given: Option<T>): (r: T)
    ensures given.Some? ==> r == given.value
    ensures given.None? ==> r == current
  {
    if given.Some? then given.value else current
  }

  const BAD_REQUEST := 400
  const UNAUTHORIZED := 401
  const FORBIDDEN := 403
  const NOT_FOUND := 404
  const CONFLICT := 409
  const INTERNAL_SERVER_ERROR := 500

  /** A framework exception built from a string, e.g. `new ConflictException(m)`:
      its response body is an object whose `message` is `m`. */
  function Raised(status: int, message: string): Exception
  {
    HttpError(status, Json(Some(Text(message))))
  }

  function BadRequest(message: string): Exception { Raised(BAD_REQUEST, message) }
  function Unauthorized(message: string): Exception { Raised(UNAUTHORIZED, message) }
  function Forbidden(message: string): Exception { Raised(FORBIDDEN, message) }
  function NotFound(message: string): Exception { Raised(NOT_FOUND, message) }
  function Conflict(message: string): Exception { Raised(CONFLICT, message) }
  function InternalServerError(message: string): Exception { Raised(INTERNAL_SERVER_ERROR, message) }

  /** The store's known request error codes used by the services. */
  const P2002 := "P2002"  // unique constraint violated
  const P2003 := "P2003"  // foreign key constraint violated
  const P2025 := "P2025"  // required row not found

  /** The store's "row not found" error, raised by `findUniqueOrThrow`,
      `findFirstOrThrow`, `update` and `delete` on a missing row. */
  const RowNotFound := PrismaKnown(P2025)

  /** The store's unique-constraint violation. */
  const UniqueViolation := PrismaKnown(P2002)
}
