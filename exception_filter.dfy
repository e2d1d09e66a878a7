/** The global exception filter: every exception a handler lets escape is
    resolved to (status, code, message) and written as one error response.
    The request URL and the clock reading are parameters; the logging of
    server errors and the writing of the response are not modelled. */
module ExceptionFilter {

  import opened Common
  import opened PrismaErrors

  const ServerFailureMessage := "Ocorreu um erro inesperado no servidor."

  /** The resolution the filter starts from, kept for anything it does not
      recognise. */
  const Fallback := ResolvedError(INTERNAL_SERVER_ERROR, Unexpected, Text(ServerFailureMessage))

  /** The body sent to the client. `error` is the status's name in the
      framework's status enumeration, absent for a number the model does
      not name; `message` is absent when an empty list was resolved. */
  datatype ErrorResponse = ErrorResponse(
    statusCode: int,
    error: Option<string>,
    code: ErrorCode,
    message: Option<Message>,
    timestamp: string,
    path: string)

  /** The message a framework exception contributes: the body's `message`
      field when it has one, otherwise the body itself. */
  function BodyMessage(body: Body): (m: Message)
    ensures body.Json? && body.message.Some? ==> m == body.message.value
    ensures body.Json? && body.message.None? ==> m == Whole(body)
    ensures body.Plain? ==> m == Text(body.text)
  {
    match body
    case Json(Some(field)) => field
    case Json(None) => Whole(body)
    case Plain(t) => Text(t)
  }

  /** The classification inside `catch`. */
  function Resolve(e: Exception): (r: ResolvedError)
    ensures e.DomainError? ==> r == ResolvedError(e.status, e.code, Text(e.text))
    ensures e.HttpError? ==> r.status == e.status && r.code == Validation && r.message == BodyMessage(e.body)
    ensures e.PrismaKnown? ==> r == MapPrismaError(e.prismaCode)
    ensures e.Unknown? ==> r == Fallback
  {
    match e
    case DomainError(status, code, text) => ResolvedError(status, code, Text(text))
    case HttpError(status, body) => ResolvedError(status, Validation, BodyMessage(body))
    case PrismaKnown(prismaCode) => MapPrismaError(prismaCode)
    case Unknown => Fallback
  }

  /** Names of the statuses the services and the store mapping produce. */
  function StatusName(status: int): (r: Option<string>)
    ensures r.Some? <==> status in {BAD_REQUEST, UNAUTHORIZED, FORBIDDEN, NOT_FOUND, CONFLICT, INTERNAL_SERVER_ERROR}
  {
    if status == BAD_REQUEST then Some("BAD_REQUEST")
    else if status == UNAUTHORIZED then Some("UNAUTHORIZED")
    else if status == FORBIDDEN then Some("FORBIDDEN")
    else if status == NOT_FOUND then Some("NOT_FOUND")
    else if status == CONFLICT then Some("CONFLICT")
    else if status == INTERNAL_SERVER_ERROR then Some("INTERNAL_SERVER_ERROR")
    else None
  }

  /** A list message is reduced to its first line; a one-line message and a
      passed-through body are sent as they are. */
  function Outgoing(m: Message): (r: Option<Message>)
    ensures m.Lines? && |m.lines| > 0 ==> r == Some(Text(m.lines[0]))
    ensures m.Lines? && |m.lines| == 0 ==> r.None?
    ensures !m.Lines? ==> r == Some(m)
    ensures r.Some? ==> !r.value.Lines?
  {
    match m
    case Lines(ls) => if |ls| > 0 then Some(Text(ls[0])) else None
    case _ => Some(m)
  }

  /** The response for `resolved`, sent at `timestamp` to a request for `url`. */
  function ToResponse(resolved: ResolvedError, url: string, timestamp: string): (r: ErrorResponse)
    ensures r.statusCode == resolved.status && r.code == resolved.code
    ensures r.path == url && r.timestamp == timestamp
    ensures r.error == StatusName(resolved.status)
    ensures r.message == Outgoing(resolved.message)
  {
    ErrorResponse(resolved.status, StatusName(resolved.status), resolved.code,
                  Outgoing(resolved.message), timestamp, url)
  }

  /** `catch`: resolve, then shape the response. */
  function Catch(e: Exception, url: string, timestamp: string): ErrorResponse
  {
    ToResponse(Resolve(e), url, timestamp)
  }

  /** Every exception a service raises through the framework helpers reaches
      the client with the status it was raised with, the VALIDATION code
      (whatever the status), the status's name and exactly the text it
      was given. */
  lemma RaisedReachesClient(status: int, text: string, url: string, timestamp: string)
    requires status in {BAD_REQUEST, UNAUTHORIZED, FORBIDDEN, NOT_FOUND, CONFLICT, INTERNAL_SERVER_ERROR}
    ensures Catch(Raised(status, text), url, timestamp)
            == ErrorResponse(status, StatusName(status), Validation, Some(Text(text)), timestamp, url)
  {
  }

  /** A list of validation messages reaches the client as its first line only. */
  lemma ValidationListShowsFirst(status: int, lines: seq<string>, url: string, timestamp: string)
    requires |lines| > 0
    ensures Catch(HttpError(status, Json(Some(Lines(lines)))), url, timestamp).message == Some(Text(lines[0]))
  {
  }

  /** The response status is a server error exactly for unrecognised
      exceptions, store codes outside the three mapped ones, and exceptions
      raised with status 500 themselves. */
  lemma ServerErrorExactly(e: Exception, url: string, timestamp: string)
    ensures Catch(e, url, timestamp).statusCode == INTERNAL_SERVER_ERROR <==>
              || e.Unknown?
              || (e.PrismaKnown? && e.prismaCode !in {P2002, P2025, P2003})
              || ((e.DomainError? || e.HttpError?) && e.status == INTERNAL_SERVER_ERROR)
  {
    if e.PrismaKnown? {
      MapPrismaErrorTotal(e.prismaCode);
    }
  }

  /** The client never receives a list: every response message is a single
      string or a passed-through body. */
  lemma NoListReachesClient(e: Exception, url: string, timestamp: string)
    ensures Catch(e, url, timestamp).message.Some? ==> !Catch(e, url, timestamp).message.value.Lines?
  {
  }
}
