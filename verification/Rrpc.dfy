/** The values that server.go and context.go pass around: responses, their status codes and error texts. */
module Rrpc {
  import opened Wrappers

  const STATUS_OK: int := 200
  const STATUS_CLIENT_ERROR: int := 400
  const STATUS_REQUEST_TIMEOUT: int := 408
  const STATUS_TOO_FREQUENTLY: int := 429
  const STATUS_SERVER_ERROR: int := 500

  const ERR_NO_REPLY: string := "[RRPC] empty reply"
  const ERR_TOO_FREQUENTLY: string := "[RRPC] too frequently, try again later"
  const ERR_TIMEOUT: string := "[RRPC] timeout"

  /** A protobuf message: the text that reflection gives for its Go type, and its set fields. */
  datatype Message = Message(typeName: string, fields: seq<int>)

  /** What a handler may pass as result: nothing, a protobuf message, or another Go value. */
  datatype GoValue = Nil | Proto(message: Message) | Other(data: seq<int>)

  /** A Go error is represented by its text. */
  datatype Response = Response(result: GoValue, error: Option<string>, status: int)

  function OkResponse(data: GoValue): Response {
    Response(data, None, STATUS_OK)
  }

  function ErrorResponse(status: int, text: string): Response {
    Response(Nil, Some(text), status)
  }

  /** The reply of a refused call: in reject mode the limiter's, in wait mode the deadline's. */
  function RefusalResponse(reject: bool): Response {
    if reject then ErrorResponse(STATUS_TOO_FREQUENTLY, ERR_TOO_FREQUENTLY)
    else ErrorResponse(STATUS_REQUEST_TIMEOUT, ERR_TIMEOUT)
  }

  function UnregisteredResponse(name: string): Response {
    ErrorResponse(STATUS_SERVER_ERROR, "Unhandled method: " + name)
  }

  function PanicResponse(name: string, detail: string): Response {
    ErrorResponse(STATUS_SERVER_ERROR, "panic in method " + name + " " + detail)
  }

  function NoReplyResponse(): Response {
    ErrorResponse(STATUS_SERVER_ERROR, ERR_NO_REPLY)
  }
}
