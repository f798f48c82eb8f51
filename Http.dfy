/** Stand-ins for the System.Net.Http types the core passes around: request
    content and its headers, status codes, the values a response can carry
    and the response itself. */
module Http {
  import opened Common
  import opened Models
  import opened ExceptionExtensions

  /** The status codes the core uses (sections 6.3.1, 6.5.1, 6.5.4, 6.5.13
      and 6.6.1 of RFC 7231). */
  datatype HttpStatusCode = OK | BadRequest | NotFound | UnsupportedMediaType | InternalServerError

  /** The integer value of the enumeration member, (int)statusCode. */
  function Code(s: HttpStatusCode): (c: int)
    ensures 200 <= c < 600
  {
    match s
    case OK => 200
    case BadRequest => 400
    case NotFound => 404
    case UnsupportedMediaType => 415
    case InternalServerError => 500
  }

  /** A Content-Type header value: the media type and an optional charset. */
  datatype MediaTypeHeader = MediaTypeHeader(mediaType: string, charSet: Option<string>)

  /** HttpContent: the body bytes and the two content headers the core reads.
      A missing Content-Type header is None. The Content-Encoding collection
      is None when it is null, which the framework never produces: it creates
      the collection on first use, so a request without the header has
      Some([]). */
  datatype HttpContent = HttpContent(
    body: seq<byte>,
    contentType: Option<MediaTypeHeader>,
    contentEncoding: Option<seq<string>>)

  /** ToString() of a header value collection: the values joined by ", ".
      The text opens with the first value, and a comma follows it when a
      second value is present. */
  function HeaderValuesText(values: seq<string>): (r: string)
    ensures values != [] ==> values[0] <= r
    ensures |values| >= 2 ==> |r| > |values[0]| && r[|values[0]|] == ','
  {
    if values == [] then ""
    else if |values| == 1 then values[0]
    else values[0] + ", " + HeaderValuesText(values[1..])
  }

  /** An inbound request; DecompressHttpContent replaces its Content. */
  class HttpRequestMessage {
    var content: HttpContent

    constructor (content: HttpContent)
      ensures this.content == content
    {
      this.content := content;
    }
  }

  /** The CLR types of the values the core puts into responses. */
  datatype ClrType = StringType | StringListType | ErrorResponseModelType | HttpErrorType

  /** A response value: a string, a List<string>, an ErrorResponseModel, or the
      HttpError that CreateErrorResponse builds from an exception. */
  datatype Value =
    | Str(s: string)
    | StringList(items: seq<string>)
    | ErrorModel(model: ErrorResponseModel)
    | HttpError(exception: Exception)

  function TypeOf(v: Value): ClrType
  {
    match v
    case Str(_) => StringType
    case StringList(_) => StringListType
    case ErrorModel(_) => ErrorResponseModelType
    case HttpError(_) => HttpErrorType
  }

  /** object.ToString(): a string is itself; the other types do not override
      it and print their full type name. */
  function ToString(v: Value): string
  {
    match v
    case Str(s) => s
    case StringList(_) => "System.Collections.Generic.List`1[System.String]"
    case ErrorModel(_) => "ScreenScrappingAzureFunctionDemo.Services.Models.ErrorResponseModel"
    case HttpError(_) => "System.Web.Http.HttpError"
  }

  /** Which formatter serialises a response body: one chosen explicitly, or
      the one content negotiation picks when none is given. */
  datatype FormatterKind = JsonFormatter | YamlFormatter | Negotiated

  datatype HttpResponseMessage = HttpResponseMessage(
    statusCode: HttpStatusCode,
    formatter: FormatterKind,
    value: Value)

  /** req.CreateErrorResponse(status, exception). */
  function CreateErrorResponse(status: HttpStatusCode, e: Exception): (r: HttpResponseMessage)
    ensures r.statusCode == status && r.formatter == Negotiated && r.value == HttpError(e)
  {
    HttpResponseMessage(status, Negotiated, HttpError(e))
  }

  /** The exception object for one of the errors the core raises itself,
      as a catch block sees it: no stack trace is modelled, no inner exception. */
  function AsException(t: Thrown): (e: Exception)
    ensures e.Exception? && e.stackTrace.None? && e.innerException.None?
  {
    var message := match t
      case ArgumentNull(p) => "Value cannot be null. Parameter name: " + p
      case ArgumentOutOfRange(p) => "Specified argument was out of the range of valid values. Parameter name: " + p
      case Argument(m) => m
      case NullReference => "Object reference not set to an instance of an object."
      case InvalidOperation(m) => m;
    Exception(message, None, None)
  }

  /** A stream the formatters write into; only what was written is kept. */
  class Stream {
    var written: seq<byte>

    constructor ()
      ensures written == []
    {
      written := [];
    }

    /** WriteAsync(buffer, 0, buffer.Length): the whole buffer. */
    method Write(buffer: seq<byte>)
      modifies this
      ensures written == old(written) + buffer
    {
      written := written + buffer;
    }
  }
}
