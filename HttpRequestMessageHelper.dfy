/** HttpRequestMessageHelper: choosing the output formatter, the response
    builders with their fixed status codes, the inbound content-type and
    content-encoding checks, decompression of a request body, and disposal. */
module HttpRequestMessageHelper {
  import opened Common
  import opened Enums
  import opened Models
  import opened Http
  import opened StringExtensions
  import opened Formatters

  /** The inbound media types IsValidContentType accepts. */
  const ValidContentTypes: seq<string> := [Description(ApplicationJson), Description(ApplicationYaml)]

  /** The media-type hints that select the YAML formatter. */
  const YamlMediaTypes: seq<string> :=
    [Description(ApplicationXYaml), Description(ApplicationYaml), Description(ApplicationTextYaml)]

  // ---------------------------------------------------------------------------
  // Formatter selection and response builders
  // ---------------------------------------------------------------------------

  /** Membership in a literal list of lower-case names is equality of the folded item with one of them. */
  lemma {:induction false} ContainsEquivalentOfThree(a: string, b: string, c: string, item: Option<string>)
    requires Fold(a) == a && Fold(b) == b && Fold(c) == c
    ensures ListContainsEquivalent([a, b, c], item) <==>
      item.Some? && (Fold(item.value) == a || Fold(item.value) == b || Fold(item.value) == c)
  {
    assert [a, b, c][1..] == [b, c];
    ContainsEquivalentOfTwo(b, c, item);
  }

  lemma {:induction false} ContainsEquivalentOfTwo(a: string, b: string, item: Option<string>)
    requires Fold(a) == a && Fold(b) == b
    ensures ListContainsEquivalent([a, b], item) <==>
      item.Some? && (Fold(item.value) == a || Fold(item.value) == b)
  {
    assert [a, b][1..] == [b];
    assert [b][1..] == [];
  }

  /** YAML when the hint is equivalent to one of the YAML media types, JSON otherwise. */
  function SelectFormatter(mediaType: Option<string>): (f: FormatterKind)
    ensures f != Negotiated
    ensures f == YamlFormatter <==> (mediaType.Some?
      && (Fold(mediaType.value) == "application/x-yaml" || Fold(mediaType.value) == "application/yaml"
          || Fold(mediaType.value) == "text/yaml"))
  {
    FoldNoUpper(Description(ApplicationXYaml));
    FoldNoUpper(Description(ApplicationYaml));
    FoldNoUpper(Description(ApplicationTextYaml));
    ContainsEquivalentOfThree(Description(ApplicationXYaml), Description(ApplicationYaml),
      Description(ApplicationTextYaml), mediaType);
    if ListContainsEquivalent(YamlMediaTypes, mediaType) then YamlFormatter else JsonFormatter
  }

  /** req.CreateResponse(statusCode, value, formatter) with the selected
      formatter. Building the ObjectContent throws InvalidOperationException
      when the formatter cannot write the value's type; the JSON formatter
      writes every type. */
  function CreateResponse(statusCode: HttpStatusCode, value: Value, mediaType: Option<string>): (r: Result<HttpResponseMessage>)
    ensures r.Failure? <==> SelectFormatter(mediaType) == YamlFormatter && !value.Str?
    ensures r.Failure? ==> r.error.InvalidOperation?
    ensures r.Success? ==> r.value == HttpResponseMessage(statusCode, SelectFormatter(mediaType), value)
  {
    var formatter := SelectFormatter(mediaType);
    if formatter == YamlFormatter && !YamlMediaTypeFormatter.CanWriteType(TypeOf(value)) then
      Failure(InvalidOperation("The configured formatter cannot write an object of this type."))
    else
      Success(HttpResponseMessage(statusCode, formatter, value))
  }

  /** A response built without a media-type hint: always JSON, never a throw. */
  function CreateJsonResponse(statusCode: HttpStatusCode, value: Value): (r: HttpResponseMessage)
    ensures r == HttpResponseMessage(statusCode, JsonFormatter, value)
  {
    CreateResponse(statusCode, value, None).value
  }

  /** The error payload: StatusCode and Message set, Description left null. */
  function ErrorPayload(status: int, message: Option<string>): Value
  {
    ErrorModel(ErrorResponseModel(status, message, None))
  }

  function CreateBadRequestResponseOf(value: Value): (r: HttpResponseMessage)
    ensures r == HttpResponseMessage(BadRequest, JsonFormatter, value)
  {
    CreateJsonResponse(BadRequest, value)
  }

  function CreateBadRequestResponse(message: Option<string>): (r: HttpResponseMessage)
    ensures r.statusCode == BadRequest && r.formatter == JsonFormatter
    ensures r.value == ErrorModel(ErrorResponseModel(400, message, None))
  {
    CreateBadRequestResponseOf(ErrorPayload(Code(BadRequest), message))
  }

  function CreateNotFoundResponseOf(value: Value): (r: HttpResponseMessage)
    ensures r == HttpResponseMessage(NotFound, JsonFormatter, value)
  {
    CreateJsonResponse(NotFound, value)
  }

  function CreateNotFoundResponse(message: Option<string>): (r: HttpResponseMessage)
    ensures r.statusCode == NotFound && r.formatter == JsonFormatter
    ensures r.value == ErrorModel(ErrorResponseModel(404, message, None))
  {
    CreateNotFoundResponseOf(ErrorPayload(Code(NotFound), message))
  }

  /** CreateOkResponse: 200 with the caller's media-type hint. */
  function CreateOkResponse(value: Value, mediaType: Option<string>): (r: Result<HttpResponseMessage>)
    ensures r == CreateResponse(OK, value, mediaType)
    ensures r.Success? ==> r.value.statusCode == OK && r.value.value == value
  {
    CreateResponse(OK, value, mediaType)
  }

  function CreateUnsupportedMediaTypeResponseOf(value: Value): (r: HttpResponseMessage)
    ensures r == HttpResponseMessage(UnsupportedMediaType, JsonFormatter, value)
  {
    CreateJsonResponse(UnsupportedMediaType, value)
  }

  /** CreateUnsupportedMediaTypeResponse(string) as written: a 415 payload
      handed to the 404 builder. */
  function CreateUnsupportedMediaTypeResponseAsWritten(message: Option<string>): (r: HttpResponseMessage)
    ensures r.statusCode == NotFound && r.formatter == JsonFormatter
    ensures r.value == ErrorModel(ErrorResponseModel(415, message, None))
  {
    CreateNotFoundResponseOf(ErrorPayload(Code(UnsupportedMediaType), message))
  }

  /** The intended builder: the 415 payload in a 415 response. */
  function CreateUnsupportedMediaTypeResponse(message: Option<string>): (r: HttpResponseMessage)
    ensures r.statusCode == UnsupportedMediaType && r.formatter == JsonFormatter
    ensures r.value == ErrorModel(ErrorResponseModel(415, message, None))
  {
    CreateUnsupportedMediaTypeResponseOf(ErrorPayload(Code(UnsupportedMediaType), message))
  }

  /** The status a response carries agrees with the StatusCode of its error payload. */
  predicate PayloadAgrees(r: HttpResponseMessage)
  {
    r.value.ErrorModel? && r.value.model.statusCode == Code(r.statusCode)
  }

  /** Every error builder (with the 415 builder corrected) keeps payload and
      response status in agreement and carries the caller's message. */
  lemma ErrorBuildersAgree(message: Option<string>)
    ensures PayloadAgrees(CreateBadRequestResponse(message)) && CreateBadRequestResponse(message).value.model.message == message
    ensures PayloadAgrees(CreateNotFoundResponse(message)) && CreateNotFoundResponse(message).value.model.message == message
    ensures PayloadAgrees(CreateUnsupportedMediaTypeResponse(message))
      && CreateUnsupportedMediaTypeResponse(message).value.model.message == message
  {
  }

  /** The builder as written answers HTTP 404 while its payload says 415. */
  lemma UnsupportedMediaTypeAsWrittenDisagrees(message: Option<string>)
    ensures !PayloadAgrees(CreateUnsupportedMediaTypeResponseAsWritten(message))
    ensures Code(CreateUnsupportedMediaTypeResponseAsWritten(message).statusCode) == 404
    ensures CreateUnsupportedMediaTypeResponseAsWritten(message).value.model.statusCode == 415
  {
  }

  /** A YAML hint with a non-string value (the scraped title list, say) makes
      the response construction throw; the same value with any other hint is
      written as JSON. */
  lemma YamlOnlyForStrings(items: seq<string>, hint: string, other: Option<string>)
    requires Fold(hint) == "application/x-yaml" || Fold(hint) == "application/yaml" || Fold(hint) == "text/yaml"
    requires SelectFormatter(other) != YamlFormatter
    ensures CreateOkResponse(StringList(items), Some(hint)).Failure?
    ensures CreateOkResponse(Str(hint), Some(hint)) == Success(HttpResponseMessage(OK, YamlFormatter, Str(hint)))
    ensures CreateOkResponse(StringList(items), other) == Success(HttpResponseMessage(OK, JsonFormatter, StringList(items)))
  {
  }

  /** The helper's YAML hints are exactly the media types the YAML formatter registers. */
  lemma YamlListsAgree()
    ensures multiset(YamlMediaTypes) == multiset(YamlMediaTypeFormatter.MediaTypes)
  {
    assert YamlMediaTypes == [YamlMediaTypeFormatter.MediaTypes[1], YamlMediaTypeFormatter.MediaTypes[0],
      YamlMediaTypeFormatter.MediaTypes[2]];
  }

  // ---------------------------------------------------------------------------
  // Inbound content checks
  // ---------------------------------------------------------------------------

  /** IsValidContentType: reading MediaType through a missing Content-Type
      header is a NullReferenceException. */
  function IsValidContentType(content: HttpContent): (r: Result<bool>)
    ensures r.Failure? <==> content.contentType.None?
    ensures r.Failure? ==> r.error == NullReference
    ensures r.Success? ==> (r.value <==>
      Fold(content.contentType.value.mediaType) == "application/json"
      || Fold(content.contentType.value.mediaType) == "application/yaml")
  {
    match content.contentType
    case None => Failure(NullReference)
    case Some(header) =>
      FoldNoUpper(Description(ApplicationJson));
      FoldNoUpper(Description(ApplicationYaml));
      ContainsEquivalentOfTwo(Description(ApplicationJson), Description(ApplicationYaml), Some(header.mediaType));
      Success(ListContainsEquivalent(ValidContentTypes, Some(header.mediaType)))
  }

  /** Two of the media types that select YAML output are refused as input,
      as is XML. */
  lemma ValidInputIsNarrower(body: seq<byte>, encoding: Option<seq<string>>)
    ensures IsValidContentType(HttpContent(body, Some(MediaTypeHeader("application/x-yaml", None)), encoding)) == Success(false)
    ensures IsValidContentType(HttpContent(body, Some(MediaTypeHeader("text/yaml", None)), encoding)) == Success(false)
    ensures IsValidContentType(HttpContent(body, Some(MediaTypeHeader("application/xml", None)), encoding)) == Success(false)
    ensures SelectFormatter(Some("application/x-yaml")) == YamlFormatter
    ensures SelectFormatter(Some("text/yaml")) == YamlFormatter
  {
    FoldNoUpper("application/x-yaml");
    FoldNoUpper("text/yaml");
    FoldNoUpper("application/xml");
  }

  /** Membership in a header value collection: content codings compare
      ignoring case (section 3.1.2.1 of RFC 7231). */
  predicate HeaderContains(values: seq<string>, token: string)
    ensures HeaderContains(values, token) ==> values != []
    ensures token in values ==> HeaderContains(values, token)
  {
    exists i :: 0 <= i < |values| && Fold(values[i]) == Fold(token)
  }

  /** IsContentCompressed: a Content-Encoding collection that lists gzip or
      deflate, in any case. */
  predicate IsContentCompressed(content: HttpContent)
    ensures IsContentCompressed(content) ==> content.contentEncoding.Some? && content.contentEncoding.value != []
    ensures content.contentEncoding.Some?
      && ("gzip" in content.contentEncoding.value || "deflate" in content.contentEncoding.value)
      ==> IsContentCompressed(content)
  {
    content.contentEncoding.Some?
    && (HeaderContains(content.contentEncoding.value, EncodingDescription(Gzip))
        || HeaderContains(content.contentEncoding.value, EncodingDescription(Deflate)))
  }

  /** ContainsPayloadAsync: the body, read as a string, is not blank. */
  predicate ContainsPayload(content: HttpContent, readAsString: seq<byte> -> string)
    ensures ContainsPayload(content, readAsString) <==>
      exists i :: 0 <= i < |readAsString(content.body)| && !IsWhiteSpace(readAsString(content.body)[i])
  {
    !IsNullOrWhiteSpace(Some(readAsString(content.body)))
  }

  // ---------------------------------------------------------------------------
  // Decompression
  // ---------------------------------------------------------------------------

  /** The codec DecompressHttpContent applies: gzip only when the header text
      is exactly "gzip", deflate for everything else. The text is "gzip"
      exactly when the header holds the one value "gzip": a second value
      would put ", " into the text. */
  function DecompressionFor(encodings: seq<string>): (e: EncodingType)
    ensures e == Gzip <==> encodings == ["gzip"]
  {
    assert forall i :: 0 <= i < |"gzip"| ==> "gzip"[i] != ',';
    if HeaderValuesText(encodings) == EncodingDescription(Gzip) then Gzip else Deflate
  }

  /** The coding check and the coding choice disagree on case and on lists:
      a request marked "GZIP", or "gzip, identity", counts as compressed but
      is inflated as deflate; "br" is not compressed, yet would be inflated
      as deflate too. */
  lemma CompressionChecksDiffer(body: seq<byte>)
    ensures IsContentCompressed(HttpContent(body, None, Some(["GZIP"])))
    ensures DecompressionFor(["GZIP"]) == Deflate
    ensures IsContentCompressed(HttpContent(body, None, Some(["gzip", "identity"])))
    ensures DecompressionFor(["gzip", "identity"]) == Deflate
    ensures !IsContentCompressed(HttpContent(body, None, Some(["br"])))
    ensures DecompressionFor(["br"]) == Deflate
  {
    assert Fold("GZIP") == "gzip";
    assert Fold(["GZIP"][0]) == Fold("gzip");
    FoldNoUpper("gzip");
    FoldNoUpper("deflate");
    FoldNoUpper("br");
    assert Fold(["gzip", "identity"][0]) == Fold("gzip");
    assert Fold("br") != Fold("gzip") && Fold("br") != Fold("deflate");
  }

  /** The content DecompressHttpContent installs: the decompressed bytes read
      as a string, re-encoded as UTF-8 and labelled application/json. It is
      no longer marked compressed, so decompressing is not repeated on it. */
  function DecompressedContent(
    content: HttpContent, encodings: seq<string>,
    gunzip: seq<byte> -> seq<byte>, inflate: seq<byte> -> seq<byte>, readString: seq<byte> -> string): (r: HttpContent)
    ensures encodings == ["gzip"] ==> r.body == Utf8(readString(gunzip(content.body)))
    ensures encodings != ["gzip"] ==> r.body == Utf8(readString(inflate(content.body)))
    ensures !IsContentCompressed(r)
    ensures IsValidContentType(r) == Success(true)
  {
    FoldNoUpper(Description(ApplicationJson));
    var raw := if DecompressionFor(encodings) == Gzip then gunzip(content.body) else inflate(content.body);
    HttpContent(Utf8(readString(raw)), Some(MediaTypeHeader(Description(ApplicationJson), Some("utf-8"))), Some([]))
  }

  /** A request without a Content-Encoding header has an empty collection,
      whose text is "": it is inflated as deflate, not left alone. */
  lemma HeaderlessRequestIsInflated(
    content: HttpContent,
    gunzip: seq<byte> -> seq<byte>, inflate: seq<byte> -> seq<byte>, readString: seq<byte> -> string)
    ensures HeaderValuesText([]) == ""
    ensures DecompressionFor([]) == Deflate
    ensures DecompressedContent(content, [], gunzip, inflate, readString).body == Utf8(readString(inflate(content.body)))
  {
  }

  /** DecompressHttpContent: throws when the Content-Encoding collection is
      null (a case the framework never produces) and then leaves the request
      alone; otherwise, including for the empty collection of a request
      without the header, copies the body
      through the chosen decompressor, replaces the request's content with
      the result and returns it. */
  method DecompressHttpContent(
    request: HttpRequestMessage,
    gunzip: seq<byte> -> seq<byte>, inflate: seq<byte> -> seq<byte>, readString: seq<byte> -> string)
    returns (r: Result<HttpContent>)
    modifies request
    ensures old(request.content).contentEncoding.None? ==>
      r == Failure(ArgumentOutOfRange("ContentEncoding")) && request.content == old(request.content)
    ensures old(request.content).contentEncoding.Some? ==>
      r == Success(DecompressedContent(old(request.content), old(request.content).contentEncoding.value,
                                       gunzip, inflate, readString))
      && request.content == r.value
  {
    if request.content.contentEncoding.None? {
      return Failure(ArgumentOutOfRange("ContentEncoding"));
    }
    var encodingType := HeaderValuesText(request.content.contentEncoding.value);
    var outputStream := new Stream();
    var inputStream := request.content.body;
    if encodingType == EncodingDescription(Gzip) {
      outputStream.Write(gunzip(inputStream));
      assert outputStream.written == gunzip(inputStream);
    } else {
      outputStream.Write(inflate(inputStream));
      assert outputStream.written == inflate(inputStream);
    }
    var stringContent := readString(outputStream.written);
    var resultContent := HttpContent(Utf8(stringContent),
      Some(MediaTypeHeader(Description(ApplicationJson), Some("utf-8"))), Some([]));
    request.content := resultContent;
    return Success(resultContent);
  }

  // ---------------------------------------------------------------------------
  // Disposal
  // ---------------------------------------------------------------------------

  /** The two release hooks Dispose(bool) runs. */
  datatype Release = ManagedResources | UnmanagedResources

  class HttpRequestMessageHelper {
    var disposed: bool
    /** The release hooks run so far, in order. */
    var released: seq<Release>

    /** Hooks run at most once: nothing before disposal, one round after. */
    predicate Valid()
      reads this
    {
      (!disposed && released == [])
      || (disposed && (released == [UnmanagedResources] || released == [ManagedResources, UnmanagedResources]))
    }

    constructor ()
      ensures Valid() && !disposed && released == []
    {
      disposed := false;
      released := [];
    }

    /** Dispose(bool): the first call runs the managed hook when disposing,
        then the unmanaged hook; every later call does nothing. */
    method DisposeWith(disposing: bool)
      requires Valid()
      modifies this
      ensures Valid() && disposed
      ensures old(disposed) ==> released == old(released)
      ensures !old(disposed) ==>
        released == (if disposing then [ManagedResources] else []) + [UnmanagedResources]
    {
      if disposed {
        return;
      }
      if disposing {
        released := released + [ManagedResources];
      }
      released := released + [UnmanagedResources];
      disposed := true;
    }

    /** Dispose(): Dispose(true). */
    method Dispose()
      requires Valid()
      modifies this
      ensures Valid() && disposed
      ensures old(disposed) ==> released == old(released)
      ensures !old(disposed) ==> released == [ManagedResources, UnmanagedResources]
    {
      DisposeWith(true);
    }
  }
}
