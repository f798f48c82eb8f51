/** ScreenScrappingService.GetResult: read the target address from the
    settings, fetch the page, select the title cells and answer with their
    texts; a blank address is a 400 and any failure a 500. The settings
    store, the HTTP client and the HTML parser are parameters. */
module ScreenScrappingService {
  import opened Common
  import opened ExceptionExtensions
  import opened Http
  import opened Html
  import opened HttpRequestMessageHelper

  /** The setting that holds the page to scrape. */
  const UrlSettingName: string := "Url.Address"

  // ---------------------------------------------------------------------------
  // Extraction
  // ---------------------------------------------------------------------------

  /** A `td` element with a `class` attribute whose value contains "title"
      (ordinal, so case-sensitive). */
  predicate IsTitleCell(n: HtmlNode)
  {
    n.Element? && n.name == "td" && "class" in n.attributes && ContainsSubstring(n.attributes["class"], "title")
  }

  /** Where(IsTitleCell).Select(InnerText) over a node list. */
  function Titles(nodes: seq<HtmlNode>): (r: seq<string>)
    ensures |r| <= |nodes|
  {
    if nodes == [] then []
    else (if IsTitleCell(nodes[0]) then [InnerText(nodes[0])] else []) + Titles(nodes[1..])
  }

  /** The post titles of a document. */
  function PostTitles(doc: HtmlDocument): seq<string>
  {
    Titles(DocumentDescendants(doc))
  }

  /** Number of title cells in a node list. */
  function CountTitleCells(nodes: seq<HtmlNode>): nat
  {
    if nodes == [] then 0 else (if IsTitleCell(nodes[0]) then 1 else 0) + CountTitleCells(nodes[1..])
  }

  lemma {:induction false} TitlesAppend(a: seq<HtmlNode>, b: seq<HtmlNode>)
    ensures Titles(a + b) == Titles(a) + Titles(b)
  {
    if a == [] {
      assert a + b == b;
    } else {
      var c := a + b;
      assert c[0] == a[0] && c[1..] == a[1..] + b;
      TitlesAppend(a[1..], b);
      var h := if IsTitleCell(a[0]) then [InnerText(a[0])] else [];
      assert Titles(c) == h + Titles(c[1..]);
      assert h + (Titles(a[1..]) + Titles(b)) == (h + Titles(a[1..])) + Titles(b);
    }
  }

  /** One title per title cell. */
  lemma {:induction false} TitlesCount(nodes: seq<HtmlNode>)
    ensures |Titles(nodes)| == CountTitleCells(nodes)
  {
    if nodes != [] {
      TitlesCount(nodes[1..]);
    }
  }

  /** Document order: the title cell at position i yields the title right
      after those of the cells before it. */
  lemma TitlesInOrder(nodes: seq<HtmlNode>, i: nat)
    requires i < |nodes| && IsTitleCell(nodes[i])
    ensures |Titles(nodes[..i])| < |Titles(nodes)|
    ensures Titles(nodes)[|Titles(nodes[..i])|] == InnerText(nodes[i])
  {
    assert nodes == nodes[..i] + ([nodes[i]] + nodes[i + 1..]);
    TitlesAppend(nodes[..i], [nodes[i]] + nodes[i + 1..]);
    assert ([nodes[i]] + nodes[i + 1..])[1..] == nodes[i + 1..];
  }

  /** Every title is the inner text of some title cell. */
  lemma {:induction false} TitlesSound(nodes: seq<HtmlNode>, t: string)
    requires t in Titles(nodes)
    ensures exists i :: 0 <= i < |nodes| && IsTitleCell(nodes[i]) && InnerText(nodes[i]) == t
  {
    if IsTitleCell(nodes[0]) && t == InnerText(nodes[0]) {
      assert IsTitleCell(nodes[0]) && InnerText(nodes[0]) == t;
    } else {
      TitlesSound(nodes[1..], t);
      var i :| 0 <= i < |nodes[1..]| && IsTitleCell(nodes[1..][i]) && InnerText(nodes[1..][i]) == t;
      assert nodes[i + 1] == nodes[1..][i];
    }
  }

  /** No title cell, no titles. */
  lemma {:induction false} NoTitleCells(nodes: seq<HtmlNode>)
    requires forall i :: 0 <= i < |nodes| ==> !IsTitleCell(nodes[i])
    ensures Titles(nodes) == []
  {
    if nodes != [] {
      assert !IsTitleCell(nodes[0]);
      NoTitleCells(nodes[1..]);
    }
  }

  /** A `td` without a class never counts, whatever its text; a class such
      as "subtitle" does count, while "Title" does not. */
  lemma ClassRule(attributes: map<string, string>, children: seq<HtmlNode>)
    ensures "class" !in attributes ==> !IsTitleCell(Element("td", attributes, children))
    ensures IsTitleCell(Element("td", attributes["class" := "subtitle"], children))
    ensures !IsTitleCell(Element("td", attributes["class" := "Title"], children))
    ensures !IsTitleCell(Element("th", attributes["class" := "title"], children))
  {
    assert OccursAt("subtitle", "title", 3);
    assert !ContainsSubstring("Title", "title") by {
      assert "Title"[0..5][0] != "title"[0];
    }
  }

  // ---------------------------------------------------------------------------
  // The request
  // ---------------------------------------------------------------------------

  /** What HttpClient.GetStringAsync(url).Result gives for an address. */
  datatype FetchOutcome = Fetched(html: string) | FetchFailed(error: Exception)

  /** What HtmlDocument.LoadHtml(html) gives for a page. */
  datatype ParseOutcome = Parsed(doc: HtmlDocument) | ParseFailed(error: Exception)

  /** The web as the HTTP client sees it: a fixed answer per address, and
      the list of addresses requested so far. */
  class Network {
    const pages: string -> FetchOutcome
    var requests: seq<string>

    constructor (pages: string -> FetchOutcome)
      ensures this.pages == pages && requests == []
    {
      this.pages := pages;
      requests := [];
    }

    method GetString(url: string) returns (outcome: FetchOutcome)
      modifies this
      ensures outcome == pages(url)
      ensures requests == old(requests) + [url]
    {
      requests := requests + [url];
      outcome := pages(url);
    }
  }

  /** The response GetResult gives, as a function of the setting, the web
      and the parser; only 200, 400 and 500 are ever answered. */
  function ExpectedResult(
    urlAddress: Option<string>, pages: string -> FetchOutcome, parse: string -> ParseOutcome): (r: HttpResponseMessage)
    ensures r.statusCode in {OK, BadRequest, InternalServerError}
  {
    if IsNullOrWhiteSpace(urlAddress) then CreateBadRequestResponse(Some("Null or empty UrlAddress"))
    else
      match pages(urlAddress.value)
      case FetchFailed(e) => CreateErrorResponse(InternalServerError, e)
      case Fetched(html) =>
        match parse(html)
        case ParseFailed(e) => CreateErrorResponse(InternalServerError, e)
        case Parsed(doc) =>
          match CreateOkResponse(StringList(PostTitles(doc)), None)
          case Success(r) => r
          case Failure(t) => CreateErrorResponse(InternalServerError, AsException(t))
  }

  /** GetResult: a blank address returns the 400 before any request is made;
      otherwise exactly one request is made, and a failed fetch or parse is
      caught and answered with a 500 carrying the exception. */
  method GetResult(settings: string -> Option<string>, network: Network, parse: string -> ParseOutcome)
    returns (responseMessage: HttpResponseMessage)
    modifies network
    ensures responseMessage == ExpectedResult(settings(UrlSettingName), network.pages, parse)
    ensures IsNullOrWhiteSpace(settings(UrlSettingName)) ==> network.requests == old(network.requests)
    ensures !IsNullOrWhiteSpace(settings(UrlSettingName)) ==>
      network.requests == old(network.requests) + [settings(UrlSettingName).value]
  {
    var urlAddress := settings(UrlSettingName);
    if IsNullOrWhiteSpace(urlAddress) {
      return CreateBadRequestResponse(Some("Null or empty UrlAddress"));
    }
    var fetched := network.GetString(urlAddress.value);
    match fetched {
      case FetchFailed(e) =>
        responseMessage := CreateErrorResponse(InternalServerError, e);
      case Fetched(html) =>
        var parsed := parse(html);
        match parsed {
          case ParseFailed(e) =>
            responseMessage := CreateErrorResponse(InternalServerError, e);
          case Parsed(doc) =>
            var postTitles := PostTitles(doc);
            var created := CreateOkResponse(StringList(postTitles), None);
            match created {
              case Success(r) => responseMessage := r;
              case Failure(t) => responseMessage := CreateErrorResponse(InternalServerError, AsException(t));
            }
        }
    }
  }

  // ---------------------------------------------------------------------------
  // Outcomes
  // ---------------------------------------------------------------------------

  /** A blank address gives the 400 with the fixed message. */
  lemma BlankAddress(urlAddress: Option<string>, pages: string -> FetchOutcome, parse: string -> ParseOutcome)
    requires IsNullOrWhiteSpace(urlAddress)
    ensures ExpectedResult(urlAddress, pages, parse)
      == HttpResponseMessage(BadRequest, JsonFormatter, ErrorModel(Models.ErrorResponseModel(400, Some("Null or empty UrlAddress"), None)))
  {
  }

  /** A failed fetch or a failed parse gives a 500 carrying that exception. */
  lemma FailuresAre500(url: string, pages: string -> FetchOutcome, parse: string -> ParseOutcome)
    requires !IsNullOrWhiteSpace(Some(url))
    ensures pages(url).FetchFailed? ==>
      ExpectedResult(Some(url), pages, parse) == HttpResponseMessage(InternalServerError, Negotiated, HttpError(pages(url).error))
    ensures pages(url).Fetched? && parse(pages(url).html).ParseFailed? ==>
      ExpectedResult(Some(url), pages, parse)
        == HttpResponseMessage(InternalServerError, Negotiated, HttpError(parse(pages(url).html).error))
  {
  }

  /** A loaded page gives a JSON 200 with the titles in document order, one
      per title cell; a page without title cells still gives a 200, with an
      empty list. The response-building error path is never taken. */
  lemma SuccessIs200(url: string, pages: string -> FetchOutcome, parse: string -> ParseOutcome)
    requires !IsNullOrWhiteSpace(Some(url))
    requires pages(url).Fetched? && parse(pages(url).html).Parsed?
    ensures var doc := parse(pages(url).html).doc;
      ExpectedResult(Some(url), pages, parse) == HttpResponseMessage(OK, JsonFormatter, StringList(PostTitles(doc)))
      && |PostTitles(doc)| == CountTitleCells(DocumentDescendants(doc))
      && (CountTitleCells(DocumentDescendants(doc)) == 0 ==> PostTitles(doc) == [])
  {
    var doc := parse(pages(url).html).doc;
    TitlesCount(DocumentDescendants(doc));
  }
}
