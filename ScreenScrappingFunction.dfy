/** ScreenScrappingFunction.Run: one call to the service, with a catch-all
    that turns an escaped exception into a 500 carrying its message. */
module ScreenScrappingFunction {
  import opened Common
  import opened ExceptionExtensions
  import opened Http
  import ScreenScrappingService

  /** The one call to GetResult: it returns a response or throws. */
  datatype ServiceOutcome = Returned(response: HttpResponseMessage) | Threw(error: Exception)

  const ErrorPrefix: string := "And error occured processing your request: "

  /** Run: the service's response unchanged, or req.CreateResponse(500, text)
      with the prefix and the exception's message. */
  function Run(outcome: ServiceOutcome): (r: HttpResponseMessage)
    ensures outcome.Returned? ==> r == outcome.response
    ensures outcome.Threw? ==> (r.statusCode == InternalServerError && r.formatter == Negotiated
      && r.value.Str? && |r.value.s| >= |ErrorPrefix|
      && r.value.s[..|ErrorPrefix|] == ErrorPrefix && r.value.s[|ErrorPrefix|..] == outcome.error.message)
  {
    match outcome
    case Returned(response) => response
    case Threw(ex) =>
      var exMessage := ErrorPrefix + ex.message;
      HttpResponseMessage(InternalServerError, Negotiated, Str(exMessage))
  }

  /** The 500 text can be read back: the message follows the fixed prefix. */
  lemma {:induction false} ErrorTextRoundTrip(a: Exception, b: Exception)
    requires Run(Threw(a)) == Run(Threw(b))
    ensures a.message == b.message
  {
    var ra, rb := Run(Threw(a)), Run(Threw(b));
    assert ra.value.s[|ErrorPrefix|..] == a.message;
    assert rb.value.s[|ErrorPrefix|..] == b.message;
  }

  /** End to end: since GetResult catches everything itself, a request
      answers with exactly the service's result, and only with 200, 400 or 500. */
  lemma RunThroughService(
    urlAddress: Option<string>, pages: string -> ScreenScrappingService.FetchOutcome,
    parse: string -> ScreenScrappingService.ParseOutcome)
    ensures var expected := ScreenScrappingService.ExpectedResult(urlAddress, pages, parse);
      Run(Returned(expected)) == expected
      && Run(Returned(expected)).statusCode in {OK, BadRequest, InternalServerError}
  {
  }
}
