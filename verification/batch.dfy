/**
 The batch endpoint `scrape_batch` (web_scraper_api.py:103-120): every URL is
 scraped on its own, and the outcomes are assembled, position by position,
 into a list of records and error entries.
 */
module Batch {
  import opened Wrappers
  import opened Scraper

  /** One element of the batch response: a scraped record, or the URL with the text of its error. */
  datatype BatchEntry =
    | Scraped(record: ScrapeRecord)
    | Failed(url: string, error: string)

  /**
   The loop of web_scraper_api.py:109-118 over `zip(urls, results)`: it stops
   at the shorter of the two, and turns each outcome into one entry.
   */
  method AssembleOutput(urls: seq<string>, results: seq<Result<ScrapeRecord, HttpError>>)
    returns (output: seq<BatchEntry>)
    ensures |output| == if |urls| <= |results| then |urls| else |results|
    ensures forall i :: 0 <= i < |output| ==> (output[i].Failed? <==> results[i].Failure?)
    ensures forall i :: 0 <= i < |output| && results[i].Failure? ==>
              output[i] == Failed(urls[i], ErrorText(results[i].error))
    ensures forall i :: 0 <= i < |output| && results[i].Success? ==>
              output[i] == Scraped(results[i].value)
  {
    output := [];
    var i := 0;
    while i < |urls| && i < |results|
      invariant i <= |urls| && i <= |results|
      invariant |output| == i
      invariant forall j :: 0 <= j < i && results[j].Failure? ==>
                  output[j] == Failed(urls[j], ErrorText(results[j].error))
      invariant forall j :: 0 <= j < i && results[j].Success? ==>
                  output[j] == Scraped(results[j].value)
    {
      var entry;
      match results[i] {
        case Failure(e) =>
          entry := Failed(urls[i], ErrorText(e));
        case Success(record) =>
          entry := Scraped(record);
      }
      output := output + [entry];
      i := i + 1;
    }
  }

  /**
   `scrape_batch`: each URL is scraped with its own fetch outcome (`gather`
   keeps the order of its tasks and returns an exception in place of a
   failed result), then the outcomes are assembled.
   */
  method ScrapeBatch(urls: seq<string>, fetched: seq<FetchOutcome>, parse: Parser)
    returns (output: seq<BatchEntry>)
    requires |fetched| == |urls|
    ensures |output| == |urls|
    ensures forall i :: 0 <= i < |urls| ==>
              (output[i].Scraped? <==> fetched[i].Response? && fetched[i].status == 200 && parse(fetched[i].body).Success?)
    ensures forall i :: 0 <= i < |urls| && ScrapeUrl(urls[i], fetched[i], parse).Success? ==>
              output[i] == Scraped(ScrapeUrl(urls[i], fetched[i], parse).value)
    ensures forall i :: 0 <= i < |urls| && ScrapeUrl(urls[i], fetched[i], parse).Failure? ==>
              output[i] == Failed(urls[i], ErrorText(ScrapeUrl(urls[i], fetched[i], parse).error))
    ensures forall i :: 0 <= i < |urls| && output[i].Scraped? ==>
              output[i].record == Extract(urls[i], parse(fetched[i].body).value) && output[i].record.url == urls[i]
    ensures forall i :: 0 <= i < |urls| && output[i].Failed? ==>
              output[i].url == urls[i] && "500: " + ParseErrorPrefix(urls[i]) <= output[i].error
    ensures forall i, j :: 0 <= i < |urls| && 0 <= j < |urls| && urls[i] == urls[j] && fetched[i] == fetched[j] ==>
              output[i] == output[j]
  {
    var results := seq(|urls|, i requires 0 <= i < |urls| => ScrapeUrl(urls[i], fetched[i], parse));
    output := AssembleOutput(urls, results);
    StatusCodeTexts();
    forall i | 0 <= i < |urls| && output[i].Failed?
      ensures "500: " + ParseErrorPrefix(urls[i]) <= output[i].error
    {
      var detail := results[i].error.detail;
      assert output[i].error == "500: " + detail;
    }
  }
}
