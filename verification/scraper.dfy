/**
 One page through the scraper: `fetch_html` (web_scraper_api.py:42-56) and
 `scrape_url` (web_scraper_api.py:58-93). Raised `HTTPException`s are
 modelled as `Failure` values, the network GET as a given `FetchOutcome`, and
 BeautifulSoup's parser as a given function from HTML text to a document
 tree (or the message of the exception it raised).
 */
module Scraper {
  import opened Wrappers
  import opened Text
  import opened Html

  /** The `metadata` object of a scrape result. */
  datatype PageMetadata = PageMetadata(
    title: string,
    metaDescription: string,
    metaKeywords: string,
    headers: seq<string>)

  /** The dictionary `scrape_url` returns for a page it could scrape. */
  datatype ScrapeRecord = ScrapeRecord(url: string, metadata: PageMetadata, content: string)

  /**
   How the GET of a URL ended: a response with its status and decoded body,
   the 10-second timeout, or any other fault (connection, DNS, TLS, decoding
   the body) with the text of its exception.
   */
  datatype FetchOutcome =
    | Response(status: nat, body: string)
    | Timeout
    | Fault(cause: string)

  /** FastAPI's `HTTPException(status_code, detail)`. */
  datatype HttpError = HttpError(status: nat, detail: string)

  /** The parser: the document's top-level nodes, or the text of the exception it raised. */
  type Parser = string -> Result<seq<Node>, string>

  function Digit(d: nat): (c: char)
    requires d < 10
    ensures '0' <= c <= '9'
  {
    ('0' as int + d) as char
  }

  /** `str(n)` for a non-negative integer. */
  function Decimal(n: nat): (r: string)
    ensures r != []
    ensures forall i :: 0 <= i < |r| ==> '0' <= r[i] <= '9'
  {
    if n < 10 then [Digit(n)] else Decimal(n / 10) + [Digit(n % 10)]
  }

  /** Reads a string of decimal digits back as a number. */
  function DecimalValue(s: string): nat
    requires forall i :: 0 <= i < |s| ==> '0' <= s[i] <= '9'
  {
    if s == [] then 0 else 10 * DecimalValue(s[..|s| - 1]) + (s[|s| - 1] as int - '0' as int)
  }

  /** Decimal rendering loses nothing: reading it back gives the number. */
  lemma {:induction false} DecimalRoundTrip(n: nat)
    ensures DecimalValue(Decimal(n)) == n
  {
    if n >= 10 {
      DecimalRoundTrip(n / 10);
      var r := Decimal(n);
      assert r[..|r| - 1] == Decimal(n / 10);
    }
  }

  /** `str(exc)` of an `HTTPException`, which Starlette renders as "{status_code}: {detail}". */
  function ErrorText(e: HttpError): string {
    Decimal(e.status) + ": " + e.detail
  }

  /**
   The text of an error starts with the status in decimal digits, which read
   back as the status, followed by ": " and the detail.
   */
  lemma {:induction false} ErrorTextReadsBack(e: HttpError)
    ensures var k := |Decimal(e.status)|;
            && k + 2 <= |ErrorText(e)|
            && (forall i :: 0 <= i < k ==> '0' <= ErrorText(e)[i] <= '9')
            && DecimalValue(ErrorText(e)[..k]) == e.status
            && ErrorText(e)[k..] == ": " + e.detail
  {
    var digits := Decimal(e.status);
    var r := ErrorText(e);
    DecimalRoundTrip(e.status);
    assert r == digits + (": " + e.detail);
    assert r[..|digits|] == digits;
  }

  /** `fetch_html`: the page text, or the `HTTPException` it raises. */
  function FetchHtml(url: string, fetched: FetchOutcome): (r: Result<string, HttpError>)
    ensures r.Success? <==> fetched.Response? && fetched.status == 200
    ensures r.Success? ==> r.value == fetched.body
    ensures r.Failure? ==> r.error.status == if fetched.Timeout? then 504 else 500
    ensures r.Failure? ==> Contains(r.error.detail, url)
    ensures fetched.Fault? ==> Contains(r.error.detail, fetched.cause)
  {
    match fetched
    case Response(status, body) =>
      if status != 200 then
        // raised inside the `try` (:47) and caught again by `except Exception` (:54)
        var raised := HttpError(status, "Failed to fetch " + url);
        ContainsInside("Error fetching ", url, ": " + ErrorText(raised));
        assert "Error fetching " + url + (": " + ErrorText(raised)) == "Error fetching " + url + ": " + ErrorText(raised);
        Failure(HttpError(500, "Error fetching " + url + ": " + ErrorText(raised)))
      else
        Success(body)
    case Timeout =>
      ContainsInside("Timeout while fetching ", url, []);
      assert "Timeout while fetching " + url + [] == "Timeout while fetching " + url;
      Failure(HttpError(504, "Timeout while fetching " + url))
    case Fault(cause) =>
      ContainsInside("Error fetching ", url, ": " + cause);
      assert "Error fetching " + url + (": " + cause) == "Error fetching " + url + ": " + cause;
      ContainsInside("Error fetching " + url + ": ", cause, []);
      assert "Error fetching " + url + ": " + cause + [] == "Error fetching " + url + ": " + cause;
      Failure(HttpError(500, "Error fetching " + url + ": " + cause))
  }

  const TitleQuery := AnyOf(["title"])
  const HeadingQuery := AnyOf(["h1", "h2"])

  function MetaQuery(name: string): Query {
    WithAttr("meta", "name", name)
  }

  /** `soup.title.string.strip() if soup.title and soup.title.string else ""` */
  function Title(doc: seq<Node>): (r: string)
    ensures IsStripped(r)
  {
    match Find(doc, TitleQuery)
    case None => ""
    case Some(tag) =>
      match StringOf(tag)
      case Some(s) => if s != [] then Strip(s) else ""
      case None => ""
  }

  /** The `content` of the first `<meta name=...>` tag when it is there and non-empty, else "". */
  function MetaContent(doc: seq<Node>, name: string): (r: string)
    ensures r != [] ==>
              var tag := Find(doc, MetaQuery(name));
              && tag.Some? && tag.value.name == "meta" && tag.value.attrs["name"] == name
              && "content" in tag.value.attrs && tag.value.attrs["content"] == r
  {
    match Find(doc, MetaQuery(name))
    case Some(tag) => if "content" in tag.attrs && tag.attrs["content"] != [] then tag.attrs["content"] else ""
    case None => ""
  }

  /** `[h.get_text(strip=True) for h in tags]` */
  function HeadingTexts(tags: seq<Node>): (r: seq<string>)
    requires forall i :: 0 <= i < |tags| ==> tags[i].Element?
    ensures |r| == |tags|
    ensures forall i :: 0 <= i < |tags| ==> r[i] == GetText(tags[i], "")
  {
    if tags == [] then [] else [GetText(tags[0], "")] + HeadingTexts(tags[1..])
  }

  /** The text of every `h1` and `h2` tag. */
  function Headers(doc: seq<Node>): (r: seq<string>)
    ensures |r| == |FindAll(doc, HeadingQuery)|
    ensures forall i :: 0 <= i < |r| ==> IsStripped(r[i])
  {
    HeadingTexts(FindAll(doc, HeadingQuery))
  }

  /** `soup.find("main") or soup.find("article") or soup.body`; a found tag is always truthy. */
  function ContentTag(doc: seq<Node>): (r: Option<Node>)
    ensures r.Some? ==> r.value.Element? && (r.value.name == "main" || r.value.name == "article" || r.value.name == "body")
  {
    var main := Find(doc, AnyOf(["main"]));
    if main.Some? then main
    else
      var article := Find(doc, AnyOf(["article"]));
      if article.Some? then article else Find(doc, AnyOf(["body"]))
  }

  /** `main_content.get_text(separator="\n", strip=True) if main_content else ""`, returned as it is. */
  function Content(doc: seq<Node>): (r: string)
    ensures IsStripped(r)
    ensures ContentTag(doc).None? ==> r == []
  {
    match ContentTag(doc)
    case Some(tag) => GetText(tag, "\n")
    case None => ""
  }

  /** The record built at web_scraper_api.py:80-89 from a parsed page. */
  function Extract(url: string, doc: seq<Node>): (r: ScrapeRecord)
    ensures r.url == url
    ensures IsStripped(r.metadata.title)
  {
    ScrapeRecord(
      url,
      PageMetadata(Title(doc), MetaContent(doc, "description"), MetaContent(doc, "keywords"), Headers(doc)),
      Content(doc))
  }

  /** The prefix of every error detail `scrape_url` raises (:93). */
  function ParseErrorPrefix(url: string): string {
    "Error parsing HTML for " + url + ": "
  }

  /** `scrape_url`: the scraped record, or the `HTTPException` that reaches its caller. */
  function ScrapeUrl(url: string, fetched: FetchOutcome, parse: Parser): (r: Result<ScrapeRecord, HttpError>)
    ensures r.Success? <==> fetched.Response? && fetched.status == 200 && parse(fetched.body).Success?
    ensures r.Success? ==> r.value == Extract(url, parse(fetched.body).value) && r.value.url == url
    ensures r.Failure? ==> r.error.status == 500 && ParseErrorPrefix(url) <= r.error.detail
    ensures r.Failure? ==> Contains(r.error.detail, url)
    ensures FetchHtml(url, fetched).Failure? ==> Contains(r.error.detail, ErrorText(FetchHtml(url, fetched).error))
    ensures FetchHtml(url, fetched).Success? && parse(fetched.body).Failure? ==>
              Contains(r.error.detail, parse(fetched.body).error)
  {
    match FetchHtml(url, fetched)
    case Failure(e) =>
      PrefixNamesUrl(url, ErrorText(e));
      Failure(HttpError(500, ParseErrorPrefix(url) + ErrorText(e)))
    case Success(html) =>
      match parse(html)
      case Failure(cause) =>
        PrefixNamesUrl(url, cause);
        Failure(HttpError(500, ParseErrorPrefix(url) + cause))
      case Success(doc) => Success(Extract(url, doc))
  }

  /** A detail built on `ParseErrorPrefix` names the URL and keeps the wrapped text. */
  lemma {:induction false} PrefixNamesUrl(url: string, inner: string)
    ensures Contains(ParseErrorPrefix(url) + inner, url)
    ensures Contains(ParseErrorPrefix(url) + inner, inner)
  {
    ContainsInside("Error parsing HTML for ", url, ": " + inner);
    assert "Error parsing HTML for " + url + (": " + inner) == ParseErrorPrefix(url) + inner;
    ContainsInside(ParseErrorPrefix(url), inner, []);
    assert ParseErrorPrefix(url) + inner + [] == ParseErrorPrefix(url) + inner;
  }

  /**
   A non-200 status is raised, caught by the `except Exception` of the same
   `try` and wrapped into a 500, then wrapped once more by `scrape_url`; the
   upstream status survives only as digits inside the detail.
   */
  lemma {:induction false} NonOkStatusReported(url: string, status: nat, body: string, parse: Parser)
    requires status != 200
    ensures ScrapeUrl(url, Response(status, body), parse)
            == Failure(HttpError(500, ParseErrorPrefix(url) + "500: Error fetching " + url + ": "
                                      + Decimal(status) + ": Failed to fetch " + url))
  {
    var p := ParseErrorPrefix(url);
    var innerText := Decimal(status) + (": " + ("Failed to fetch " + url));
    var outerDetail := "Error fetching " + url + ": " + innerText;
    assert ScrapeUrl(url, Response(status, body), parse) == Failure(HttpError(500, p + ("500: " + outerDetail))) by {
      assert ErrorText(HttpError(status, "Failed to fetch " + url)) == innerText;
      assert FetchHtml(url, Response(status, body)) == Failure(HttpError(500, outerDetail));
      StatusCodeTexts();
    }
    assert p + ("500: " + outerDetail) == p + "500: Error fetching " + url + ": " + Decimal(status) + ": Failed to fetch " + url by {
      RegroupStatus(p, "500: ", "Error fetching ", url, ": ", Decimal(status), ": ", "Failed to fetch ");
      FetchErrorPhrases();
    }
  }

  /** Any other fault is wrapped into a 500 by `fetch_html`, then again by `scrape_url`. */
  lemma {:induction false} FaultReported(url: string, cause: string, parse: Parser)
    ensures ScrapeUrl(url, Fault(cause), parse)
            == Failure(HttpError(500, ParseErrorPrefix(url) + "500: Error fetching " + url + ": " + cause))
  {
    var p := ParseErrorPrefix(url);
    var outer := HttpError(500, "Error fetching " + url + ": " + cause);
    assert FetchHtml(url, Fault(cause)).error == outer;
    StatusCodeTexts();
    assert ErrorText(outer) == "500: " + outer.detail;
    RegroupFault(p, "500: ", "Error fetching ", url, ": ", cause);
    FetchErrorPhrases();
  }

  /** A timeout's 504 does not reach the caller: it is wrapped into a 500. */
  lemma {:induction false} TimeoutBecomes500(url: string, parse: Parser)
    ensures ScrapeUrl(url, Timeout, parse)
            == Failure(HttpError(500, ParseErrorPrefix(url) + "504: Timeout while fetching " + url))
  {
    var p := ParseErrorPrefix(url);
    var d := "Timeout while fetching " + url;
    assert FetchHtml(url, Timeout).error == HttpError(504, d);
    StatusCodeTexts();
    assert ErrorText(HttpError(504, d)) == "504: " + d;
    RegroupTimeout(p, "504: ", "Timeout while fetching ", url);
    TimeoutPhrase();
  }

  /** A 404, for instance, is wrapped twice, each time into a 500. */
  lemma {:induction false} NotFoundBecomes500(url: string, body: string, parse: Parser)
    ensures ScrapeUrl(url, Response(404, body), parse)
            == Failure(HttpError(500, ParseErrorPrefix(url) + "500: Error fetching " + url + ": 404: Failed to fetch " + url))
  {
    NonOkStatusReported(url, 404, body, parse);
    StatusCodeTexts();
    RegroupStatusText(ParseErrorPrefix(url) + "500: Error fetching " + url, ": ", "404", ": Failed to fetch ", url);
    NotFoundPhrase();
  }

  /*
   The lemmas below only move the brackets of string concatenations, or join
   adjacent literal pieces of the error details; the lemmas above use them so
   that the solver does not have to rediscover these equalities on literals.
   */

  /** The literal pieces of a fetch error's detail, joined. */
  lemma FetchErrorPhrases()
    ensures "500: " + "Error fetching " == "500: Error fetching "
    ensures ": " + "Failed to fetch " == ": Failed to fetch "
  {
  }

  /** The literal pieces of a timeout's detail, joined. */
  lemma TimeoutPhrase()
    ensures "504: " + "Timeout while fetching " == "504: Timeout while fetching "
  {
  }

  /** The literal pieces of a 404's detail, joined. */
  lemma NotFoundPhrase()
    ensures ": " + "404" + ": Failed to fetch " == ": 404: Failed to fetch "
  {
  }

  lemma RegroupStatus(a: string, b: string, c: string, u: string, e: string, d: string, f: string, g: string)
    ensures a + (b + (c + u + e + (d + (f + (g + u))))) == a + (b + c) + u + e + d + (f + g) + u
  {
  }

  lemma RegroupFault(a: string, b: string, c: string, u: string, e: string, d: string)
    ensures a + (b + (c + u + e + d)) == a + (b + c) + u + e + d
  {
  }

  lemma RegroupTimeout(a: string, b: string, c: string, d: string)
    ensures a + (b + (c + d)) == a + (b + c) + d
  {
  }

  lemma RegroupStatusText(a: string, b: string, c: string, d: string, u: string)
    ensures a + b + c + d + u == a + (b + c + d) + u
  {
  }

  /** The status codes the source raises, written in decimal. */
  lemma StatusCodeTexts()
    ensures Decimal(404) == "404"
    ensures Decimal(500) + ": " == "500: "
    ensures Decimal(504) + ": " == "504: "
  {
    assert Decimal(4) == "4" && Decimal(40) == "40" && Decimal(404) == "404";
    assert Decimal(5) == "5" && Decimal(50) == "50" && Decimal(500) == "500" && Decimal(504) == "504";
  }

  /** The title comes from the first `<title>` in document order and is "" when it has no single string. */
  lemma {:induction false} TitleSelection(doc: seq<Node>)
    ensures var order := Preorder(doc);
            var k := FirstIndex(order, TitleQuery);
            Title(doc) == if k == |order| then "" else
                            match StringOf(order[k])
                            case Some(s) => Strip(s)
                            case None => ""
  {
    FindIsFirstInDocumentOrder(doc, TitleQuery);
    assert Strip([]) == [] by {
      assert AllSpace([]);
    }
  }

  /**
   A meta field is the `content` of the first `<meta name=...>` in document
   order; a later matching tag is never consulted.
   */
  lemma {:induction false} MetaSelection(doc: seq<Node>, name: string)
    ensures var order := Preorder(doc);
            var k := FirstIndex(order, MetaQuery(name));
            MetaContent(doc, name) == if k < |order| && "content" in order[k].attrs then order[k].attrs["content"] else ""
  {
    FindIsFirstInDocumentOrder(doc, MetaQuery(name));
  }

  /** The headers are the texts of all `h1` and `h2` tags, in document order. */
  lemma {:induction false} HeadersInDocumentOrder(doc: seq<Node>)
    ensures var tags := Select(Preorder(doc), HeadingQuery);
            && |Headers(doc)| == |tags|
            && forall i :: 0 <= i < |tags| ==> tags[i].Element? && Headers(doc)[i] == GetText(tags[i], "")
  {
    FindAllInDocumentOrder(doc, HeadingQuery);
  }

  /**
   The content is the text of the first `main` in document order, else of the
   first `article`, else of the first `body`, else "".
   */
  lemma {:induction false} ContentSelection(doc: seq<Node>)
    ensures var order := Preorder(doc);
            var m := FirstIndex(order, AnyOf(["main"]));
            var a := FirstIndex(order, AnyOf(["article"]));
            var b := FirstIndex(order, AnyOf(["body"]));
            Content(doc) ==
              if m < |order| then GetText(order[m], "\n")
              else if a < |order| then GetText(order[a], "\n")
              else if b < |order| then GetText(order[b], "\n")
              else ""
  {
    FindIsFirstInDocumentOrder(doc, AnyOf(["main"]));
    FindIsFirstInDocumentOrder(doc, AnyOf(["article"]));
    FindIsFirstInDocumentOrder(doc, AnyOf(["body"]));
  }
}
