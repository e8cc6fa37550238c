# Async web scraping API — a Dafny model

The modelled service takes one URL or a list of URLs and fetches each page.
It extracts the page's metadata: the title, the `description` and `keywords`
meta tags, and the text of the `h1`/`h2` headings. It also extracts the text
of the main block (`main`, else `article`, else `body`). A batch request gets
back a list that keeps the order of its URLs: each element is either the
scraped record or an error object for that URL. The service also defines a
text normaliser, `clean_text`. It splits text into stripped, non-blank lines
and drops the lines that hold navigation phrases.

The model is split into these modules:

- `Text`: the Python string operations the code relies on. These are
  `str.strip()`, `split("\n")`, `sep.join`, the substring test `in`, and the
  strip-and-drop-blank comprehension.
- `Normalizer`: `clean_text`. It includes the `\n{2,}` collapse, written as a
  sequence function.
- `Html`: the part of BeautifulSoup the scraper uses, over a parsed document
  tree. This covers `find`, `find_all`, `.string` and
  `get_text(separator, strip=True)`, each with a reference definition by
  document order.
- `Scraper`: `fetch_html` and `scrape_url` as `Result`-valued functions. The
  network outcome and the parser are given as inputs.
- `Batch`: the assembly loop of `scrape_batch` as a method with loop
  invariants, and the whole batch call.
- `Samples`: worked pages, taken through the extraction rules.

Raised exceptions are modelled as `Failure` values. Two behaviours of the
code are worth knowing before reading the model:

- **Content is not normalised.** The content field is the raw
  `get_text(separator="\n", strip=True)` string (web_scraper_api.py:78, :88).
  `clean_text` is defined but never called on it.
- **Every failure reaches the caller with status 500.** This includes a
  timeout (504) and a non-200 upstream status. `fetch_html` raises its
  non-200 exception inside its own `try` (:47), so its `except Exception`
  (:54) catches it again as a 500. `scrape_url` then wraps every failure
  from `fetch_html` once more as a 500 (:91-93).

`str()` of an `HTTPException` is rendered as `"{status_code}: {detail}"`. This
is how Starlette renders it (`Scraper.ErrorText`). Starlette is not part of
this model.

`get_text` follows BeautifulSoup 4.10 and later: the text inside `script`,
`style`, `template`, `rt` and `rp` elements is kept in string classes of its
own and is skipped (`Html.HiddenTextTags`).

## Model

| member | source | states |
|---|---|---|
| Text.Strip | web_scraper_api.py:37 | `strip()` gives `s[a..b]` where everything before `a` and after `b` is whitespace and the result has no whitespace at either end. So the value is fixed: `s` with its leading and trailing whitespace removed. A stripped string is unchanged, and the result is "" exactly when the line is all whitespace. |
| Text.Lines | web_scraper_api.py:37 | `split("\n")` gives at least one piece, and no piece holds a line break. |
| Text.Join | web_scraper_api.py:37 | `sep.join` of no parts is "" and of one part is that part. Text.JoinLines and Text.LinesJoin make it the inverse of `split("\n")`. |
| Text.JoinLines | web_scraper_api.py:37 | Joining the pieces of `split("\n")` with "\n" gives the original text back. |
| Text.LinesJoin | web_scraper_api.py:37 | Splitting the "\n"-join of a non-empty list of break-free pieces gives the pieces back. A piece may be "". |
| Text.NonBlank | web_scraper_api.py:37 | The comprehension keeps at most as many lines as it is given, and each kept line is non-empty and stripped. |
| Text.NonBlankSelects | web_scraper_api.py:37 | The comprehension is the stripped lines in their order, with exactly the empty ones left out: each non-empty stripped line is kept as often as it occurs. |
| Text.NonBlankMembers | web_scraper_api.py:37 | A line is in the result exactly when it is non-empty and some input line strips to it. |
| Text.NonBlankEmpty | web_scraper_api.py:37 | The result is empty exactly when every input line is whitespace only. |
| Text.NonBlankHasNoBreak | web_scraper_api.py:37 | Stripping adds no line break: break-free lines give break-free results. |
| Text.NonBlankOfClean | web_scraper_api.py:37 | Lines that are already stripped and non-empty pass through unchanged. |
| Text.Contains | web_scraper_api.py:38 | Python's `bad in line` on strings. Its meaning is stated by Text.ContainsAt. |
| Text.ContainsAt | web_scraper_api.py:38 | `bad in line` holds exactly when the phrase occurs at some position of the line. |
| Text.NotContainsLonger | web_scraper_api.py:38 | A phrase longer than the line never occurs in it. |
| Text.ContainsInside | web_scraper_api.py:47-56 | A text occurs in any string that has it between a prefix and a suffix, as a URL does inside an f-string detail. |
| Normalizer.CollapseBreaks | web_scraper_api.py:34 | The collapsed text has no two line breaks in a row. It is no longer than the input and starts with the same character. A text with no double break is unchanged. |
| Normalizer.CollapseDropsRepeatedBreaks | web_scraper_api.py:34 | The collapse equals the reference that reads the text left to right and drops a line break exactly when the character kept before it is a line break. Nothing else is removed or changed. |
| Normalizer.IsNoise | web_scraper_api.py:36-38 | A line is noise when one of "Sign In", "Sign Out", "All Articles", "Home" occurs in it, case-sensitively. Normalizer.NoiseExamples and Normalizer.ShortLineIsNotNoise state cases. |
| Normalizer.DropNoise | web_scraper_api.py:38 | No kept line is noise, and input without noise is unchanged. |
| Normalizer.DropNoiseSelects | web_scraper_api.py:38 | The filter keeps the lines in order. A line is kept exactly when it is in the input and is not noise. Each kept line appears as often as in the input, and a noise line never appears. |
| Normalizer.CleanText | web_scraper_api.py:31-39 | Every returned line is non-empty, holds no "\n", equals its own strip, and holds none of "Sign In", "Sign Out", "All Articles" or "Home". |
| Normalizer.CollapseKeepsLines | web_scraper_api.py:34-37 | Collapsing keeps the first line. It changes the later lines only by removing empty ones: with the "" lines taken out, the later lines are the same. |
| Normalizer.CollapseIsRedundant | web_scraper_api.py:34-38 | The collapse step never changes the result: `clean_text(t)` equals the filter applied to `t` without it. |
| Normalizer.CleanTextSelects | web_scraper_api.py:37-38 | The result is an order-preserving subsequence of the stripped non-blank lines. A line is in it exactly when it is such a line and is not noise, and it appears as often as among those lines. |
| Normalizer.CleanTextOfJoined | web_scraper_api.py:37-38 | Cleaning break-free lines joined with "\n" is stripping, dropping blanks and dropping noise on those lines. This includes the empty list. |
| Normalizer.CleanTextIdempotent | web_scraper_api.py:31-39 | Cleaning the "\n"-join of a cleaned result gives the same result. |
| Normalizer.CleanTextExample | web_scraper_api.py:31-39 | `clean_text("A\n\n\nB\nSign In\nC")` is `["A", "B", "C"]`. |
| Normalizer.NoiseExamples | web_scraper_api.py:36-38 | The match is a case-sensitive substring test: "Homework" and "Back to All Articles" are noise, "home" is not. |
| Normalizer.ShortLineIsNotNoise | web_scraper_api.py:36-38 | A line shorter than four characters is never noise, since every phrase is longer. |
| Html.FirstIndex | web_scraper_api.py:66 | Reference for "first in document order": no node before the index matches, and the node at the index matches if it exists. |
| Html.SelectMatches | web_scraper_api.py:75 | The reference selection behind "all matches in document order" holds exactly the matching nodes. |
| Html.FirstOfAppend | web_scraper_api.py:66 | The first match in a concatenation is the first match in the front part, or else the first match in the back part. |
| Html.Find | web_scraper_api.py:66 | A node found by `find` matches the query. |
| Html.FindAll | web_scraper_api.py:75 | Every node `find_all` returns matches the query. |
| Html.FindAllInDocumentOrder | web_scraper_api.py:75 | `find_all` returns exactly the matching descendants, in document order. |
| Html.FindIsFirstInDocumentOrder | web_scraper_api.py:66 | `find` returns the first matching descendant in document order, and nothing when none matches. |
| Html.FindIsHeadOfFindAll | web_scraper_api.py:66 | `find` is the first element of `find_all`'s result, or nothing when that result is empty. |
| Html.Strings | web_scraper_api.py:75-78 | The strings `get_text` collects below a tag. Html.StringsInDocumentOrder states which ones. |
| Html.StringsInDocumentOrder | web_scraper_api.py:78 | The strings `get_text` works on are the text nodes among the descendants, in document order, once the inside of every `script`, `style`, `template`, `rt` and `rp` element is removed. |
| Html.PruneWithoutHidden | web_scraper_api.py:78 | In a tree without those elements nothing is removed, so the strings are all the text nodes in document order. |
| Html.GetText | web_scraper_api.py:75-78 | `get_text(sep, strip=True)` is stripped. It is "" exactly when every string it collects is whitespace only. |
| Html.JoinStripped | web_scraper_api.py:75-78 | Joining stripped non-empty pieces gives a stripped string, whatever the separator. |
| Html.GetTextLines | web_scraper_api.py:78 | When no stripped string holds a line break, the lines of `get_text(separator="\n", strip=True)` are the stripped non-blank strings, or one empty line when there are none. |
| Html.StringOf | web_scraper_api.py:63 | `.string` of a text is the text itself. `.string` of a tag without exactly one child is `None`. |
| Html.StringOfIsOnlyText | web_scraper_api.py:63 | A string found by `.string` is the only text node in that subtree. |
| Scraper.DecimalRoundTrip | web_scraper_api.py:47 | The decimal rendering of a status reads back as the status. |
| Scraper.ErrorText | web_scraper_api.py:56 | `str(exc)` of an `HTTPException`, "{status_code}: {detail}". |
| Scraper.ErrorTextReadsBack | web_scraper_api.py:56 | The text of an error starts with decimal digits that read back as its status, followed by ": " and its detail, and nothing else. |
| Scraper.FetchHtml | web_scraper_api.py:42-56 | The body is returned exactly for a 200 response. A timeout fails with 504, and every other failure fails with 500, a non-200 status included. Every failure detail names the URL, and a fault's detail holds the fault's own text. |
| Scraper.Title | web_scraper_api.py:63 | The title is always stripped. |
| Scraper.TitleSelection | web_scraper_api.py:63 | The title is the stripped `.string` of the first `<title>` in document order. It is "" when there is no title or no single string. |
| Scraper.MetaContent | web_scraper_api.py:65-73 | A non-empty meta field is the `content` of the first tag that `find` returns for `<meta name=...>`, and that tag has the requested name. |
| Scraper.MetaSelection | web_scraper_api.py:65-73 | A meta field is the `content` of the first `<meta name=...>` in document order. It is "" when there is no such tag or the tag has no `content`. A later matching tag is never used. |
| Scraper.HeadingTexts | web_scraper_api.py:75 | One text per tag, in order: entry i is `get_text(strip=True)` of tag i. |
| Scraper.Headers | web_scraper_api.py:75 | There is one header per `h1`/`h2` tag `find_all` returns, and each header is stripped. |
| Scraper.HeadersInDocumentOrder | web_scraper_api.py:75 | The headers are the stripped texts of all `h1` and `h2` elements, one per element, in document order. |
| Scraper.ContentTag | web_scraper_api.py:77 | The content block, when found, is an element named `main`, `article` or `body`. |
| Scraper.Content | web_scraper_api.py:77-78 | The content is stripped, and it is "" when there is no content block. |
| Scraper.ContentSelection | web_scraper_api.py:77-78 | The content is the text of the first `main`, else the first `article`, else the first `body`, else "". |
| Scraper.Extract | web_scraper_api.py:80-89 | The record echoes the URL unchanged, and its title is stripped. |
| Scraper.ScrapeUrl | web_scraper_api.py:58-93 | It succeeds exactly when the response is 200 and the body parses, and the record is then the one extracted from the parsed page. Every failure has status 500 and a detail that starts "Error parsing HTML for {url}: ", names the URL, and holds the text of the fetch error or the parser's error. |
| Scraper.PrefixNamesUrl | web_scraper_api.py:93 | A detail built on the `scrape_url` prefix names the URL and keeps the wrapped text. |
| Scraper.NonOkStatusReported | web_scraper_api.py:45-93 | Any non-200 status reaches the caller as 500 "Error parsing HTML for {url}: 500: Error fetching {url}: {status}: Failed to fetch {url}". |
| Scraper.FaultReported | web_scraper_api.py:54-93 | A fetch fault reaches the caller as 500 "Error parsing HTML for {url}: 500: Error fetching {url}: {cause}". |
| Scraper.TimeoutBecomes500 | web_scraper_api.py:51-93 | A timeout reaches the caller as 500 "Error parsing HTML for {url}: 504: Timeout while fetching {url}". |
| Scraper.NotFoundBecomes500 | web_scraper_api.py:45-93 | A 404 reaches the caller as 500. Its detail wraps "500: Error fetching {url}: 404: Failed to fetch {url}". |
| Batch.AssembleOutput | web_scraper_api.py:109-118 | The output has one entry per pair of `zip(urls, results)`. Entry i is `{url: urls[i], error: str(exc)}` exactly when result i is an exception, and is the record itself otherwise. |
| Batch.ScrapeBatch | web_scraper_api.py:104-120 | The output has one entry per URL, in order. Entry i is the record `scrape_url` gives for urls[i] when it succeeds, or `{url: urls[i], error: str(exc)}` for the exception it raises. A record is there exactly when the fetch was a 200 that parsed, and an error text starts "500: Error parsing HTML for urls[i]". Equal URLs with equal outcomes give equal entries, none merged. |
| Samples.MainBlockExtraction | web_scraper_api.py:63-78 | For `<main><h1>T</h1><p>Body</p></main>`: the title is "", the headers are ["T"], the content is "T\nBody", and the description is "". |
| Samples.ScriptTextSkipped | web_scraper_api.py:78 | For `<p><script>x</script>y</p>`, `get_text` gives "y": the script's text is skipped. |

## Left out

- The HTTP client (`aiohttp` session, GET, the 10-second timeout, `response.text()`) is I/O. How a fetch ended is an input, `Scraper.FetchOutcome`. Redirect handling is part of the client: only the final status is seen.
- `asyncio.gather` concurrency is left out. The model keeps only its result: one outcome per URL, in the order of the URLs. An exception raised in a task takes that task's place.
- The BeautifulSoup HTML parser is a foreign library, so it is an input function (`Scraper.Parser`). It gives the document's top-level nodes, or the text of the exception it raised. The tree has only text and element nodes. Comments, doctype and processing instructions are not modelled.
- FastAPI routing, the request models, pydantic's `HttpUrl` validation and normalisation, and the JSON exception handler are transport. URLs are taken as the strings that `str(url)` gives.
- `scrape_single` returns the result of `scrape_url` unchanged, so `Scraper.ScrapeUrl` models it.
- Logging is left out.
- The regular-expression engine is not modelled: the `\n{2,}` substitution is written directly as `Normalizer.CollapseBreaks`.
- The text of an arbitrary Python exception (a connection fault, a parser error) is not derived. The model carries it as the string the outcome supplies.
- Html.StringOf: its contract covers only the text case and the not-one-child case. What a found string is, the only text node of the subtree, is stated by `Html.StringOfIsOnlyText`.
- Html.Strings: the model skips the text of the `HiddenTextTags` elements below the tag `get_text` is called on, as BeautifulSoup 4.10 and later does. It does not model the case of a tag that itself sits inside such an element, and not the older releases that kept that text.
- Text.NonBlank: its own contract gives only bounds and the shape of each line. Which lines are kept, and how often, is stated by `Text.NonBlankSelects`, `Text.NonBlankMembers` and `Text.NonBlankEmpty`.
- Normalizer.DropNoise: its own contract says only that noise is gone. Which lines are kept, and how often, is stated by `Normalizer.DropNoiseSelects`.
- Scraper.MetaContent, Scraper.Headers, Scraper.Content: their own contracts give the shape of the field. Which tag the field comes from is stated by `Scraper.MetaSelection`, `Scraper.HeadersInDocumentOrder` and `Scraper.ContentSelection`.
- Html.Find: its contract says only that a found node matches. Which node is found is stated by `Html.FindIsFirstInDocumentOrder`.
- Html.FindAll: its contract says only that every node returned matches. Completeness and order are stated by `Html.FindAllInDocumentOrder`.
