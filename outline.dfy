/**
 * The `GET /api/outline` handler, `get_country_outline`: it trims the
 * country name, builds the Wikipedia article URL, fetches and parses the
 * page, and renders the headings of the article body as a Markdown outline.
 *
 * Fetching and parsing are one collaborator here, `fetch`, a function from
 * the URL to what the page turned out to be; the rest is modelled as the
 * handler does it.
 */
module ScraperApi {
  import opened Wrappers
  import opened PyStr

  /** The digit of a heading tag name `h1` .. `h6`. */
  type Level = n: int | 1 <= n <= 6 witness 1

  /** A heading tag of the body-content container: its level and its stripped text. */
  datatype Heading = Heading(level: Level, text: string)

  /** What fetching the article URL and parsing the answer yields. */
  datatype Page =
    | TransportFailure
      // the HTTP client raised instead of answering
    | Fetched(status: int, content: Option<seq<Heading>>)
      // the final status code, and the headings of the `bodyContent` division
      // in document order, or None when the page has no such division

  /** An HTTP error response: status code and detail text. */
  datatype HttpError = HttpError(status: int, detail: string)

  const WikiPrefix := "https://en.wikipedia.org/wiki/"

  /** Heading texts that are left out of the outline, compared in lower case. */
  const SkipTitles: set<string> := {"contents", "see also", "references", "external links"}

  const ContentsLine := "## Contents"

  const EmptyName := HttpError(400, "Country name cannot be empty")
  const PageNotFound := HttpError(404, "Wikipedia page not found")
  const ParseFailure := HttpError(500, "Failed to parse Wikipedia content")
  const NoHeadings := HttpError(404, "No headings found on the page")
  /** What the web framework answers when the handler raises an exception it does not catch. */
  const Unhandled := HttpError(500, "Internal Server Error")

  /**
   * The article URL for an already trimmed country name: the fixed prefix
   * followed by the name with every space turned into an underscore and
   * nothing else escaped.
   */
  function ArticleUrl(name: string): (url: string)
    ensures |url| == |WikiPrefix| + |name| && url[..|WikiPrefix|] == WikiPrefix
    ensures ' ' !in url[|WikiPrefix|..]
    ensures forall i :: 0 <= i < |name| && name[i] != ' ' ==> url[|WikiPrefix| + i] == name[i]
    ensures forall i :: 0 <= i < |name| && name[i] == ' ' ==> url[|WikiPrefix| + i] == '_'
  {
    var title := ReplaceChar(name, ' ', '_');
    assert (WikiPrefix + title)[|WikiPrefix|..] == title;
    WikiPrefix + title
  }

  /** A heading contributes a line unless its text is empty or, lower-cased, in the skip set. */
  predicate Keep(h: Heading) {
    h.text != "" && Lower(h.text) !in SkipTitles
  }

  /** The headings that contribute a line, in their original order. */
  function Survivors(hs: seq<Heading>): (kept: seq<Heading>)
    ensures |kept| <= |hs|
    ensures forall k :: 0 <= k < |kept| ==> Keep(kept[k])
  {
    if hs == [] then []
    else
      var last := hs[|hs| - 1];
      Survivors(hs[..|hs| - 1]) + (if Keep(last) then [last] else [])
  }

  /** The line of one heading: its level plus one `#` characters, a space, its text. */
  function HeadingLine(h: Heading): string {
    Repeat('#', h.level + 1) + " " + h.text
  }

  /** The lines the kept headings contribute, one per kept heading, in order. */
  function HeadingLines(hs: seq<Heading>): (lines: seq<string>) {
    var kept := Survivors(hs);
    seq(|kept|, k requires 0 <= k < |kept| => HeadingLine(kept[k]))
  }

  /** Taking one more heading adds its line exactly when it is kept. */
  lemma HeadingLinesExtend(hs: seq<Heading>, i: nat)
    requires i < |hs|
    ensures HeadingLines(hs[..i + 1])
            == HeadingLines(hs[..i]) + (if Keep(hs[i]) then [HeadingLine(hs[i])] else [])
  {
    var pre := hs[..i + 1];
    assert pre[..|pre| - 1] == hs[..i] && pre[|pre| - 1] == hs[i];
  }

  /** The two header lines: the contents marker and the country name at level three. */
  function Header(name: string): seq<string> {
    [ContentsLine, "### " + name]
  }

  /** Every line of the outline of country `name` with headings `hs`, before joining. */
  function OutlineLines(name: string, hs: seq<Heading>): (lines: seq<string>)
    ensures |lines| == 2 + |Survivors(hs)|
  {
    Header(name) + HeadingLines(hs)
  }

  /** The leading text every outline of the trimmed name `name` has. */
  function OutlinePrefix(name: string): string {
    ContentsLine + BlankLine + "### " + name
  }

  /** An outline starts with its two header lines, separated by a blank line. */
  lemma OutlineStartsWithHeader(name: string, hs: seq<Heading>)
    ensures OutlinePrefix(name) <= Join(BlankLine, OutlineLines(name, hs))
  {
    var lines := OutlineLines(name, hs);
    assert lines[1..][0] == "### " + name;
  }

  /**
   * What the handler answers for the trimmed name `name` once the page has
   * been fetched: the checks on the page in their order, then the outline.
   */
  function Respond(name: string, page: Page): Result<string, HttpError> {
    match page
    case TransportFailure => Failure(Unhandled)
    case Fetched(status, content) =>
      if status != 200 then Failure(PageNotFound)
      else if content.None? then Failure(ParseFailure)
      else if content.value == [] then Failure(NoHeadings)
      else Success(Join(BlankLine, OutlineLines(name, content.value)))
  }

  /**
   * The whole handler as one function of the raw query parameter and the
   * fetch collaborator: either the outline text or the HTTP error it raises.
   * A blank name is refused before the URL is built or anything is fetched.
   */
  function Outline(country: string, fetch: string -> Page): Result<string, HttpError> {
    var name := Strip(country);
    if name == [] then Failure(EmptyName) else Respond(name, fetch(ArticleUrl(name)))
  }

  /**
   * The rendering loop of the handler: start from the two header lines and
   * append one line per kept heading, in document order.
   */
  method RenderLines(name: string, headings: seq<Heading>) returns (lines: seq<string>)
    ensures lines == OutlineLines(name, headings)
  {
    lines := [ContentsLine, "### " + name];
    for i := 0 to |headings|
      invariant lines == Header(name) + HeadingLines(headings[..i])
    {
      var tag := headings[i];
      HeadingLinesExtend(headings, i);
      var title := tag.text;
      if title == [] || Lower(title) in SkipTitles {
        continue;
      }
      var level := tag.level + 1;
      lines := lines + [Repeat('#', level) + " " + title];
    }
    assert headings[..|headings|] == headings;
  }

  /**
   * `get_country_outline` step by step: validate, build the URL, fetch,
   * check the page, then build the list of lines one heading at a time and
   * join it.
   */
  method GetCountryOutline(country: string, fetch: string -> Page) returns (r: Result<string, HttpError>)
    ensures r == Outline(country, fetch)
  {
    var name := Strip(country);
    if name == [] {
      return Failure(EmptyName);
    }
    var url := ArticleUrl(name);
    var page := fetch(url);
    if page.TransportFailure? {
      return Failure(Unhandled);
    }
    if page.status != 200 {
      return Failure(PageNotFound);
    }
    if page.content.None? {
      return Failure(ParseFailure);
    }
    var headings := page.content.value;
    if headings == [] {
      return Failure(NoHeadings);
    }
    var lines := RenderLines(name, headings);
    return Success(Join(BlankLine, lines));
  }
}
