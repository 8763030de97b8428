# Country outline endpoint, modelled in Dafny

The repository serves one HTTP endpoint, `GET /api/outline?country=<name>`.
Its handler, `get_country_outline` in `scraperapi.py`, does the following:

1. It trims the country name and refuses a blank one with status 400.
2. It builds the English Wikipedia article URL. Spaces become underscores and
   nothing else is escaped.
3. It fetches the page, and answers 404 if the status code is not 200.
4. It looks for the `bodyContent` division, and answers 500 if there is none.
5. It collects the `h1`..`h6` tags inside that division, and answers 404 if
   there are none.
6. It renders a Markdown outline:
   - the line `## Contents`;
   - the line `### <trimmed name>`;
   - one line per heading whose text is not empty and whose lower-cased text
     is not `contents`, `see also`, `references` or `external links`. The
     heading from `hN` is written with N + 1 `#` characters, a space and its
     text;
   - all lines joined with a blank line (`"\n\n"`).

Files:

- `wrappers.dfy`: `Option` and `Result`.
- `pystr.dfy` (module `PyStr`): the Python string operations the handler
  uses. These are `strip()`, one-character `replace`, `lower()`, `'#' * n`
  and `"\n\n".join(...)`. The module also has `SplitBlankLines`, a splitter
  used as the partner of `Join`.
- `outline.dfy` (module `ScraperApi`): the handler.
  - The pure parts are functions: `ArticleUrl`, `Keep`, `Survivors`,
    `HeadingLine` and `OutlineLines`.
  - `Respond` and `Outline` give the whole answer as one function.
  - The rendering loop is the method `RenderLines`. It starts from the two
    header lines and appends one line per kept heading. Its loop invariant
    ties the accumulator to the specification function.
  - The method `GetCountryOutline` follows the handler step by step and is
    proved equal to `Outline`.
- `outline_properties.dfy` (module `OutlineProperties`): the properties the
  handler promises, stated as lemmas.

Fetching and parsing are one parameter, `fetch: string -> Page`. It maps the
URL to a `Page`, which is one of:

- `TransportFailure`: the HTTP client raised an exception;
- `Fetched(status, content)`: the final status code, plus the headings of
  the `bodyContent` division in document order, or `None` when that division
  is missing.

Because `fetch` is a parameter, the model can state two things: a blank name
is refused whatever `fetch` would answer, and only the article URL of the
trimmed name is ever looked at.

Details of the handler that the model keeps:

- The second line is `### <trimmed name>`.
- A heading from `hN` is written with N + 1 `#` characters, so `h6` gives
  seven.
- The skip set has four entries: `contents`, `see also`, `references` and
  `external links`.
- The "no headings" check looks at the list before filtering. A page whose
  headings are all filtered out gets the two header lines as its answer.
- The handler does not catch an exception raised by `requests.get`. It
  reaches the web framework, which answers 500 "Internal Server Error".

## Model

| member | source | states |
|---|---|---|
| PyStr.Strip | scraperapi.py:19 | the stripped name neither begins nor ends with whitespace and is no longer than the input |
| PyStr.TrimStartSpec | scraperapi.py:19 | removing leading whitespace leaves a suffix of the input; only whitespace was removed; the result does not start with whitespace |
| PyStr.TrimEndSpec | scraperapi.py:19 | removing trailing whitespace leaves a prefix of the input; only whitespace was removed; the result does not end with whitespace |
| PyStr.StripIsTrimmedInfix | scraperapi.py:19 | the stripped name is an infix of the input with only whitespace before and after it |
| PyStr.StripEmptyIffBlank | scraperapi.py:19-20 | stripping gives the empty string exactly when the input is all whitespace (the `not country` test) |
| PyStr.StripIdempotent | scraperapi.py:19 | stripping twice is the same as stripping once |
| PyStr.ReplaceChar | scraperapi.py:24 | same length; each replaced character becomes the new one and every other character is kept; the replaced character no longer occurs |
| PyStr.ReplaceCharUndone | scraperapi.py:24 | replacing space by underscore is undone by the reverse replacement when the name had no underscore |
| PyStr.LowerChar | scraperapi.py:50 | each ASCII capital becomes its own small letter, the KELVIN SIGN becomes `k`, every other character is kept; no ASCII capital is left |
| PyStr.Lower | scraperapi.py:50 | lower-casing keeps the length and lowers each character in place as LowerChar does |
| PyStr.Repeat | scraperapi.py:53 | `'#' * n` has length n and holds only `#` |
| PyStr.Join | scraperapi.py:55 | the joined text starts with the first line |
| PyStr.SplitJoin | scraperapi.py:55 | splitting the blank-line join of newline-free lines at blank lines gives back the lines |
| ScraperApi.ArticleUrl | scraperapi.py:24-25 | the URL is the fixed Wikipedia prefix followed by exactly as many characters as the name; each space of the name becomes `_` and every other character is kept in place, so no space follows the prefix |
| ScraperApi.Keep | scraperapi.py:50 | no contract of its own: the keep test (non-empty text whose lower-cased form is outside the skip set); DroppedIffSkipTitle, SurvivorsMembership and SkipSetExamples state its properties |
| ScraperApi.HeadingLine | scraperapi.py:52-53 | no contract of its own: the line of one heading; HeadingLineParses and HeadingLineInjective state its properties |
| ScraperApi.Header | scraperapi.py:45 | no contract of its own: the two header lines; OutlineBody and OutlineStartsWithHeader state its properties |
| ScraperApi.Respond | scraperapi.py:29-55 | no contract of its own: the checks on the fetched page and the outline; ErrorLadder and SuccessIsJoinedOutline state its properties |
| ScraperApi.Outline | scraperapi.py:18-55 | no contract of its own: the whole handler as a function; ErrorLadder, BlankNameRejectedWithoutFetch, OnlyArticleUrlFetched, SuccessStartsWithHeader and AllFilteredGivesHeaderOnly state its properties |
| ScraperApi.Survivors | scraperapi.py:48-51 | filtering keeps at most the input's headings, and every kept heading has non-empty text outside the skip set |
| ScraperApi.HeadingLinesExtend | scraperapi.py:48-53 | one more heading appends its line exactly when it is kept, and otherwise appends nothing |
| ScraperApi.OutlineLines | scraperapi.py:45-55 | the outline has 2 + (number of kept headings) lines |
| ScraperApi.OutlineStartsWithHeader | scraperapi.py:45-55 | the joined outline begins with `## Contents`, a blank line, and `### ` before the name |
| ScraperApi.RenderLines | scraperapi.py:45-53 | the loop builds exactly the two header lines followed by the line of each kept heading, in order |
| ScraperApi.GetCountryOutline | scraperapi.py:18-55 | the handler, step by step, answers exactly what the specification `Outline` gives, on every path |
| OutlineProperties.BlankNameRejectedWithoutFetch | scraperapi.py:19-21 | a blank name gives error 400 whatever the fetch would answer, so nothing is fetched |
| OutlineProperties.NonBlankNameAccepted | scraperapi.py:19-21 | a name that is not blank never gets the 400 answer |
| OutlineProperties.OnlyArticleUrlFetched | scraperapi.py:24-29 | two fetch collaborators that agree on the article URL give the same answer |
| OutlineProperties.SurroundingWhitespaceIgnored | scraperapi.py:19 | a pre-trimmed query gets the same answer as the raw one |
| OutlineProperties.ArticleUrlRecoversName | scraperapi.py:24-25 | for a name without underscores, the part of the URL after the prefix turns back into the name |
| OutlineProperties.SpaceAndUnderscoreSameUrl | scraperapi.py:24-25 | names that differ only by space versus underscore get the same URL |
| OutlineProperties.ErrorLadder | scraperapi.py:19-41 | the checks run in a fixed order and the first failing one decides: 400 for a blank name, 500 for a raising fetch, 404 for a status other than 200, 500 for a missing container, 404 for no headings; success exactly when all pass |
| OutlineProperties.SuccessIsJoinedOutline | scraperapi.py:45-55 | a successful answer is the blank-line join of the outline lines of the fetched headings |
| OutlineProperties.SuccessStartsWithHeader | scraperapi.py:45-55 | every successful answer begins with `## Contents\n\n### ` and the trimmed name |
| OutlineProperties.SurvivorsAppend | scraperapi.py:48-51 | filtering distributes over concatenation, so kept headings keep their relative order |
| OutlineProperties.SurvivorsSingle | scraperapi.py:50-51 | a single heading survives exactly when it is kept |
| OutlineProperties.SurvivorsMembership | scraperapi.py:46-51 | a heading is kept exactly when it is in the input, its text is not empty, and its lower-cased text is not in the skip set |
| OutlineProperties.LowerSpells | scraperapi.py:50 | lower-casing a text gives a given lower-case title exactly when the text spells that title character by character, ignoring case (the KELVIN SIGN spelling `k`) |
| OutlineProperties.DroppedIffSkipTitle | scraperapi.py:46-51 | a heading is dropped exactly when its text is empty or spells `contents`, `see also`, `references` or `external links`, ignoring case |
| OutlineProperties.SkipSetExamples | scraperapi.py:46-51 | empty text and the four skip titles in any capitalisation are dropped; an ordinary title is kept |
| OutlineProperties.KelvinSignSkipped | scraperapi.py:46-51 | a KELVIN SIGN spelling of "external links" is dropped, since it lower-cases to a `k` |
| OutlineProperties.HeadingLineParses | scraperapi.py:52-53 | the line of a heading from `hN` reads back as N + 1 `#` characters, one space and exactly the text, with N + 1 in 2..7 |
| OutlineProperties.HeadingLineInjective | scraperapi.py:52-53 | distinct headings give distinct lines |
| OutlineProperties.OutlineBody | scraperapi.py:45-55 | the first two lines are the header lines, and line 2 + k is the line of the k-th kept heading |
| OutlineProperties.DroppedHeadingAbsent | scraperapi.py:46-53 | a heading that is not kept contributes no line below the header |
| OutlineProperties.KeptHeadingPresent | scraperapi.py:48-53 | every kept heading of the input contributes its line below the header |
| OutlineProperties.OutlineLinesSplitBack | scraperapi.py:45-55 | when the name and the kept texts hold no newline, the joined outline splits back into its lines |
| OutlineProperties.OutlineSplitsIntoLines | scraperapi.py:45-55 | when the name and the kept texts hold no newline, a successful answer splits back into the header lines and one line per kept heading |
| OutlineProperties.AllFilteredGivesHeaderOnly | scraperapi.py:39-51 | a non-empty heading list with every heading filtered out gives success with the header lines only, not an error |
| OutlineProperties.FranceExample | scraperapi.py:18-55 | the query " France " with headings History (h2), Contents (h2) and Geography (h3) gives `## Contents`, `### France`, `### History`, `#### Geography`, joined by blank lines |

## Left out

- Web framework plumbing is not modelled: creating the application, CORS
  middleware, routing, and the 422 answer for a missing query parameter
  (scraperapi.py:1-17).
- The network request is not modelled: `requests.get`, its User-Agent
  header, and redirect following (scraperapi.py:28-29). What the request
  yields is the `fetch` parameter. A raising request is `TransportFailure`.
- HTML parsing is not modelled: BeautifulSoup, `find`, `find_all`, and
  `get_text(strip=True)` (scraperapi.py:34-35, 39, 49). The container is an
  `Option`, and the headings are given as (level, text) pairs. The text is
  taken as `get_text` returns it.
- PyStr.Lower: models Python's `lower()` only for `A`..`Z` and the KELVIN
  SIGN, because those are the only characters whose lower-case form is
  ASCII. The skip titles are ASCII, so skip-set membership (`Keep`) is
  decided as Python decides it. For other letters the lower-cased text
  itself is not Python's.
- The model adds no percent-encoding, because the code does none: a name with
  `/`, `?` or `#` yields the URL the code builds.
- The commented-out alternative header (scraperapi.py:43-44) is not
  modelled.
