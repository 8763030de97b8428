/**
 * What the outline handler promises, stated over the model in ScraperApi:
 * the order of its error checks, the shape of the URL it fetches, which
 * headings reach the outline, how each is written, and how the lines are laid out.
 */
module OutlineProperties {
  import opened Wrappers
  import opened PyStr
  import opened ScraperApi

  /** The page the handler fetches for `country` when the trimmed name is not empty. */
  function PageFor(country: string, fetch: string -> Page): Page {
    fetch(ArticleUrl(Strip(country)))
  }

  /** The answer once the name is known not to be blank is the answer to its article page. */
  lemma OutlineOfPage(country: string, fetch: string -> Page)
    requires Strip(country) != []
    ensures Outline(country, fetch) == Respond(Strip(country), PageFor(country, fetch))
  {
  }

  // ---------------------------------------------------------------- input validation

  /**
   * A blank country name is rejected with 400 whatever the network would
   * have answered: two fetch collaborators that disagree everywhere give the
   * same answer, so no page is consulted.
   */
  lemma BlankNameRejectedWithoutFetch(country: string, fetch1: string -> Page, fetch2: string -> Page)
    requires IsBlank(country)
    ensures Outline(country, fetch1) == Outline(country, fetch2) == Failure(EmptyName)
  {
    StripEmptyIffBlank(country);
  }

  /** A name that is not blank is never rejected as empty. */
  lemma NonBlankNameAccepted(country: string, fetch: string -> Page)
    requires !IsBlank(country)
    ensures Outline(country, fetch) != Failure(EmptyName)
  {
    StripEmptyIffBlank(country);
    OutlineOfPage(country, fetch);
    match PageFor(country, fetch)
    case TransportFailure =>
    case Fetched(status, content) =>
  }

  /** The handler consults the fetch collaborator at the article URL of the trimmed name and nowhere else. */
  lemma OnlyArticleUrlFetched(country: string, fetch1: string -> Page, fetch2: string -> Page)
    requires fetch1(ArticleUrl(Strip(country))) == fetch2(ArticleUrl(Strip(country)))
    ensures Outline(country, fetch1) == Outline(country, fetch2)
  {
  }

  /** Surrounding whitespace in the query makes no difference to the answer. */
  lemma SurroundingWhitespaceIgnored(country: string, fetch: string -> Page)
    ensures Outline(Strip(country), fetch) == Outline(country, fetch)
  {
    StripIdempotent(country);
  }

  // ---------------------------------------------------------------- URL construction

  /**
   * The part of the article URL after the prefix turns back into the name
   * when its underscores become spaces again, provided the name had no
   * underscore of its own; so distinct such names get distinct URLs.
   */
  lemma ArticleUrlRecoversName(name: string)
    requires '_' !in name
    ensures ReplaceChar(ArticleUrl(name)[|WikiPrefix|..], '_', ' ') == name
  {
    ReplaceCharUndone(name, ' ', '_');
  }

  /** A space and an underscore in the name lead to the same article: the URL cannot tell them apart. */
  lemma SpaceAndUnderscoreSameUrl(a: string, b: string)
    requires |a| == |b|
    requires forall i :: 0 <= i < |a| ==> a[i] == b[i] || (a[i] in " _" && b[i] in " _")
    ensures ArticleUrl(a) == ArticleUrl(b)
  {
    assert ReplaceChar(a, ' ', '_') == ReplaceChar(b, ' ', '_');
  }

  // ---------------------------------------------------------------- error ladder

  /**
   * The checks run in a fixed order and the first one that fails decides
   * the answer: empty name (400), a raising fetch (500), a status other
   * than 200 (404), no body-content division (500), no headings at all
   * (404). Only when all pass is the answer an outline.
   */
  lemma ErrorLadder(country: string, fetch: string -> Page)
    ensures var name, p, r := Strip(country), PageFor(country, fetch), Outline(country, fetch);
      && (name == [] ==> r == Failure(EmptyName))
      && (name != [] && p.TransportFailure? ==> r == Failure(Unhandled))
      && (name != [] && p.Fetched? && p.status != 200 ==> r == Failure(PageNotFound))
      && (name != [] && p.Fetched? && p.status == 200 && p.content.None? ==> r == Failure(ParseFailure))
      && (name != [] && p.Fetched? && p.status == 200 && p.content == Some([]) ==> r == Failure(NoHeadings))
      && (r.Success? <==> name != [] && p.Fetched? && p.status == 200 && p.content.Some? && p.content.value != [])
  {
  }

  /** A successful answer is the blank-line join of the header and one line per kept heading. */
  lemma SuccessIsJoinedOutline(country: string, fetch: string -> Page)
    requires Outline(country, fetch).Success?
    ensures var p := PageFor(country, fetch);
      && p.Fetched? && p.content.Some?
      && Outline(country, fetch).value == Join(BlankLine, OutlineLines(Strip(country), p.content.value))
  {
    if Strip(country) != [] {
      OutlineOfPage(country, fetch);
    }
  }

  /** Every successful answer begins with `## Contents`, a blank line, and `### ` before the trimmed name. */
  lemma SuccessStartsWithHeader(country: string, fetch: string -> Page)
    requires Outline(country, fetch).Success?
    ensures OutlinePrefix(Strip(country)) <= Outline(country, fetch).value
  {
    SuccessIsJoinedOutline(country, fetch);
    OutlineStartsWithHeader(Strip(country), PageFor(country, fetch).content.value);
  }

  // ---------------------------------------------------------------- heading filter

  /** Filtering distributes over concatenation, so kept headings keep their relative order. */
  lemma {:induction false} SurvivorsAppend(a: seq<Heading>, b: seq<Heading>)
    ensures Survivors(a + b) == Survivors(a) + Survivors(b)
    decreases |b|
  {
    if b != [] {
      var b' := b[..|b| - 1];
      assert (a + b)[..|a + b| - 1] == a + b' && (a + b)[|a + b| - 1] == b[|b| - 1];
      SurvivorsAppend(a, b');
    } else {
      assert a + b == a;
    }
  }

  /** A single heading survives exactly when it is kept. */
  lemma SurvivorsSingle(h: Heading)
    ensures Survivors([h]) == if Keep(h) then [h] else []
  {
    assert [h][..0] == [];
  }

  /** A heading is among the survivors exactly when it is in the input and kept. */
  lemma {:induction false} SurvivorsMembership(hs: seq<Heading>, h: Heading)
    ensures h in Survivors(hs) <==> h in hs && Keep(h)
    decreases |hs|
  {
    if hs != [] {
      var pre, last := hs[..|hs| - 1], hs[|hs| - 1];
      assert hs == pre + [last];
      SurvivorsMembership(pre, h);
    }
  }

  /** A KELVIN SIGN lower-cases to `k`, so this spelling of the last skip entry is dropped too. */
  lemma KelvinSignSkipped(l: Level)
    ensures !Keep(Heading(l, "External Lin\U{212A}s"))
  {
    assert Lower("External Lin\U{212A}s") == "external links";
  }

  /**
   * `c` is a spelling of the lower-case letter or space `d` under `lower()`:
   * `d` itself, its capital, or for `k` also the KELVIN SIGN.
   */
  predicate SpellsChar(c: char, d: char) {
    c == d
    || ('a' <= d <= 'z' && c as int == d as int - 'a' as int + 'A' as int)
    || (d == 'k' && c == '\U{212A}')
  }

  /** `t` spells `title` character by character, ignoring case. */
  predicate SpellsIgnoringCase(t: string, title: string) {
    |t| == |title| && forall i :: 0 <= i < |t| ==> SpellsChar(t[i], title[i])
  }

  /** Lowering a character gives a lower-case letter or space exactly for its spellings. */
  lemma LowerCharSpells(c: char, d: char)
    requires 'a' <= d <= 'z' || d == ' '
    ensures LowerChar(c) == d <==> SpellsChar(c, d)
  {
  }

  /** Lowering gives a lower-case title exactly for the spellings of that title. */
  lemma LowerSpells(t: string, title: string)
    requires forall i :: 0 <= i < |title| ==> 'a' <= title[i] <= 'z' || title[i] == ' '
    ensures Lower(t) == title <==> SpellsIgnoringCase(t, title)
  {
    if |t| == |title| {
      forall i | 0 <= i < |t| ensures Lower(t)[i] == title[i] <==> SpellsChar(t[i], title[i]) {
        LowerCharSpells(t[i], title[i]);
      }
      if SpellsIgnoringCase(t, title) {
        assert Lower(t) == title;
      }
    }
  }

  /**
   * The filter stated without lower-casing: a heading is dropped exactly
   * when its text is empty or spells one of the four skip titles, ignoring case.
   */
  lemma DroppedIffSkipTitle(h: Heading)
    ensures !Keep(h) <==> h.text == ""
                          || SpellsIgnoringCase(h.text, "contents")
                          || SpellsIgnoringCase(h.text, "see also")
                          || SpellsIgnoringCase(h.text, "references")
                          || SpellsIgnoringCase(h.text, "external links")
  {
    LowerSpells(h.text, "contents");
    LowerSpells(h.text, "see also");
    LowerSpells(h.text, "references");
    LowerSpells(h.text, "external links");
  }

  /** The skip set works whatever the capitalisation. */
  lemma SkipSetExamples(l: Level)
    ensures !Keep(Heading(l, ""))
    ensures !Keep(Heading(l, "Contents"))
    ensures !Keep(Heading(l, "See also"))
    ensures !Keep(Heading(l, "REFERENCES"))
    ensures !Keep(Heading(l, "External Links"))
    ensures Keep(Heading(l, "History"))
  {
    assert Lower("Contents") == "contents";
    assert Lower("See also") == "see also";
    assert Lower("REFERENCES") == "references";
    assert Lower("External Links") == "external links";
    assert Lower("History") == "history";
  }

  // ---------------------------------------------------------------- line rendering

  /** The number of `#` characters a line starts with. */
  function HashRun(s: string): (n: nat)
    ensures n <= |s|
    ensures forall i :: 0 <= i < n ==> s[i] == '#'
    ensures n < |s| ==> s[n] != '#'
  {
    if s != [] && s[0] == '#' then 1 + HashRun(s[1..]) else 0
  }

  /** Reads a heading line back: its count of `#`, then one space, then the text. */
  function ParseHeadingLine(line: string): Option<(nat, string)> {
    var n := HashRun(line);
    if 0 < n < |line| && line[n] == ' ' then Some((n, line[n + 1..])) else None
  }

  lemma {:induction false} HashRunOfRepeat(n: nat, t: string)
    requires t == [] || t[0] != '#'
    ensures HashRun(Repeat('#', n) + t) == n
    decreases n
  {
    if n > 0 {
      assert (Repeat('#', n) + t)[1..] == Repeat('#', n - 1) + t;
      HashRunOfRepeat(n - 1, t);
    } else {
      assert Repeat('#', n) + t == t;
    }
  }

  /**
   * A heading from tag `hN` becomes one line that reads back as N + 1 `#`
   * characters, a space and exactly the heading text; N + 1 lies in 2 .. 7.
   */
  lemma HeadingLineParses(h: Heading)
    ensures ParseHeadingLine(HeadingLine(h)) == Some((h.level + 1, h.text))
    ensures 2 <= h.level + 1 <= 7
  {
    var line := HeadingLine(h);
    HashRunOfRepeat(h.level + 1, " " + h.text);
    assert line == Repeat('#', h.level + 1) + (" " + h.text);
    assert line[h.level + 2..] == h.text;
  }

  /** Distinct headings give distinct lines. */
  lemma HeadingLineInjective(h1: Heading, h2: Heading)
    requires HeadingLine(h1) == HeadingLine(h2)
    ensures h1 == h2
  {
    HeadingLineParses(h1);
    HeadingLineParses(h2);
  }

  // ---------------------------------------------------------------- outline layout

  /**
   * Below the two header lines, the outline has one line per kept heading
   * and they come in document order: line 2 + k is the line of the k-th kept heading.
   */
  lemma OutlineBody(name: string, hs: seq<Heading>, k: nat)
    requires k < |Survivors(hs)|
    ensures OutlineLines(name, hs)[..2] == [ContentsLine, "### " + name]
    ensures OutlineLines(name, hs)[2 + k] == HeadingLine(Survivors(hs)[k])
  {
  }

  /** A heading that is not kept contributes no line below the header. */
  lemma DroppedHeadingAbsent(name: string, hs: seq<Heading>, h: Heading)
    requires !Keep(h)
    ensures HeadingLine(h) !in OutlineLines(name, hs)[2..]
  {
    var body := OutlineLines(name, hs)[2..];
    if HeadingLine(h) in body {
      var k :| 0 <= k < |body| && body[k] == HeadingLine(h);
      HeadingLineInjective(h, Survivors(hs)[k]);
      assert false;
    }
  }

  /** Every kept heading of the input contributes its line below the header. */
  lemma KeptHeadingPresent(name: string, hs: seq<Heading>, h: Heading)
    requires h in hs && Keep(h)
    ensures HeadingLine(h) in OutlineLines(name, hs)[2..]
  {
    SurvivorsMembership(hs, h);
    var kept := Survivors(hs);
    var k :| 0 <= k < |kept| && kept[k] == h;
    assert OutlineLines(name, hs)[2..][k] == HeadingLine(h);
  }

  /** A heading line holds a newline only if the heading text does. */
  lemma HeadingLineNewlines(h: Heading)
    requires '\n' !in h.text
    ensures '\n' !in HeadingLine(h)
  {
  }

  /**
   * When the name and the kept texts hold no newline, splitting the joined
   * outline at blank lines gives back exactly its lines.
   */
  lemma OutlineLinesSplitBack(name: string, hs: seq<Heading>)
    requires '\n' !in name
    requires forall h :: h in hs && Keep(h) ==> '\n' !in h.text
    ensures SplitBlankLines(Join(BlankLine, OutlineLines(name, hs))) == OutlineLines(name, hs)
  {
    var lines := OutlineLines(name, hs);
    var kept := Survivors(hs);
    forall k | 0 <= k < |lines| ensures '\n' !in lines[k] {
      if k >= 2 {
        var h := kept[k - 2];
        SurvivorsMembership(hs, h);
        HeadingLineNewlines(h);
        assert lines[k] == HeadingLine(h);
      } else if k == 1 {
        assert lines[k] == "### " + name;
      }
    }
    SplitJoin(lines);
  }

  /**
   * When the name and the kept texts hold no newline, splitting a successful
   * answer at blank lines gives back exactly the header and the kept headings' lines.
   */
  lemma OutlineSplitsIntoLines(country: string, fetch: string -> Page)
    requires Outline(country, fetch).Success?
    requires '\n' !in Strip(country)
    requires PageFor(country, fetch).Fetched? && PageFor(country, fetch).content.Some?
    requires forall h :: h in PageFor(country, fetch).content.value && Keep(h) ==> '\n' !in h.text
    ensures var hs := PageFor(country, fetch).content.value;
      SplitBlankLines(Outline(country, fetch).value) == OutlineLines(Strip(country), hs)
  {
    var name, hs := Strip(country), PageFor(country, fetch).content.value;
    assert Outline(country, fetch) == Respond(name, PageFor(country, fetch));
    assert Outline(country, fetch).value == Join(BlankLine, OutlineLines(name, hs));
    OutlineLinesSplitBack(name, hs);
  }

  /**
   * Headings that exist but are all filtered out still give a successful
   * answer holding only the header: the emptiness check looks at the list
   * before filtering.
   */
  lemma AllFilteredGivesHeaderOnly(country: string, fetch: string -> Page)
    requires Strip(country) != []
    requires PageFor(country, fetch) .Fetched? && PageFor(country, fetch).status == 200
    requires PageFor(country, fetch).content.Some? && PageFor(country, fetch).content.value != []
    requires forall h :: h in PageFor(country, fetch).content.value ==> !Keep(h)
    ensures Outline(country, fetch) == Success(OutlinePrefix(Strip(country)))
  {
    var name, hs := Strip(country), PageFor(country, fetch).content.value;
    if Survivors(hs) != [] {
      SurvivorsMembership(hs, Survivors(hs)[0]);
    }
    var lines := OutlineLines(name, hs);
    assert lines == [ContentsLine, "### " + name];
    assert Outline(country, fetch) == Respond(name, PageFor(country, fetch));
    assert Outline(country, fetch) == Success(Join(BlankLine, lines));
    assert lines[1..] == ["### " + name];
    assert Join(BlankLine, lines) == ContentsLine + BlankLine + ("### " + name);
    assert ContentsLine + BlankLine + ("### " + name) == OutlinePrefix(name);
    assert Join(BlankLine, lines) == OutlinePrefix(name);
  }

  /** The trimmed name and article URL of the France query. */
  lemma FranceUrl()
    ensures Strip(" France ") == "France"
    ensures ArticleUrl("France") == WikiPrefix + "France"
  {
    assert TrimStart(" France ") == "France ";
  }

  /** Filtering three headings filters each on its own. */
  lemma SurvivorsThree(a: Heading, b: Heading, c: Heading)
    ensures Survivors([a, b, c])
         == (if Keep(a) then [a] else []) + (if Keep(b) then [b] else []) + (if Keep(c) then [c] else [])
  {
    SurvivorsAppend([a, b], [c]);
    SurvivorsAppend([a], [b]);
    SurvivorsSingle(a);
    SurvivorsSingle(b);
    SurvivorsSingle(c);
    assert [a, b, c] == [a, b] + [c] && [a, b] == [a] + [b];
  }

  /** The France page's headings kept by the filter: all but Contents. */
  lemma FranceKeeps()
    ensures Keep(Heading(2, "History")) && !Keep(Heading(2, "Contents")) && Keep(Heading(3, "Geography"))
  {
    assert Lower("History") == "history";
    assert Lower("Contents") == "contents";
    assert Lower("Geography") == "geography";
  }

  /** The headings of the France page that the filter keeps. */
  lemma FranceSurvivors()
    ensures Survivors([Heading(2, "History"), Heading(2, "Contents"), Heading(3, "Geography")])
         == [Heading(2, "History"), Heading(3, "Geography")]
  {
    FranceKeeps();
    SurvivorsThree(Heading(2, "History"), Heading(2, "Contents"), Heading(3, "Geography"));
  }

  /** The lines of the France outline, before joining. */
  lemma FranceLines()
    ensures OutlineLines("France", [Heading(2, "History"), Heading(2, "Contents"), Heading(3, "Geography")])
         == ["## Contents", "### France", "### History", "#### Geography"]
  {
    var hs := [Heading(2, "History"), Heading(2, "Contents"), Heading(3, "Geography")];
    FranceSurvivors();
    assert HeadingLine(Heading(2, "History")) == "### History";
    assert HeadingLine(Heading(3, "Geography")) == "#### Geography";
    var body := HeadingLines(hs);
    assert |body| == 2 && body[0] == "### History" && body[1] == "#### Geography";
    assert body == ["### History", "#### Geography"];
    assert "### " + "France" == "### France";
    assert Header("France") == ["## Contents", "### France"];
  }

  /** Joining three lines puts the separator between neighbours. */
  lemma JoinThree(sep: string, a: string, b: string, c: string)
    ensures Join(sep, [a, b, c]) == a + sep + (b + sep + c)
  {
    assert [a, b, c][1..] == [b, c] && [b, c][1..] == [c];
    assert Join(sep, [c]) == c;
    assert Join(sep, [b, c]) == b + sep + c;
  }

  /** The France outline lines joined with blank lines. */
  lemma FranceJoin()
    ensures Join(BlankLine, ["## Contents", "### France", "### History", "#### Geography"])
         == "## Contents" + BlankLine + ("### France" + BlankLine + ("### History" + BlankLine + "#### Geography"))
  {
    var lines := ["## Contents", "### France", "### History", "#### Geography"];
    assert lines[1..] == ["### France", "### History", "#### Geography"];
    JoinThree(BlankLine, "### France", "### History", "#### Geography");
  }

  /**
   * The France page with History, Contents and Geography headings: the
   * name line is at level three, every heading is one level deeper than its
   * tag, and the Contents heading is dropped.
   */
  lemma FranceExample(fetch: string -> Page)
    requires fetch(WikiPrefix + "France")
          == Fetched(200, Some([Heading(2, "History"), Heading(2, "Contents"), Heading(3, "Geography")]))
    ensures Outline(" France ", fetch)
         == Success("## Contents" + BlankLine + ("### France" + BlankLine + ("### History" + BlankLine + "#### Geography")))
  {
    FranceUrl();
    FranceLines();
    FranceJoin();
    assert Outline(" France ", fetch) == Respond("France", fetch(WikiPrefix + "France"));
  }
}
