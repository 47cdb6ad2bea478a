/** The contents tool (codewiki_mcp/tools/contents.py): given the fetched
    page, or the exception the fetch raised, the whole wiki as markdown or
    one section of it, cut to the response budget.

    The fetch is a parameter; the elapsed-time field of the response meta
    is not modelled. */
module Contents {
  import opened Wrappers
  import opened Text
  import opened Types
  import Parser
  import Helpers

  /** The most section titles an unknown-section error lists. */
  const MAX_LISTED_SECTIONS := 20

  /** A non-blank section title selects the section validator, which also
      checks the title; otherwise only the URL is validated. The normalised
      URL, or the validation error. */
  function ValidateContentsInput(repoUrl: string, sectionTitle: string): (r: Result<string, ToolResponse>)
    ensures Strip(sectionTitle) != [] ==>
      r == (match ValidateSectionInput(repoUrl, sectionTitle)
            case Ok(v) => Ok(v.repoUrl)
            case Err(e) => Err(e))
    ensures Strip(sectionTitle) == [] ==>
      r == (match ValidateTopicsInput(repoUrl)
            case Ok(v) => Ok(v.repoUrl)
            case Err(e) => Err(e))
    ensures r.Ok? <==> NormalizeRepoUrl(repoUrl).Ok?
    ensures r.Ok? ==> r.value == NormalizeRepoUrl(repoUrl).value
  {
    if Strip(sectionTitle) != [] then
      match ValidateSectionInput(repoUrl, sectionTitle)
      case Ok(v) => Ok(v.repoUrl)
      case Err(e) => Err(e)
    else
      match ValidateTopicsInput(repoUrl)
      case Ok(v) => Ok(v.repoUrl)
      case Err(e) => Err(e)
  }

  /** The titles of the first twenty sections, in order. */
  function ListedTitles(sections: seq<Parser.WikiSection>): (r: seq<string>)
    ensures |r| == Min(|sections|, MAX_LISTED_SECTIONS)
    ensures forall k :: 0 <= k < |r| ==> r[k] == sections[k].title
  {
    var n := Min(|sections|, MAX_LISTED_SECTIONS);
    seq(n, k requires 0 <= k < n => sections[k].title)
  }

  function SectionNotFoundMessage(sectionTitle: string, sections: seq<Parser.WikiSection>): string {
    "Section '" + sectionTitle + "' not found. Available sections: " + Join(", ", ListedTitles(sections))
  }

  /** A section rendered on its own: its heading, a blank line, its
      content. */
  function SectionText(s: Parser.WikiSection): (r: string)
    ensures Parser.Hashes(s.level) + " " + s.title <= r
    ensures |r| == |Parser.Hashes(s.level)| + 1 + |s.title| + 2 + |s.content|
  {
    var head := Parser.Hashes(s.level) + " " + s.title;
    var r := head + "\n\n" + s.content;
    assert r[..|head|] == head;
    r
  }

  /** The text the tool returns for a non-empty page before the final cut:
      the requested section (when a title was given and matched) or the
      whole page as markdown; `None` when the title matched no section. */
  function ContentsText(page: Parser.WikiPage, sectionTitle: string, maxChars: int): (r: Option<string>)
    ensures r.None? <==> Strip(sectionTitle) != [] && Parser.GetSectionByTitle(page.sections, sectionTitle).None?
  {
    if Strip(sectionTitle) != [] then
      match Parser.GetSectionByTitle(page.sections, sectionTitle)
      case None => None
      case Some(s) => Some(SectionText(s))
    else Some(Parser.PageMarkdown(page, maxChars))
  }

  /** `read_wiki_contents`. */
  function ReadWikiContents(repoUrl: string, sectionTitle: string, maxChars: int, fetch: Helpers.FetchOutcome)
    : (r: ToolResponse)
    ensures ValidateContentsInput(repoUrl, sectionTitle).Err? ==> r == ValidateContentsInput(repoUrl, sectionTitle).error
    ensures ValidateContentsInput(repoUrl, sectionTitle).Ok? ==>
      var url := ValidateContentsInput(repoUrl, sectionTitle).value;
      && r.repoUrl == Some(url) && r.query.None?
      && (fetch.TimedOut? ==>
            r.status == ERROR && r.code == Some(TIMEOUT) && r.message == Some(Helpers.TimeoutMessage(url, fetch.message)))
      && (fetch.Raised? ==>
            r.status == ERROR && r.code == Some(INTERNAL) && r.message == Some(Helpers.InternalMessage(fetch.message)))
      && (fetch.Fetched? && Helpers.EmptyPage(fetch.page) ==>
            r.status == ERROR && r.code == Some(NO_CONTENT) && r.message == Some(Helpers.NoContentMessage(url)))
      && (fetch.Fetched? && !Helpers.EmptyPage(fetch.page) ==>
            match ContentsText(fetch.page, sectionTitle, maxChars)
            case None =>
              && r.status == ERROR && r.code == Some(NO_CONTENT)
              && r.message == Some(SectionNotFoundMessage(sectionTitle, fetch.page.sections))
            case Some(text) =>
              var t := Helpers.HardTruncate(text, maxChars);
              r.status == OK && r.data == Some(t.text) && r.meta == ResponseMeta(|t.text|, 1, 1, t.truncated))
  {
    match ValidateContentsInput(repoUrl, sectionTitle)
    case Err(e) => e
    case Ok(url) =>
      match fetch
      case TimedOut(exc) => Error(TIMEOUT, Helpers.TimeoutMessage(url, exc), Some(url), None, DEFAULT_META)
      case Raised(exc) => Error(INTERNAL, Helpers.InternalMessage(exc), Some(url), None, DEFAULT_META)
      case Fetched(page) =>
        if Helpers.EmptyPage(page) then
          Error(NO_CONTENT, Helpers.NoContentMessage(url), Some(url), None, DEFAULT_META)
        else
          match ContentsText(page, sectionTitle, maxChars)
          case None => Error(NO_CONTENT, SectionNotFoundMessage(sectionTitle, page.sections), Some(url), None, DEFAULT_META)
          case Some(text) =>
            var t := Helpers.HardTruncate(text, maxChars);
            Success(t.text, Some(url), None, DEFAULT_META.(truncated := t.truncated))
  }

  /** The whole page is cut twice, once inside `page_to_markdown` and once
      by the tool; with a positive budget the second cut gives back the
      first one's text, and `truncated` is set exactly when the rendered page
      is longer than the budget. */
  lemma FullPageCutOnce(page: Parser.WikiPage, maxChars: int)
    requires maxChars > 0
    ensures var t := Helpers.HardTruncate(Parser.PageMarkdown(page, maxChars), maxChars);
      && t.text == Parser.PageMarkdown(page, maxChars)
      && (t.truncated <==> |Parser.MarkdownText(page)| > maxChars)
  {
    var text := Parser.MarkdownText(page);
    if |text| > maxChars {
      var once := text[..maxChars] + Parser.TRUNCATION_MARKER;
      assert Parser.PageMarkdown(page, maxChars) == once;
      assert once[..maxChars] == text[..maxChars];
    }
  }

  /** A found section comes back under its markdown heading; when it fits
      the budget it is exactly heading, blank line, content. */
  lemma SectionReply(repoUrl: string, sectionTitle: string, maxChars: int, page: Parser.WikiPage)
    requires NormalizeRepoUrl(repoUrl).Ok? && Strip(sectionTitle) != [] && !Helpers.EmptyPage(page)
    requires Parser.GetSectionByTitle(page.sections, sectionTitle).Some?
    ensures var s := Parser.GetSectionByTitle(page.sections, sectionTitle).value;
      var r := ReadWikiContents(repoUrl, sectionTitle, maxChars, Helpers.Fetched(page));
      && r.status == OK
      && (|SectionText(s)| <= maxChars ==>
            r.data == Some(Parser.Hashes(s.level) + " " + s.title + "\n\n" + s.content) && !r.meta.truncated)
      && (|SectionText(s)| > maxChars >= 0 ==>
            r.meta.truncated && r.data == Some(SectionText(s)[..maxChars] + Parser.TRUNCATION_MARKER))
  {
  }

  /** An unknown section's error names at most twenty sections, the
      first ones of the page in order. */
  lemma UnknownSectionListsFirstTwenty(repoUrl: string, sectionTitle: string, maxChars: int, page: Parser.WikiPage)
    requires NormalizeRepoUrl(repoUrl).Ok? && Strip(sectionTitle) != [] && !Helpers.EmptyPage(page)
    requires forall k :: 0 <= k < |page.sections| ==> !Contains(Lower(page.sections[k].title), Strip(Lower(sectionTitle)))
    ensures var r := ReadWikiContents(repoUrl, sectionTitle, maxChars, Helpers.Fetched(page));
      && r.code == Some(NO_CONTENT)
      && r.message == Some("Section '" + sectionTitle + "' not found. Available sections: "
                           + Join(", ", ListedTitles(page.sections)))
    ensures |ListedTitles(page.sections)| <= MAX_LISTED_SECTIONS
    ensures ListedTitles(page.sections) == ListedTitles(page.sections[..Min(|page.sections|, MAX_LISTED_SECTIONS)])
  {
    Parser.SectionByTitleFirst(page.sections, sectionTitle);
    assert ContentsText(page, sectionTitle, maxChars).None?;
    ListedTitlesPrefix(page.sections);
  }

  /** The listed titles depend only on the first twenty sections. */
  lemma ListedTitlesPrefix(sections: seq<Parser.WikiSection>)
    ensures ListedTitles(sections) == ListedTitles(sections[..Min(|sections|, MAX_LISTED_SECTIONS)])
  {
  }
}
