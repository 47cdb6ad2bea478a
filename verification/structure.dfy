/** The structure tool (codewiki_mcp/tools/structure.py): the table of
    contents of a fetched page as a record of the repository name, the page
    title and each section's title and level.

    The record is serialised as JSON before it is returned; the
    serialisation is not modelled, so a successful reply carries the record
    itself. */
module Structure {
  import opened Wrappers
  import opened Text
  import opened Types
  import Parser
  import Helpers
  import Contents

  datatype SectionEntry = SectionEntry(title: string, level: int)

  datatype WikiStructure = WikiStructure(repo: string, title: string, sections: seq<SectionEntry>, sectionCount: nat)

  /** What the tool answers: the record for the normalised URL, or an
      error response. */
  datatype StructureReply = Listed(repoUrl: string, structure: WikiStructure) | Failed(response: ToolResponse)

  /** A page the structure tool treats as empty: no table of contents and
      no sections (the body text is not looked at). */
  predicate NoStructure(page: Parser.WikiPage) {
    |page.toc| == 0 && |page.sections| == 0
  }

  /** The record built from a page: one entry per section, in order. */
  function StructureOf(page: Parser.WikiPage): (r: WikiStructure)
    ensures r.repo == page.repoName && r.title == page.title
    ensures |r.sections| == |page.sections| == r.sectionCount
    ensures forall k :: 0 <= k < |r.sections| ==>
      r.sections[k] == SectionEntry(page.sections[k].title, page.sections[k].level)
  {
    var entries := seq(|page.sections|, k requires 0 <= k < |page.sections| =>
      SectionEntry(page.sections[k].title, page.sections[k].level));
    WikiStructure(page.repoName, page.title, entries, |entries|)
  }

  /** `read_wiki_structure`. */
  function ReadWikiStructure(repoUrl: string, fetch: Helpers.FetchOutcome): (r: StructureReply)
    ensures ValidateTopicsInput(repoUrl).Err? ==> r == Failed(ValidateTopicsInput(repoUrl).error)
    ensures ValidateTopicsInput(repoUrl).Ok? ==>
      var url := ValidateTopicsInput(repoUrl).value.repoUrl;
      && (r.Failed? ==> r.response.status == ERROR && r.response.repoUrl == Some(url) && r.response.query.None?)
      && (fetch.TimedOut? ==>
            r.Failed? && r.response.code == Some(TIMEOUT) && r.response.message == Some(Helpers.TimeoutMessage(url, fetch.message)))
      && (fetch.Raised? ==>
            r.Failed? && r.response.code == Some(INTERNAL) && r.response.message == Some(Helpers.InternalMessage(fetch.message)))
      && (fetch.Fetched? ==>
            (NoStructure(fetch.page) <==> r.Failed?)
            && (r.Failed? ==> r.response.code == Some(NO_CONTENT) && r.response.message == Some(Helpers.NoContentMessage(url)))
            && (r.Listed? ==> r == Listed(url, StructureOf(fetch.page))))
  {
    match ValidateTopicsInput(repoUrl)
    case Err(e) => Failed(e)
    case Ok(validated) =>
      var url := validated.repoUrl;
      match fetch
      case TimedOut(exc) => Failed(Error(TIMEOUT, Helpers.TimeoutMessage(url, exc), Some(url), None, DEFAULT_META))
      case Raised(exc) => Failed(Error(INTERNAL, Helpers.InternalMessage(exc), Some(url), None, DEFAULT_META))
      case Fetched(page) =>
        if NoStructure(page) then Failed(Error(NO_CONTENT, Helpers.NoContentMessage(url), Some(url), None, DEFAULT_META))
        else Listed(url, StructureOf(page))
  }

  /** The structure and contents tools judge emptiness differently: a
      page with only a table of contents is listed (with no sections) but
      has no contents, and a page with only body text has contents but no
      structure. */
  lemma EmptinessDiffers(repoUrl: string, maxChars: int, tocOnly: Parser.WikiPage, textOnly: Parser.WikiPage)
    requires NormalizeRepoUrl(repoUrl).Ok?
    requires |tocOnly.toc| > 0 && |tocOnly.sections| == 0 && |tocOnly.rawText| == 0
    requires |textOnly.toc| == 0 && |textOnly.sections| == 0 && |textOnly.rawText| > 0
    ensures var s := ReadWikiStructure(repoUrl, Helpers.Fetched(tocOnly));
      s.Listed? && s.structure.sectionCount == 0
    ensures Contents.ReadWikiContents(repoUrl, "", maxChars, Helpers.Fetched(tocOnly)).code == Some(NO_CONTENT)
    ensures ReadWikiStructure(repoUrl, Helpers.Fetched(textOnly)).Failed?
    ensures Contents.ReadWikiContents(repoUrl, "", maxChars, Helpers.Fetched(textOnly)).status == OK
  {
    assert Strip("") == [];
  }
}
