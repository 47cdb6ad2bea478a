/** Helpers shared by the tools (codewiki_mcp/tools/_helpers.py): the
    CodeWiki address of a repository, truncation at a word boundary, and the
    guarded page fetch that turns every failure into an error response.

    The rate check and the fetch are parameters: the first is the answer
    `check_rate_limit` gave, the second the page or the exception the
    (deduplicated) fetch produced. */
module Helpers {
  import opened Wrappers
  import opened Text
  import opened Types
  import Parser

  // ----- build_codewiki_url ----------------------------------------------

  /** `build_codewiki_url`: every "https://" and then every "http://"
      deleted, behind the base address and a slash. */
  function BuildCodewikiUrl(baseUrl: string, repoUrl: string): (r: string)
    ensures baseUrl + "/" <= r
    ensures r == Parser.PageUrl(baseUrl, repoUrl)
  {
    baseUrl + "/" + Replace(Replace(repoUrl, "https://", ""), "http://", "")
  }

  /** A text without a colon holds neither scheme prefix. */
  lemma NoColonNoScheme(rest: string)
    requires ':' !in rest
    ensures !Contains(rest, "https://") && !Contains(rest, "http://")
  {
    forall i | 0 <= i <= |rest| - 8
      ensures !SliceAt(rest, i, "https://")
    {
      assert rest[i..i + 8][5] == rest[i + 5];
    }
    forall i | 0 <= i <= |rest| - 7
      ensures !SliceAt(rest, i, "http://")
    {
      assert rest[i..i + 7][4] == rest[i + 4];
    }
  }

  /** An https URL and its scheme-less form map to the same CodeWiki
      address: the base, a slash, then host and path. */
  lemma BuildUrlDropsScheme(baseUrl: string, rest: string)
    requires ':' !in rest
    ensures BuildCodewikiUrl(baseUrl, "https://" + rest) == baseUrl + "/" + rest
    ensures BuildCodewikiUrl(baseUrl, rest) == baseUrl + "/" + rest
  {
    NoColonNoScheme(rest);
    var s := "https://" + rest;
    assert s[..8] == "https://";
    assert s[8..] == rest;
    ReplaceAbsent(rest, "https://", "");
    ReplaceAbsent(rest, "http://", "");
    assert Replace(s, "https://", "") == Replace(rest, "https://", "") == rest;
    assert Replace(Replace(s, "https://", ""), "http://", "") == rest;
  }

  // ----- truncate_response -------------------------------------------------

  datatype Truncation = Truncation(text: string, truncated: bool)

  /** Some `c` lies strictly after four fifths of `m` and before `m`. */
  predicate LateChar(data: string, m: int, c: char) {
    exists j :: 0 <= j < |data| && 4 * m < 5 * j < 5 * m && data[j] == c
  }

  /** Where a text longer than `m > 0` is cut: at the last newline before
      `m` if it lies past four fifths of `m`; failing that at the last space
      before `m` if it does; otherwise at `m` itself. */
  predicate WordBoundaryCut(data: string, m: int, k: int)
    requires 0 < m < |data|
  {
    && 0 <= k <= m
    && (LateChar(data, m, '\n') ==>
          k < m && data[k] == '\n' && 4 * m < 5 * k && forall j :: k < j < m ==> data[j] != '\n')
    && (!LateChar(data, m, '\n') && LateChar(data, m, ' ') ==>
          k < m && data[k] == ' ' && 4 * m < 5 * k && forall j :: k < j < m ==> data[j] != ' ')
    && (!LateChar(data, m, '\n') && !LateChar(data, m, ' ') ==> k == m)
  }

  /** The `cut` of `truncate_response` before it is right-stripped. The
      comparison `idx > max_chars * 0.8` is taken exactly, as
      `5 * idx > 4 * max_chars`. */
  function Cut(data: string, maxChars: int): (r: string)
    ensures r <= data
    ensures maxChars >= 0 ==> |r| <= maxChars
  {
    var cut := PyPrefix(data, maxChars);
    var nl := RFindChar(cut, '\n');
    if 5 * nl > 4 * maxChars then PyPrefix(cut, nl)
    else
      var sp := RFindChar(cut, ' ');
      if 5 * sp > 4 * maxChars then PyPrefix(cut, sp) else cut
  }

  /** The cut lands on the word boundary `WordBoundaryCut` describes. */
  lemma CutAtWordBoundary(data: string, maxChars: int)
    requires 0 < maxChars < |data|
    ensures WordBoundaryCut(data, maxChars, |Cut(data, maxChars)|)
  {
    var cut := data[..maxChars];
    var nl := RFindChar(cut, '\n');
    var sp := RFindChar(cut, ' ');
    if 5 * nl > 4 * maxChars {
      LastLate(data, maxChars, '\n', nl);
    } else if 5 * sp > 4 * maxChars {
      NoLate(data, maxChars, '\n', nl);
      LastLate(data, maxChars, ' ', sp);
    } else {
      NoLate(data, maxChars, '\n', nl);
      NoLate(data, maxChars, ' ', sp);
    }
  }

  /** The last `c` of `data[..m]` lies past four fifths of `m`. */
  lemma LastLate(data: string, m: int, c: char, idx: int)
    requires 0 < m < |data| && idx == RFindChar(data[..m], c) && 5 * idx > 4 * m
    ensures LateChar(data, m, c)
    ensures 0 <= idx < m && data[idx] == c && forall j :: idx < j < m ==> data[j] != c
  {
    var cut := data[..m];
    assert cut[idx] == data[idx];
    forall j | idx < j < m
      ensures data[j] != c
    {
      assert data[j] == cut[idx + 1..][j - idx - 1];
    }
  }

  /** When the last `c` of `data[..m]` is not past four fifths of `m`, no
      `c` there is. */
  lemma NoLate(data: string, m: int, c: char, idx: int)
    requires 0 < m < |data| && idx == RFindChar(data[..m], c) && 5 * idx <= 4 * m
    ensures !LateChar(data, m, c)
  {
    var cut := data[..m];
    forall j | 0 <= j < |data| && 4 * m < 5 * j < 5 * m
      ensures data[j] != c
    {
      assert cut[j] == data[j];
      if idx >= 0 {
        assert cut[idx + 1..][j - idx - 1] == cut[j];
      }
    }
  }

  /** `truncate_response`. */
  function TruncateResponse(data: string, maxChars: int): (r: Truncation)
    ensures r.truncated <==> maxChars != 0 && |data| > maxChars
    ensures !r.truncated ==> r.text == data
    ensures r.truncated ==> r.text == RStrip(Cut(data, maxChars)) + Parser.TRUNCATION_MARKER
  {
    if maxChars == 0 || |data| <= maxChars then Truncation(data, false)
    else Truncation(RStrip(Cut(data, maxChars)) + Parser.TRUNCATION_MARKER, true)
  }

  /** A truncated text is a right-stripped prefix of the original, no
      longer than the budget, followed by the marker. */
  lemma TruncatedShape(data: string, maxChars: int)
    requires 0 < maxChars < |data|
    ensures var r := TruncateResponse(data, maxChars);
      var kept := r.text[..|r.text| - |Parser.TRUNCATION_MARKER|];
      && r.truncated
      && r.text == kept + Parser.TRUNCATION_MARKER
      && kept <= data && |kept| <= maxChars
      && (|kept| > 0 ==> !IsSpace(kept[|kept| - 1]))
  {
    var cut := Cut(data, maxChars);
    var kept := RStrip(cut);
    var text := kept + Parser.TRUNCATION_MARKER;
    assert TruncateResponse(data, maxChars) == Truncation(text, true);
    assert text[..|text| - |Parser.TRUNCATION_MARKER|] == kept;
    assert kept <= data && |kept| <= maxChars by {
      RStripPrefix(cut);
      assert cut <= data && |cut| <= maxChars;
    }
  }

  /** The plain cut the search and contents tools write inline:
      `text[:max_chars] + marker` whenever the text is longer than the
      budget. Unlike `truncate_response` it has no "0 means no limit" case
      and does not look for a word boundary. */
  function HardTruncate(text: string, maxChars: int): (r: Truncation)
    ensures r.truncated <==> |text| > maxChars
    ensures !r.truncated ==> r.text == text
    ensures r.truncated ==> r.text == PyPrefix(text, maxChars) + Parser.TRUNCATION_MARKER
    ensures r.truncated && maxChars >= 0 ==>
      r.text == text[..maxChars] + Parser.TRUNCATION_MARKER && |r.text| == maxChars + |Parser.TRUNCATION_MARKER|
  {
    if |text| > maxChars then Truncation(PyPrefix(text, maxChars) + Parser.TRUNCATION_MARKER, true)
    else Truncation(text, false)
  }

  /** With a zero budget the plain cut keeps only the marker, while
      `truncate_response` keeps the whole text. */
  lemma ZeroBudgetDiffers(text: string)
    requires |text| > 0
    ensures HardTruncate(text, 0).text == Parser.TRUNCATION_MARKER
    ensures TruncateResponse(text, 0).text == text
  {
  }

  // ----- fetch_page_or_error ---------------------------------------------

  /** What the deduplicated fetch produced: a page, a TimeoutError, or any
      other exception, each exception with its message. */
  datatype FetchOutcome =
    | Fetched(page: Parser.WikiPage)
    | TimedOut(message: string)
    | Raised(message: string)

  /** The rate-limit settings quoted in the RATE_LIMITED message. */
  datatype RateSettings = RateSettings(maxCalls: nat, windowSeconds: nat)

  function RateLimitedMessage(url: string, rs: RateSettings): string {
    "Rate limit exceeded for " + url + ". Max " + NatToString(rs.maxCalls) + " calls per "
      + NatToString(rs.windowSeconds) + "s window. Please wait before retrying."
  }

  function TimeoutMessage(url: string, exc: string): string {
    "Timed out fetching CodeWiki page for " + url + ": " + exc
  }

  function InternalMessage(exc: string): string {
    "Failed to fetch CodeWiki page: " + exc
  }

  function NoContentMessage(url: string): string {
    "No content found for " + url + ". The repository may not be indexed by CodeWiki."
  }

  /** A page with neither sections nor body text. */
  predicate EmptyPage(page: Parser.WikiPage) {
    |page.sections| == 0 && |page.rawText| == 0
  }

  /** `fetch_page_or_error`: validation, then the rate check, then the
      fetch, then the empty-page check. `allowed` is the rate check's answer
      for the normalised URL; `fetch` is consulted only when it is true. */
  function FetchPageOrError(repoUrl: string, allowed: bool, rs: RateSettings, fetch: FetchOutcome)
    : (r: Result<Parser.WikiPage, ToolResponse>)
    ensures ValidateTopicsInput(repoUrl).Err? ==> r == Err(ValidateTopicsInput(repoUrl).error)
    ensures ValidateTopicsInput(repoUrl).Ok? ==>
      var url := ValidateTopicsInput(repoUrl).value.repoUrl;
      && (!allowed ==> r.Err? && r.error.code == Some(RATE_LIMITED) && r.error.message == Some(RateLimitedMessage(url, rs)))
      && (allowed && fetch.TimedOut? ==> r.Err? && r.error.code == Some(TIMEOUT))
      && (allowed && fetch.Raised? ==> r.Err? && r.error.code == Some(INTERNAL))
      && (allowed && fetch.Fetched? && EmptyPage(fetch.page) ==> r.Err? && r.error.code == Some(NO_CONTENT))
      && (allowed && fetch.Fetched? && !EmptyPage(fetch.page) ==> r == Ok(fetch.page))
      && (r.Err? ==> r.error.status == ERROR && r.error.repoUrl == Some(url) && r.error.query.None?)
  {
    match ValidateTopicsInput(repoUrl)
    case Err(e) => Err(e)
    case Ok(validated) =>
      var url := validated.repoUrl;
      if !allowed then
        Err(Error(RATE_LIMITED, RateLimitedMessage(url, rs), Some(url), None, DEFAULT_META))
      else
        match fetch
        case TimedOut(exc) => Err(Error(TIMEOUT, TimeoutMessage(url, exc), Some(url), None, DEFAULT_META))
        case Raised(exc) => Err(Error(INTERNAL, InternalMessage(exc), Some(url), None, DEFAULT_META))
        case Fetched(page) =>
          if EmptyPage(page) then
            Err(Error(NO_CONTENT, NoContentMessage(url), Some(url), None, DEFAULT_META))
          else Ok(page)
  }

  /** The page comes back only when validation passed, the rate check
      allowed the call and the fetch gave a non-empty page. */
  lemma PageOnlyOnFullSuccess(repoUrl: string, allowed: bool, rs: RateSettings, fetch: FetchOutcome)
    ensures FetchPageOrError(repoUrl, allowed, rs, fetch).Ok? <==>
      ValidateTopicsInput(repoUrl).Ok? && allowed && fetch.Fetched? && !EmptyPage(fetch.page)
  {
  }
}
