# CodeWiki-MCP: decision and transformation logic in Dafny

CodeWiki-MCP is an MCP server that answers questions about GitHub
repositories from Google CodeWiki. It has these parts:

- a keyword resolver that turns a bare name ("vue") into a repository;
- input validation;
- a wiki page parser and markdown renderer;
- a chat-search tool that drives the CodeWiki chat;
- a per-key sliding-window rate limiter and time-limited caches;
- environment-driven settings.

This project models the deterministic core of each part, one module per
source file:

| module | file | models |
|---|---|---|
| `Config` | config.dfy | `_env_int`, `_env_bool`, defaults, selector constants |
| `Types` | types.dfy | repository normalisation, blank checks, `ToolResponse.success`/`error`, the three `validate_*` functions |
| `Helpers` | helpers.dfy | `build_codewiki_url`, `truncate_response`, `fetch_page_or_error` |
| `RateLimit` | rate_limit.dfy | the `_windows` map as a class `RateLimiter` |
| `Cache` | cache.dfy | the three TTL caches as a class `Caches` |
| `Html` | html.dfy | a document tree (`Node`), standing in for BeautifulSoup's `find`, `find_all`, `get_text` and attributes |
| `Diagrams` | diagrams.dfy | `_extract_diagrams` and the part of `_extract_svg_graph` after decoding |
| `Parser` | parser.dfy | `_extract_text`, both section strategies, `_extract_toc`, title and body-text cleanup, `get_section_by_title`, `page_to_markdown` |
| `Resolver` | resolver.dfy | `is_bare_keyword`, `_parse_stars`, the link loop, the GitHub item mapping, `_select_best_match`, `_has_canonical_match`, `resolve_keyword`, `resolve_keyword_interactive` |
| `Search` | search.dfy | `_clean_response`, phases 2 and 3 of `_wait_for_response`, `_find_chat_input`, the `_submit_query` rule, `_search_impl`, `_run_search`, `codewiki_search_wiki` |
| `Contents` | contents.dfy | `read_wiki_contents` |
| `Structure` | structure.dfy | `read_wiki_structure` |
| `Text` | text.dfy | Python `str` semantics: `strip`, `lower`, `find`, `replace`, `split`, `join`, slicing |
| `Wrappers` | wrappers.dfy | `Option`, `Result` |

The outside world becomes parameters:

- The browser becomes observations: what each selector showed at each
  poll, which inputs and buttons were visible or enabled, and what an
  attempt's browser loop ended with.
- The environment becomes a map.
- The clock becomes an explicit `now` (and, in the response wait, a
  number of polls).
- A fetched page becomes a document tree.
- A search becomes the list of links it scraped or the items the GitHub
  API returned.

Modelling conventions:

- Python's `\w` is read as ASCII letters, digits and `_`, and `lower()`
  lower-cases ASCII letters only.
- Whitespace is the full `str.isspace()` set.
- Floats are exact decimals. `float(text)` becomes a rational
  (digits, power of ten), `int(x * 1000)` truncates toward zero, and
  "index > 0.8 · max_chars" becomes `5 · index > 4 · max_chars`.
- Module-level mutable state is a class. The rate limiter's `_windows`
  is a `map<string, seq<int>>`; each cache is a map from key to
  (value, expiry time). The methods change only the fields their
  `modifies` clauses name.
- Loops the source runs are methods with loop invariants, each proved
  equal to a recursive specification function. The properties are then
  proved about that function.

Where the code disagrees with its documentation or tests, the model
follows the code:

- `read_wiki_contents` (codewiki_mcp/tools/contents.py) has no
  offset/limit pagination. It returns the whole page or one section, cut
  to `RESPONSE_MAX_CHARS`.
- `cache_stats` returns one nested record per cache. The cache test
  tests/test_cache.py:44-53 reads top-level keys, which the code does not
  produce.
- The rate-limit and search-cache settings (`RATE_LIMIT_*`,
  `SEARCH_CACHE_*`, `PARSED_CACHE_MAX_SIZE`) are not defined in
  codewiki_mcp/config.py. They are parameters: `Helpers.RateSettings`
  and the `Cache.Caches` constructor.

## Model

| member | source | states |
|---|---|---|
| Config.ParseInt | codewiki_mcp/config.py:16-18 | Python's `int()` on a string: a value only for a non-blank text; `IntRoundTrip` shows that `int(str(n)) == n` even with surrounding whitespace |
| Config.IntRoundTrip | codewiki_mcp/config.py:16 | every integer written in decimal, padded with whitespace on both sides, reads back as itself |
| Config.EnvInt | codewiki_mcp/config.py:12-19 | an unset variable, a blank value or one `int()` rejects gives the default; an accepted value gives its number |
| Config.EnvIntReadsValue | codewiki_mcp/config.py:12-19 | a variable holding a written integer overrides any default with that integer |
| Config.InvalidValueGivesDefault | tests/test_config.py:72-79 | "not_a_number" leaves the hard timeout at its default 60 |
| Config.EnvBoolRoundTrip | codewiki_mcp/config.py:22-28 | "true"/"false" in any letter case, with any padding, is read as that boolean whatever the default |
| Config.EnvBoolOnlyRecognised | codewiki_mcp/config.py:22-28 | a boolean setting departs from its default only when its trimmed, lower-cased value is one of 1/true/yes/0/false/no |
| Config.Load | codewiki_mcp/config.py:34-82 | the base URL is the variable's raw value when set and https://codewiki.google otherwise |
| Config.DefaultsWithEmptyEnvironment | codewiki_mcp/config.py:34-82 | with nothing set every setting takes its documented default (60, 30, 20, 45, 30, 2, 3, 30000, 300, 50, 5, 2, 2, 3, false, https://codewiki.google) |
| Config.IntOverridesApply | tests/test_config.py:29-43 | "120" and "5" override the hard timeout and the retry count |
| Config.VerboseOverrideApplies | codewiki_mcp/config.py:77 | 1/true/yes (any case, any padding) switch verbose logging on, 0/false/no switch it off |
| Types.Success | codewiki_mcp/types.py:144-160 | status OK with the data and no error, and the character count set to the data's length whatever the meta said |
| Types.Error | codewiki_mcp/types.py:163-179 | status ERROR carrying exactly the given code, message, URL, query and meta, and no data |
| Types.NameRun | codewiki_mcp/types.py:19-21 | the longest prefix of `[\w.\-]` characters: all name characters, and the next one is not |
| Types.SchemeRest | codewiki_mcp/types.py:15-17 | what follows `https?://` is a proper suffix of the input |
| Types.NormalizeRepoUrl | codewiki_mcp/types.py:40-54 | blank input is rejected; an owner/repo shorthand becomes its github.com URL; anything else is accepted, trimmed, exactly when it has the repository URL shape |
| Types.ExpandedShorthandIsUrl | codewiki_mcp/types.py:46-47 | the expansion of a shorthand has the URL shape and is no longer a shorthand |
| Types.UrlIsNotShorthand | codewiki_mcp/types.py:15-21 | a URL of the recognised shape never matches the shorthand pattern |
| Types.NormalizedIsUrl | codewiki_mcp/types.py:40-54 | every accepted identifier normalises to a trimmed URL of the recognised shape |
| Types.NormalizeIdempotent | codewiki_mcp/types.py:40-54 | normalising a normalised URL gives it back |
| Types.JoinedIsShorthand | codewiki_mcp/types.py:19-21 | two non-empty name segments joined by a slash match the shorthand pattern |
| Types.ShorthandAndUrlAgree | codewiki_mcp/types.py:46-54 | `owner/repo` and `https://github.com/owner/repo` normalise to the same URL |
| Types.NoSlashRejected | codewiki_mcp/types.py:15-21 | an identifier without any slash is rejected |
| Types.BadIsRejected | tests/test_tools.py:102-113 | "bad" is rejected and a search with it is a VALIDATION error |
| Types.NormalizeIgnoresPadding | codewiki_mcp/types.py:41 | surrounding whitespace never changes the outcome |
| Types.NotBlank | codewiki_mcp/types.py:58-94 | `query` and `section_title` (`min_length=1`, then the not-blank validator) pass exactly when non-blank, and pass unchanged |
| Types.FieldErrors | codewiki_mcp/types.py:182-216 | a failed field contributes exactly one error line, a passed one none |
| Types.ValidateSearchInput | codewiki_mcp/types.py:182-192 | valid exactly when the URL normalises and the query is non-blank, giving the normalised URL; otherwise a VALIDATION error echoing the raw URL and query |
| Types.ValidateTopicsInput | codewiki_mcp/types.py:195-204 | valid exactly when the URL normalises; otherwise a VALIDATION error echoing the raw URL and no query |
| Types.ValidateSectionInput | codewiki_mcp/types.py:207-216 | valid exactly when the URL normalises and the title is non-blank; otherwise a VALIDATION error echoing the raw URL |
| Helpers.BuildCodewikiUrl | codewiki_mcp/tools/_helpers.py:28-37 | the address starts with the base and a slash, and is the address the page fetcher loads |
| Helpers.BuildUrlDropsScheme | codewiki_mcp/tools/_helpers.py:28-37 | an https URL and its scheme-less form map to the same address: base, slash, host and path |
| Helpers.Cut | codewiki_mcp/tools/_helpers.py:53-61 | the cut is a prefix of the text |
| Helpers.CutAtWordBoundary | codewiki_mcp/tools/_helpers.py:53-61 | the cut is at the last newline past four fifths of the budget; failing that, at the last such space; failing that, at the budget |
| Helpers.TruncateResponse | codewiki_mcp/tools/_helpers.py:43-63 | the text is returned untouched unless the budget is non-zero and exceeded; a cut text is the right-stripped cut plus the marker |
| Helpers.TruncatedShape | codewiki_mcp/tools/_helpers.py:53-63 | a truncated text is a right-stripped prefix of the original no longer than the budget, followed by the marker |
| Helpers.HardTruncate | codewiki_mcp/tools/search.py:279-283 | the plain cut of the search and contents tools: untouched when within the budget, otherwise `text[:max]` plus the marker, flagged |
| Helpers.ZeroBudgetDiffers | codewiki_mcp/tools/_helpers.py:49-50 | with a zero budget the plain cut keeps only the marker while `truncate_response` keeps the whole text |
| Helpers.FetchPageOrError | codewiki_mcp/tools/_helpers.py:69-118 | validation first, then RATE_LIMITED, then TIMEOUT or INTERNAL from the fetch, then NO_CONTENT for an empty page; every error after validation carries the normalised URL |
| Helpers.PageOnlyOnFullSuccess | codewiki_mcp/tools/_helpers.py:69-118 | a page comes back exactly when validation passed, the rate check allowed the call and the fetch gave a non-empty page |
| RateLimit.Prune | codewiki_mcp/rate_limit.py:44-46 | keeps only timestamps later than the cutoff, never more than there were |
| RateLimit.PruneMembers | codewiki_mcp/rate_limit.py:44-46 | a timestamp survives pruning exactly when it was in the list and is later than the cutoff |
| RateLimit.AdmitRecent | codewiki_mcp/rate_limit.py:30-58 | on a list still inside the window, a call is allowed exactly when the list is under the quota, and only an allowed call adds `now` |
| RateLimit.PruneKeepsRecent | codewiki_mcp/rate_limit.py:44-46 | a list of recent timestamps is left unchanged |
| RateLimit.PruneTwice | codewiki_mcp/rate_limit.py:44-46 | pruning at a cutoff and then at a later one is pruning at the later one |
| RateLimit.Admit | codewiki_mcp/rate_limit.py:30-58 | allowed exactly when fewer than the quota remain in the window; an allowed call ends the list with `now` and keeps it within the quota; a rejected call records nothing |
| RateLimit.Replay | codewiki_mcp/rate_limit.py:30-58 | one verdict per call |
| RateLimit.BurstWithinWindow | codewiki_mcp/rate_limit.py:30-58 | within one window, call `i` passes exactly when the calls already recorded plus `i` are under the quota |
| RateLimit.EleventhCallRejected | tests/test_rate_limit.py:16-25 | with a quota of ten, ten calls at one instant pass and the eleventh is rejected |
| RateLimit.RateLimiter.constructor | codewiki_mcp/rate_limit.py:26-27 | no key holds any timestamp |
| RateLimit.RateLimiter.CheckRateLimit | codewiki_mcp/rate_limit.py:30-58 | the verdict and the key's new list are those of `Admit`; other keys are untouched; no key ever holds more than the quota |
| RateLimit.RateLimiter.RateLimitRemaining | codewiki_mcp/rate_limit.py:61-71 | `max(0, quota − active)`, positive exactly when a call would be allowed, and nothing changes |
| RateLimit.RateLimiter.ResetRateLimits | codewiki_mcp/rate_limit.py:74-77 | every key is forgotten |
| RateLimit.BurstOnFreshLimiter | tests/test_rate_limit.py:16-25 | the verdicts on a fresh limiter are those `Replay` predicts |
| RateLimit.CallsAtOnce | tests/test_rate_limit.py:16-19 | `n` calls within the quota are all recorded, at `now`, and no other key changes |
| RateLimit.KeysIndependent | tests/test_rate_limit.py:27-34 | exhausting one key leaves another allowed |
| Cache.Lookup | codewiki_mcp/cache.py:35-42 | a value only for a present entry whose lifetime has not run out, and then the stored one |
| Cache.GetAfterSet | codewiki_mcp/cache.py:35-48 | a read after a write returns the written value until it expires, whatever the key held before |
| Cache.SetKeepsOthers | codewiki_mcp/cache.py:45-48 | a write leaves every other key's reading unchanged |
| Cache.SearchKey | codewiki_mcp/cache.py:85 | the key is the repository URL and "::" followed by the trimmed query |
| Cache.SearchKeyNormalises | codewiki_mcp/cache.py:83-96 | queries that differ only in letter case or surrounding whitespace share an entry |
| Cache.Caches.constructor | codewiki_mcp/cache.py:29-80 | three empty caches with the given sizes and lifetimes |
| Cache.Caches.GetCachedPage | codewiki_mcp/cache.py:35-42 | the live HTML entry for the URL, if any |
| Cache.Caches.SetCachedPage | codewiki_mcp/cache.py:45-48 | only the HTML cache changes, the URL now mapping to the page until `now + ttl` |
| Cache.Caches.GetCachedWikiPage | codewiki_mcp/cache.py:60-65 | the live parsed page for the URL, if any |
| Cache.Caches.SetCachedWikiPage | codewiki_mcp/cache.py:68-71 | only the parsed-page cache changes |
| Cache.Caches.GetCachedSearch | codewiki_mcp/cache.py:83-89 | the live answer under the normalised search key, if any |
| Cache.Caches.SetCachedSearch | codewiki_mcp/cache.py:92-96 | only the search cache changes, under the normalised search key |
| Cache.Caches.Invalidate | codewiki_mcp/cache.py:102-104 | the URL leaves the HTML cache; an absent URL changes nothing; the other caches are untouched |
| Cache.Caches.ClearCache | codewiki_mcp/cache.py:107-112 | all three caches are empty |
| Cache.LiveKeys | codewiki_mcp/cache.py:115-133 | the keys a cache's length counts are exactly those a read at `now` still finds |
| Cache.LiveAtMostStored | codewiki_mcp/cache.py:115-133 | no more entries are counted than are stored |
| Cache.LiveAfterSet | codewiki_mcp/cache.py:45-48 | a write adds its key to the counted ones until it expires and touches no other key; the count grows by one only for a key not counted before |
| Cache.Caches.CacheStats | codewiki_mcp/cache.py:115-133 | each cache's current size is the number of its entries still live at `now`, reported with its size bound and lifetime |
| Cache.SetGetInvalidate | tests/test_cache.py:18-35 | a set value is read back, is gone after `invalidate`, and a key never set reads as nothing |
| Cache.SecondSetWins | tests/test_cache.py:55-60 | a second write to the same key wins |
| Cache.ClearEmptiesAll | tests/test_cache.py:37-42 | after `clear_cache` every cache reports size zero |
| Cache.ExpiredNotCounted | codewiki_mcp/cache.py:115-133 | a page stored at time 0 with a 300-second lifetime is counted at time 100 and no longer at time 400 |
| Parser.ExtractText | codewiki_mcp/parser.py:74-108 | the rendered text has no leading or trailing whitespace |
| Parser.ExtractTextPlain | codewiki_mcp/parser.py:74-108 | with no formatting child (pre, code, br, a, strong/b, em/i, ul/ol, p/div) the result is the stripped plain text |
| Parser.HeadingLevel | codewiki_mcp/parser.py:142 | `int(name[1])`: a single digit, and for `h1`..`h6` that digit |
| Parser.DropTitle | codewiki_mcp/parser.py:154-155 | a fragment that starts with a non-empty title loses it and is stripped; any other fragment is kept as is |
| Parser.Fragments | codewiki_mcp/parser.py:149-156 | at most one fragment per markdown block |
| Parser.FragmentsEmpty | codewiki_mcp/parser.py:149-159 | there are no fragments exactly when every markdown block renders to the empty text |
| Parser.CodewikiSection | codewiki_mcp/parser.py:139-167 | a section's content is trimmed |
| Parser.CodewikiSectionHeading | codewiki_mcp/parser.py:140-146 | no heading gives "Overview" at level 2; otherwise the heading's text is the title, the block fails exactly when the heading's second character is not a digit, and an h1-h6 heading gives a level from 1 to 6 |
| Parser.WholeBlockOnlyWithoutFragments | codewiki_mcp/parser.py:159-166 | when some markdown block has text, the content is the fragments joined by blank lines and the whole-block text is not used |
| Parser.AllSections | codewiki_mcp/parser.py:136-169 | all blocks' sections in order, or failure exactly when some block fails |
| Parser.CodewikiResults | codewiki_mcp/parser.py:139-167 | one outcome per block, in order |
| Parser.ParseCodewikiSections | codewiki_mcp/parser.py:136-169 | the loop yields one section per block, in document order, or fails as the first failing block does |
| Parser.SiblingParts | codewiki_mcp/parser.py:200-206 | only non-empty sibling texts are kept |
| Parser.CollectSiblingText | codewiki_mcp/parser.py:200-206 | the sibling loop collects the texts of the following siblings up to the next heading |
| Parser.HeadingResults | codewiki_mcp/parser.py:188-206 | one outcome per heading |
| Parser.ParseHeadingSections | codewiki_mcp/parser.py:172-213 | no main/article/body gives no sections; otherwise one section per heading in order |
| Parser.HeadingSectionFinish | codewiki_mcp/parser.py:195-211 | a heading's section is its title and level with the collected sibling texts joined by newlines and stripped |
| Parser.OpenSection | codewiki_mcp/parser.py:195-197 | a new running section has empty content, and closing it with its parts gives the heading's section |
| Parser.SectionsFromHeadings | codewiki_mcp/parser.py:188-211 | the running-section loop yields every heading's section in order, the last one included |
| Parser.ParseSectionsLoop | codewiki_mcp/parser.py:119-133 | the section parser as the source runs it |
| Parser.HeadingStrategyOnlyWithoutBlocks | codewiki_mcp/parser.py:128-133 | with a section block present the block strategy decides; only without one do headings, one section each; with no content area the result is empty |
| Parser.LinkEntries | codewiki_mcp/parser.py:222-225 | only links whose text is longer than one character become entries |
| Parser.NavEntries | codewiki_mcp/parser.py:221-225 | every entry of the navigation pass is a link longer than one character |
| Parser.HeadingEntries | codewiki_mcp/parser.py:228-233 | every heading entry has a non-empty title and a one-character level |
| Parser.ExtractToc | codewiki_mcp/parser.py:216-235 | the navigation links when there are any; only otherwise heading entries |
| Parser.SparkStart | codewiki_mcp/parser.py:426-429 | the first position from which the rest is the "spark Powered by Gemini" suffix, or the end |
| Parser.CleanTitle | codewiki_mcp/parser.py:426-429 | the title is trimmed, and a title without the widget suffix is just stripped |
| Parser.RawText | codewiki_mcp/parser.py:436-441 | a page without a body has no raw text |
| Parser.FetchWikiPage | codewiki_mcp/parser.py:407-457 | the page holds the cleaned repository name, its address, the title, the sections, the contents, the diagrams and the raw text; it fails exactly when the section parser fails |
| Parser.GetSectionByTitle | codewiki_mcp/parser.py:460-466 | a section found has a lower-cased title containing the trimmed, lower-cased needle |
| Parser.SectionByTitleFirst | codewiki_mcp/parser.py:460-466 | the section found is the first whose title matches, and none is found exactly when no title matches |
| Parser.Hashes | codewiki_mcp/parser.py:510-514 | `min(level + 1, 6)` hash characters |
| Parser.DiagramLabel | codewiki_mcp/parser.py:477-480 | the label of a diagram is never empty |
| Parser.DiagramEntry | codewiki_mcp/parser.py:474-508 | a diagram's lines open with its bold numbered label and end with a blank line |
| Parser.PageMarkdown | codewiki_mcp/parser.py:469-521 | the rendering is kept whole when the budget is zero or not exceeded; otherwise exactly its first `max_chars` characters plus the marker |
| Parser.RenderDiagrams | codewiki_mcp/parser.py:474-508 | the diagram loop produces the diagram summary block |
| Parser.RenderSections | codewiki_mcp/parser.py:510-514 | the section loop appends each section's heading line and content, in order |
| Parser.PageToMarkdown | codewiki_mcp/parser.py:469-521 | the method as the source runs it gives `PageMarkdown` |
| Parser.MarkdownStartsWithTitle | codewiki_mcp/parser.py:471-472 | the rendering starts with "# " and the title |
| Parser.DiagramBlockStart | codewiki_mcp/parser.py:474-476 | the diagram summary opens with its count line |
| Parser.DiagramSummaryFirst | codewiki_mcp/parser.py:471-508 | with diagrams, their summary comes right after the title, before any section |
| Diagrams.GroupLabel | codewiki_mcp/parser.py:347-377 | a group's label is empty exactly when it has no non-empty text |
| Diagrams.NodeOf | codewiki_mcp/parser.py:347-354 | a node is kept exactly when its id or its caption is non-empty |
| Diagrams.EdgeOf | codewiki_mcp/parser.py:356-377 | a kept edge has an end or a caption; a title without "->" gives no ends |
| Diagrams.EdgeEndpoints | codewiki_mcp/parser.py:360-377 | an edge title splits at the first "->", both sides trimmed, empty sides left out; a non-empty side keeps the edge |
| Diagrams.NodesOf | codewiki_mcp/parser.py:347-354 | every node has an id or a caption |
| Diagrams.NodesOfKeepsEvery | codewiki_mcp/parser.py:347-354 | every group with an id or a caption appears as a node |
| Diagrams.EdgesOf | codewiki_mcp/parser.py:356-377 | every edge has an end or a caption |
| Diagrams.NodeLabels | codewiki_mcp/parser.py:380-393 | only non-empty captions are listed |
| Diagrams.ExtractSvgGraph | codewiki_mcp/parser.py:321-401 | no graph for an href that is not a base64 SVG data URI; a flat graph always has content |
| Diagrams.InlineDiagram | codewiki_mcp/parser.py:258-280 | an inline diagram carries its section's heading, and no graph when it has no href |
| Diagrams.SeenHrefs | codewiki_mcp/parser.py:272-280 | the empty href is never recorded as seen |
| Diagrams.Kept | codewiki_mcp/parser.py:272-280 | never more diagrams than inline elements |
| Diagrams.DiagramsOf | codewiki_mcp/parser.py:258-280 | one record per kept inline element |
| Diagrams.VisitInline | codewiki_mcp/parser.py:272-280 | one step keeps the element when its href is empty or unseen, and adds a new href to the seen set |
| Diagrams.CollectInlineDiagrams | codewiki_mcp/parser.py:258-280 | the loop records exactly the kept inline diagrams, in order |
| Diagrams.KeptHrefsDistinct | codewiki_mcp/parser.py:272-280 | no non-empty href is recorded twice, and each recorded one was met |
| Diagrams.KeptCount | codewiki_mcp/parser.py:272-280 | one diagram per distinct href, plus one for every inline element without an href |
| Diagrams.MermaidCodeBlocks | codewiki_mcp/parser.py:283-292 | at most one mermaid diagram per `pre` block |
| Diagrams.MermaidDivs | codewiki_mcp/parser.py:294-297 | every mermaid div diagram has content |
| Diagrams.BareSvgs | codewiki_mcp/parser.py:301-309 | only SVG records come from bare SVGs |
| Diagrams.DiagramImages | codewiki_mcp/parser.py:311-316 | one image record per diagram image, with its alt and src |
| Diagrams.ExtractDiagrams | codewiki_mcp/parser.py:240-318 | the inline diagrams, deduplicated by href, then mermaid blocks, then bare SVGs and images |
| Resolver.IsBareKeyword | codewiki_mcp/resolver.py:51-59 | true exactly when the trimmed text is non-blank, does not start with "http" and is a word character followed by word characters, dots or hyphens; a keyword never holds "/" |
| Resolver.BareKeywordExamples | codewiki_mcp/resolver.py:54-59 | "vue" is a keyword; "httpie", "vuejs/vue" and a blank are not |
| Resolver.Literal | codewiki_mcp/resolver.py:101-104 | the exact value a `float()` literal spells; only a text holding an "i" spells an infinity, and a finite value has a positive denominator |
| Resolver.LiteralBelow | codewiki_mcp/resolver.py:101-104 | a finite literal without an exponent is below ten to the power of its length |
| Resolver.Pow10Limit | codewiki_mcp/resolver.py:101-104 | ten to the 306th power is below the overflow bound, so no literal of at most 306 digits overflows |
| Resolver.ParseFloat | codewiki_mcp/resolver.py:101-104 | `float()` reads a text exactly when it is a literal; a finite result is the literal's exact value and below the overflow bound; an infinity comes from a spelled infinity or from a finite literal at or beyond the bound |
| Resolver.Truncate | codewiki_mcp/resolver.py:101-104 | `int()` of a fraction truncates toward zero: the result's magnitude is the whole part of the fraction's and the sign is kept |
| Resolver.Scaled | codewiki_mcp/resolver.py:101-104 | `int()` of a scaled value fails exactly on an infinity or a product at or beyond the overflow bound; otherwise it truncates the product toward zero, and NaN or a text that is not a number gives 0 |
| Resolver.WithinRange | codewiki_mcp/resolver.py:101-104 | a value below 10^300 scaled by at most a million never overflows |
| Resolver.ParseStars | codewiki_mcp/resolver.py:94-106 | fails (an uncaught `OverflowError` from `int()`) exactly when the cleaned number is an infinity or overflows once scaled by its suffix |
| Resolver.ShortStarsRead | codewiki_mcp/resolver.py:94-106 | a text of at most 300 characters without "i" or "e" always parses |
| Resolver.StarTokenReads | codewiki_mcp/resolver.py:168-171 | a scraped star token of at most 300 characters always parses |
| Resolver.DigitsFloat | codewiki_mcp/resolver.py:101-104 | plain digits are a literal of the number they spell, which `float()` keeps below the overflow bound and turns into an infinity at or beyond it |
| Resolver.ParseStarsDigits | codewiki_mcp/resolver.py:94-106 | plain digits read as the number they spell, and fail once that number reaches the overflow bound |
| Resolver.ParseStarsWhole | codewiki_mcp/resolver.py:94-106 | a whole number below the overflow bound written out reads back as itself ("52" is 52); a larger one fails |
| Resolver.MatchAt | codewiki_mcp/resolver.py:155 | a match at a position starts with `github.com/` there, both names non-empty and slash-free |
| Resolver.MatchAtSlice | codewiki_mcp/resolver.py:155 | a match at a position is the text `github.com/owner/repo` there |
| Resolver.GithubMatchFrom | codewiki_mcp/resolver.py:155 | the leftmost match from a position, and none exactly when no position matches |
| Resolver.GithubMatch | codewiki_mcp/resolver.py:155-158 | no pair means no position of the href matches |
| Resolver.GithubMatchOccurs | codewiki_mcp/resolver.py:155-158 | a found pair occurs in the href as `github.com/owner/repo` |
| Resolver.StarRun | codewiki_mcp/resolver.py:168-171 | the longest run of digits, commas and points at the end |
| Resolver.StarToken | codewiki_mcp/resolver.py:168-171 | the star token is a suffix of the text made of star characters |
| Resolver.LinkStars | codewiki_mcp/resolver.py:167-171 | the star count is 0 without a star token, and fails only when the token's number overflows |
| Resolver.ScrapedResult | codewiki_mcp/resolver.py:147-185 | a link yields a result exactly when its href holds a pair and its star count does not overflow (else the `except` drops it); the description is a prefix of the trimmed text of at most 200 characters; a relative href gets the base URL |
| Resolver.ShortTextKept | codewiki_mcp/resolver.py:147-185 | a link whose text has at most 300 characters yields a result exactly when its href holds a pair |
| Resolver.LinkResults | codewiki_mcp/resolver.py:147-185 | at most one result per link |
| Resolver.ResultsDistinct | codewiki_mcp/resolver.py:160-164 | no two results name the same owner/repo pair |
| Resolver.ResultsFromLinks | codewiki_mcp/resolver.py:147-185 | every result is what some link yields, so every description is at most 200 characters |
| Resolver.PairFromLinks | codewiki_mcp/resolver.py:147-185 | a pair no link names is never in the results |
| Resolver.FirstOccurrenceKept | codewiki_mcp/resolver.py:163-164 | the first link naming a pair is kept exactly as it reads |
| Resolver.FindPair | codewiki_mcp/resolver.py:163-164 | the duplicate scan answers whether the pair is already present |
| Resolver.ScrapeLinks | codewiki_mcp/resolver.py:147-185 | the link loop as the source runs it gives `LinkResults` |
| Resolver.ItemResult | codewiki_mcp/resolver.py:266-276 | an item is skipped exactly when its name lacks "/"; otherwise owner and repository rejoin to the full name, the stars are kept and the description is at most 200 characters |
| Resolver.ItemResultsKeepAll | codewiki_mcp/resolver.py:265-276 | when every `full_name` holds a "/", there is one result per item |
| Resolver.ItemResultsFrom | codewiki_mcp/resolver.py:265-276 | every result is what some item yields |
| Resolver.GithubResults | codewiki_mcp/resolver.py:265-276 | at most `max_results` results |
| Resolver.GithubResultsNames | codewiki_mcp/resolver.py:265-276 | each result names one of the items and has a description of at most 200 characters |
| Resolver.GithubSearchResults | codewiki_mcp/resolver.py:264-276 | the sliced items through the item loop give `GithubResults` |
| Resolver.MapItems | codewiki_mcp/resolver.py:265-276 | the item loop as the source runs it gives `ItemResults` |
| Resolver.Filter | codewiki_mcp/resolver.py:311-336 | exactly the elements satisfying the predicate |
| Resolver.MaxByStars | codewiki_mcp/resolver.py:313 | an element with the most stars, the first one among equals |
| Resolver.MaxOfFilter | codewiki_mcp/resolver.py:311-336 | the maximum of a filtered tier is its first element with the most stars |
| Resolver.SelectBestMatch | codewiki_mcp/resolver.py:294-339 | none exactly when there are no results; otherwise one of the results |
| Resolver.SelectBestMatchTiers | codewiki_mcp/resolver.py:305-339 | the first populated tier decides (canonical, exact name, owner contains, name contains), the earliest most-starred in it wins, else the first result |
| Resolver.OwnerAndRepoUnreachable | codewiki_mcp/resolver.py:317-331 | the owner tier's exact-name preference never applies |
| Resolver.ResolveKeyword | codewiki_mcp/resolver.py:345-365 | a choice exactly when there are results, and then one of their full names; the results come back unchanged |
| Resolver.FirstCanonical | codewiki_mcp/resolver.py:383-389 | the index of the first canonical result, or none when no result is canonical |
| Resolver.HasCanonicalMatch | codewiki_mcp/resolver.py:383-389 | the first canonical result in list order, not the most starred |
| Resolver.CanonicalAgreesInTier | codewiki_mcp/resolver.py:311-313 | when a canonical result exists the best match is canonical too |
| Resolver.ChoiceOptions | codewiki_mcp/resolver.py:398-399 | the full names of the first six results, in order |
| Resolver.ResolveKeywordInteractive | codewiki_mcp/resolver.py:452-527 | the CodeWiki results, else the GitHub ones; nothing chosen only with no results; a single result is chosen outright, then a canonical one, then the accepted choice, then the heuristic |
| Resolver.InteractiveWithoutContext | codewiki_mcp/resolver.py:519-527 | without a context the interactive flow is `resolve_keyword` |
| Search.ArtifactsRemoved | codewiki_mcp/tools/search.py:194-195 | deleting artifacts never lengthens the text |
| Search.DropLeadingEmpty | codewiki_mcp/tools/search.py:198-199 | a suffix of the lines starting with a non-empty one, everything dropped empty |
| Search.Cleaned | codewiki_mcp/tools/search.py:192-202 | the cleaned answer has no leading or trailing whitespace |
| Search.CleanedStartsWithFirstLine | codewiki_mcp/tools/search.py:192-202 | the cleaned answer begins with its first non-blank line, and is empty exactly when every line is blank once the artifacts are gone |
| Search.CleanResponse | codewiki_mcp/tools/search.py:192-202 | the step-by-step cleaning gives `Cleaned` |
| Search.Accepted | codewiki_mcp/tools/search.py:155-166 | a text is accepted only when longer than the threshold |
| Search.AcceptedShown | codewiki_mcp/tools/search.py:155-166 | the accepted text is one some selector showed; none is accepted exactly when no selector shows a text longer than the threshold |
| Search.FirstAnswer | codewiki_mcp/tools/search.py:151-170 | a poll found is before the deadline, has a long enough text, and no earlier poll had one |
| Search.FirstAnswerNone | codewiki_mcp/tools/search.py:151-170 | nothing is found exactly when no poll before the deadline has a long enough text |
| Search.ScanForContent | codewiki_mcp/tools/search.py:155-166 | one phase-2 round tries the selectors in order |
| Search.WaitForContent | codewiki_mcp/tools/search.py:151-170 | phase 2 gives "" when nothing came and otherwise the text accepted at the first answering poll |
| Search.FirstShownShown | codewiki_mcp/tools/search.py:176-183 | the text of the first visible selector, none exactly when none is visible |
| Search.ReadRound | codewiki_mcp/tools/search.py:176-185 | a round's content is the previous content or a text read in that round |
| Search.StableFrom | codewiki_mcp/tools/search.py:172-189 | phase 3 makes at least one round when it may, and never goes past its last round |
| Search.StableResultWasRead | codewiki_mcp/tools/search.py:172-189 | phase 3 returns phase 2's text or a text one of its rounds read |
| Search.NothingVisibleStops | codewiki_mcp/tools/search.py:183-185 | a round with no visible selector ends phase 3 with the content unchanged |
| Search.LengthDecidesStop | codewiki_mcp/tools/search.py:186-189 | a read of the same length ends phase 3 with that text; a read of another length goes on |
| Search.GrowingTextReadsAllRounds | codewiki_mcp/tools/search.py:172-189 | a text that grows at every round is read in all fifteen rounds and the last read is returned |
| Search.ScanShown | codewiki_mcp/tools/search.py:176-183 | one phase-3 round tries the selectors in order |
| Search.Stabilise | codewiki_mcp/tools/search.py:172-189 | the stability loop as the source runs it, at most fifteen rounds |
| Search.ResponseText | codewiki_mcp/tools/search.py:151-189 | "" when phase 2 finds nothing before the deadline |
| Search.ResponseIsRead | codewiki_mcp/tools/search.py:151-189 | the response is the text phase 2 accepted or a text a later round read |
| Search.WaitForResponse | codewiki_mcp/tools/search.py:130-189 | phases 2 and 3 as the source runs them |
| Search.FirstVisible | codewiki_mcp/tools/search.py:73-83 | the first selector reported visible, passing over invisible and failing ones; none when all are exhausted |
| Search.FindChatInput | codewiki_mcp/tools/search.py:73-83 | the probe loop returns that first visible selector |
| Search.ClicksAreEnabled | codewiki_mcp/tools/search.py:114-127 | the clicked buttons are enabled ones from the list, every click but the last raised |
| Search.AtMostOneClick | codewiki_mcp/tools/search.py:114-127 | when no click raises, at most one button is clicked, and one exactly when the first decisive button is enabled |
| Search.ClickFirstButton | codewiki_mcp/tools/search.py:114-127 | the button loop as the source runs it |
| Search.SubmitQuery | codewiki_mcp/tools/search.py:104-127 | the buttons clicked after Enter over the send-button selectors |
| Search.SearchImplBroken | codewiki_mcp/tools/search.py:205-301 | the session is released as broken exactly on a missing panel, a missing input or a driver exception |
| Search.SearchImplErrors | codewiki_mcp/tools/search.py:205-301 | INPUT_NOT_FOUND without a panel or an input, DRIVER_ERROR with the exception's text, NO_CONTENT on an empty answer |
| Search.SearchImplAnswer | codewiki_mcp/tools/search.py:205-301 | OK exactly on a non-empty answer, whose data is the cleaned answer cut to the budget |
| Search.AnswerIsCleaned | codewiki_mcp/tools/search.py:279-290 | a successful answer within the budget is the cleaned text, unflagged; a longer one is its first `max` characters plus the marker, flagged |
| Search.SearchAttempt | codewiki_mcp/tools/search.py:205-301 | the attempt driven step by step agrees with `SearchImpl`, and clicks what the submit rule says |
| Search.RunSearch | codewiki_mcp/tools/search.py:399-416 | the attempt's response, or TIMEOUT on the hard timeout, or INTERNAL with the exception's text |
| Search.Stamp | codewiki_mcp/tools/search.py:490-502 | the attempt number and bound are written in and nothing else changes |
| Search.FirstOk | codewiki_mcp/tools/search.py:484-505 | the first OK attempt up to the retry bound, or none when none is OK |
| Search.Retry | codewiki_mcp/tools/search.py:484-514 | OK exactly when some attempt is; a cached answer is non-empty and returned behind the note; a failure made every attempt; one pause between attempts |
| Search.FirstOkWins | codewiki_mcp/tools/search.py:490-498 | the first OK attempt is returned, stamped with its number, and no later attempt is made |
| Search.ExhaustedKeepsLastError | codewiki_mcp/tools/search.py:500-510 | exhausted retries return the last attempt's error re-tagged RETRY_EXHAUSTED, its message kept, and nothing is cached |
| Search.SearchWithRetries | codewiki_mcp/tools/search.py:484-514 | the retry loop as the source runs it gives `Retry` |
| Search.CacheHitResponse | codewiki_mcp/tools/search.py:471-482 | a cache hit is OK with the note before the cached answer |
| Search.NoteCountedOnlyOnCacheHit | codewiki_mcp/tools/search.py:471-498 | a cache hit counts the note's characters, a fresh answer does not |
| Search.SearchWiki | codewiki_mcp/tools/search.py:426-514 | validation, then the rate check on the normalised URL, then the search cache, then the retry loop; only a fresh non-empty answer is stored, and the other caches are untouched |
| Contents.ValidateContentsInput | codewiki_mcp/tools/contents.py:48-55 | a non-blank title selects section validation, otherwise topics validation; valid exactly when the URL normalises |
| Contents.ListedTitles | codewiki_mcp/tools/contents.py:72 | the titles of the first twenty sections, in order |
| Contents.SectionText | codewiki_mcp/tools/contents.py:80-81 | a section opens with `min(level + 1, 6)` hashes and its title, then a blank line and its content |
| Contents.ContentsText | codewiki_mcp/tools/contents.py:69-84 | no text exactly when a title was given and no section matches |
| Contents.ReadWikiContents | codewiki_mcp/tools/contents.py:30-114 | VALIDATION, TIMEOUT, INTERNAL, NO_CONTENT for an empty page or an unknown section; otherwise the section or the whole page, cut to the budget and flagged exactly when cut |
| Contents.FullPageCutOnce | codewiki_mcp/tools/contents.py:84-89 | the tool's second cut of the whole page gives back the first cut's text, flagged exactly when the rendering was longer than the budget |
| Contents.SectionReply | codewiki_mcp/tools/contents.py:80-101 | a found section comes back as heading, blank line and content, cut when longer than the budget |
| Contents.UnknownSectionListsFirstTwenty | codewiki_mcp/tools/contents.py:69-78 | an unknown section's error names at most the first twenty section titles, in order |
| Structure.StructureOf | codewiki_mcp/tools/structure.py:59-66 | the record holds the repository name and title, one (title, level) per section in order, and the section count |
| Structure.ReadWikiStructure | codewiki_mcp/tools/structure.py:29-91 | VALIDATION, TIMEOUT or INTERNAL as the fetch went; NO_CONTENT exactly when there is neither a table of contents nor a section; otherwise the record |
| Structure.EmptinessDiffers | codewiki_mcp/tools/structure.py:50-56 | a contents-only page is listed but has no contents, and a text-only page has contents but no structure |

## Left out

- codewiki_mcp/browser.py, the session pool and every Playwright call.
  These are concurrency and foreign I/O. The pooled session's release on
  every path and the fresh-context fallback (codewiki_mcp/tools/search.py:219-224, 309) are not modelled. The broken flag is returned instead.
- Phase 1 of `_wait_for_response`, `_ensure_chat_open` and
  `_wait_for_submit_enabled` are left out. Their outcome is a parameter:
  whether the chat panel opened, and what the browser showed.
- Typing and the random delays are left out.
- Sleeps are counted, not performed. The response deadline becomes a
  number of polls.
- `elapsed_ms` and `time.monotonic` are left out.
- Cache lifetimes use an explicit `now`. The cachetools size bound and
  LRU eviction are not modelled: `maxsize` is only reported by
  `cache_stats`.
- The resolver's keyword caches (`_resolve_cache`, `_github_cache`) are
  left out. A search's results are parameters.
- `_scrape_search_results` and `_github_search` keep only their loops.
  The navigation, the HTTP request and the JSON decoding are not
  modelled: the loops take the scraped links and the decoded items.
- `pre_resolve_keyword` and `build_resolution_note` are left out. The
  note is a parameter of `Search.SearchWiki`.
- The elicitation message and the pydantic choice model are left out;
  only `Resolver.ChoiceOptions` is kept.
- `_format_stars` (`%.1f` float formatting) is not modelled.
- Resolver.ParseStars: the "209.9k" → 209900 example is not proved. Only
  whole numbers and scraped tokens are.
- BeautifulSoup, lxml, base64 and XML parsing are foreign libraries. Pages
  are a `Node` tree. An embedded SVG is decoded by a `Diagrams.Decoder`
  parameter, which yields the Graphviz groups and texts.
- `_fetch_html`, the deduplicated fetch and the HTML page cache inside
  `fetch_wiki_page` are left out. The tools take the fetched page or the
  exception it raised.
- `ToolResponse.to_text` and `json.dumps` are not modelled. The structure
  tool returns the record itself.
- codewiki_mcp/tools/request_indexing.py, codewiki_mcp/tools/topics.py,
  codewiki_mcp/server.py, codewiki_mcp/tools/__init__.py and
  codewiki_mcp/__init__.py are not part of this model.
- Floats are exact decimals. Python's binary rounding in `float(text) *
  1000` and in `0.8 * max_chars` is not reproduced. Overflow to an
  infinity is modelled on the exact value: a value whose magnitude
  reaches 2^1024 − 2^970 (halfway between the largest double and 2^1024)
  is infinite; underflow and the rounding of values near that bound are
  not.
- Types.ValidationMessage: only the outline of pydantic v2's message is
  kept (the error count, the model name, each field and the text of its
  error). The "Value error, " prefix, the `[type=…, input_value=…,
  input_type=str]` suffix and the line linking to pydantic's error
  documentation are not reproduced.
- Search.SearchAttempt: a browser exception is one `raised` parameter. The
  model does not say at which step it happened, and the buttons clicked
  are stated only for an attempt that raised nothing.
- Parser.ExtractText: its contract states only that the result is trimmed.
  The per-element rules (fenced `pre`, backticked `code`, links, bold,
  italics, list items, recursion into `p`/`div`) are its definition.
  `ExtractTextPlain` states the plain-text case.
