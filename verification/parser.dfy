/** The wiki page parser (codewiki_mcp/parser.py): markdown-ish text
    extraction, the two section strategies, the table of contents, title and
    body-text cleanup, section lookup and markdown rendering.

    The rendered HTML is a parameter (a document tree); the browser fetch and
    its page cache are outside this module. An `int()` that raises inside
    the section parsers makes the whole parse fail, which is `None` here. */
module Parser {
  import opened Wrappers
  import opened Text
  import opened Html
  import opened Diagrams
  import Config

  datatype WikiSection = WikiSection(title: string, level: int, content: string)

  datatype TocEntry =
    | TocLink(title: string, href: string)
    | TocHeading(title: string, level: string)

  datatype WikiPage = WikiPage(
    repoName: string,
    url: string,
    title: string,
    sections: seq<WikiSection>,
    toc: seq<TocEntry>,
    diagrams: seq<Diagram>,
    rawText: string)

  // ----- _extract_text ---------------------------------------------------

  /** `_extract_text`: the children rendered one by one, concatenated and
      stripped. */
  function ExtractText(n: Node): (r: string)
    ensures Trimmed(r)
    decreases n, 2
  {
    match n
    case Text(_) => []
    case Elem(_, _, _, cs) => Strip(PartsOf(cs))
  }

  function PartsOf(ns: seq<Node>): string
    decreases ns, 1
  {
    if |ns| == 0 then [] else ChildPart(ns[0]) + PartsOf(ns[1..])
  }

  /** How one child is rendered. */
  function ChildPart(c: Node): string
    decreases c, 3
  {
    match c
    case Text(s) => s
    case Elem(name, _, _, _) =>
      if name == "pre" then "\n```\n" + GetText(c) + "\n```\n"
      else if name == "code" then "`" + GetText(c) + "`"
      else if name == "br" then "\n"
      else if name == "a" then
        var href := Attr(c, "href", "");
        var t := GetText(c);
        if href != [] && t != [] then "[" + t + "](" + href + ")" else t
      else if name == "strong" || name == "b" then "**" + GetText(c) + "**"
      else if name == "em" || name == "i" then "*" + GetText(c) + "*"
      else if name == "ul" || name == "ol" then ListItems(ChildrenNamed(c, "li")) + "\n"
      else if name == "p" || name == "div" then "\n" + ExtractText(c) + "\n"
      else GetText(c)
  }

  function ListItems(lis: seq<Node>): string
    decreases |lis|
  {
    if |lis| == 0 then [] else "\n- " + Strip(GetText(lis[0])) + ListItems(lis[1..])
  }

  /** The element names `_extract_text` renders specially. */
  predicate Formatting(name: string) {
    name in {"pre", "code", "br", "a", "strong", "b", "em", "i", "ul", "ol", "p", "div"}
  }

  predicate PlainChild(c: Node) {
    c.Text? || !Formatting(c.name)
  }

  /** With no formatting child, `_extract_text` is the stripped plain text. */
  lemma ExtractTextPlain(n: Node)
    requires n.Elem? && forall k :: 0 <= k < |n.children| ==> PlainChild(n.children[k])
    ensures ExtractText(n) == Strip(GetText(n))
  {
    PartsOfPlain(n.children);
  }

  lemma {:induction false} PartsOfPlain(ns: seq<Node>)
    requires forall k :: 0 <= k < |ns| ==> PlainChild(ns[k])
    ensures PartsOf(ns) == Concat(StringsOf(ns))
    decreases |ns|
  {
    if |ns| > 0 {
      PartsOfPlain(ns[1..]);
      ConcatAppend(Strings(ns[0]), StringsOf(ns[1..]));
      if ns[0].Text? {
        assert Concat(Strings(ns[0])) == ns[0].text + Concat([]);
      }
    }
  }

  // ----- section strategies ----------------------------------------------

  /** `int(name[1])` for a heading name: a decimal digit, or ValueError. */
  function HeadingLevel(name: string): (r: Option<int>)
    ensures r.Some? ==> 0 <= r.value <= 9
    ensures HeadingMatch(name) ==> r == Some(name[1] as int - '0' as int)
  {
    if |name| >= 2 && IsDigit(name[1]) then Some(name[1] as int - '0' as int) else None
  }

  predicate IsHeadingLike(n: Node) {
    n.Elem? && HeadingSearch(n.name)
  }

  /** A fragment that restates the title has the title cut off and is
      stripped again. */
  function DropTitle(title: string, text: string): (r: string)
    ensures title != [] && title <= text ==> r == Strip(text[|title|..])
    ensures !(title != [] && title <= text) ==> r == text
  {
    if title != [] && title <= text then Strip(text[|title|..]) else text
  }

  /** The non-empty markdown fragments of a section block, title cut off. */
  function Fragments(mds: seq<Node>, title: string): (r: seq<string>)
    ensures |r| <= |mds|
    decreases |mds|
  {
    if |mds| == 0 then []
    else
      var t := ExtractText(mds[0]);
      var rest := Fragments(mds[1..], title);
      if t != [] then [DropTitle(title, t)] + rest else rest
  }

  /** `Fragments` is empty exactly when every fragment's text is empty. */
  lemma {:induction false} FragmentsEmpty(mds: seq<Node>, title: string)
    ensures Fragments(mds, title) == [] <==> forall k :: 0 <= k < |mds| ==> ExtractText(mds[k]) == []
    decreases |mds|
  {
    if |mds| > 0 {
      FragmentsEmpty(mds[1..], title);
      assert forall k :: 1 <= k < |mds| ==> mds[1..][k - 1] == mds[k];
    }
  }

  /** The `<documentation-markdown>` blocks inside an element. */
  function Markdowns(elem: Node): seq<Node> {
    FindAll(elem, (n: Node) => HasName(n, "documentation-markdown"))
  }

  /** One `<body-content-section>`: its first heading gives title and
      level ("Overview" and 2 without one); its content is the markdown
      fragments joined by blank lines, or the whole block's text when no
      fragment has text. */
  function CodewikiSection(elem: Node): (r: Option<WikiSection>)
    ensures r.Some? ==> Trimmed(r.value.content)
  {
    var heading := Find(elem, IsHeadingLike);
    var level := if heading.Some? then HeadingLevel(heading.value.name) else Some(2);
    var title := if heading.Some? then GetTextStrip(heading.value, "") else "Overview";
    if level.None? then None
    else
      var parts := Fragments(Markdowns(elem), title);
      var whole := DropTitle(title, ExtractText(elem));
      var chosen := if parts != [] then parts else if whole != [] then [whole] else [];
      Some(WikiSection(title, level.value, Strip(Join("\n\n", chosen))))
  }

  /** Title and level come from the block's first heading; the block
      fails only when that heading's second character is not a digit, and
      a real `h1`..`h6` heading always gives a level from 1 to 6. */
  lemma CodewikiSectionHeading(elem: Node)
    ensures Find(elem, IsHeadingLike).None? ==>
      CodewikiSection(elem).Some? && CodewikiSection(elem).value.title == "Overview" && CodewikiSection(elem).value.level == 2
    ensures Find(elem, IsHeadingLike).Some? ==>
      var h := Find(elem, IsHeadingLike).value;
      && (CodewikiSection(elem).None? <==> !IsDigit(h.name[1]))
      && (CodewikiSection(elem).Some? ==> CodewikiSection(elem).value.title == GetTextStrip(h, ""))
      && (HeadingMatch(h.name) ==> CodewikiSection(elem).Some? && 1 <= CodewikiSection(elem).value.level <= 6)
  {
    var heading := Find(elem, IsHeadingLike);
    if heading.Some? {
      assert IsHeadingLike(heading.value);
    }
  }

  /** The block's own text is used only when no markdown fragment has
      text. */
  lemma WholeBlockOnlyWithoutFragments(elem: Node)
    requires CodewikiSection(elem).Some?
    requires exists k :: 0 <= k < |Markdowns(elem)| && ExtractText(Markdowns(elem)[k]) != []
    ensures var r := CodewikiSection(elem).value;
      r.content == Strip(Join("\n\n", Fragments(Markdowns(elem), r.title)))
  {
    var mds := Markdowns(elem);
    var r := CodewikiSection(elem).value;
    FragmentsEmpty(mds, r.title);
  }

  /** All blocks in order, or `None` if any of them raises. */
  function AllSections(os: seq<Option<WikiSection>>): (r: Option<seq<WikiSection>>)
    ensures r.Some? <==> forall k :: 0 <= k < |os| ==> os[k].Some?
    ensures r.Some? ==> |r.value| == |os| && forall k :: 0 <= k < |os| ==> r.value[k] == os[k].value
    decreases |os|
  {
    if |os| == 0 then Some([])
    else if os[0].None? then None
    else match AllSections(os[1..])
      case None => None
      case Some(rest) => Some([os[0].value] + rest)
  }

  /** A list that agrees with every outcome is what `AllSections` gives. */
  lemma AllSectionsOf(os: seq<Option<WikiSection>>, sections: seq<WikiSection>)
    requires |sections| == |os|
    requires forall k :: 0 <= k < |os| ==> os[k].Some? && sections[k] == os[k].value
    ensures AllSections(os) == Some(sections)
  {
    assert AllSections(os).value == sections;
  }

  lemma AllSectionsFails(os: seq<Option<WikiSection>>, i: int)
    requires 0 <= i < |os| && os[i].None?
    ensures AllSections(os).None?
  {
  }

  function CodewikiResults(bcs: seq<Node>): (r: seq<Option<WikiSection>>)
    ensures |r| == |bcs| && forall k :: 0 <= k < |bcs| ==> r[k] == CodewikiSection(bcs[k])
  {
    seq(|bcs|, k requires 0 <= k < |bcs| => CodewikiSection(bcs[k]))
  }

  function CodewikiSectionsSpec(bcs: seq<Node>): Option<seq<WikiSection>> {
    AllSections(CodewikiResults(bcs))
  }

  /** `_parse_codewiki_sections`: one section per block, in order. */
  method ParseCodewikiSections(bcs: seq<Node>) returns (r: Option<seq<WikiSection>>)
    ensures r == CodewikiSectionsSpec(bcs)
    ensures r.Some? ==> |r.value| == |bcs|
  {
    r := CollectSections(CodewikiResults(bcs));
  }

  /** The block loop: each block's section appended in order, stopping at
      the first block that raises. */
  method CollectSections(os: seq<Option<WikiSection>>) returns (r: Option<seq<WikiSection>>)
    ensures r == AllSections(os)
  {
    var sections: seq<WikiSection> := [];
    for i := 0 to |os|
      invariant |sections| == i
      invariant forall k :: 0 <= k < i ==> os[k].Some? && sections[k] == os[k].value
    {
      var s := os[i];
      if s.None? {
        AllSectionsFails(os, i);
        return None;
      }
      sections := sections + [s.value];
    }
    AllSectionsOf(os, sections);
    return Some(sections);
  }

  /** The markdown of the siblings after a heading, up to the next
      heading (a name that starts with h1-h6), empty texts skipped. */
  function SiblingParts(sibs: seq<Node>): (r: seq<string>)
    ensures forall k :: 0 <= k < |r| ==> r[k] != []
    decreases |sibs|
  {
    if |sibs| == 0 || (sibs[0].Elem? && HeadingMatch(sibs[0].name)) then []
    else
      var t := ExtractText(sibs[0]);
      var rest := SiblingParts(sibs[1..]);
      if t != [] then [t] + rest else rest
  }

  /** The loop over a heading's following element siblings. */
  method CollectSiblingText(sibs: seq<Node>) returns (parts: seq<string>)
    requires forall k :: 0 <= k < |sibs| ==> sibs[k].Elem?
    ensures parts == SiblingParts(sibs)
  {
    parts := [];
    var j := 0;
    while j < |sibs| && !HeadingMatch(sibs[j].name)
      invariant 0 <= j <= |sibs|
      invariant parts + SiblingParts(sibs[j..]) == SiblingParts(sibs)
    {
      var t := ExtractText(sibs[j]);
      SiblingPartsStep(sibs, j, parts, t);
      if t != [] {
        parts := parts + [t];
      }
      j := j + 1;
    }
    assert SiblingParts(sibs[j..]) == [];
  }

  lemma SiblingPartsStep(sibs: seq<Node>, j: int, parts: seq<string>, t: string)
    requires 0 <= j < |sibs| && sibs[j].Elem? && !HeadingMatch(sibs[j].name) && t == ExtractText(sibs[j])
    ensures parts + SiblingParts(sibs[j..]) == (if t != [] then parts + [t] else parts) + SiblingParts(sibs[j + 1..])
  {
    assert sibs[j..][1..] == sibs[j + 1..];
    if t != [] {
      assert parts + ([t] + SiblingParts(sibs[j + 1..])) == parts + [t] + SiblingParts(sibs[j + 1..]);
    }
  }

  function HeadingContent(site: Site): string {
    Strip(Join("\n", SiblingParts(ElemsOnly(site.following))))
  }

  function HeadingSection(site: Site): Option<WikiSection> {
    var level := HeadingLevel(if site.node.Elem? then site.node.name else "");
    if level.None? then None
    else Some(WikiSection(GetTextStrip(site.node, ""), level.value, HeadingContent(site)))
  }

  /** `soup.find("main") or soup.find("article") or soup.body`. */
  function MainArea(soup: Node): Option<Node> {
    var m := Find(soup, (n: Node) => HasName(n, "main"));
    if m.Some? then m
    else
      var a := Find(soup, (n: Node) => HasName(n, "article"));
      if a.Some? then a else Find(soup, (n: Node) => HasName(n, "body"))
  }

  function HeadingSites(main: Node): seq<Site> {
    FilterSites(Sites(main), IsHeadingLike)
  }

  /** The outcome of each heading, in order. */
  function HeadingResults(hs: seq<Site>): (r: seq<Option<WikiSection>>)
    ensures |r| == |hs|
    decreases |hs|
  {
    if |hs| == 0 then [] else [HeadingSection(hs[0])] + HeadingResults(hs[1..])
  }

  lemma {:induction false} HeadingResultsAt(hs: seq<Site>, k: int)
    requires 0 <= k < |hs|
    ensures HeadingResults(hs)[k] == HeadingSection(hs[k])
    decreases |hs|
  {
    if k > 0 {
      HeadingResultsAt(hs[1..], k - 1);
    }
  }

  function HeadingSectionsSpec(soup: Node): Option<seq<WikiSection>> {
    match MainArea(soup)
    case None => Some([])
    case Some(main) => AllSections(HeadingResults(HeadingSites(main)))
  }

  /** `_parse_heading_sections`: the content area, then its headings. */
  method ParseHeadingSections(soup: Node) returns (r: Option<seq<WikiSection>>)
    ensures r == HeadingSectionsSpec(soup)
  {
    var main := MainArea(soup);
    if main.None? {
      return Some([]);
    }
    var hs := HeadingSites(main.value);
    forall k | 0 <= k < |hs|
      ensures HeadingResults(hs)[k] == HeadingSection(hs[k])
    {
      HeadingResultsAt(hs, k);
    }
    r := SectionsFromHeadings(hs, HeadingResults(hs));
  }

  /** A running section closed with its collected parts. */
  function Finish(s: WikiSection, parts: seq<string>): WikiSection {
    s.(content := Strip(Join("\n", parts)))
  }

  lemma HeadingSectionFinish(site: Site, level: int)
    requires site.node.Elem? && HeadingLevel(site.node.name) == Some(level)
    ensures HeadingSection(site)
      == Some(Finish(WikiSection(GetTextStrip(site.node, ""), level, ""), SiblingParts(ElemsOnly(site.following))))
  {
  }

  /** One heading of the loop: the new running section (`None` when
      `int()` raises on the heading's level) and its sibling text. */
  method OpenSection(site: Site, ghost outcome: Option<WikiSection>) returns (current: Option<WikiSection>, parts: seq<string>)
    requires site.node.Elem? && outcome == HeadingSection(site)
    ensures current.None? <==> outcome.None?
    ensures current.Some? ==> current.value.content == [] && outcome == Some(Finish(current.value, parts))
  {
    var level := HeadingLevel(site.node.name);
    if level.None? {
      return None, [];
    }
    current := Some(WikiSection(GetTextStrip(site.node, ""), level.value, ""));
    parts := CollectSiblingText(ElemsOnly(site.following));
    HeadingSectionFinish(site, level.value);
  }

  /** The state of the heading loop before heading `i`: the sections
      closed so far are the outcomes of the headings before the running
      one, and the running section with its parts makes heading `i - 1`'s
      outcome. */
  ghost predicate Running(os: seq<Option<WikiSection>>, i: nat, sections: seq<WikiSection>,
                          current: Option<WikiSection>, parts: seq<string>)
  {
    && i <= |os|
    && |sections| == (if i == 0 then 0 else i - 1)
    && (forall k :: 0 <= k < |sections| ==> os[k] == Some(sections[k]))
    && (i == 0 <==> current.None?)
    && (i == 0 ==> parts == [])
    && (i > 0 ==> os[i - 1] == Some(Finish(current.value, parts)))
  }

  /** One heading of the loop: the running section, if any, is closed
      with its parts and the heading opens the next one. */
  method NextHeading(hs: seq<Site>, ghost os: seq<Option<WikiSection>>, i: nat, sections: seq<WikiSection>,
                     current: Option<WikiSection>, parts: seq<string>)
    returns (sections': seq<WikiSection>, next: Option<WikiSection>, parts': seq<string>)
    requires i < |hs| == |os| && hs[i].node.Elem? && os[i] == HeadingSection(hs[i])
    requires Running(os, i, sections, current, parts)
    ensures next.None? <==> os[i].None?
    ensures next.Some? ==> Running(os, i + 1, sections', next, parts')
  {
    sections' := sections;
    if current.Some? {
      sections' := sections + [Finish(current.value, parts)];
    }
    next, parts' := OpenSection(hs[i], os[i]);
  }

  /** The loop of `_parse_heading_sections`: a running section whose
      content is set when the next heading (or the end) is reached. */
  method SectionsFromHeadings(hs: seq<Site>, ghost os: seq<Option<WikiSection>>) returns (r: Option<seq<WikiSection>>)
    requires forall k :: 0 <= k < |hs| ==> hs[k].node.Elem?
    requires |os| == |hs| && forall k {:trigger HeadingSection(hs[k])} :: 0 <= k < |hs| ==> os[k] == HeadingSection(hs[k])
    ensures r == AllSections(os)
  {
    if |hs| == 0 {
      return Some([]);
    }
    var sections: seq<WikiSection> := [];
    var current: Option<WikiSection> := None;
    var parts: seq<string> := [];
    for i := 0 to |hs|
      invariant Running(os, i, sections, current, parts)
    {
      assert os[i] == HeadingSection(hs[i]);
      var next;
      sections, next, parts := NextHeading(hs, os, i, sections, current, parts);
      if next.None? {
        AllSectionsFails(os, i);
        return None;
      }
      current := next;
    }
    sections := sections + [Finish(current.value, parts)];
    AllSectionsOf(os, sections);
    return Some(sections);
  }

  /** `_parse_sections`: the structured strategy when the page has
      section blocks, the heading strategy otherwise. */
  function ParseSections(soup: Node): Option<seq<WikiSection>> {
    var bcs := FindAll(soup, (n: Node) => HasName(n, "body-content-section"));
    if |bcs| > 0 then CodewikiSectionsSpec(bcs) else HeadingSectionsSpec(soup)
  }

  /** The method form of `_parse_sections`, over the two parsers. */
  method ParseSectionsLoop(soup: Node) returns (r: Option<seq<WikiSection>>)
    ensures r == ParseSections(soup)
  {
    var bcs := FindAll(soup, (n: Node) => HasName(n, "body-content-section"));
    if |bcs| > 0 {
      r := ParseCodewikiSections(bcs);
    } else {
      r := ParseHeadingSections(soup);
    }
  }

  /** First success wins: the heading strategy runs only when the page has
      no section block, and then yields one section per heading. */
  lemma HeadingStrategyOnlyWithoutBlocks(soup: Node)
    ensures FindAll(soup, (n: Node) => HasName(n, "body-content-section")) != [] ==>
      ParseSections(soup) == CodewikiSectionsSpec(FindAll(soup, (n: Node) => HasName(n, "body-content-section")))
    ensures FindAll(soup, (n: Node) => HasName(n, "body-content-section")) == [] && ParseSections(soup).Some? && MainArea(soup).Some? ==>
      |ParseSections(soup).value| == |HeadingSites(MainArea(soup).value)|
    ensures MainArea(soup).None? && FindAll(soup, (n: Node) => HasName(n, "body-content-section")) == [] ==>
      ParseSections(soup) == Some([])
  {
  }

  // ----- table of contents -------------------------------------------------

  /** `table.of.contents` at index `i` of a lower-cased class. */
  predicate TableOfContentsAt(l: string, i: int) {
    0 <= i && i + 17 <= |l| && SliceAt(l, i, "table") && l[i + 5] != '\n'
      && SliceAt(l, i + 6, "of") && l[i + 8] != '\n' && SliceAt(l, i + 9, "contents")
  }

  /** `re.compile(r"toc|table.of.contents|sidebar|nav", re.I)` searched
      in a class. */
  predicate TocClass(c: string) {
    var l := Lower(c);
    Contains(l, "toc") || Contains(l, "sidebar") || Contains(l, "nav")
      || exists i :: 0 <= i < |l| && TableOfContentsAt(l, i)
  }

  predicate IsTocContainer(n: Node) {
    n.Elem? && (n.name == "nav" || n.name == "div") && ClassMatches(n.classes, TocClass)
  }

  /** The links of one container whose text has more than one character. */
  function LinkEntries(links: seq<Node>): (r: seq<TocEntry>)
    ensures forall k :: 0 <= k < |r| ==> r[k].TocLink? && |r[k].title| > 1
    decreases |links|
  {
    if |links| == 0 then []
    else
      var t := GetTextStrip(links[0], "");
      var rest := LinkEntries(links[1..]);
      if |t| > 1 then [TocLink(t, Attr(links[0], "href", ""))] + rest else rest
  }

  function NavEntries(navs: seq<Node>): (r: seq<TocEntry>)
    ensures forall k :: 0 <= k < |r| ==> r[k].TocLink? && |r[k].title| > 1
    decreases |navs|
  {
    if |navs| == 0 then []
    else LinkEntries(FindAll(navs[0], (n: Node) => HasName(n, "a"))) + NavEntries(navs[1..])
  }

  function HeadingEntries(hs: seq<Node>): (r: seq<TocEntry>)
    requires forall k :: 0 <= k < |hs| ==> IsHeadingLike(hs[k])
    ensures forall k :: 0 <= k < |r| ==> r[k].TocHeading? && r[k].title != [] && |r[k].level| == 1
    decreases |hs|
  {
    if |hs| == 0 then []
    else
      assert IsHeadingLike(hs[0]);
      var t := GetTextStrip(hs[0], "");
      var rest := HeadingEntries(hs[1..]);
      if t != [] then [TocHeading(t, [hs[0].name[1]])] + rest else rest
  }

  /** `_extract_toc`: the navigation links, or, only when there are none,
      the page's headings. */
  function ExtractToc(soup: Node): (r: seq<TocEntry>)
    ensures NavEntries(FindAll(soup, IsTocContainer)) != [] ==> r == NavEntries(FindAll(soup, IsTocContainer))
    ensures NavEntries(FindAll(soup, IsTocContainer)) == [] ==> forall k :: 0 <= k < |r| ==> r[k].TocHeading?
  {
    var links := NavEntries(FindAll(soup, IsTocContainer));
    if links != [] then links else HeadingEntries(FindAll(soup, IsHeadingLike))
  }

  // ----- title and body text ---------------------------------------------

  /** `spark\s*Powered by Gemini\s*` matching all of `s`. */
  predicate SparkSuffix(s: string) {
    && |s| >= 5 && s[..5] == "spark"
    && var r := LStrip(s[5..]);
       |r| >= 17 && r[..17] == "Powered by Gemini" && forall i :: 17 <= i < |r| ==> IsSpace(r[i])
  }

  /** The first index from which the rest of `t` is the widget suffix, or
      `|t|` when there is none. */
  function SparkStart(t: string, from: nat): (r: nat)
    requires from <= |t|
    ensures from <= r <= |t|
    ensures r < |t| ==> SparkSuffix(t[r..])
    ensures forall p :: from <= p < r ==> !SparkSuffix(t[p..])
    decreases |t| - from
  {
    if from == |t| then |t|
    else if SparkSuffix(t[from..]) then from
    else SparkStart(t, from + 1)
  }

  /** The page title with the chat widget's "spark Powered by Gemini"
      suffix removed, then stripped. */
  function CleanTitle(t: string): (r: string)
    ensures Trimmed(r)
    ensures (forall p :: 0 <= p < |t| ==> !SparkSuffix(t[p..])) ==> r == Strip(t)
  {
    var p := SparkStart(t, 0);
    assert p == |t| ==> t[..p] == t;
    Strip(t[..p])
  }

  /** The repository part of a URL: every "https://" and then every
      "http://" deleted. */
  function CleanRepo(repoUrl: string): string {
    Replace(Replace(repoUrl, "https://", ""), "http://", "")
  }

  /** The CodeWiki page address the fetcher loads. */
  function PageUrl(baseUrl: string, repoUrl: string): string {
    baseUrl + "/" + CleanRepo(repoUrl)
  }

  /** The body text, lines joined by newlines, with the widget strings
      deleted. */
  function RawText(soup: Node): (r: string)
    ensures Find(soup, (n: Node) => HasName(n, "body")).None? ==> r == []
  {
    var body := Find(soup, (n: Node) => HasName(n, "body"));
    var text := if body.Some? then GetTextStrip(body.value, "\n") else "";
    RemoveAll(text, Config.UI_ARTIFACTS)
  }

  function PageTitle(soup: Node, cleanRepo: string): string {
    var h1 := Find(soup, (n: Node) => HasName(n, "h1"));
    var tag := if h1.Some? then h1 else Find(soup, (n: Node) => HasName(n, "h2"));
    CleanTitle(if tag.Some? then GetTextStrip(tag.value, "") else cleanRepo)
  }

  /** `fetch_wiki_page` after the HTML is in hand: `None` when a section
      parser raises. */
  method FetchWikiPage(baseUrl: string, repoUrl: string, soup: Node, decode: Decoder) returns (r: Option<WikiPage>)
    ensures r.None? <==> ParseSections(soup).None?
    ensures r.Some? ==> r.value == WikiPage(
      CleanRepo(repoUrl), PageUrl(baseUrl, repoUrl), PageTitle(soup, CleanRepo(repoUrl)),
      ParseSections(soup).value, ExtractToc(soup),
      DiagramsOf(Kept(InlineSites(soup)), decode) + OtherDiagrams(soup), RawText(soup))
  {
    var clean := CleanRepo(repoUrl);
    var target := baseUrl + "/" + clean;
    var title := PageTitle(soup, clean);
    var sections := ParseSectionsLoop(soup);
    if sections.None? {
      return None;
    }
    var toc := ExtractToc(soup);
    var diagrams := ExtractDiagrams(soup, decode);
    r := Some(WikiPage(clean, target, title, sections.value, toc, diagrams, RawText(soup)));
  }

  // ----- lookup ----------------------------------------------------------

  /** `get_section_by_title`: the first section whose lower-cased title
      contains the lower-cased, trimmed needle. */
  function GetSectionByTitle(sections: seq<WikiSection>, needle: string): (r: Option<WikiSection>)
    ensures r.Some? ==> Contains(Lower(r.value.title), Strip(Lower(needle)))
    decreases |sections|
  {
    if |sections| == 0 then None
    else if Contains(Lower(sections[0].title), Strip(Lower(needle))) then Some(sections[0])
    else GetSectionByTitle(sections[1..], needle)
  }

  /** The section found is the first one whose title matches; none is
      found exactly when no title matches. */
  lemma {:induction false} SectionByTitleFirst(sections: seq<WikiSection>, needle: string)
    ensures var r := GetSectionByTitle(sections, needle);
      var m := Strip(Lower(needle));
      && (r.None? <==> forall k :: 0 <= k < |sections| ==> !Contains(Lower(sections[k].title), m))
      && (r.Some? ==>
            exists k :: 0 <= k < |sections| && sections[k] == r.value &&
              forall j :: 0 <= j < k ==> !Contains(Lower(sections[j].title), m))
    decreases |sections|
  {
    if |sections| > 0 && !Contains(Lower(sections[0].title), Strip(Lower(needle))) {
      var tail := sections[1..];
      SectionByTitleFirst(tail, needle);
      assert forall k :: 1 <= k < |sections| ==> tail[k - 1] == sections[k];
      var r := GetSectionByTitle(tail, needle);
      if r.Some? {
        var k :| 0 <= k < |tail| && tail[k] == r.value &&
          forall j :: 0 <= j < k ==> !Contains(Lower(tail[j].title), Strip(Lower(needle)));
        assert sections[k + 1] == r.value;
      }
    }
  }

  // ----- page_to_markdown --------------------------------------------------

  const TRUNCATION_MARKER := "\n\n... [truncated]"

  /** `"#" * min(level + 1, 6)`. */
  function Hashes(level: int): (r: string)
    ensures |r| == if level + 1 <= 0 then 0 else Min(level + 1, 6)
    ensures forall i :: 0 <= i < |r| ==> r[i] == '#'
  {
    Repeat('#', Min(level + 1, 6))
  }

  function SectionHeading(s: WikiSection): string {
    "\n" + Hashes(s.level) + " " + s.title + "\n"
  }

  /** `e.get(key, "?")`. */
  function OrMissing(o: Option<string>): string {
    if o.Some? then o.value else "?"
  }

  function EdgeLine(e: GraphEdge): string {
    var rel := OrMissing(e.from) + " -> " + OrMissing(e.to);
    "    - " + (if e.caption.Some? && e.caption.value != [] then rel + " [" + e.caption.value + "]" else rel)
  }

  function EdgeLines(es: seq<GraphEdge>): (r: seq<string>)
    ensures |r| == |es|
  {
    seq(|es|, k requires 0 <= k < |es| => EdgeLine(es[k]))
  }

  function Captions(ns: seq<GraphNode>): (r: seq<string>)
    ensures |r| == |ns|
  {
    seq(|ns|, k requires 0 <= k < |ns| => ns[k].caption)
  }

  /** The `"content"` key of a diagram, "" when it has none. */
  function ContentOf(d: Diagram): string {
    match d
    case SvgDiagram(_, g) => if g.Some? then g.value.content else ""
    case Mermaid(c) => c
    case Svg(_) => ""
    case Image(_, _) => ""
  }

  function DiagramLabel(i: nat, d: Diagram): (r: string)
    ensures r != []
  {
    var section := if d.SvgDiagram? && d.section.Some? then d.section.value else "";
    var title := if d.Svg? then d.title else "";
    if section != [] then section else if title != [] then title else "Diagram " + IntToString(i)
  }

  /** The summary lines of diagram number `i`. */
  function DiagramEntry(i: nat, d: Diagram): (r: seq<string>)
    ensures |r| >= 2 && r[0] == "**" + IntToString(i) + ". " + DiagramLabel(i, d) + "**" && r[|r| - 1] == ""
  {
    var head := ["**" + IntToString(i) + ". " + DiagramLabel(i, d) + "**"];
    var nodes := if d.SvgDiagram? && d.graph.Some? && d.graph.value.Structured? then d.graph.value.nodes else [];
    var edges := if d.SvgDiagram? && d.graph.Some? && d.graph.value.Structured? then d.graph.value.edges else [];
    var body :=
      if |nodes| > 0 || |edges| > 0 then
        (if |nodes| > 0 then ["  Entities: " + Join(", ", Captions(nodes))] else [])
          + (if |edges| > 0 then ["  Relationships:"] + EdgeLines(edges) else [])
      else
        var c := ContentOf(d);
        if c != [] then ["  Labels: " + PyPrefix(c, 200) + (if |c| > 200 then "..." else "")] else [];
    head + body + [""]
  }

  function DiagramHeader(n: nat): string {
    "\n**Diagrams (" + IntToString(n) + "):**\n"
  }

  function DiagramLinesFrom(ds: seq<Diagram>, from: nat): seq<string>
    requires from <= |ds|
    decreases |ds| - from
  {
    if from == |ds| then [] else DiagramEntry(from, ds[from]) + DiagramLinesFrom(ds, from + 1)
  }

  function DiagramBlock(ds: seq<Diagram>): string {
    Join("\n", [DiagramHeader(|ds|)] + DiagramLinesFrom(ds, 0))
  }

  function SectionParts(ss: seq<WikiSection>): seq<string>
    decreases |ss|
  {
    if |ss| == 0 then []
    else [SectionHeading(ss[0])] + (if ss[0].content != [] then [ss[0].content] else []) + SectionParts(ss[1..])
  }

  function MarkdownParts(page: WikiPage): seq<string> {
    ["# " + page.title + "\n"]
      + (if |page.diagrams| > 0 then [DiagramBlock(page.diagrams)] else [])
      + SectionParts(page.sections)
  }

  /** The rendered page before truncation. */
  function MarkdownText(page: WikiPage): string {
    Strip(Join("\n", MarkdownParts(page)))
  }

  /** `page_to_markdown`: a non-zero `maxChars` shorter than the text
      keeps `text[:maxChars]` and appends the truncation marker. */
  function PageMarkdown(page: WikiPage, maxChars: int): (r: string)
    ensures maxChars == 0 || |MarkdownText(page)| <= maxChars ==> r == MarkdownText(page)
    ensures maxChars > 0 && |MarkdownText(page)| > maxChars ==>
      |r| == maxChars + |TRUNCATION_MARKER| && r == MarkdownText(page)[..maxChars] + TRUNCATION_MARKER
  {
    var text := MarkdownText(page);
    if maxChars != 0 && |text| > maxChars then PyPrefix(text, maxChars) + TRUNCATION_MARKER else text
  }

  /** The loop over the diagrams: a header line, then each entry. */
  method RenderDiagrams(ds: seq<Diagram>) returns (block: string)
    ensures block == DiagramBlock(ds)
  {
    var lines := [DiagramHeader(|ds|)];
    var i := 0;
    while i < |ds|
      invariant 0 <= i <= |ds|
      invariant lines + DiagramLinesFrom(ds, i) == [DiagramHeader(|ds|)] + DiagramLinesFrom(ds, 0)
    {
      var entry := DiagramEntry(i, ds[i]);
      assert lines + DiagramLinesFrom(ds, i) == lines + entry + DiagramLinesFrom(ds, i + 1);
      lines := lines + entry;
      i := i + 1;
    }
    assert lines == lines + DiagramLinesFrom(ds, i);
    block := Join("\n", lines);
  }

  /** The loop over the sections: a heading line each, then the content
      when there is any. */
  method RenderSections(start: seq<string>, ss: seq<WikiSection>) returns (parts: seq<string>)
    ensures parts == start + SectionParts(ss)
  {
    parts := start;
    var j := 0;
    while j < |ss|
      invariant 0 <= j <= |ss|
      invariant parts + SectionParts(ss[j..]) == start + SectionParts(ss)
    {
      assert ss[j..][1..] == ss[j + 1..];
      var s := ss[j];
      var more := [SectionHeading(s)] + (if s.content != [] then [s.content] else []);
      assert SectionParts(ss[j..]) == more + SectionParts(ss[j + 1..]);
      assert parts + SectionParts(ss[j..]) == parts + more + SectionParts(ss[j + 1..]);
      ghost var before := parts;
      parts := parts + [SectionHeading(s)];
      if s.content != [] {
        parts := parts + [s.content];
      }
      assert parts == before + more;
      j := j + 1;
    }
    assert ss[j..] == [];
  }

  /** `page_to_markdown`. */
  method PageToMarkdown(page: WikiPage, maxChars: int) returns (r: string)
    ensures r == PageMarkdown(page, maxChars)
  {
    var parts := ["# " + page.title + "\n"];
    if |page.diagrams| > 0 {
      var block := RenderDiagrams(page.diagrams);
      parts := parts + [block];
    }
    parts := RenderSections(parts, page.sections);
    var text := Strip(Join("\n", parts));
    if maxChars != 0 && |text| > maxChars {
      text := PyPrefix(text, maxChars) + TRUNCATION_MARKER;
    }
    r := text;
  }

  /** The rendering starts with the "# " title line (up to trailing
      whitespace of the title). */
  lemma MarkdownStartsWithTitle(page: WikiPage)
    ensures RStrip("# " + page.title) <= MarkdownText(page)
  {
    var parts := MarkdownParts(page);
    var head := "# " + page.title;
    var p := RStrip(head);
    RStripPrefix(head);
    JoinStartsWithFirst("\n", parts);
    assert head <= parts[0];
    assert p <= head;
    assert p[0] == '#' by {
      assert head[0] == '#';
      assert |p| > 0 by { assert !IsSpace(head[0]); }
    }
    PrefixSurvivesStrip(p, Join("\n", parts));
  }

  /** The diagram summary opens with its count line. */
  lemma DiagramBlockStart(ds: seq<Diagram>)
    ensures "\n**Diagrams (" + IntToString(|ds|) + "):**" <= DiagramBlock(ds)
  {
    var lines := [DiagramHeader(|ds|)] + DiagramLinesFrom(ds, 0);
    JoinStartsWithFirst("\n", lines);
    var q := "\n**Diagrams (" + IntToString(|ds|) + "):**";
    assert DiagramHeader(|ds|) == q + "\n";
  }

  lemma PrefixExtend(x: string, a: string, b: string)
    requires a <= b
    ensures x + a <= x + b
  {
    assert (x + b)[..|x + a|] == x + a;
  }

  /** The title line, the joining newline and the count line, regrouped. */
  lemma HeaderRegroup(t: string, n: string)
    ensures (t + "\n") + "\n" + ("\n**Diagrams (" + n + "):**") == t + "\n\n\n**Diagrams (" + n + "):**"
  {
    var d := "\n**Diagrams (";
    assert "\n" + "\n" + d == "\n\n\n**Diagrams (";
    assert (t + "\n") + "\n" + (d + n + "):**") == t + ("\n" + "\n" + d) + n + "):**";
  }

  /** When the page has diagrams, their summary header comes right after
      the title line, ahead of every section. */
  lemma DiagramSummaryFirst(page: WikiPage)
    requires |page.diagrams| > 0
    ensures "# " + page.title + "\n\n\n**Diagrams (" + IntToString(|page.diagrams|) + "):**" <= MarkdownText(page)
  {
    var parts := MarkdownParts(page);
    var q := "\n**Diagrams (" + IntToString(|page.diagrams|) + "):**";
    var rest := parts[1..];
    assert rest[0] == DiagramBlock(page.diagrams);
    DiagramBlockStart(page.diagrams);
    JoinStartsWithFirst("\n", rest);
    assert q <= Join("\n", rest);
    assert Join("\n", parts) == parts[0] + "\n" + Join("\n", rest);
    PrefixExtend(parts[0] + "\n", q, Join("\n", rest));
    var p := "# " + page.title + "\n\n\n**Diagrams (" + IntToString(|page.diagrams|) + "):**";
    HeaderRegroup("# " + page.title, IntToString(|page.diagrams|));
    assert p[0] == '#' && p[|p| - 1] == '*';
    PrefixSurvivesStrip(p, Join("\n", parts));
  }
}
