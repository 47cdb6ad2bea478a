/** Diagram extraction from a rendered wiki page (`_extract_diagrams` and
    the part of `_extract_svg_graph` after decoding, codewiki_mcp/parser.py).

    Base64 and XML decoding of an embedded SVG are foreign code: the decoder
    is a parameter that yields the Graphviz groups and texts, or `None` when
    decoding raises. */
module Diagrams {
  import opened Wrappers
  import opened Text
  import opened Html

  const INLINE_TAG := "code-documentation-diagram-inline"
  const SECTION_TAG := "body-content-section"
  const SVG_DATA_PREFIX := "data:image/svg+xml;base64,"

  datatype GraphNode = GraphNode(id: string, caption: string)

  /** An edge; a key the source leaves out of the dict is `None`. */
  datatype GraphEdge = GraphEdge(from: Option<string>, to: Option<string>, caption: Option<string>)

  datatype Graph =
    | Structured(nodes: seq<GraphNode>, edges: seq<GraphEdge>, content: string)
    | Flat(content: string)

  datatype Diagram =
    | SvgDiagram(section: Option<string>, graph: Option<Graph>)
    | Mermaid(content: string)
    | Svg(title: string)
    | Image(alt: string, src: string)

  /** A decoded Graphviz `<g>` group: the stripped text of its `<title>`
      ("" when it has none) and the stripped text of each `<text>`. */
  datatype SvgGroup = SvgGroup(title: string, texts: seq<string>)

  /** A decoded SVG: its node groups, its edge groups, and the stripped text
      of every `<text>` element in it. */
  datatype SvgDoc = SvgDoc(nodeGroups: seq<SvgGroup>, edgeGroups: seq<SvgGroup>, texts: seq<string>)

  type Decoder = string -> Option<SvgDoc>

  // ----- graph decoding --------------------------------------------------

  function NonEmpty(ss: seq<string>): (r: seq<string>)
    ensures forall k :: 0 <= k < |r| ==> r[k] != [] && r[k] in ss
    ensures r == [] <==> forall k :: 0 <= k < |ss| ==> ss[k] == []
    decreases |ss|
  {
    if |ss| == 0 then []
    else if ss[0] == [] then NonEmpty(ss[1..])
    else [ss[0]] + NonEmpty(ss[1..])
  }

  /** The texts of a group joined by spaces: empty exactly when the group
      has no non-empty text. */
  function GroupLabel(g: SvgGroup): (r: string)
    ensures r == [] <==> NonEmpty(g.texts) == []
  {
    var ts := NonEmpty(g.texts);
    if |ts| == 0 then []
    else
      JoinStartsWithFirst(" ", ts);
      Join(" ", ts)
  }

  function NonEmptyOpt(s: string): (r: Option<string>)
    ensures r.Some? <==> s != []
    ensures r.Some? ==> r.value == s
  {
    if s == [] then None else Some(s)
  }

  /** A node group becomes a node when its id or its caption is non-empty. */
  function NodeOf(g: SvgGroup): (r: Option<GraphNode>)
    ensures r.Some? <==> g.title != [] || NonEmpty(g.texts) != []
    ensures r.Some? ==> r.value.id == g.title && r.value.caption == GroupLabel(g)
  {
    var caption := GroupLabel(g);
    if g.title != [] || caption != [] then Some(GraphNode(g.title, caption)) else None
  }

  /** An edge group: its title "A->B" split at the first arrow, both ends
      trimmed, empty parts left out, and the edge dropped when nothing is
      left. */
  function EdgeOf(g: SvgGroup): (r: Option<GraphEdge>)
    ensures r.Some? ==> r.value.from.Some? || r.value.to.Some? || r.value.caption.Some?
    ensures r.None? ==> NonEmpty(g.texts) == []
    ensures !Contains(g.title, "->") && r.Some? ==> r.value.from.None? && r.value.to.None?
  {
    var caption := GroupLabel(g);
    var i := FindSub(g.title, "->");
    var src := if i >= 0 then Strip(g.title[..i]) else "";
    var dst := if i >= 0 then Strip(g.title[i + 2..]) else "";
    var e := GraphEdge(NonEmptyOpt(src), NonEmptyOpt(dst), NonEmptyOpt(caption));
    if e.from.None? && e.to.None? && e.caption.None? then None else Some(e)
  }

  function NodesOf(gs: seq<SvgGroup>): (r: seq<GraphNode>)
    ensures |r| <= |gs|
    ensures forall k :: 0 <= k < |r| ==> r[k].id != [] || r[k].caption != []
    decreases |gs|
  {
    if |gs| == 0 then []
    else match NodeOf(gs[0])
      case Some(n) => [n] + NodesOf(gs[1..])
      case None => NodesOf(gs[1..])
  }

  function EdgesOf(gs: seq<SvgGroup>): (r: seq<GraphEdge>)
    ensures |r| <= |gs|
    ensures forall k :: 0 <= k < |r| ==> r[k].from.Some? || r[k].to.Some? || r[k].caption.Some?
    decreases |gs|
  {
    if |gs| == 0 then []
    else
      var e := EdgeOf(gs[0]);
      if e.Some? then [e.value] + EdgesOf(gs[1..]) else EdgesOf(gs[1..])
  }

  function NodeLabels(ns: seq<GraphNode>): (r: seq<string>)
    ensures forall k :: 0 <= k < |r| ==> r[k] != []
    decreases |ns|
  {
    if |ns| == 0 then []
    else if ns[0].caption != [] then [ns[0].caption] + NodeLabels(ns[1..])
    else NodeLabels(ns[1..])
  }

  /** The graph behind an embedded SVG href: none for anything that is not
      a base64 SVG data URI or does not decode; the Graphviz nodes and edges
      when the SVG has groups; otherwise its non-empty texts, if any. */
  function ExtractSvgGraph(href: string, decode: Decoder): (r: Option<Graph>)
    ensures !(SVG_DATA_PREFIX <= href) ==> r.None?
    ensures r.Some? && r.value.Flat? ==> r.value.content != []
  {
    if !(SVG_DATA_PREFIX <= href) then None
    else match decode(href[|SVG_DATA_PREFIX|..])
      case None => None
      case Some(doc) =>
        if |doc.nodeGroups| > 0 || |doc.edgeGroups| > 0 then
          var nodes := NodesOf(doc.nodeGroups);
          Some(Structured(nodes, EdgesOf(doc.edgeGroups), Join(", ", NodeLabels(nodes))))
        else
          var texts := NonEmpty(doc.texts);
          if |texts| > 0 then
            JoinStartsWithFirst(", ", texts);
            Some(Flat(Join(", ", texts)))
          else None
  }

  /** Every node group with an id or a caption is kept as a node. */
  lemma {:induction false} NodesOfKeepsEvery(gs: seq<SvgGroup>, k: int)
    requires 0 <= k < |gs| && NodeOf(gs[k]).Some?
    ensures NodeOf(gs[k]).value in NodesOf(gs)
    decreases |gs|
  {
    if k > 0 {
      NodesOfKeepsEvery(gs[1..], k - 1);
    }
  }

  /** Splitting an edge title: for a title `before + "->" + after` whose
      `before` has no arrow, the edge runs from the trimmed `before` to the
      trimmed `after`, each left out when empty. */
  lemma EdgeEndpoints(g: SvgGroup, before: string, after: string)
    requires g.title == before + "->" + after && !Contains(before, "->")
    ensures EdgeOf(g).Some? ==> EdgeOf(g).value.from == NonEmptyOpt(Strip(before))
    ensures EdgeOf(g).Some? ==> EdgeOf(g).value.to == NonEmptyOpt(Strip(after))
    ensures Strip(before) != [] || Strip(after) != [] ==> EdgeOf(g).Some?
  {
    var t := g.title;
    var n := |before|;
    assert SliceAt(t, n, "->");
    forall j | 0 <= j < n
      ensures !SliceAt(t, j, "->")
    {
      if j + 2 <= n {
        assert t[j..j + 2] == before[j..j + 2];
        assert SliceAt(t, j, "->") == SliceAt(before, j, "->");
        assert 0 <= j <= |before| - 2 && !SliceAt(before, j, "->");
      } else {
        assert t[j + 1] == '-';
        assert t[j..j + 2][1] == t[j + 1];
      }
    }
    assert FindSub(t, "->") == n;
    assert t[..n] == before;
    assert t[n + 2..] == after;
  }

  // ----- inline (SPA) diagrams and the seen-href set ----------------------

  predicate IsDiagramImage(n: Node) {
    n.Elem? && n.name == "image" && ClassMatches(n.classes, c => c == "image-diagram")
  }

  /** `image.get("href") or image.get("xlink:href") or ""` for the first
      diagram image inside the inline element, "" when there is none. */
  function ImageHref(inline: Node): string {
    match Find(inline, IsDiagramImage)
    case None => ""
    case Some(img) =>
      var h := Attr(img, "href", "");
      if h != [] then h else Attr(img, "xlink:href", "")
  }

  /** The heading text of the nearest enclosing section, when there is one
      with an h1-h6 inside it. */
  function SectionOf(site: Site): Option<string> {
    match NearestAncestor(site.ancestors, SECTION_TAG)
    case None => None
    case Some(sec) =>
      match Find(sec, (n: Node) => n.Elem? && IsHeadingName(n.name))
      case None => None
      case Some(h) => Some(GetTextStrip(h, ""))
  }

  function InlineDiagram(site: Site, decode: Decoder): (d: Diagram)
    ensures d.SvgDiagram? && d.section == SectionOf(site)
    ensures ImageHref(site.node) == [] ==> d.graph.None?
  {
    var href := ImageHref(site.node);
    SvgDiagram(SectionOf(site), if href != [] then ExtractSvgGraph(href, decode) else None)
  }

  /** The non-empty hrefs met among `ss`. */
  function SeenHrefs(ss: seq<Site>): (r: set<string>)
    ensures [] !in r
    decreases |ss|
  {
    if |ss| == 0 then {}
    else
      var h := ImageHref(ss[|ss| - 1].node);
      SeenHrefs(ss[..|ss| - 1]) + (if h != [] then {h} else {})
  }

  /** The inline sites that are recorded: every one without an href, and
      each one whose href has not been met before. */
  function Kept(ss: seq<Site>): (r: seq<Site>)
    ensures |r| <= |ss|
    decreases |ss|
  {
    if |ss| == 0 then []
    else
      var prev := ss[..|ss| - 1];
      var h := ImageHref(ss[|ss| - 1].node);
      Kept(prev) + (if h == [] || h !in SeenHrefs(prev) then [ss[|ss| - 1]] else [])
  }

  /** One inline diagram record per site, in order. */
  function DiagramsOf(ss: seq<Site>, decode: Decoder): (r: seq<Diagram>)
    ensures |r| == |ss|
    decreases |ss|
  {
    if |ss| == 0 then [] else DiagramsOf(ss[..|ss| - 1], decode) + [InlineDiagram(ss[|ss| - 1], decode)]
  }

  function InlineSites(soup: Node): seq<Site> {
    FilterSites(Sites(soup), (n: Node) => HasName(n, INLINE_TAG))
  }

  /** One more site: what `Kept` and `SeenHrefs` of a prefix become. */
  lemma KeptStep(ss: seq<Site>, i: nat)
    requires i < |ss|
    ensures var h := ImageHref(ss[i].node);
      && SeenHrefs(ss[..i + 1]) == SeenHrefs(ss[..i]) + (if h != [] then {h} else {})
      && Kept(ss[..i + 1]) == Kept(ss[..i]) + (if h == [] || h !in SeenHrefs(ss[..i]) then [ss[i]] else [])
  {
    assert ss[..i + 1][..i] == ss[..i];
  }

  lemma DiagramsOfAppend(ss: seq<Site>, s: Site, decode: Decoder)
    ensures DiagramsOf(ss + [s], decode) == DiagramsOf(ss, decode) + [InlineDiagram(s, decode)]
  {
    assert (ss + [s])[..|ss|] == ss;
  }

  lemma CollectStep(ss: seq<Site>, i: nat, decode: Decoder)
    requires i < |ss|
    ensures var h := ImageHref(ss[i].node);
      && SeenHrefs(ss[..i + 1]) == SeenHrefs(ss[..i]) + (if h != [] then {h} else {})
      && DiagramsOf(Kept(ss[..i + 1]), decode)
         == DiagramsOf(Kept(ss[..i]), decode) + (if h == [] || h !in SeenHrefs(ss[..i]) then [InlineDiagram(ss[i], decode)] else [])
  {
    KeptStep(ss, i);
    DiagramsOfAppend(Kept(ss[..i]), ss[i], decode);
    assert Kept(ss[..i]) + [] == Kept(ss[..i]);
  }

  /** One inline element: its record is kept when it has no href or an
      href not seen before, and a new href joins the seen set. */
  method VisitInline(sites: seq<Site>, i: nat, decode: Decoder, seen: set<string>, ds: seq<Diagram>)
    returns (seen': set<string>, ds': seq<Diagram>)
    requires i < |sites|
    requires seen == SeenHrefs(sites[..i]) && ds == DiagramsOf(Kept(sites[..i]), decode)
    ensures seen' == SeenHrefs(sites[..i + 1]) && ds' == DiagramsOf(Kept(sites[..i + 1]), decode)
  {
    CollectStep(sites, i, decode);
    var href := ImageHref(sites[i].node);
    var info := InlineDiagram(sites[i], decode);
    seen', ds' := seen, ds;
    if href != [] && href !in seen {
      seen' := seen + {href};
      ds' := ds + [info];
    } else if href == [] {
      ds' := ds + [info];
    }
  }

  /** Strategy 1: walks the inline diagram elements in document order,
      growing the set of hrefs already seen. */
  method CollectInlineDiagrams(sites: seq<Site>, decode: Decoder) returns (ds: seq<Diagram>)
    ensures ds == DiagramsOf(Kept(sites), decode)
  {
    ds := [];
    var seen: set<string> := {};
    for i := 0 to |sites|
      invariant seen == SeenHrefs(sites[..i])
      invariant ds == DiagramsOf(Kept(sites[..i]), decode)
    {
      seen, ds := VisitInline(sites, i, decode, seen, ds);
    }
    assert sites[..|sites|] == sites;
  }

  /** Non-empty hrefs of recorded diagrams never repeat, and each one is
      among the hrefs met. */
  lemma {:induction false} KeptHrefsDistinct(ss: seq<Site>)
    ensures var r := Kept(ss);
      forall j, k :: 0 <= j < k < |r| && ImageHref(r[j].node) != [] ==> ImageHref(r[j].node) != ImageHref(r[k].node)
    ensures forall k :: 0 <= k < |Kept(ss)| ==> ImageHref(Kept(ss)[k].node) == [] || ImageHref(Kept(ss)[k].node) in SeenHrefs(ss)
    decreases |ss|
  {
    if |ss| > 0 {
      var n := |ss| - 1;
      var prev := ss[..n];
      KeptHrefsDistinct(prev);
      assert ss[..n + 1] == ss;
      KeptStep(ss, n);
      var h := ImageHref(ss[n].node);
      var kp := Kept(prev);
      var r := Kept(ss);
      assert SeenHrefs(prev) <= SeenHrefs(ss);
      if h == [] || h !in SeenHrefs(prev) {
        assert r == kp + [ss[n]];
        forall j, k | 0 <= j < k < |r| && ImageHref(r[j].node) != []
          ensures ImageHref(r[j].node) != ImageHref(r[k].node)
        {
          if k == |kp| {
            assert r[j] == kp[j];
            assert ImageHref(kp[j].node) in SeenHrefs(prev);
          } else {
            assert r[j] == kp[j] && r[k] == kp[k];
          }
        }
      } else {
        assert r == kp;
      }
    }
  }

  function EmptyHrefCount(ss: seq<Site>): nat
    decreases |ss|
  {
    if |ss| == 0 then 0
    else EmptyHrefCount(ss[..|ss| - 1]) + (if ImageHref(ss[|ss| - 1].node) == [] then 1 else 0)
  }

  /** Exactly one diagram per distinct href, plus one for every inline
      element without an href. */
  lemma {:induction false} KeptCount(ss: seq<Site>)
    ensures |Kept(ss)| == EmptyHrefCount(ss) + |SeenHrefs(ss)|
    decreases |ss|
  {
    if |ss| > 0 {
      KeptCount(ss[..|ss| - 1]);
      KeptCountStep(ss);
    }
  }

  /** The last site adds one record exactly when it adds one to the empty
      count or a new href to the seen set. */
  lemma KeptCountStep(ss: seq<Site>)
    requires |ss| > 0
    ensures var prev := ss[..|ss| - 1];
      |Kept(ss)| - EmptyHrefCount(ss) - |SeenHrefs(ss)| == |Kept(prev)| - EmptyHrefCount(prev) - |SeenHrefs(prev)|
  {
    var n := |ss| - 1;
    var prev := ss[..n];
    assert ss[..n + 1] == ss;
    KeptStep(ss, n);
    var h := ImageHref(ss[n].node);
    var seen := SeenHrefs(prev);
    if h == [] {
      assert |SeenHrefs(ss)| == |seen| by {
        assert SeenHrefs(ss) == seen + {};
      }
      assert |Kept(ss)| == |Kept(prev)| + 1;
      assert EmptyHrefCount(ss) == EmptyHrefCount(prev) + 1;
    } else if h in seen {
      assert |SeenHrefs(ss)| == |seen| by {
        assert SeenHrefs(ss) == seen + {h} == seen;
      }
      assert |Kept(ss)| == |Kept(prev)|;
      assert EmptyHrefCount(ss) == EmptyHrefCount(prev);
    } else {
      assert |SeenHrefs(ss)| == |seen| + 1 by {
        assert SeenHrefs(ss) == seen + {h};
      }
      assert |Kept(ss)| == |Kept(prev)| + 1;
      assert EmptyHrefCount(ss) == EmptyHrefCount(prev);
    }
  }

  // ----- strategies 2 and 3 ----------------------------------------------

  /** Strategy 2a: a `<pre>` whose first `<code>` has "mermaid" in its
      class list. */
  function MermaidCodeBlocks(pres: seq<Node>): (r: seq<Diagram>)
    ensures |r| <= |pres|
    ensures forall k :: 0 <= k < |r| ==> r[k].Mermaid?
    decreases |pres|
  {
    if |pres| == 0 then []
    else
      var here :=
        match Find(pres[0], (n: Node) => HasName(n, "code"))
        case None => []
        case Some(code) =>
          if Contains(Lower(Join(" ", code.classes)), "mermaid") then [Mermaid(GetTextStrip(code, ""))] else [];
      here + MermaidCodeBlocks(pres[1..])
  }

  predicate MermaidClass(c: string) { Contains(Lower(c), "mermaid") }

  predicate IsMermaidDiv(n: Node) {
    n.Elem? && n.name == "div" && ClassMatches(n.classes, MermaidClass)
  }

  /** Strategy 2b: a div with a "mermaid" class and some text. */
  function MermaidDivs(divs: seq<Node>): (r: seq<Diagram>)
    ensures forall k :: 0 <= k < |r| ==> r[k].Mermaid? && r[k].content != []
    decreases |divs|
  {
    if |divs| == 0 then []
    else
      var t := GetTextStrip(divs[0], "");
      (if t != [] then [Mermaid(t)] else []) + MermaidDivs(divs[1..])
  }

  /** Strategy 3a: an `<svg>` outside every inline diagram, with a title. */
  function BareSvgs(svgs: seq<Site>): (r: seq<Diagram>)
    ensures forall k :: 0 <= k < |r| ==> r[k].Svg?
    decreases |svgs|
  {
    if |svgs| == 0 then []
    else
      var here :=
        if NearestAncestor(svgs[0].ancestors, INLINE_TAG).Some? then []
        else match Find(svgs[0].node, (n: Node) => HasName(n, "title"))
          case None => []
          case Some(t) => [Svg(GetTextStrip(t, ""))];
      here + BareSvgs(svgs[1..])
  }

  /** `re.compile(r"diagram|architecture|flow|image", re.I)` searched in the
      alt text. */
  predicate DiagramAlt(alt: string) {
    var l := Lower(alt);
    Contains(l, "diagram") || Contains(l, "architecture") || Contains(l, "flow") || Contains(l, "image")
  }

  predicate IsDiagramImg(n: Node) {
    n.Elem? && n.name == "img" && "alt" in n.attrs && DiagramAlt(n.attrs["alt"])
  }

  /** Strategy 3b: images whose alt text mentions a diagram. */
  function DiagramImages(imgs: seq<Node>): (r: seq<Diagram>)
    ensures |r| == |imgs|
    ensures forall k :: 0 <= k < |r| ==> r[k] == Image(Attr(imgs[k], "alt", ""), Attr(imgs[k], "src", ""))
  {
    seq(|imgs|, k requires 0 <= k < |imgs| => Image(Attr(imgs[k], "alt", ""), Attr(imgs[k], "src", "")))
  }

  /** Everything after strategy 1, in the order the source appends it. */
  function OtherDiagrams(soup: Node): seq<Diagram> {
    MermaidCodeBlocks(FindAll(soup, (n: Node) => HasName(n, "pre")))
      + MermaidDivs(FindAll(soup, IsMermaidDiv))
      + BareSvgs(FilterSites(Sites(soup), (n: Node) => HasName(n, "svg")))
      + DiagramImages(FindAll(soup, IsDiagramImg))
  }

  /** `_extract_diagrams`: the inline diagrams (deduplicated by href), then
      the mermaid blocks, then bare SVGs and diagram images. */
  method ExtractDiagrams(soup: Node, decode: Decoder) returns (ds: seq<Diagram>)
    ensures ds == DiagramsOf(Kept(InlineSites(soup)), decode) + OtherDiagrams(soup)
    ensures |ds| >= |Kept(InlineSites(soup))|
  {
    ds := CollectInlineDiagrams(InlineSites(soup), decode);
    ds := ds + OtherDiagrams(soup);
  }
}
