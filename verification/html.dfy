/** A rendered HTML document as a tree, and the handful of BeautifulSoup
    queries the page parser makes: preorder `find_all`/`find` over
    descendants, `find_next_siblings`, `find_parent`, `get_text` with and
    without stripping, and matching of the multi-valued `class` attribute. */
module Html {
  import opened Wrappers
  import opened Text

  /** A text node, or an element with its name, its single-valued
      attributes, its class list and its children. An element with no
      `class` attribute has an empty class list. */
  datatype Node =
    | Text(text: string)
    | Elem(name: string, attrs: map<string, string>, classes: seq<string>, children: seq<Node>)

  /** The element test of `find_all(name)`. */
  predicate HasName(n: Node, name: string) {
    n.Elem? && n.name == name
  }

  /** `tag.get(key, default)`. */
  function Attr(n: Node, key: string, default: string): (r: string)
    ensures n.Elem? && key in n.attrs ==> r == n.attrs[key]
    ensures !(n.Elem? && key in n.attrs) ==> r == default
  {
    if n.Elem? && key in n.attrs then n.attrs[key] else default
  }

  // ----- text ------------------------------------------------------------

  /** The text nodes under `n`, in document order. */
  function Strings(n: Node): seq<string>
    decreases n, 1
  {
    match n
    case Text(s) => [s]
    case Elem(_, _, _, cs) => StringsOf(cs)
  }

  function StringsOf(ns: seq<Node>): seq<string>
    decreases ns, 0
  {
    if |ns| == 0 then [] else Strings(ns[0]) + StringsOf(ns[1..])
  }

  function Concat(ss: seq<string>): (r: string)
    ensures |ss| == 0 ==> r == []
    decreases |ss|
  {
    if |ss| == 0 then [] else ss[0] + Concat(ss[1..])
  }

  lemma {:induction false} ConcatAppend(a: seq<string>, b: seq<string>)
    ensures Concat(a + b) == Concat(a) + Concat(b)
    decreases |a|
  {
    if |a| > 0 {
      assert (a + b)[1..] == a[1..] + b;
      ConcatAppend(a[1..], b);
    } else {
      assert a + b == b;
    }
  }

  /** `tag.get_text()`: all text under the node, concatenated. */
  function GetText(n: Node): string {
    Concat(Strings(n))
  }

  /** Each string stripped, the empty ones dropped. */
  function StrippedNonEmpty(ss: seq<string>): (r: seq<string>)
    ensures forall k :: 0 <= k < |r| ==> r[k] != [] && Trimmed(r[k])
    ensures |r| <= |ss|
    decreases |ss|
  {
    if |ss| == 0 then []
    else if Strip(ss[0]) == [] then StrippedNonEmpty(ss[1..])
    else [Strip(ss[0])] + StrippedNonEmpty(ss[1..])
  }

  /** `tag.get_text(sep, strip=True)`. */
  function GetTextStrip(n: Node, sep: string): string {
    Join(sep, StrippedNonEmpty(Strings(n)))
  }

  /** A joined list of trimmed, non-empty pieces is trimmed, provided the
      separator does not begin or end the result. */
  lemma JoinTrimmedPieces(sep: string, ps: seq<string>)
    requires forall k :: 0 <= k < |ps| ==> ps[k] != [] && Trimmed(ps[k])
    ensures Trimmed(Join(sep, ps))
    ensures |ps| > 0 ==> Join(sep, ps) != []
    decreases |ps|
  {
    if |ps| > 1 {
      JoinTrimmedPieces(sep, ps[1..]);
      var rest := Join(sep, ps[1..]);
      var j := ps[0] + sep + rest;
      assert j[0] == ps[0][0];
      assert j[|j| - 1] == rest[|rest| - 1];
    }
  }

  /** `get_text(strip=True)` never has whitespace at either end. */
  lemma GetTextStripTrimmed(n: Node, sep: string)
    ensures Trimmed(GetTextStrip(n, sep))
  {
    JoinTrimmedPieces(sep, StrippedNonEmpty(Strings(n)));
  }

  // ----- traversal -------------------------------------------------------

  /** A descendant as BeautifulSoup reaches it: the node, the siblings that
      follow it, and its ancestors from the outermost to its parent. */
  datatype Site = Site(node: Node, following: seq<Node>, ancestors: seq<Node>)

  /** The descendants of `n` (not `n` itself) in document order. */
  function SitesUnder(n: Node, anc: seq<Node>): seq<Site>
    decreases n, 1
  {
    match n
    case Text(_) => []
    case Elem(_, _, _, cs) => SitesOf(cs, anc + [n])
  }

  function SitesOf(ns: seq<Node>, anc: seq<Node>): seq<Site>
    decreases ns, 0
  {
    if |ns| == 0 then []
    else [Site(ns[0], ns[1..], anc)] + SitesUnder(ns[0], anc) + SitesOf(ns[1..], anc)
  }

  function Sites(n: Node): seq<Site> {
    SitesUnder(n, [])
  }

  /** The sites whose node is an element satisfying `p`. */
  function FilterSites(ss: seq<Site>, p: Node -> bool): (r: seq<Site>)
    ensures |r| <= |ss|
    ensures forall k :: 0 <= k < |r| ==> r[k] in ss && r[k].node.Elem? && p(r[k].node)
    decreases |ss|
  {
    if |ss| == 0 then []
    else if ss[0].node.Elem? && p(ss[0].node) then [ss[0]] + FilterSites(ss[1..], p)
    else FilterSites(ss[1..], p)
  }

  function SiteNodes(ss: seq<Site>): (r: seq<Node>)
    ensures |r| == |ss| && forall k :: 0 <= k < |r| ==> r[k] == ss[k].node
  {
    seq(|ss|, k requires 0 <= k < |ss| => ss[k].node)
  }

  /** `n.find_all(p)`: matching descendant elements in document order. */
  function FindAll(n: Node, p: Node -> bool): (r: seq<Node>)
    ensures forall k :: 0 <= k < |r| ==> r[k].Elem? && p(r[k])
  {
    SiteNodes(FilterSites(Sites(n), p))
  }

  /** `n.find(p)`: the first match, if any. */
  function Find(n: Node, p: Node -> bool): (r: Option<Node>)
    ensures r.None? <==> FindAll(n, p) == []
    ensures r.Some? ==> r.value == FindAll(n, p)[0] && r.value.Elem? && p(r.value)
  {
    var all := FindAll(n, p);
    if |all| == 0 then None else Some(all[0])
  }

  /** `find_next_siblings()`: the following siblings that are elements. */
  function ElemsOnly(ns: seq<Node>): (r: seq<Node>)
    ensures forall k :: 0 <= k < |r| ==> r[k].Elem? && r[k] in ns
    decreases |ns|
  {
    if |ns| == 0 then []
    else if ns[0].Elem? then [ns[0]] + ElemsOnly(ns[1..])
    else ElemsOnly(ns[1..])
  }

  /** `find_all(name, recursive=False)`: matching element children. */
  function ChildrenNamed(n: Node, name: string): (r: seq<Node>)
    ensures forall k :: 0 <= k < |r| ==> r[k].Elem? && r[k].name == name
  {
    if n.Text? then [] else Named(n.children, name)
  }

  function Named(ns: seq<Node>, name: string): (r: seq<Node>)
    ensures forall k :: 0 <= k < |r| ==> r[k].Elem? && r[k].name == name
    decreases |ns|
  {
    if |ns| == 0 then []
    else if ns[0].Elem? && ns[0].name == name then [ns[0]] + Named(ns[1..], name)
    else Named(ns[1..], name)
  }

  /** `find_parent(name)`: the nearest ancestor with that name. */
  function NearestAncestor(anc: seq<Node>, name: string): (r: Option<Node>)
    ensures r.Some? ==> r.value in anc && r.value.Elem? && r.value.name == name
    ensures r.None? ==> forall k :: 0 <= k < |anc| ==> !(anc[k].Elem? && anc[k].name == name)
    decreases |anc|
  {
    if |anc| == 0 then None
    else if anc[|anc| - 1].Elem? && anc[|anc| - 1].name == name then Some(anc[|anc| - 1])
    else NearestAncestor(anc[..|anc| - 1], name)
  }

  // ----- matching --------------------------------------------------------

  /** How BeautifulSoup matches a test against the class list: a match on
      any single class, or on the classes joined by spaces. An element
      without classes never matches. */
  predicate ClassMatches(classes: seq<string>, p: string -> bool) {
    |classes| > 0 && ((exists k :: 0 <= k < |classes| && p(classes[k])) || p(Join(" ", classes)))
  }

  /** `re.compile(r"h[1-6]")` used as a name filter: `re.search`, so the
      pattern may occur anywhere in the name. */
  predicate HeadingSearch(name: string) {
    exists i :: 0 <= i < |name| - 1 && name[i] == 'h' && '1' <= name[i + 1] <= '6'
  }

  /** `re.match(r"h[1-6]", name)`: only at the start. */
  predicate HeadingMatch(name: string) {
    |name| >= 2 && name[0] == 'h' && '1' <= name[1] <= '6'
  }

  /** Exactly one of "h1" ... "h6". */
  predicate IsHeadingName(name: string) {
    |name| == 2 && HeadingMatch(name)
  }

  lemma HeadingNameMatches(name: string)
    requires IsHeadingName(name)
    ensures HeadingMatch(name) && HeadingSearch(name)
  {
    assert name[0] == 'h' && '1' <= name[1] <= '6';
  }

  lemma {:induction false} HeadingMatchSearches(name: string)
    requires HeadingMatch(name)
    ensures HeadingSearch(name)
  {
    assert 0 <= 0 < |name| - 1 && name[0] == 'h' && '1' <= name[0 + 1] <= '6';
  }
}
