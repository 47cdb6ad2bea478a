/** The three time-limited caches (codewiki_mcp/cache.py): rendered HTML by
    page URL, parsed pages by repository URL, and search answers by
    repository URL and normalised query.

    Each cache is a map from key to the stored value and the instant it
    expires; the clock is a parameter. An entry set at `now` lives while the
    clock reads less than `now + ttl`. */
module Cache {
  import opened Wrappers
  import opened Text
  import Config
  import Parser

  datatype Entry<V> = Entry(value: V, expires: int)

  /** A cache read at `now`: the value of a live entry, else `None`. */
  function Lookup<V>(m: map<string, Entry<V>>, key: string, now: int): (r: Option<V>)
    ensures r.Some? <==> key in m && now < m[key].expires
    ensures r.Some? ==> r.value == m[key].value
  {
    if key in m && now < m[key].expires then Some(m[key].value) else None
  }

  /** A read after a write returns the written value until it expires,
      whatever the key held before. */
  lemma GetAfterSet<V>(m: map<string, Entry<V>>, key: string, v: V, setAt: int, ttl: int, now: int)
    ensures Lookup(m[key := Entry(v, setAt + ttl)], key, now) == if now < setAt + ttl then Some(v) else None
  {
  }

  /** A write leaves every other key's reading as it was. */
  lemma SetKeepsOthers<V>(m: map<string, Entry<V>>, key: string, other: string, e: Entry<V>, now: int)
    requires other != key
    ensures Lookup(m[key := e], other, now) == Lookup(m, other, now)
  {
  }

  /** The search-cache key: the repository URL, "::", then the query
      trimmed and lower-cased. */
  function SearchKey(repoUrl: string, query: string): (k: string)
    ensures repoUrl + "::" <= k
    ensures |k| == |repoUrl| + 2 + |Strip(query)|
  {
    repoUrl + "::" + Lower(Strip(query))
  }

  /** Queries that differ only in letter case, or only in surrounding
      whitespace, share a search-cache entry. */
  lemma SearchKeyNormalises(repoUrl: string, query: string, pad: string)
    requires forall i :: 0 <= i < |pad| ==> IsSpace(pad[i])
    ensures SearchKey(repoUrl, Lower(query)) == SearchKey(repoUrl, query)
    ensures Strip(query) != [] ==> SearchKey(repoUrl, pad + Strip(query) + pad) == SearchKey(repoUrl, query)
  {
    StripLower(query);
    LowerIdempotent(Strip(query));
    var t := Strip(query);
    if t != [] {
      Config.StripPadded(pad, t);
    }
  }

  /** The keys of a cache that a read at `now` still finds; the length
      of a cachetools `TTLCache` counts only these. */
  function LiveKeys<V>(m: map<string, Entry<V>>, now: int): (r: set<string>)
    ensures forall k :: k in r <==> Lookup(m, k, now).Some?
  {
    set k | k in m && now < m[k].expires
  }

  /** No more entries are live than are stored. */
  lemma LiveAtMostStored<V>(m: map<string, Entry<V>>, now: int)
    ensures LiveKeys(m, now) <= m.Keys && |LiveKeys(m, now)| <= |m|
  {
    SubsetCard(LiveKeys(m, now), m.Keys);
  }

  lemma {:induction false} SubsetCard(a: set<string>, b: set<string>)
    requires a <= b
    ensures |a| <= |b|
    decreases |b|
  {
    if b != {} {
      var x :| x in b;
      SubsetCard(a - {x}, b - {x});
    }
  }

  /** A write makes its key live until the new expiry and leaves every
      other key's liveness as it was; the live count grows by one exactly
      when a key that was not live becomes live, and shrinks by one when a
      live key is overwritten with an entry already expired. */
  lemma LiveAfterSet<V>(m: map<string, Entry<V>>, key: string, v: V, expires: int, now: int)
    ensures LiveKeys(m[key := Entry(v, expires)], now)
      == if now < expires then LiveKeys(m, now) + {key} else LiveKeys(m, now) - {key}
    ensures |LiveKeys(m[key := Entry(v, expires)], now)|
      == if now < expires then |LiveKeys(m, now)| + (if key in LiveKeys(m, now) then 0 else 1)
         else |LiveKeys(m, now)| - (if key in LiveKeys(m, now) then 1 else 0)
  {
    var before := LiveKeys(m, now);
    var after := LiveKeys(m[key := Entry(v, expires)], now);
    assert after == if now < expires then before + {key} else before - {key} by {
      forall k
        ensures k in after <==> k in (if now < expires then before + {key} else before - {key})
      {
        assert Lookup(m[key := Entry(v, expires)], k, now).Some? <==> k in after;
        if k != key {
          SetKeepsOthers(m, key, k, Entry(v, expires), now);
        }
      }
    }
  }

  /** One cache's line of `cache_stats`. */
  datatype CacheStat = CacheStat(currentSize: nat, maxSize: int, ttlSeconds: int)

  datatype Stats = Stats(html: CacheStat, parsed: CacheStat, search: CacheStat)

  /** The caches. Sizes and lifetimes are fixed when the object is made;
      the size bounds are reported, not enforced (eviction is not part of
      this model). */
  class Caches {
    var pages: map<string, Entry<string>>
    var parsed: map<string, Entry<Parser.WikiPage>>
    var searches: map<string, Entry<string>>
    const ttl: int
    const searchTtl: int
    const maxSize: int
    const parsedMaxSize: int
    const searchMaxSize: int

    constructor (ttl: int, searchTtl: int, maxSize: int, parsedMaxSize: int, searchMaxSize: int)
      ensures pages == map[] && parsed == map[] && searches == map[]
      ensures this.ttl == ttl && this.searchTtl == searchTtl
      ensures this.maxSize == maxSize && this.parsedMaxSize == parsedMaxSize && this.searchMaxSize == searchMaxSize
    {
      pages := map[];
      parsed := map[];
      searches := map[];
      this.ttl := ttl;
      this.searchTtl := searchTtl;
      this.maxSize := maxSize;
      this.parsedMaxSize := parsedMaxSize;
      this.searchMaxSize := searchMaxSize;
    }

    /** `get_cached_page`. */
    method GetCachedPage(url: string, now: int) returns (r: Option<string>)
      ensures r == Lookup(pages, url, now)
    {
      r := Lookup(pages, url, now);
    }

    /** `set_cached_page`: only the HTML cache changes. */
    method SetCachedPage(url: string, html: string, now: int)
      modifies this
      ensures pages == old(pages)[url := Entry(html, now + ttl)]
      ensures parsed == old(parsed) && searches == old(searches)
    {
      pages := pages[url := Entry(html, now + ttl)];
    }

    /** `get_cached_wiki_page`. */
    method GetCachedWikiPage(repoUrl: string, now: int) returns (r: Option<Parser.WikiPage>)
      ensures r == Lookup(parsed, repoUrl, now)
    {
      r := Lookup(parsed, repoUrl, now);
    }

    /** `set_cached_wiki_page`: only the parsed-page cache changes. */
    method SetCachedWikiPage(repoUrl: string, page: Parser.WikiPage, now: int)
      modifies this
      ensures parsed == old(parsed)[repoUrl := Entry(page, now + ttl)]
      ensures pages == old(pages) && searches == old(searches)
    {
      parsed := parsed[repoUrl := Entry(page, now + ttl)];
    }

    /** `get_cached_search`. */
    method GetCachedSearch(repoUrl: string, query: string, now: int) returns (r: Option<string>)
      ensures r == Lookup(searches, SearchKey(repoUrl, query), now)
    {
      var key := repoUrl + "::" + Lower(Strip(query));
      r := Lookup(searches, key, now);
    }

    /** `set_cached_search`: only the search cache changes. */
    method SetCachedSearch(repoUrl: string, query: string, response: string, now: int)
      modifies this
      ensures searches == old(searches)[SearchKey(repoUrl, query) := Entry(response, now + searchTtl)]
      ensures pages == old(pages) && parsed == old(parsed)
    {
      var key := repoUrl + "::" + Lower(Strip(query));
      searches := searches[key := Entry(response, now + searchTtl)];
    }

    /** `invalidate`: the URL leaves the HTML cache; an absent URL is no
        change at all. */
    method Invalidate(url: string)
      modifies this
      ensures pages == old(pages) - {url}
      ensures url !in old(pages) ==> pages == old(pages)
      ensures parsed == old(parsed) && searches == old(searches)
    {
      pages := pages - {url};
    }

    /** `clear_cache`: all three caches emptied. */
    method ClearCache()
      modifies this
      ensures pages == map[] && parsed == map[] && searches == map[]
    {
      pages := map[];
      parsed := map[];
      searches := map[];
    }

    /** `cache_stats` at `now`: each cache's count of live entries (the
        entries a read would still find), size bound and lifetime. */
    method CacheStats(now: int) returns (s: Stats)
      ensures s.html == CacheStat(|LiveKeys(pages, now)|, maxSize, ttl)
      ensures s.parsed == CacheStat(|LiveKeys(parsed, now)|, parsedMaxSize, ttl)
      ensures s.search == CacheStat(|LiveKeys(searches, now)|, searchMaxSize, searchTtl)
    {
      s := Stats(
        CacheStat(|LiveKeys(pages, now)|, maxSize, ttl),
        CacheStat(|LiveKeys(parsed, now)|, parsedMaxSize, ttl),
        CacheStat(|LiveKeys(searches, now)|, searchMaxSize, searchTtl));
    }
  }

  /** Set, read back within the lifetime, invalidate, read again: the
      first read finds the HTML, the second finds nothing, and a URL that
      was never set reads as nothing. */
  method SetGetInvalidate(url: string, other: string, html: string, now: int, ttl: int)
    returns (first: Option<string>, second: Option<string>, never: Option<string>)
    requires ttl > 0 && other != url
    ensures first == Some(html) && second.None? && never.None?
  {
    var c := new Caches(ttl, ttl, 50, 50, 50);
    c.SetCachedPage(url, html, now);
    first := c.GetCachedPage(url, now);
    never := c.GetCachedPage(other, now);
    c.Invalidate(url);
    second := c.GetCachedPage(url, now);
  }

  /** Setting a key twice keeps the second value. */
  method SecondSetWins(repoUrl: string, query: string, a: string, b: string, now: int, ttl: int)
    returns (r: Option<string>)
    requires ttl > 0
    ensures r == Some(b)
  {
    var c := new Caches(ttl, ttl, 50, 50, 50);
    c.SetCachedSearch(repoUrl, query, a, now);
    c.SetCachedSearch(repoUrl, query, b, now);
    r := c.GetCachedSearch(repoUrl, query, now);
  }

  /** After `clear_cache` every cache reports no entries. */
  method ClearEmptiesAll(c: Caches, now: int) returns (s: Stats)
    modifies c
    ensures s.html.currentSize == 0 && s.parsed.currentSize == 0 && s.search.currentSize == 0
  {
    c.ClearCache();
    s := c.CacheStats(now);
  }

  /** A page stored at time 0 in a cache whose entries live 300 seconds is
      counted at time 100 and no longer counted at time 400. */
  method ExpiredNotCounted(url: string, html: string) returns (early: Stats, late: Stats)
    ensures early.html.currentSize == 1 && late.html.currentSize == 0
    ensures early.parsed.currentSize == 0 && late.parsed.currentSize == 0
  {
    var c := new Caches(300, 300, 50, 50, 50);
    c.SetCachedPage(url, html, 0);
    LiveAfterSet(map[], url, html, 300, 100);
    LiveAfterSet(map[], url, html, 300, 400);
    early := c.CacheStats(100);
    late := c.CacheStats(400);
  }
}
