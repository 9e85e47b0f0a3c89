/**
 * The server half of the on-sale "load more" pagination: the REST endpoint
 * GET hw/v1/onsale?page=&limit= with its keyed transient cache and its
 * conditional (ETag / If-None-Match) response, and the formatter that turns
 * product ids into the summaries the client renders.
 *
 * The catalog (the precomputed id transient, the two SQL queries on the
 * product lookup table, wc_get_product and the attachment lookup) is a
 * `Catalog` value; md5(wp_json_encode(...)) is a function parameter.
 */
module OnsaleRest {
  import opened PhpRuntime

  const DefaultPage := 1
  const DefaultLimit := 12
  const MaxLimit := 48
  const CacheControl := "public, max-age=180, stale-while-revalidate=60"

  // ---------------------------------------------------------------------------
  // Data

  datatype Image = Image(src: string, width: int, height: int)

  /** What wc_get_product exposes to the formatter. The rating markup is taken as given. */
  datatype Product = Product(
    id: nat, name: string, permalink: string, priceHtml: string,
    regularPrice: string, salePrice: string, imageId: nat,
    onSale: bool, featured: bool, inStock: bool, ratingHtml: string)

  /** One entry of `products` in the JSON body. */
  datatype Summary = Summary(
    id: nat, name: string, permalink: string, priceHtml: string,
    regular: string, sale: string, image: Option<Image>, badges: seq<string>,
    inStock: bool, rating: string)

  /** The JSON body, and the value kept in the transient store. */
  datatype PageResult = PageResult(page: int, limit: int, total: nat, totalPages: nat, products: seq<Summary>)

  /**
   * The data the endpoint reads:
   * precomputed      the 'ids' entry of the 'hw_onsale_ids' transient, when that transient is an array holding one;
   * eligible         SELECT product_id ... WHERE on_sale = 1 AND stock_status = 'instock' (no order);
   * eligibleByPrice  the same rows ORDER BY min_price ASC, which LIMIT/OFFSET slice;
   * product          wc_get_product; attachment  wp_get_attachment_image_src(id, 'medium_large').
   */
  datatype Catalog = Catalog(
    precomputed: Option<seq<int>>,
    eligible: seq<int>,
    eligibleByPrice: seq<int>,
    product: nat -> Option<Product>,
    attachment: nat -> Option<Image>)

  datatype Response = Response(status: int, body: Option<PageResult>, etag: Option<string>, cacheControl: string)

  // ---------------------------------------------------------------------------
  // Request arguments

  /** absint(): the absolute value. */
  function Absint(x: int): nat {
    if x < 0 then -x else x
  }

  /** The `page` argument: default 1, sanitised with absint, then max(1, page). */
  function NormalizePage(raw: Option<int>): (page: int)
    ensures page >= 1
    ensures raw.Some? && raw.value >= 1 ==> page == raw.value
    ensures raw.Some? && raw.value <= -1 ==> page == -raw.value
    ensures raw.None? || raw.value == 0 ==> page == 1
  {
    var v := Absint(raw.GetOr(DefaultPage));
    if v < 1 then 1 else v
  }

  /** The `limit` argument: default 12, sanitised with absint, then clamped to [1, 48]. */
  function NormalizeLimit(raw: Option<int>): (limit: int)
    ensures 1 <= limit <= MaxLimit
    ensures raw.None? ==> limit == DefaultLimit
    ensures raw.Some? && 1 <= Absint(raw.value) <= MaxLimit ==> limit == Absint(raw.value)
    ensures raw.Some? && Absint(raw.value) > MaxLimit ==> limit == MaxLimit
    ensures raw.Some? && raw.value == 0 ==> limit == 1
  {
    var v := Absint(raw.GetOr(DefaultLimit));
    if v < 1 then 1 else if v > MaxLimit then MaxLimit else v
  }

  // ---------------------------------------------------------------------------
  // Ids

  function AbsintAll(s: seq<int>): seq<nat> {
    seq(|s|, k requires 0 <= k < |s| => Absint(s[k]))
  }

  /** hw_onsale_get_ids: the precomputed list when it is non-empty, else the unordered query. */
  function OnsaleIds(c: Catalog): (ids: seq<nat>)
    ensures c.precomputed.Some? && c.precomputed.value != [] ==> |ids| == |c.precomputed.value|
    ensures c.precomputed.None? || c.precomputed.value == [] ==> |ids| == |c.eligible|
  {
    if c.precomputed.Some? && c.precomputed.value != [] then AbsintAll(c.precomputed.value)
    else AbsintAll(c.eligible)
  }

  /** array_slice($s, $offset, $len) for a non-negative offset and length. */
  function ArraySlice<T>(s: seq<T>, offset: nat, len: nat): (r: seq<T>)
    ensures |r| <= len
    ensures offset + len <= |s| ==> r == s[offset..offset + len]
    ensures offset >= |s| ==> r == []
  {
    var lo := if offset < |s| then offset else |s|;
    var hi := if offset + len < |s| then offset + len else |s|;
    s[lo..hi]
  }

  function Offset(page: int, limit: int): nat
    requires page >= 1 && limit >= 1
  {
    (page - 1) * limit
  }

  /**
   * The ids of one page: the slice of the id list at (page-1)*limit; when that
   * slice is empty, the price-ordered query with LIMIT/OFFSET; then zeros are
   * dropped (array_filter) and the rest passed through absint.
   */
  function PageIds(page: int, limit: int, all: seq<nat>, c: Catalog): (ids: seq<nat>)
    requires page >= 1 && limit >= 1
    ensures |ids| <= limit
    ensures forall k :: 0 <= k < |ids| ==> ids[k] > 0
  {
    var slice := ArraySlice(all, Offset(page, limit), limit);
    var rows: seq<int> := if slice == [] then ArraySlice(c.eligibleByPrice, Offset(page, limit), limit) else slice;
    AbsintAll(Filter(rows, NonZero))
  }

  /** array_filter's test on an id: zero is dropped. */
  predicate NonZero(x: int) {
    x != 0
  }

  // ---------------------------------------------------------------------------
  // array_unique: keep the first occurrence of each id

  function Dedupe(s: seq<nat>): (r: seq<nat>)
    ensures |r| <= |s|
    ensures NoDuplicates(r)
    ensures forall k :: 0 <= k < |r| ==> r[k] in s
  {
    if s == [] then []
    else
      var init := Dedupe(s[..|s| - 1]);
      if s[|s| - 1] in s[..|s| - 1] then init else init + [s[|s| - 1]]
  }

  /** array_unique loses no id and invents none. */
  lemma {:induction false} DedupeMembers(s: seq<nat>, x: nat)
    ensures x in Dedupe(s) <==> x in s
  {
    if s != [] {
      var n := |s| - 1;
      DedupeMembers(s[..n], x);
      assert s == s[..n] + [s[n]];
    }
  }

  /** The position of the first occurrence of x in s. */
  function FirstIndex(s: seq<nat>, x: nat): (i: nat)
    requires x in s
    ensures i < |s| && s[i] == x && x !in s[..i]
  {
    if s[0] == x then 0 else 1 + FirstIndex(s[1..], x)
  }

  /** An id that occurs before position n has the same first occurrence in s and in s[..n]. */
  lemma FirstIndexPrefix(s: seq<nat>, n: nat, x: nat)
    requires n <= |s| && x in s[..n]
    ensures FirstIndex(s, x) == FirstIndex(s[..n], x)
  {
  }

  /** array_unique keeps first occurrences, in the order in which they first occur. */
  lemma {:induction false} DedupeKeepsFirstOccurrenceOrder(s: seq<nat>)
    ensures forall i, j :: 0 <= i < j < |Dedupe(s)| ==> FirstIndex(s, Dedupe(s)[i]) < FirstIndex(s, Dedupe(s)[j])
  {
    if s != [] {
      var n := |s| - 1;
      var init := s[..n];
      DedupeKeepsFirstOccurrenceOrder(init);
      var r := Dedupe(s);
      var ri := Dedupe(init);
      forall k | 0 <= k < |ri|
        ensures FirstIndex(s, ri[k]) == FirstIndex(init, ri[k]) < n
      {
        FirstIndexPrefix(s, n, ri[k]);
      }
      if s[n] !in init {
        assert FirstIndex(s, s[n]) == n;
      }
    }
  }

  /** A list without repetitions is left as it is. */
  lemma {:induction false} DedupeDistinct(s: seq<nat>)
    requires NoDuplicates(s)
    ensures Dedupe(s) == s
  {
    if s != [] {
      var n := |s| - 1;
      DedupeDistinct(s[..n]);
      assert s[n] !in s[..n];
      assert s[..n] + [s[n]] == s;
    }
  }

  // ---------------------------------------------------------------------------
  // hw_format_products_for_rest

  /** The badges: "Sale" when on sale, then "Featured" when featured. */
  function Badges(p: Product): (b: seq<string>)
    ensures b == [] || b == ["Sale"] || b == ["Featured"] || b == ["Sale", "Featured"]
    ensures "Sale" in b <==> p.onSale
    ensures "Featured" in b <==> p.featured
  {
    (if p.onSale then ["Sale"] else []) + (if p.featured then ["Featured"] else [])
  }

  function Summarize(p: Product, c: Catalog): Summary {
    Summary(
      p.id, p.name, p.permalink, p.priceHtml, p.regularPrice, p.salePrice,
      if p.imageId != 0 then c.attachment(p.imageId) else None,
      Badges(p), p.inStock, p.ratingHtml)
  }

  /** The summaries of the ids that name a product, in the order of the ids. */
  function Hydrate(ids: seq<nat>, c: Catalog): (r: seq<Summary>)
    ensures |r| <= |ids|
  {
    if ids == [] then []
    else
      var n := |ids| - 1;
      Hydrate(ids[..n], c) + (match c.product(ids[n]) case Some(p) => [Summarize(p, c)] case None => [])
  }

  /** When every id names a product, there is one summary per id, in order. */
  lemma {:induction false} HydrateAll(ids: seq<nat>, c: Catalog)
    requires forall k :: 0 <= k < |ids| ==> c.product(ids[k]).Some?
    ensures |Hydrate(ids, c)| == |ids|
    ensures forall k :: 0 <= k < |ids| ==> Hydrate(ids, c)[k] == Summarize(c.product(ids[k]).value, c)
  {
    if ids != [] {
      HydrateAll(ids[..|ids| - 1], c);
    }
  }

  /** One more id hydrates to the summaries so far and the summary of that id, if it names a product. */
  lemma HydrateStep(ids: seq<nat>, i: nat, c: Catalog)
    requires i < |ids|
    ensures Hydrate(ids[..i + 1], c)
         == Hydrate(ids[..i], c) + (match c.product(ids[i]) case Some(p) => [Summarize(p, c)] case None => [])
  {
    assert ids[..i + 1][..i] == ids[..i];
  }

  /** hw_format_products_for_rest: deduplicate, then one summary per id that names a product. */
  method FormatProductsForRest(ids: seq<int>, c: Catalog) returns (products: seq<Summary>)
    ensures products == Hydrate(Dedupe(AbsintAll(ids)), c)
  {
    var unique := Dedupe(AbsintAll(ids));
    products := [];
    var i := 0;
    while i < |unique|
      invariant 0 <= i <= |unique|
      invariant products == Hydrate(unique[..i], c)
    {
      HydrateStep(unique, i, c);
      match c.product(unique[i]) {
        case None =>
        case Some(p) => products := products + [Summarize(p, c)];
      }
      i := i + 1;
    }
    assert unique[..|unique|] == unique;
  }

  // ---------------------------------------------------------------------------
  // The page

  /** (int) ceil($total / $limit). */
  function CeilDiv(total: nat, limit: int): nat
    requires limit >= 1
  {
    (total + limit - 1) / limit
  }

  /** CeilDiv is the least number of pages of `limit` items that hold `total` items. */
  lemma CeilDivIsCeiling(total: nat, limit: int)
    requires limit >= 1
    ensures CeilDiv(total, limit) * limit >= total
    ensures CeilDiv(total, limit) == 0 || (CeilDiv(total, limit) - 1) * limit < total
    ensures CeilDiv(total, limit) == 0 <==> total == 0
  {
    var q := CeilDiv(total, limit);
    var m := total + limit - 1;
    assert m == q * limit + m % limit;
    assert q * limit >= total by {
      assert q * limit == m - m % limit;
    }
    if q > 0 {
      assert (q - 1) * limit == q * limit - limit;
    }
  }

  /** The body a cache miss computes for a normalised (page, limit). */
  function ComputePage(page: int, limit: int, c: Catalog): (r: PageResult)
    requires page >= 1 && 1 <= limit
    ensures r.page == page && r.limit == limit
    ensures |r.products| <= limit
  {
    var all := OnsaleIds(c);
    var ids := PageIds(page, limit, all, c);
    if ids == [] then PageResult(page, limit, 0, 0, [])
    else
      var unique := Dedupe(AbsintAll(ids));
      assert |unique| <= |ids|;
      var products := Hydrate(unique, c);
      PageResult(page, limit, |all|, CeilDiv(|all|, limit), products)
  }

  /** totalPages is (int) ceil(total / limit), zero for the empty page. */
  lemma PageTotalsAreCeiling(page: int, limit: int, c: Catalog)
    requires page >= 1 && 1 <= limit
    ensures ComputePage(page, limit, c).totalPages == CeilDiv(ComputePage(page, limit, c).total, limit)
  {
    var ids := PageIds(page, limit, OnsaleIds(c), c);
    if ids == [] {
      assert ComputePage(page, limit, c).total == 0;
    }
  }

  /** A page past the end of both id sources is the empty page with zero totals. */
  lemma PastTheEnd(page: int, limit: int, c: Catalog)
    requires page >= 1 && 1 <= limit
    requires Offset(page, limit) >= |OnsaleIds(c)| && Offset(page, limit) >= |c.eligibleByPrice|
    ensures ComputePage(page, limit, c) == PageResult(page, limit, 0, 0, [])
  {
  }

  /**
   * With a precomputed list of distinct positive ids that all name products, a
   * page inside the list holds min(limit, total - offset) summaries, and the
   * totals describe the whole list.
   */
  lemma FullPage(page: int, limit: int, c: Catalog)
    requires page >= 1 && 1 <= limit
    requires c.precomputed.Some? && c.precomputed.value != []
    requires forall k :: 0 <= k < |c.precomputed.value| ==> c.precomputed.value[k] > 0
    requires NoDuplicates(c.precomputed.value)
    requires forall k :: 0 <= k < |c.precomputed.value| ==> c.product(c.precomputed.value[k]).Some?
    requires Offset(page, limit) < |c.precomputed.value|
    ensures ComputePage(page, limit, c).total == |c.precomputed.value|
    ensures |ComputePage(page, limit, c).products| ==
            if Offset(page, limit) + limit <= |c.precomputed.value| then limit
            else |c.precomputed.value| - Offset(page, limit)
  {
    var ids := PageIdsInsideList(page, limit, c);
    var off := Offset(page, limit);
    forall k | 0 <= k < |ids| ensures c.product(ids[k]).Some? {
      assert ids[k] == c.precomputed.value[off + k];
    }
    HydrateAll(ids, c);
    PageOfDistinct(page, limit, c, ids);
  }

  /** A page whose ids are distinct and positive is hydrated as it is. */
  lemma PageOfDistinct(page: int, limit: int, c: Catalog, ids: seq<nat>)
    requires page >= 1 && 1 <= limit
    requires ids == PageIds(page, limit, OnsaleIds(c), c) && ids != []
    requires NoDuplicates(ids)
    ensures ComputePage(page, limit, c).products == Hydrate(ids, c)
    ensures ComputePage(page, limit, c).total == |OnsaleIds(c)|
  {
    assert forall k :: 0 <= k < |ids| ==> ids[k] > 0;
    AbsintAllPositive(ids);
    DedupeDistinct(ids);
  }

  /** absint leaves a list of positive ids as it is. */
  lemma AbsintAllPositive(s: seq<int>)
    requires forall k :: 0 <= k < |s| ==> s[k] > 0
    ensures AbsintAll(s) == s
  {
    assert forall k :: 0 <= k < |s| ==> AbsintAll(s)[k] == s[k];
  }

  /** A window of a list without repetitions has none either. */
  lemma SliceDistinct(s: seq<nat>, lo: nat, hi: nat)
    requires lo <= hi <= |s| && NoDuplicates(s)
    ensures NoDuplicates(s[lo..hi])
  {
    forall i, j | 0 <= i < j < hi - lo ensures s[lo..hi][i] != s[lo..hi][j] {
      assert s[lo..hi][i] == s[lo + i] && s[lo..hi][j] == s[lo + j];
    }
  }

  /** Inside a precomputed list of distinct positive ids, the page ids are exactly the slice. */
  lemma PageIdsInsideList(page: int, limit: int, c: Catalog) returns (ids: seq<nat>)
    requires page >= 1 && 1 <= limit
    requires c.precomputed.Some? && c.precomputed.value != []
    requires forall k :: 0 <= k < |c.precomputed.value| ==> c.precomputed.value[k] > 0
    requires NoDuplicates(c.precomputed.value)
    requires Offset(page, limit) < |c.precomputed.value|
    ensures ids == PageIds(page, limit, OnsaleIds(c), c) && ids != []
    ensures NoDuplicates(ids)
    ensures Offset(page, limit) + |ids| <= |c.precomputed.value|
    ensures ids == c.precomputed.value[Offset(page, limit)..Offset(page, limit) + |ids|]
    ensures |ids| == if Offset(page, limit) + limit <= |c.precomputed.value| then limit
                     else |c.precomputed.value| - Offset(page, limit)
  {
    var pre := c.precomputed.value;
    var all := OnsaleIds(c);
    AbsintAllPositive(pre);
    assert all == pre;
    var off := Offset(page, limit);
    var hi := if off + limit < |pre| then off + limit else |pre|;
    var slice := ArraySlice(all, off, limit);
    assert slice == all[off..hi];
    assert slice != [];
    SliceDistinct(all, off, hi);
    var rows: seq<int> := slice;
    assert forall k :: 0 <= k < |rows| ==> NonZero(rows[k]) && rows[k] > 0;
    FilterAll<int>(rows, NonZero);
    AbsintAllPositive(rows);
    ids := PageIds(page, limit, all, c);
    assert ids == slice;
  }

  /** The worked example: 30 eligible items in pages of 12. */
  lemma ThirtyItemsInPagesOfTwelve(c: Catalog)
    requires c.precomputed.Some? && |c.precomputed.value| == 30
    requires forall k :: 0 <= k < 30 ==> c.precomputed.value[k] > 0
    requires NoDuplicates(c.precomputed.value)
    requires forall k :: 0 <= k < 30 ==> c.product(c.precomputed.value[k]).Some?
    requires |c.eligibleByPrice| <= 36
    ensures ComputePage(1, 12, c).total == 30 && ComputePage(1, 12, c).totalPages == 3
    ensures |ComputePage(1, 12, c).products| == 12
    ensures |ComputePage(3, 12, c).products| == 6
    ensures ComputePage(4, 12, c) == PageResult(4, 12, 0, 0, [])
  {
    FullPage(1, 12, c);
    FullPage(3, 12, c);
    PastTheEnd(4, 12, c);
  }

  // ---------------------------------------------------------------------------
  // The response

  /** The entity tag: the quoted fingerprint of the body. */
  function ETag(data: PageResult, fingerprint: PageResult -> string): string {
    "\"" + fingerprint(data) + "\""
  }

  /**
   * 304 with no body when the trimmed If-None-Match header is non-empty and equals
   * the entity tag; otherwise 200 with the body and the ETag header. Both carry
   * the same Cache-Control.
   */
  function Respond(data: PageResult, ifNoneMatch: Option<string>, fingerprint: PageResult -> string): (r: Response)
    ensures r.cacheControl == CacheControl
    ensures r.status == 304 || r.status == 200
    ensures r.status == 304 <==> ifNoneMatch.Some? && Trim(ifNoneMatch.value) == ETag(data, fingerprint)
    ensures r.status == 304 ==> r.body.None? && r.etag.None?
    ensures r.status == 200 ==> r.body == Some(data) && r.etag == Some(ETag(data, fingerprint))
  {
    var etag := ETag(data, fingerprint);
    var header := if ifNoneMatch.Some? then Trim(ifNoneMatch.value) else "";
    if Truthy(header) && header == etag then Response(304, None, None, CacheControl)
    else Response(200, Some(data), Some(etag), CacheControl)
  }

  // ---------------------------------------------------------------------------
  // The endpoint and its transient store

  /** The cache-miss branch of the endpoint: the ids of the page, then the body. */
  method BuildPage(page: int, limit: int, c: Catalog) returns (data: PageResult)
    requires page >= 1 && 1 <= limit
    ensures data == ComputePage(page, limit, c)
  {
    var all := OnsaleIds(c);
    var ids := PageIds(page, limit, all, c);
    if ids == [] {
      data := PageResult(page, limit, 0, 0, []);
    } else {
      var products := FormatProductsForRest(ids, c);
      data := PageResult(page, limit, |all|, CeilDiv(|all|, limit), products);
    }
  }

  class OnsaleEndpoint {
    /** The transients 'hw_onsale_page_<page>_<limit>', keyed by (page, limit). */
    var transients: map<(int, int), PageResult>
    /** How many cache misses went to the catalog. */
    ghost var catalogQueries: nat

    constructor ()
      ensures transients == map[] && catalogQueries == 0
    {
      transients := map[];
      catalogQueries := 0;
    }

    /** hw_onsale_rest_endpoint. */
    method Handle(rawPage: Option<int>, rawLimit: Option<int>, ifNoneMatch: Option<string>,
                  c: Catalog, fingerprint: PageResult -> string)
      returns (response: Response)
      modifies this
      ensures var key := (NormalizePage(rawPage), NormalizeLimit(rawLimit));
              var data := if key in old(transients) then old(transients)[key] else ComputePage(key.0, key.1, c);
              && transients == old(transients)[key := data]
              && response == Respond(data, ifNoneMatch, fingerprint)
      ensures var key := (NormalizePage(rawPage), NormalizeLimit(rawLimit));
              catalogQueries == if key in old(transients) then old(catalogQueries) else old(catalogQueries) + 1
    {
      var page := NormalizePage(rawPage);
      var limit := NormalizeLimit(rawLimit);
      var data := CachedPage(page, limit, c);
      response := Respond(data, ifNoneMatch, fingerprint);
    }

    /** The transient lookup of the handler: a stored page is served, a missing one is built and stored. */
    method CachedPage(page: int, limit: int, c: Catalog) returns (data: PageResult)
      requires page >= 1 && 1 <= limit
      modifies this
      ensures data == if (page, limit) in old(transients) then old(transients)[(page, limit)] else ComputePage(page, limit, c)
      ensures transients == old(transients)[(page, limit) := data]
      ensures catalogQueries == if (page, limit) in old(transients) then old(catalogQueries) else old(catalogQueries) + 1
    {
      var key := (page, limit);
      if key in transients {
        data := transients[key];
        assert transients[key := data] == transients;
      } else {
        catalogQueries := catalogQueries + 1;
        data := BuildPage(page, limit, c);
        transients := transients[key := data];
      }
    }
  }

  /**
   * Within the life of the store, the same request answered twice gets the same
   * response, whatever the catalog did in between, and the catalog is read at most once.
   */
  method RequestTwice(e: OnsaleEndpoint, rawPage: Option<int>, rawLimit: Option<int>, ifNoneMatch: Option<string>,
                      c1: Catalog, c2: Catalog, fingerprint: PageResult -> string)
    returns (first: Response, second: Response)
    modifies e
    ensures second == first
    ensures e.catalogQueries <= old(e.catalogQueries) + 1
  {
    first := e.Handle(rawPage, rawLimit, ifNoneMatch, c1, fingerprint);
    second := e.Handle(rawPage, rawLimit, ifNoneMatch, c2, fingerprint);
  }
}
