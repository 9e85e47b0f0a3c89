/**
 * The archive guards: on product archives, third-party tracking hosts are kept
 * out of the page (queued scripts and styles, resource hints), the first
 * attachment image is loaded eagerly, and image URLs and srcsets are rewritten
 * to Cloudflare's /cdn-cgi/image/ transformation endpoint.
 *
 * wp_parse_url and home_url are function parameters; whether the request is an
 * archive (hw_is_product_archive_like) and is_ssl() are boolean inputs.
 */
module ArchiveGuards {
  import opened PhpRuntime
  import opened WpDependencies
  import PerfArchive

  /** The host fragments that mark a URL as blocked. */
  const BlockedHosts: seq<string> := [
    "connect.facebook.net",
    "graph.facebook.com",
    "www.facebook.com",
    "capi-automations.us-east-2.amazonaws.com"
  ]

  /** The components of wp_parse_url($url) that the plugins read. */
  datatype UrlParts = UrlParts(host: Option<string>, path: Option<string>, query: Option<string>)

  /** wp_parse_url: None when it returns false on a malformed URL. */
  type UrlParser = string -> Option<UrlParts>

  // ---------------------------------------------------------------------------
  // hw_archive_url_is_blocked

  /** A protocol-relative URL gets the scheme of the current request. */
  function WithScheme(url: string, ssl: bool): (r: string)
    ensures StartsWith(url, "//") ==> r == (if ssl then "https:" else "http:") + url
    ensures !StartsWith(url, "//") ==> r == url
  {
    if StartsWith(url, "//") then (if ssl then "https:" else "http:") + url else url
  }

  /** wp_parse_url($url, PHP_URL_HOST). */
  function HostOf(parse: UrlParser, url: string): Option<string> {
    match parse(url)
    case None => None
    case Some(parts) => parts.host
  }

  /** The foreach over the needles with its early return. */
  function MatchesAny(host: string, needles: seq<string>): bool {
    needles != [] && (Contains(host, needles[0]) || MatchesAny(host, needles[1..]))
  }

  lemma {:induction false} MatchesAnyIff(host: string, needles: seq<string>)
    ensures MatchesAny(host, needles) <==> exists i :: 0 <= i < |needles| && Contains(host, needles[i])
  {
    if needles != [] {
      MatchesAnyIff(host, needles[1..]);
      if !Contains(host, needles[0]) && exists i :: 0 <= i < |needles| && Contains(host, needles[i]) {
        var i :| 0 <= i < |needles| && Contains(host, needles[i]);
        assert needles[1..][i - 1] == needles[i];
      }
    }
  }

  function IsBlocked(url: string, ssl: bool, parse: UrlParser): (blocked: bool)
    ensures EmptyString(url) ==> !blocked
    ensures HostOf(parse, WithScheme(url, ssl)).None? ==> !blocked
  {
    if EmptyString(url) then false
    else
      var host := HostOf(parse, WithScheme(url, ssl));
      if host.None? || EmptyString(host.value) then false
      else MatchesAny(ToLower(host.value), BlockedHosts)
  }

  /** A URL is blocked iff it is non-empty, has a host, and the lower-cased host contains one of the needles. */
  lemma IsBlockedIff(url: string, ssl: bool, parse: UrlParser)
    ensures IsBlocked(url, ssl, parse) <==>
      var host := HostOf(parse, WithScheme(url, ssl));
      && Truthy(url) && host.Some? && Truthy(host.value)
      && exists i :: 0 <= i < |BlockedHosts| && Contains(ToLower(host.value), BlockedHosts[i])
  {
    var host := HostOf(parse, WithScheme(url, ssl));
    if host.Some? {
      MatchesAnyIff(ToLower(host.value), BlockedHosts);
    }
  }

  /** A protocol-relative URL is judged exactly as its form with the request's scheme. */
  lemma ProtocolRelativeGetsScheme(url: string, ssl: bool, parse: UrlParser)
    requires StartsWith(url, "//")
    ensures IsBlocked(url, ssl, parse) == IsBlocked((if ssl then "https:" else "http:") + url, ssl, parse)
  {
    var full := (if ssl then "https:" else "http:") + url;
    assert full[0] == 'h' && !StartsWith(full, "//");
    assert |url| >= 2 && |full| > 2;
  }

  // ---------------------------------------------------------------------------
  // The dequeue hooks

  /** The priority-100 hook: the cart-fragments and embed scripts leave the archive's queue. */
  method DequeueArchiveScripts(scripts: Registry, inScope: bool)
    requires scripts.Valid()
    modifies scripts
    ensures scripts.Valid() && scripts.registered == old(scripts.registered)
    ensures scripts.queue == if inScope then Without(old(scripts.queue), {"wc-cart-fragments", "wp-embed"})
                             else old(scripts.queue)
  {
    if !inScope {
      return;
    }
    scripts.Dequeue("wc-cart-fragments");
    scripts.Dequeue("wp-embed");
    WithoutTwice(old(scripts.queue), {"wc-cart-fragments"}, {"wp-embed"});
    assert {"wc-cart-fragments"} + {"wp-embed"} == {"wc-cart-fragments", "wp-embed"};
  }

  /** The queued handles that are registered with a source the test rejects. */
  function BlockedIn(handles: seq<string>, registered: map<string, Asset>, blocked: string -> bool): set<string> {
    if handles == [] then {}
    else
      var n := |handles| - 1;
      var h := handles[n];
      BlockedIn(handles[..n], registered, blocked)
        + (if h in registered && blocked(registered[h].src) then {h} else {})
  }

  lemma {:induction false} BlockedInMembers(handles: seq<string>, registered: map<string, Asset>, blocked: string -> bool, h: string)
    ensures h in BlockedIn(handles, registered, blocked) <==>
            h in handles && h in registered && blocked(registered[h].src)
  {
    if handles != [] {
      var n := |handles| - 1;
      BlockedInMembers(handles[..n], registered, blocked, h);
      assert handles == handles[..n] + [handles[n]];
    }
  }

  /** The blocked handles among the first i + 1 queued ones: those among the first i, and perhaps the next. */
  lemma BlockedInStep(queue: seq<string>, i: nat, registered: map<string, Asset>, blocked: string -> bool)
    requires i < |queue| && NoDuplicates(queue)
    ensures var h := queue[i];
            var before := BlockedIn(queue[..i], registered, blocked);
            && h !in before
            && (h in registered && blocked(registered[h].src) ==>
                  BlockedIn(queue[..i + 1], registered, blocked) == before + {h})
            && (!(h in registered && blocked(registered[h].src)) ==>
                  BlockedIn(queue[..i + 1], registered, blocked) == before)
  {
    assert queue[..i + 1][..i] == queue[..i];
    BlockedInMembers(queue[..i], registered, blocked, queue[i]);
    assert queue[i] !in queue[..i];
  }

  /**
   * One foreach of the priority-110 hook over a snapshot of the queue: a queued
   * handle that is not registered is skipped; one whose source is blocked is
   * dequeued and deregistered.
   */
  method DequeueBlocked(deps: Registry, blocked: string -> bool)
    requires deps.Valid()
    modifies deps
    ensures deps.Valid()
    ensures deps.queue == Without(old(deps.queue), BlockedIn(old(deps.queue), old(deps.registered), blocked))
    ensures deps.registered == old(deps.registered) - BlockedIn(old(deps.queue), old(deps.registered), blocked)
  {
    var snapshot := deps.queue;
    ghost var registered0 := deps.registered;
    WithoutAbsent(snapshot, {});
    assert snapshot[..0] == [];
    assert registered0 - {} == registered0;
    var i := 0;
    while i < |snapshot|
      invariant 0 <= i <= |snapshot|
      invariant deps.Valid() && NoDuplicates(snapshot)
      invariant deps.queue == Without(snapshot, BlockedIn(snapshot[..i], registered0, blocked))
      invariant deps.registered == registered0 - BlockedIn(snapshot[..i], registered0, blocked)
    {
      ghost var queue, registered := deps.queue, deps.registered;
      DequeueIfBlocked(deps, snapshot[i], blocked);
      DequeueStepKeeps(snapshot, i, registered0, blocked, queue, registered, deps.queue, deps.registered);
      i := i + 1;
    }
    assert snapshot[..i] == snapshot;
  }

  /** One turn of the foreach, stated on values: the invariant of the loop moves from i to i + 1. */
  lemma DequeueStepKeeps(snapshot: seq<string>, i: nat, registered0: map<string, Asset>, blocked: string -> bool,
                         queue: seq<string>, registered: map<string, Asset>,
                         queue': seq<string>, registered': map<string, Asset>)
    requires i < |snapshot| && NoDuplicates(snapshot)
    requires queue == Without(snapshot, BlockedIn(snapshot[..i], registered0, blocked))
    requires registered == registered0 - BlockedIn(snapshot[..i], registered0, blocked)
    requires var h := snapshot[i];
             h in registered && blocked(registered[h].src) ==> queue' == Without(queue, {h}) && registered' == registered - {h}
    requires var h := snapshot[i];
             !(h in registered && blocked(registered[h].src)) ==> queue' == queue && registered' == registered
    ensures queue' == Without(snapshot, BlockedIn(snapshot[..i + 1], registered0, blocked))
    ensures registered' == registered0 - BlockedIn(snapshot[..i + 1], registered0, blocked)
  {
    var before := BlockedIn(snapshot[..i], registered0, blocked);
    var h := snapshot[i];
    BlockedInStep(snapshot, i, registered0, blocked);
    if h in registered && blocked(registered[h].src) {
      WithoutTwice(snapshot, before, {h});
      assert (registered0 - before) - {h} == registered0 - (before + {h});
    }
  }

  /** The body of the foreach for one handle. */
  method DequeueIfBlocked(deps: Registry, handle: string, blocked: string -> bool)
    requires deps.Valid()
    modifies deps
    ensures deps.Valid()
    ensures handle in old(deps.registered) && blocked(old(deps.registered)[handle].src) ==>
              deps.queue == Without(old(deps.queue), {handle}) && deps.registered == old(deps.registered) - {handle}
    ensures !(handle in old(deps.registered) && blocked(old(deps.registered)[handle].src)) ==>
              deps.queue == old(deps.queue) && deps.registered == old(deps.registered)
  {
    if handle !in deps.registered {
      return;
    }
    var src := deps.registered[handle].src;
    if blocked(src) {
      deps.Dequeue(handle);
      deps.Deregister(handle);
    }
  }

  /** The URL test of the hook. */
  function Blocked(ssl: bool, parse: UrlParser): string -> bool {
    u => IsBlocked(u, ssl, parse)
  }

  /** After the hook no handle left in the queue is registered with a blocked source; unregistered handles stay. */
  lemma QueueIsClean(queue: seq<string>, registered: map<string, Asset>, ssl: bool, parse: UrlParser, h: string)
    requires h in queue
    ensures var removed := BlockedIn(queue, registered, Blocked(ssl, parse));
            h in Without(queue, removed) <==> h !in registered || !IsBlocked(registered[h].src, ssl, parse)
  {
    BlockedInMembers(queue, registered, Blocked(ssl, parse), h);
    WithoutMembers(queue, BlockedIn(queue, registered, Blocked(ssl, parse)), h);
  }

  /** The priority-110 hook: scripts, then styles. */
  method DequeueBlockedAssets(scripts: Registry, styles: Registry, inScope: bool, ssl: bool, parse: UrlParser)
    requires scripts != styles && scripts.Valid() && styles.Valid()
    modifies scripts, styles
    ensures scripts.Valid() && styles.Valid()
    ensures !inScope ==>
      && scripts.queue == old(scripts.queue) && scripts.registered == old(scripts.registered)
      && styles.queue == old(styles.queue) && styles.registered == old(styles.registered)
    ensures inScope ==>
      && scripts.queue == Without(old(scripts.queue), BlockedIn(old(scripts.queue), old(scripts.registered), Blocked(ssl, parse)))
      && scripts.registered == old(scripts.registered) - BlockedIn(old(scripts.queue), old(scripts.registered), Blocked(ssl, parse))
      && styles.queue == Without(old(styles.queue), BlockedIn(old(styles.queue), old(styles.registered), Blocked(ssl, parse)))
      && styles.registered == old(styles.registered) - BlockedIn(old(styles.queue), old(styles.registered), Blocked(ssl, parse))
  {
    if !inScope {
      return;
    }
    DequeueBlocked(scripts, Blocked(ssl, parse));
    DequeueBlocked(styles, Blocked(ssl, parse));
  }

  // ---------------------------------------------------------------------------
  // wp_resource_hints

  /** The test handed to array_filter. */
  function NotBlocked(ssl: bool, parse: UrlParser): string -> bool {
    u => !IsBlocked(u, ssl, parse)
  }

  predicate FiltersHints(relation: string) {
    relation == "preconnect" || relation == "dns-prefetch"
  }

  /** The filter: only preconnect and dns-prefetch lists lose their blocked URLs, order kept and reindexed. */
  function ResourceHints(urls: seq<string>, relation: string, inScope: bool, ssl: bool, parse: UrlParser): (r: seq<string>)
    ensures !inScope || !FiltersHints(relation) ==> r == urls
    ensures |r| <= |urls|
    ensures forall k :: 0 <= k < |r| ==> inScope && FiltersHints(relation) ==> !IsBlocked(r[k], ssl, parse)
  {
    if !inScope || !FiltersHints(relation) then urls
    else Filter(urls, NotBlocked(ssl, parse))
  }

  /** When it filters, a URL is kept exactly when it was there and is not blocked. */
  lemma ResourceHintsMembers(urls: seq<string>, relation: string, ssl: bool, parse: UrlParser, u: string)
    requires FiltersHints(relation)
    ensures u in ResourceHints(urls, relation, true, ssl, parse) <==> u in urls && !IsBlocked(u, ssl, parse)
  {
    FilterMembers(urls, NotBlocked(ssl, parse), u);
  }

  /** The filter works URL by URL: it distributes over concatenation of hint lists. */
  lemma ResourceHintsConcat(a: seq<string>, b: seq<string>, relation: string, inScope: bool, ssl: bool, parse: UrlParser)
    ensures ResourceHints(a + b, relation, inScope, ssl, parse)
         == ResourceHints(a, relation, inScope, ssl, parse) + ResourceHints(b, relation, inScope, ssl, parse)
  {
    FilterConcat(a, b, NotBlocked(ssl, parse));
  }

  /** Running the filter a second time changes nothing. */
  lemma ResourceHintsIdempotent(urls: seq<string>, relation: string, inScope: bool, ssl: bool, parse: UrlParser)
    ensures var once := ResourceHints(urls, relation, inScope, ssl, parse);
            ResourceHints(once, relation, inScope, ssl, parse) == once
  {
    if inScope && FiltersHints(relation) {
      var once := Filter(urls, NotBlocked(ssl, parse));
      FilterAll(once, NotBlocked(ssl, parse));
    }
  }

  // ---------------------------------------------------------------------------
  // style_loader_tag: the guards' own preload of three stylesheets

  const GuardStyleHandles: seq<string> := ["theme-style", "woocommerce-general", "onsale-styles"]
  const GuardPreloadEnd: string := "\" fetchpriority=\"low\" />"
  const GuardNoscriptEnd: string := "\"></noscript>"

  /**
   * Three links on one href: a low-priority style preload, a print-media
   * stylesheet that switches to all media on load, and a stylesheet inside
   * <noscript>, which ends the markup.
   */
  predicate IsGuardStyleMarkup(r: string, href: string) {
    PerfArchive.PiecesAt(r, PerfArchive.PreloadPrefix, href, GuardPreloadEnd, PerfArchive.StylesheetPrefix,
                         PerfArchive.PrintMediaSuffix, PerfArchive.NoscriptPrefix, GuardNoscriptEnd)
  }

  /** The markup the filter returns for a listed handle. */
  function GuardStyleMarkup(href: string): (r: string)
    ensures IsGuardStyleMarkup(r, href)
  {
    PerfArchive.NestedLayout(PerfArchive.PreloadPrefix, href, GuardPreloadEnd, PerfArchive.StylesheetPrefix,
                             PerfArchive.PrintMediaSuffix, PerfArchive.NoscriptPrefix, GuardNoscriptEnd);
    PerfArchive.PreloadPrefix + (href + (GuardPreloadEnd + (PerfArchive.StylesheetPrefix + (href
      + (PerfArchive.PrintMediaSuffix + (PerfArchive.NoscriptPrefix + (href + GuardNoscriptEnd)))))))
  }

  /** Escaped hrefs carry no '"', so the href can be read back from the guards' markup. */
  lemma GuardStyleMarkupInjective(h1: string, h2: string)
    requires '"' !in h1 && '"' !in h2
    requires GuardStyleMarkup(h1) == GuardStyleMarkup(h2)
    ensures h1 == h2
  {
    var t1 := GuardPreloadEnd + (PerfArchive.StylesheetPrefix + (h1
      + (PerfArchive.PrintMediaSuffix + (PerfArchive.NoscriptPrefix + (h1 + GuardNoscriptEnd)))));
    var t2 := GuardPreloadEnd + (PerfArchive.StylesheetPrefix + (h2
      + (PerfArchive.PrintMediaSuffix + (PerfArchive.NoscriptPrefix + (h2 + GuardNoscriptEnd)))));
    PrefixCancel(PerfArchive.PreloadPrefix, h1 + t1, h2 + t2);
    DelimitedSplit(h1, t1, h2, t2, '"');
  }

  /** The guards' style_loader_tag filter (priority 10): only listed handles on an archive are rewritten. */
  function GuardStyles(html: string, handle: string, href: string, inScope: bool, escUrl: string -> string): (r: string)
    ensures !inScope || handle !in GuardStyleHandles ==> r == html
    ensures inScope && handle in GuardStyleHandles ==> IsGuardStyleMarkup(r, escUrl(href))
  {
    if !inScope || handle !in GuardStyleHandles then html else GuardStyleMarkup(escUrl(href))
  }

  /**
   * The guards' filter runs before the performance plugin's (priority 20),
   * which ignores the tag it is given: a handle on both lists, such as
   * woocommerce-general, ends with the performance plugin's markup, and a
   * handle on the guards' list only keeps the guards' markup.
   */
  lemma {:induction false} StyleFiltersInOrder(html: string, handle: string, href: string, guardScope: bool, perfScope: bool,
                                               escUrl: string -> string)
    ensures var r := PerfArchive.PreloadStyles(GuardStyles(html, handle, href, guardScope, escUrl), handle, href, perfScope, escUrl);
            && (perfScope && handle in PerfArchive.PreloadHandles ==> PerfArchive.IsPreloadMarkup(r, escUrl(href)))
            && (guardScope && handle in GuardStyleHandles && !(perfScope && handle in PerfArchive.PreloadHandles) ==>
                  IsGuardStyleMarkup(r, escUrl(href)))
  {
  }

  // ---------------------------------------------------------------------------
  // wp_get_attachment_image_attributes: the first image is eager and high priority

  /** The attributes of the first in-scope image. */
  function Promote(attr: map<string, string>): (r: map<string, string>)
    ensures r.Keys == attr.Keys + {"loading", "fetchpriority"}
    ensures r["loading"] == "eager" && r["fetchpriority"] == "high"
    ensures forall k :: k in attr && k != "loading" && k != "fetchpriority" ==> r[k] == attr[k]
  {
    attr["loading" := "eager"]["fetchpriority" := "high"]
  }

  /** One call of the filter: the returned attributes and the new value of the static flag. */
  function GateStep(first: bool, inScope: bool, attr: map<string, string>): (map<string, string>, bool) {
    if !inScope then (attr, first)
    else if first then (Promote(attr), false)
    else (attr, false)
  }

  datatype AttrCall = AttrCall(inScope: bool, attr: map<string, string>)

  /** What the successive calls of one request return. */
  function GateOutputs(first: bool, calls: seq<AttrCall>): (outs: seq<map<string, string>>)
    ensures |outs| == |calls|
  {
    if calls == [] then []
    else
      var (out, next) := GateStep(first, calls[0].inScope, calls[0].attr);
      [out] + GateOutputs(next, calls[1..])
  }

  predicate NoneInScope(calls: seq<AttrCall>) {
    forall j :: 0 <= j < |calls| ==> !calls[j].inScope
  }

  /**
   * Only the first call made on an archive is promoted; calls outside an archive
   * neither are promoted nor use up the flag; every other call gets its
   * attributes back unchanged.
   */
  lemma {:induction false} OnlyFirstImagePromoted(first: bool, calls: seq<AttrCall>)
    ensures forall k :: 0 <= k < |calls| ==>
      GateOutputs(first, calls)[k] ==
        if first && calls[k].inScope && NoneInScope(calls[..k]) then Promote(calls[k].attr) else calls[k].attr
  {
    if calls != [] {
      var (out, next) := GateStep(first, calls[0].inScope, calls[0].attr);
      OnlyFirstImagePromoted(next, calls[1..]);
      forall k | 1 <= k < |calls|
        ensures GateOutputs(first, calls)[k] ==
          if first && calls[k].inScope && NoneInScope(calls[..k]) then Promote(calls[k].attr) else calls[k].attr
      {
        assert calls[1..][k - 1] == calls[k];
        assert calls[..k] == [calls[0]] + calls[1..][..k - 1];
        assert NoneInScope(calls[..k]) <==> !calls[0].inScope && NoneInScope(calls[1..][..k - 1]) by {
          var tail := calls[1..][..k - 1];
          if NoneInScope(calls[..k]) {
            assert calls[..k][0] == calls[0];
            forall j | 0 <= j < |tail| ensures !tail[j].inScope {
              assert tail[j] == calls[..k][j + 1];
            }
          }
        }
      }
      assert NoneInScope(calls[..0]);
    }
  }

  /** The filter with its `static $first`, which lives as long as the request. */
  class FirstImageGate {
    var first: bool

    constructor ()
      ensures first
    {
      first := true;
    }

    method FilterAttributes(attr: map<string, string>, inScope: bool) returns (r: map<string, string>)
      modifies this
      ensures (r, first) == GateStep(old(first), inScope, attr)
    {
      if !inScope {
        return attr;
      }
      r := attr;
      if first {
        r := r["loading" := "eager"];
        r := r["fetchpriority" := "high"];
        first := false;
      }
    }
  }

  // ---------------------------------------------------------------------------
  // hw_cloudflare_format_image_url and hw_cloudflare_transform_srcset

  /** The path handed to home_url: the transformation options, then the original path and query. */
  function CdnPath(format: string, path: string, query: Option<string>): string {
    "/cdn-cgi/image/format=" + format + ",q=85" + path + (if query.Some? then "?" + query.value else "")
  }

  /** A format without commas can be read back from the rewritten path, and so can the original path and query. */
  lemma CdnPathInjective(f1: string, p1: string, q1: Option<string>, f2: string, p2: string, q2: Option<string>)
    requires ',' !in f1 && ',' !in f2
    requires CdnPath(f1, p1, q1) == CdnPath(f2, p2, q2)
    ensures f1 == f2
    ensures p1 + (if q1.Some? then "?" + q1.value else "") == p2 + (if q2.Some? then "?" + q2.value else "")
  {
    var pre := "/cdn-cgi/image/format=";
    var rest1 := p1 + (if q1.Some? then "?" + q1.value else "");
    var rest2 := p2 + (if q2.Some? then "?" + q2.value else "");
    var t1 := ",q=85" + rest1;
    var t2 := ",q=85" + rest2;
    assert CdnPath(f1, p1, q1) == pre + (f1 + t1);
    assert CdnPath(f2, p2, q2) == pre + (f2 + t2);
    assert f1 + t1 == (pre + (f1 + t1))[|pre|..];
    assert f2 + t2 == (pre + (f2 + t2))[|pre|..];
    DelimitedSplit(f1, t1, f2, t2, ',');
    assert rest1 == t1[5..] && rest2 == t2[5..];
  }

  /** hw_cloudflare_format_image_url: unchanged without a path, otherwise the Cloudflare endpoint on the home URL. */
  function FormatImageUrl(url: string, format: string, parse: UrlParser, homeUrl: string -> string): (r: string)
    ensures parse(url).None? || EmptyEntry(parse(url).value.path) ==> r == url
    ensures parse(url).Some? && !EmptyEntry(parse(url).value.path) ==>
            r == homeUrl(CdnPath(format, parse(url).value.path.value, parse(url).value.query))
  {
    match parse(url)
    case None => url
    case Some(parts) =>
      if EmptyEntry(parts.path) then url
      else homeUrl(CdnPath(format, parts.path.value, parts.query))
  }

  /** array_map('trim', ...). */
  function TrimAll(items: seq<string>): (r: seq<string>)
    ensures |r| == |items|
    ensures forall k :: 0 <= k < |items| ==> r[k] == Trim(items[k])
  {
    seq(|items|, k requires 0 <= k < |items| => Trim(items[k]))
  }

  predicate NonEmpty(s: string) {
    s != ""
  }

  /** One rewritten source: the first \s-separated token is the URL, the rest is the descriptor. */
  function SrcsetEntry(source: string, rewrite: string -> string): (entry: string)
    ensures entry == [] || (!IsTrimChar(entry[0]) && !IsTrimChar(entry[|entry| - 1]))
  {
    var parts := SplitSpaces(source);
    Trim(rewrite(parts[0]) + " " + Join(parts[1..], " "))
  }

  function SrcsetEntries(sources: seq<string>, rewrite: string -> string): (r: seq<string>)
    ensures |r| == |sources|
    ensures forall k :: 0 <= k < |sources| ==> r[k] == SrcsetEntry(sources[k], rewrite)
  {
    seq(|sources|, k requires 0 <= k < |sources| => SrcsetEntry(sources[k], rewrite))
  }

  /** The entries of the sources so far, and one more source. */
  lemma SrcsetEntriesSnoc(sources: seq<string>, source: string, rewrite: string -> string)
    ensures SrcsetEntries(Filter(sources + [source], NonEmpty), rewrite)
         == SrcsetEntries(Filter(sources, NonEmpty), rewrite) + (if source == "" then [] else [SrcsetEntry(source, rewrite)])
  {
    FilterConcat(sources, [source], NonEmpty);
    var before := Filter(sources, NonEmpty);
    if source != "" {
      assert Filter([source], NonEmpty) == [source];
      SrcsetEntriesAppend(before, source, rewrite);
    } else {
      assert Filter([source], NonEmpty) == [];
      assert before + [] == before;
    }
  }

  lemma SrcsetEntriesAppend(sources: seq<string>, source: string, rewrite: string -> string)
    ensures SrcsetEntries(sources + [source], rewrite) == SrcsetEntries(sources, rewrite) + [SrcsetEntry(source, rewrite)]
  {
    var a := SrcsetEntries(sources + [source], rewrite);
    var b := SrcsetEntries(sources, rewrite) + [SrcsetEntry(source, rewrite)];
    assert |a| == |b|;
    forall k | 0 <= k < |a| ensures a[k] == b[k] {
      if k < |sources| {
        assert (sources + [source])[k] == sources[k];
      }
    }
  }

  /** The rewrite a srcset applies to each candidate URL. */
  function Rewriter(format: string, parse: UrlParser, homeUrl: string -> string): string -> string {
    u => FormatImageUrl(u, format, parse, homeUrl)
  }

  /** The value hw_cloudflare_transform_srcset returns. */
  function TransformedSrcset(srcset: string, format: string, parse: UrlParser, homeUrl: string -> string): string {
    if EmptyString(srcset) then ""
    else Join(SrcsetEntries(Filter(TrimAll(Split(srcset, ',')), NonEmpty), Rewriter(format, parse, homeUrl)), ", ")
  }

  /** hw_cloudflare_transform_srcset. */
  method TransformSrcset(srcset: string, format: string, parse: UrlParser, homeUrl: string -> string) returns (r: string)
    ensures EmptyString(srcset) ==> r == ""
    ensures r == TransformedSrcset(srcset, format, parse, homeUrl)
  {
    if EmptyString(srcset) {
      return "";
    }
    var sources := TrimAll(Split(srcset, ','));
    var rewritten := RewriteSources(sources, format, parse, homeUrl);
    r := Join(rewritten, ", ");
  }

  /** The foreach that fills $rewritten: empty sources are skipped, the others rewritten in order. */
  method RewriteSources(sources: seq<string>, format: string, parse: UrlParser, homeUrl: string -> string)
    returns (rewritten: seq<string>)
    ensures rewritten == SrcsetEntries(Filter(sources, NonEmpty), Rewriter(format, parse, homeUrl))
  {
    var rewrite := Rewriter(format, parse, homeUrl);
    rewritten := [];
    var i := 0;
    while i < |sources|
      invariant 0 <= i <= |sources|
      invariant rewritten == SrcsetEntries(Filter(sources[..i], NonEmpty), rewrite)
    {
      var source := sources[i];
      assert sources[..i + 1] == sources[..i] + [source];
      SrcsetEntriesSnoc(sources[..i], source, rewrite);
      if source != "" {
        var parts := SplitSpaces(source);
        var url := parts[0];
        var descriptor := Join(parts[1..], " ");
        var entry := Trim(FormatImageUrl(url, format, parse, homeUrl) + " " + descriptor);
        rewritten := rewritten + [entry];
      }
      i := i + 1;
    }
    assert sources[..i] == sources;
  }

  /**
   * The descriptor is kept: when the URL is left as it is, an entry is its
   * source with each run of white space collapsed to one space, trimmed.
   */
  lemma SrcsetEntryKeepsDescriptor(source: string)
    ensures SrcsetEntry(source, u => u) == Trim(CollapseSpaces(source))
  {
    var parts := SplitSpaces(source);
    JoinSplitSpaces(source);
    if |parts| == 1 {
      assert Join(parts[1..], " ") == "";
      assert parts[0] + " " + "" == parts[0] + " ";
      TrimTrailingSpace(parts[0]);
    } else {
      assert Join(parts, " ") == parts[0] + " " + Join(parts[1..], " ");
    }
  }

  /** A non-empty string that neither starts nor ends with a trim character. */
  predicate Word(s: string) {
    s != [] && !IsTrimChar(s[0]) && !IsTrimChar(s[|s| - 1])
  }

  /** An entry whose rewritten URL is a word: the word, then the descriptor trimmed on the right only. */
  lemma {:induction false} SrcsetEntryOfWord(source: string, rewrite: string -> string)
    requires Word(rewrite(SplitSpaces(source)[0]))
    ensures var parts := SplitSpaces(source);
            SrcsetEntry(source, rewrite) == rewrite(parts[0]) + TrimRight(" " + Join(parts[1..], " "))
  {
    var parts := SplitSpaces(source);
    var w := rewrite(parts[0]);
    var tail := " " + Join(parts[1..], " ");
    assert w + " " + Join(parts[1..], " ") == w + tail;
    TrimAfterWord(w, tail);
  }

  /**
   * The descriptor survives any URL rewrite: when the candidate URL and its
   * rewrite are words, the rewritten entry is the rewritten URL followed by
   * exactly what follows the URL in the source once its white-space runs are
   * collapsed and it is trimmed.
   */
  lemma {:induction false} SrcsetEntryKeepsTail(source: string, rewrite: string -> string)
    requires Word(SplitSpaces(source)[0]) && Word(rewrite(SplitSpaces(source)[0]))
    ensures var url := SplitSpaces(source)[0];
            var plain := Trim(CollapseSpaces(source));
            StartsWith(plain, url) && SrcsetEntry(source, rewrite) == rewrite(url) + plain[|url|..]
  {
    var parts := SplitSpaces(source);
    var url := parts[0];
    var rest := TrimRight(" " + Join(parts[1..], " "));
    SrcsetEntryOfWord(source, rewrite);
    SrcsetEntryOfWord(source, u => u);
    SrcsetEntryKeepsDescriptor(source);
    assert Trim(CollapseSpaces(source)) == url + rest;
    assert (url + rest)[..|url|] == url;
    assert (url + rest)[|url|..] == rest;
  }
}
