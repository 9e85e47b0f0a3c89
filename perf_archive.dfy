/**
 * The archive performance plugin (hw-perf-archive.php): the critical-CSS
 * whitespace collapse, the style_loader_tag and script_loader_tag rewrites,
 * the removal of jquery-migrate from the script registry, and the LCP image
 * that is stored once and announced with a preload link in wp_head.
 * Whether the request is a product archive (hw_perf_archive_is_scope) and
 * is_admin() are boolean inputs; esc_url and esc_attr are parameters.
 */
module PerfArchive {
  import opened PhpRuntime
  import opened WpDependencies

  // ---------------------------------------------------------------------------
  // Critical CSS

  /** trim(preg_replace('/\s+/', ' ', $css)). */
  function CriticalCss(css: string): (r: string)
    ensures r == [] || (!IsTrimChar(r[0]) && !IsTrimChar(r[|r| - 1]))
  {
    Trim(CollapseSpaces(css))
  }

  /**
   * The collapsed CSS starts and ends with a character that is not whitespace,
   * the only whitespace it keeps is ' ', and no two whitespace characters are
   * next to each other.
   */
  lemma CriticalCssShape(css: string)
    ensures var r := CriticalCss(css);
            && (r == [] || (!IsSpace(r[0]) && !IsSpace(r[|r| - 1])))
            && (forall k :: 0 <= k < |r| && IsSpace(r[k]) ==> r[k] == ' ')
            && (forall k :: 0 <= k < |r| - 1 ==> !(IsSpace(r[k]) && IsSpace(r[k + 1])))
  {
    var c := CollapseSpaces(css);
    var r := Trim(c);
    CollapseSpacesShape(css);
    var i := TrimIsInfix(c);
    assert forall k :: 0 <= k < |r| ==> r[k] == c[i + k];
  }

  /** The <style> element printed in wp_head; nothing outside a product archive. */
  function InlineCriticalCss(css: string, inScope: bool): (r: string)
    ensures !inScope ==> r == ""
    ensures inScope ==> r == "<style id=\"hw-perf-critical\">" + CriticalCss(css) + "</style>"
  {
    if inScope then "<style id=\"hw-perf-critical\">" + CriticalCss(css) + "</style>" else ""
  }

  // ---------------------------------------------------------------------------
  // style_loader_tag: preload the listed stylesheets

  const PreloadHandles: seq<string> := [
    "styler-style", "woocommerce-general", "woocommerce-layout", "woocommerce-smallscreen",
    "hw-onsale-styles", "onsale", "default", "bootstrap-grid"
  ]

  const PreloadPrefix: string := "<link rel=\"preload\" as=\"style\" href=\""

  const StylesheetPrefix: string := "<link rel=\"stylesheet\" href=\""
  /** The print-media stylesheet switches itself to all media once loaded. */
  const PrintMediaSuffix: string := "\" media=\"print\" onload=\"this.media='all'\">"
  const NoscriptPrefix: string := "<noscript>" + StylesheetPrefix
  const NoscriptSuffix: string := "\" media=\"all\"></noscript>"

  /** The rest of the markup after the escaped href of the preload link. */
  function PreloadTail(href: string): (r: string)
    ensures |r| > 0 && r[0] == '"'
  {
    "\">" + (StylesheetPrefix + (href + (PrintMediaSuffix + (NoscriptPrefix + (href + NoscriptSuffix)))))
  }

  /**
   * Three links on one href: a style preload, a print-media stylesheet that
   * switches to all media on load, and a stylesheet inside <noscript>; the
   * markup ends with that fallback.
   */
  predicate IsPreloadMarkup(r: string, href: string) {
    PiecesAt(r, PreloadPrefix, href, "\">", StylesheetPrefix, PrintMediaSuffix, NoscriptPrefix, NoscriptSuffix)
  }

  /** r is p, h, q, s, h, m, n, h and e one after the other: each piece occurs where the lengths before it put it. */
  predicate PiecesAt(r: string, p: string, h: string, q: string, s: string, m: string, n: string, e: string) {
    FirstPiecesAt(r, p, h, q, s) && LastPiecesAt(r, |p| + |h| + |q| + |s|, h, m, n, e)
  }

  /** The preload link and the opening of the stylesheet link, up to its href at |p| + |h| + |q| + |s|. */
  predicate FirstPiecesAt(r: string, p: string, h: string, q: string, s: string) {
    && StartsWith(r, p)
    && OccursAt(r, h, |p|)
    && OccursAt(r, q, |p| + |h|)
    && OccursAt(r, s, |p| + |h| + |q|)
  }

  /** From b on: the stylesheet href, its media switch, the noscript opening, its href and the closing, which ends r. */
  predicate LastPiecesAt(r: string, b: nat, h: string, m: string, n: string, e: string) {
    var c := b + |h| + |m| + |n|;
    && OccursAt(r, h, b)
    && OccursAt(r, m, b + |h|)
    && OccursAt(r, n, c - |n|)
    && OccursAt(r, h, c)
    && OccursAt(r, e, c + |h|)
    && |r| == c + |h| + |e|
  }

  /** The markup that replaces a listed stylesheet's tag. */
  function PreloadMarkup(href: string): (r: string)
    ensures IsPreloadMarkup(r, href)
  {
    var r := PreloadPrefix + (href + PreloadTail(href));
    NestedLayout(PreloadPrefix, href, "\">", StylesheetPrefix, PrintMediaSuffix, NoscriptPrefix, NoscriptSuffix);
    r
  }

  /** Where each piece of p + (h + (q + (s + (h + (m + (n + (h + e))))))) sits, with the pieces left abstract. */
  lemma NestedLayout(p: string, h: string, q: string, s: string, m: string, n: string, e: string)
    ensures PiecesAt(p + (h + (q + (s + (h + (m + (n + (h + e))))))), p, h, q, s, m, n, e)
  {
    var d := h + (m + (n + (h + e)));
    var r := p + (h + (q + (s + d)));
    FirstLayout(p, h, q, s, d);
    assert r[|p| + |h| + |q| + |s|..] == d;
    LastLayout(r, |p| + |h| + |q| + |s|, h, m, n, e);
  }

  lemma {:induction false} FirstLayout(p: string, h: string, q: string, s: string, d: string)
    ensures FirstPiecesAt(p + (h + (q + (s + d))), p, h, q, s)
  {
    var r := p + (h + (q + (s + d)));
    assert r[|p|..] == h + (q + (s + d));
    assert r[|p| + |h|..] == q + (s + d);
    assert r[|p| + |h| + |q|..] == s + d;
    StartsAt(r, 0, p, h + (q + (s + d)));
    StartsAt(r, |p|, h, q + (s + d));
    StartsAt(r, |p| + |h|, q, s + d);
    StartsAt(r, |p| + |h| + |q|, s, d);
  }

  lemma {:induction false} LastLayout(r: string, b: nat, h: string, m: string, n: string, e: string)
    requires b <= |r| && r[b..] == h + (m + (n + (h + e)))
    ensures LastPiecesAt(r, b, h, m, n, e)
  {
    var c := b + |h| + |m| + |n|;
    assert r[b + |h|..] == m + (n + (h + e));
    assert r[b + |h| + |m|..] == n + (h + e);
    assert r[c..] == h + e;
    StartsAt(r, b, h, m + (n + (h + e)));
    StartsAt(r, b + |h|, m, n + (h + e));
    StartsAt(r, c - |n|, n, h + e);
    StartsAt(r, c, h, e);
    assert r[c + |h|..] == e;
  }

  /** What starts at position i of r occurs there. */
  lemma StartsAt(r: string, i: nat, y: string, z: string)
    requires i <= |r| && r[i..] == y + z
    ensures OccursAt(r, y, i)
  {
    assert r[i..i + |y|] == (y + z)[..|y|];
  }

  /** Escaped hrefs carry no '"', so the href can be read back from the markup. */
  lemma PreloadMarkupInjective(h1: string, h2: string)
    requires '"' !in h1 && '"' !in h2
    requires PreloadMarkup(h1) == PreloadMarkup(h2)
    ensures h1 == h2
  {
    PrefixCancel(PreloadPrefix, h1 + PreloadTail(h1), h2 + PreloadTail(h2));
    DelimitedSplit(h1, PreloadTail(h1), h2, PreloadTail(h2), '"');
  }

  /** hw_perf_archive_preload_styles: only listed handles on a product archive are rewritten. */
  function PreloadStyles(html: string, handle: string, href: string, inScope: bool, escUrl: string -> string): (r: string)
    ensures !inScope || handle !in PreloadHandles ==> r == html
    ensures inScope && handle in PreloadHandles ==> IsPreloadMarkup(r, escUrl(href))
  {
    if !inScope || handle !in PreloadHandles then html else PreloadMarkup(escUrl(href))
  }

  /** The filter returns either the tag WordPress built or markup that names only the escaped href. */
  lemma PreloadStylesHref(html: string, handle: string, h1: string, h2: string, escUrl: string -> string)
    requires '"' !in escUrl(h1) && '"' !in escUrl(h2)
    requires handle in PreloadHandles
    requires PreloadStyles(html, handle, h1, true, escUrl) == PreloadStyles(html, handle, h2, true, escUrl)
    ensures escUrl(h1) == escUrl(h2)
  {
    PreloadMarkupInjective(escUrl(h1), escUrl(h2));
  }

  // ---------------------------------------------------------------------------
  // script_loader_tag: defer the listed scripts

  const DeferHandles: seq<string> := [
    "front-main", "lazyload", "hw-onsale-frontend", "hw-onsale-rest",
    "wp-util", "jquery-ui-position", "addtoany"
  ]

  /** hw_perf_archive_defer_scripts. */
  function DeferScript(tag: string, handle: string, inScope: bool): (r: string)
    ensures !inScope || handle !in DeferHandles || Contains(tag, " defer ") ==> r == tag
  {
    if !inScope || handle !in DeferHandles || Contains(tag, " defer ") then tag
    else ReplaceAll(tag, "<script ", "<script defer ")
  }

  lemma DeferMarkerInOpener()
    ensures Contains("<script defer ", " defer ")
  {
    assert OccursAt("<script defer ", " defer ", 7);
  }

  /** A listed tag on an archive that opens a <script element comes out with the defer marker. */
  lemma DeferScriptDefers(tag: string, handle: string)
    requires handle in DeferHandles && Contains(tag, "<script ")
    ensures Contains(DeferScript(tag, handle, true), " defer ")
  {
    if !Contains(tag, " defer ") {
      ReplaceAllIntroduces(tag, "<script ", "<script defer ");
      DeferMarkerInOpener();
      ContainsTransitive(DeferScript(tag, handle, true), "<script defer ", " defer ");
    }
  }

  /** Running the filter twice gives what running it once gives. */
  lemma DeferScriptIdempotent(tag: string, handle: string, inScope: bool)
    ensures DeferScript(DeferScript(tag, handle, inScope), handle, inScope) == DeferScript(tag, handle, inScope)
  {
    if inScope && handle in DeferHandles && !Contains(tag, " defer ") {
      if Contains(tag, "<script ") {
        DeferScriptDefers(tag, handle);
      } else {
        ReplaceAllAbsent(tag, "<script ", "<script defer ");
      }
    }
  }

  // ---------------------------------------------------------------------------
  // wp_enqueue_scripts: drop jquery-migrate

  /** The registry after jQuery loses its jquery-migrate dependency and jquery-migrate is deregistered. */
  function WithoutMigrate(registered: map<string, Asset>): (r: map<string, Asset>)
    ensures "jquery-migrate" !in r
    ensures r.Keys == registered.Keys - {"jquery-migrate"}
  {
    var withJquery :=
      if "jquery" in registered
      then registered["jquery" := Asset(registered["jquery"].src, Without(registered["jquery"].deps, {"jquery-migrate"}))]
      else registered;
    withJquery - {"jquery-migrate"}
  }

  /**
   * jQuery's dependencies are its old ones minus jquery-migrate, in the same
   * order; every other handle keeps its asset.
   */
  lemma WithoutMigrateDeps(registered: map<string, Asset>, handle: string)
    requires handle in registered && handle != "jquery-migrate"
    ensures var r := WithoutMigrate(registered);
            && handle in r
            && r[handle].src == registered[handle].src
            && (handle != "jquery" ==> r[handle] == registered[handle])
            && (handle == "jquery" ==>
                  && "jquery-migrate" !in r[handle].deps
                  && (forall d :: d in registered[handle].deps && d != "jquery-migrate" ==> d in r[handle].deps))
  {
    if handle == "jquery" {
      var deps := registered["jquery"].deps;
      forall d | d in deps && d != "jquery-migrate"
        ensures d in Without(deps, {"jquery-migrate"})
      {
        WithoutMembers(deps, {"jquery-migrate"}, d);
      }
      WithoutMembers(deps, {"jquery-migrate"}, "jquery-migrate");
    }
  }

  /** A second pass changes nothing. */
  lemma WithoutMigrateIdempotent(registered: map<string, Asset>)
    ensures WithoutMigrate(WithoutMigrate(registered)) == WithoutMigrate(registered)
  {
    if "jquery" in registered {
      WithoutTwice(registered["jquery"].deps, {"jquery-migrate"}, {"jquery-migrate"});
      assert {"jquery-migrate"} + {"jquery-migrate"} == {"jquery-migrate"};
    }
  }

  const OptimizedOut: set<string> := {"wc-cart-fragments", "wp-embed", "jquery-migrate"}

  /** hw_perf_archive_optimize_assets on the script registry. */
  method OptimizeAssets(scripts: Registry, isAdmin: bool, inScope: bool)
    requires scripts.Valid()
    modifies scripts
    ensures scripts.Valid()
    ensures isAdmin || !inScope ==> scripts.queue == old(scripts.queue) && scripts.registered == old(scripts.registered)
    ensures !isAdmin && inScope ==>
      && scripts.queue == Without(old(scripts.queue), OptimizedOut)
      && scripts.registered == WithoutMigrate(old(scripts.registered))
  {
    if isAdmin || !inScope {
      return;
    }
    ghost var queue0 := scripts.queue;
    scripts.Dequeue("wc-cart-fragments");
    scripts.Dequeue("wp-embed");
    if "jquery" in scripts.registered {
      scripts.SetDeps("jquery", Without(scripts.registered["jquery"].deps, {"jquery-migrate"}));
    }
    if "jquery-migrate" in scripts.queue || "jquery-migrate" in scripts.registered {
      scripts.Dequeue("jquery-migrate");
      scripts.Deregister("jquery-migrate");
    } else {
      WithoutAbsentHandle(scripts.queue, "jquery-migrate");
      assert scripts.registered - {"jquery-migrate"} == scripts.registered;
    }
    OptimizedQueue(queue0);
  }

  /** Dequeuing a handle that is not queued leaves the queue as it is. */
  lemma WithoutAbsentHandle(queue: seq<string>, handle: string)
    requires handle !in queue
    ensures Without(queue, {handle}) == queue
  {
    forall k | 0 <= k < |queue|
      ensures queue[k] !in {handle}
    {
      assert queue[k] in queue;
    }
    WithoutAbsent(queue, {handle});
  }

  /** The three dequeues one after the other remove OptimizedOut. */
  lemma OptimizedQueue(queue: seq<string>)
    ensures Without(Without(Without(queue, {"wc-cart-fragments"}), {"wp-embed"}), {"jquery-migrate"})
         == Without(queue, OptimizedOut)
  {
    WithoutTwice(queue, {"wc-cart-fragments"}, {"wp-embed"});
    WithoutTwice(queue, {"wc-cart-fragments"} + {"wp-embed"}, {"jquery-migrate"});
    assert {"wc-cart-fragments"} + {"wp-embed"} + {"jquery-migrate"} == OptimizedOut;
  }

  // ---------------------------------------------------------------------------
  // The LCP image

  /** The array handed to hw_perf_archive_mark_lcp_image; only these keys are read. */
  datatype LcpImage = LcpImage(src: Option<string>, srcset: Option<string>, sizes: Option<string>)

  /** The argument of the action: an array of that shape, or anything that is not an array. */
  datatype LcpArg = NotArray | Image(image: LcpImage)

  /** The first check of hw_perf_archive_mark_lcp_image: an array with a non-empty src. */
  predicate Acceptable(arg: LcpArg) {
    arg.Image? && !EmptyEntry(arg.image.src)
  }

  /** One call of hw_perf_archive_mark_lcp_image on the static $stored. */
  function Mark(stored: Option<LcpImage>, arg: LcpArg): (r: Option<LcpImage>)
    ensures stored.Some? ==> r == stored
    ensures !Acceptable(arg) ==> r == stored
    ensures stored.None? && Acceptable(arg) ==> r == Some(arg.image)
  {
    if !Acceptable(arg) then stored
    else if stored.None? then Some(arg.image)
    else stored
  }

  /** The calls of one request, in order. */
  function MarkAll(stored: Option<LcpImage>, args: seq<LcpArg>): Option<LcpImage>
    decreases |args|
  {
    if args == [] then stored else MarkAll(Mark(stored, args[0]), args[1..])
  }

  /** Once an image is stored, later calls never replace it. */
  lemma {:induction false} StoredStays(image: LcpImage, args: seq<LcpArg>)
    ensures MarkAll(Some(image), args) == Some(image)
    decreases |args|
  {
    if args != [] {
      StoredStays(image, args[1..]);
    }
  }

  /** What is stored is the first acceptable argument. */
  lemma {:induction false} FirstAcceptableStored(args: seq<LcpArg>, i: nat)
    requires i < |args| && Acceptable(args[i])
    requires forall j :: 0 <= j < i ==> !Acceptable(args[j])
    ensures MarkAll(None, args) == Some(args[i].image)
    decreases |args|
  {
    if i == 0 {
      StoredStays(args[0].image, args[1..]);
    } else {
      FirstAcceptableStored(args[1..], i - 1);
    }
  }

  /** With no acceptable argument nothing is stored. */
  lemma {:induction false} NoneAcceptableNoneStored(args: seq<LcpArg>)
    requires forall j :: 0 <= j < |args| ==> !Acceptable(args[j])
    ensures MarkAll(None, args) == None
    decreases |args|
  {
    if args != [] {
      NoneAcceptableNoneStored(args[1..]);
    }
  }

  /** The static $stored of hw_perf_archive_mark_lcp_image, one per request. */
  class LcpStore {
    var stored: Option<LcpImage>

    constructor ()
      ensures stored.None?
    {
      stored := None;
    }

    /** hw_perf_archive_mark_lcp_image. */
    method MarkImage(arg: LcpArg)
      modifies this
      ensures stored == Mark(old(stored), arg)
    {
      if !arg.Image? || EmptyEntry(arg.image.src) {
        return;
      }
      if stored.None? {
        stored := Some(arg.image);
      }
    }

    /** hw_perf_archive_register_lcp_image: outside a product archive nothing is marked. */
    method RegisterImage(arg: LcpArg, inScope: bool)
      modifies this
      ensures stored == if inScope then Mark(old(stored), arg) else old(stored)
    {
      if !inScope {
        return;
      }
      MarkImage(arg);
    }
  }

  function SrcsetAttr(v: string): string { "imagesrcset=\"" + v + "\"" }
  function SizesAttr(v: string): string { "imagesizes=\"" + v + "\"" }

  /** The attribute list of the preload link: each attribute only when its escaped value is truthy. */
  function LcpAttributes(srcset: string, sizes: string): (attrs: seq<string>)
    ensures |attrs| == (if Truthy(srcset) then 1 else 0) + (if Truthy(sizes) then 1 else 0)
    ensures SrcsetAttr(srcset) in attrs <==> Truthy(srcset)
    ensures SizesAttr(sizes) in attrs <==> Truthy(sizes)
    ensures Truthy(srcset) ==> attrs[0] == SrcsetAttr(srcset)
  {
    assert SrcsetAttr(srcset)[6] == 'r' && SizesAttr(sizes)[6] == 'i';
    (if Truthy(srcset) then [SrcsetAttr(srcset)] else [])
    + (if Truthy(sizes) then [SizesAttr(sizes)] else [])
  }

  const LcpPrefix: string := "<link rel=\"preload\" as=\"image\" fetchpriority=\"high\" href=\""

  /**
   * The preload link for a stored image: src through esc_url right after the
   * prefix, then the optional imagesrcset / imagesizes attributes, then " />".
   */
  function LcpLink(image: LcpImage, escUrl: string -> string, escAttr: string -> string): (r: string)
    ensures StartsWith(r, LcpPrefix)
    ensures OccursAt(r, escUrl(image.src.GetOr("")), |LcpPrefix|)
    ensures r[|r| - 3..] == " />"
  {
    var srcset := if image.srcset.Some? then escAttr(image.srcset.value) else "";
    var sizes := if image.sizes.Some? then escAttr(image.sizes.value) else "";
    var src := escUrl(image.src.GetOr(""));
    var r := LcpPrefix + src + "\" " + Join(LcpAttributes(srcset, sizes), " ") + " />";
    assert r[..|LcpPrefix|] == LcpPrefix;
    assert r[|LcpPrefix|..|LcpPrefix| + |src|] == src;
    r
  }

  /** The wp_head callback: nothing outside an archive or with nothing stored. */
  function LcpPreloadLink(stored: Option<LcpImage>, inScope: bool, escUrl: string -> string, escAttr: string -> string): (r: string)
    ensures !inScope || stored.None? ==> r == ""
    ensures inScope && stored.Some? ==> r == LcpLink(stored.value, escUrl, escAttr)
  {
    if !inScope || stored.None? then "" else LcpLink(stored.value, escUrl, escAttr)
  }

  /**
   * What wp_head prints at priority 5 when `beforeHead` are the marks made
   * before that point. The callback is added by the mark that stores an image,
   * so only those marks can add it; it reads the static by reference, and no
   * later mark changes a stored image.
   */
  function HeadLink(beforeHead: seq<LcpArg>, inScope: bool, escUrl: string -> string, escAttr: string -> string): string {
    LcpPreloadLink(MarkAll(None, beforeHead), inScope, escUrl, escAttr)
  }

  /** The marks of one request, split at any point, run one after the other. */
  lemma {:induction false} MarkAllConcat(stored: Option<LcpImage>, a: seq<LcpArg>, b: seq<LcpArg>)
    ensures MarkAll(stored, a + b) == MarkAll(MarkAll(stored, a), b)
    decreases |a|
  {
    if a != [] {
      assert (a + b)[1..] == a[1..] + b;
      MarkAllConcat(Mark(stored, a[0]), a[1..], b);
    } else {
      assert a + b == b;
    }
  }

  /** On an archive, the link wp_head prints is the one for the first acceptable image marked before it. */
  lemma {:induction false} LcpLinkIsFirstImage(beforeHead: seq<LcpArg>, i: nat, escUrl: string -> string, escAttr: string -> string)
    requires i < |beforeHead| && Acceptable(beforeHead[i])
    requires forall j :: 0 <= j < i ==> !Acceptable(beforeHead[j])
    ensures HeadLink(beforeHead, true, escUrl, escAttr) == LcpLink(beforeHead[i].image, escUrl, escAttr)
  {
    FirstAcceptableStored(beforeHead, i);
  }

  /**
   * A mark made after wp_head comes too late: when no acceptable image was
   * marked before it, nothing is printed, although the later mark still fills
   * the static.
   */
  lemma {:induction false} LateMarkPrintsNothing(beforeHead: seq<LcpArg>, afterHead: seq<LcpArg>, inScope: bool,
                                                 escUrl: string -> string, escAttr: string -> string)
    requires forall j :: 0 <= j < |beforeHead| ==> !Acceptable(beforeHead[j])
    ensures HeadLink(beforeHead, inScope, escUrl, escAttr) == ""
    ensures MarkAll(None, beforeHead + afterHead) == MarkAll(None, afterHead)
  {
    NoneAcceptableNoneStored(beforeHead);
    MarkAllConcat(None, beforeHead, afterHead);
  }
}
