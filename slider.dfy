/**
 * The image slider component (Slider::render): one slide per image with its
 * loading / fetchpriority / alt / size choices, the first image handed to the
 * LCP store, and up to three navigation dots with their target slides.
 * The markup is modelled as the list of slide and dot views it prints;
 * escaping is left to the caller of the views.
 */
module Slider {
  import opened PhpRuntime
  import opened PerfArchive

  /** The keys of one entry of $images that the component reads. */
  datatype SlideImage = SlideImage(
    src: Option<string>,
    srcset: Option<string>,
    sizes: Option<string>,
    alt: Option<string>,
    width: Option<string>,
    height: Option<string>,
    placeholder: Option<string>,
    avif: Option<string>,
    webp: Option<string>)

  /** What one slide prints; an optional attribute or <source> is None when it is left out. */
  datatype SlideView = SlideView(
    link: Option<string>,
    avif: Option<string>,
    webp: Option<string>,
    src: string,
    srcset: Option<string>,
    sizes: string,
    alt: string,
    width: string,
    height: string,
    loading: string,
    priority: string,
    placeholder: Option<string>)

  /** One navigation button: its position, the slide it targets and whether it is the active one. */
  datatype DotView = DotView(index: nat, target: int, active: bool)

  /** The component's output: '' for no images, otherwise the slider. */
  datatype Markup = NoMarkup | SliderMarkup(slides: seq<SlideView>, dots: seq<DotView>)

  const DefaultSizes: string := "(min-width:1200px) 25vw, (min-width:768px) 33vw, 50vw"
  const MaxDots: nat := 3

  /** A value printed only when !empty(...) holds for it. */
  function IfNotEmpty(v: Option<string>): (r: Option<string>)
    ensures r.Some? <==> !EmptyEntry(v)
    ensures r.Some? ==> r == v
  {
    if EmptyEntry(v) then None else v
  }

  /** The slide at position `index`: the first one loads eagerly with the caller's priority. */
  function SlideFor(image: SlideImage, index: nat, alt: string, fetchpriority: string, permalink: string): (v: SlideView)
    ensures v.loading == "eager" <==> index == 0
    ensures v.priority == (if index == 0 then fetchpriority else "auto")
    ensures !EmptyEntry(image.alt) ==> v.alt == image.alt.value
    ensures EmptyEntry(image.alt) ==> v.alt == alt
    ensures image.width.None? ==> v.width == "480"
    ensures image.height.None? ==> v.height == "600"
    ensures v.link.Some? <==> Truthy(permalink)
  {
    var isFirst := index == 0;
    SlideView(
      if Truthy(permalink) then Some(permalink) else None,
      IfNotEmpty(image.avif),
      IfNotEmpty(image.webp),
      image.src.GetOr(""),
      IfNotEmpty(image.srcset),
      image.sizes.GetOr(DefaultSizes),
      if !EmptyEntry(image.alt) then image.alt.value else alt,
      image.width.GetOr("480"),
      image.height.GetOr("600"),
      if isFirst then "eager" else "lazy",
      if isFirst then fetchpriority else "auto",
      if image.placeholder.Some? && Truthy(image.placeholder.value) then image.placeholder else None)
  }

  /** The slides of the foreach, in order. */
  function Slides(images: seq<SlideImage>, alt: string, fetchpriority: string, permalink: string): (slides: seq<SlideView>)
    ensures |slides| == |images|
  {
    seq(|images|, i requires 0 <= i < |images| => SlideFor(images[i], i, alt, fetchpriority, permalink))
  }

  /** Exactly the first slide is eager, and only it may carry a priority other than auto. */
  lemma OnlyFirstSlideEager(images: seq<SlideImage>, alt: string, fetchpriority: string, permalink: string)
    ensures var slides := Slides(images, alt, fetchpriority, permalink);
            && (forall i :: 0 <= i < |slides| ==> (slides[i].loading == "eager" <==> i == 0))
            && (forall i :: 0 < i < |slides| ==> slides[i].loading == "lazy" && slides[i].priority == "auto")
            && (|slides| > 0 ==> slides[0].priority == fetchpriority)
  {
  }

  /** `min(count($images), 3)` dots, printed only for more than one image. */
  function DotCount(n: nat): (c: nat)
    ensures c <= MaxDots && c <= n
    ensures c == 0 <==> n <= 1
    ensures n > 1 ==> (c == n || c == MaxDots)
  {
    if n > 1 then (if n < MaxDots then n else MaxDots) else 0
  }

  /** PHP's round() of m / 2 for m >= 0: halves round away from zero. */
  function RoundHalf(m: nat): (r: nat)
    ensures 2 * r == m || 2 * r == m + 1
  {
    if m % 2 == 0 then m / 2 else m / 2 + 1
  }

  /** round((n - 1) / 2) is n / 2 in integer division. */
  lemma RoundHalfIsHalf(n: nat)
    requires n >= 1
    ensures RoundHalf(n - 1) == n / 2
  {
  }

  /** The target slide of dot i: the dots spread over the first, middle and last image. */
  function DotTarget(n: nat, dotCount: nat, i: nat): int
    requires n >= 1
  {
    if n <= dotCount then i
    else if i == 0 then 0
    else if i == dotCount - 1 then n - 1
    else RoundHalf(n - 1)
  }

  /** The dots of the for loop, in order; only dot 0 is active. */
  function Dots(n: nat): (dots: seq<DotView>)
    ensures |dots| == DotCount(n)
  {
    if n <= 1 then []
    else seq(DotCount(n), i requires 0 <= i < DotCount(n) => DotView(i, DotTarget(n, DotCount(n), i), i == 0))
  }

  /**
   * The dot targets are slides that exist, in strictly increasing order: with
   * at most three images every slide has its own dot, otherwise the dots go to
   * the first slide, slide n / 2 and the last slide.
   */
  lemma DotTargets(n: nat)
    ensures var dots := Dots(n);
            && (forall i :: 0 <= i < |dots| ==> dots[i].index == i && 0 <= dots[i].target < n)
            && (forall i, j :: 0 <= i < j < |dots| ==> dots[i].target < dots[j].target)
            && (n <= MaxDots ==> forall i :: 0 <= i < |dots| ==> dots[i].target == i)
            && (n > MaxDots ==> |dots| == 3 && dots[0].target == 0 && dots[1].target == n / 2 && dots[2].target == n - 1)
  {
    if n > MaxDots {
      RoundHalfIsHalf(n);
    }
  }

  /** Exactly one dot, the first, is active. */
  lemma OneActiveDot(n: nat)
    requires n > 1
    ensures var dots := Dots(n);
            && |dots| >= 2
            && dots[0].active
            && (forall i :: 0 <= i < |dots| && dots[i].active ==> i == 0)
  {
  }

  /** Only the first image is handed to the LCP store. */
  function AsLcpImage(image: SlideImage): LcpArg {
    Image(LcpImage(image.src, image.srcset, image.sizes))
  }

  /** The store after rendering: the first image, if any, was offered to it. */
  function StoredAfterRender(stored: Option<LcpImage>, images: seq<SlideImage>, hasLcpHook: bool, inScope: bool): Option<LcpImage>
  {
    if images != [] && hasLcpHook && inScope then Mark(stored, AsLcpImage(images[0])) else stored
  }

  /** On a fresh request, a first image with a non-empty src becomes the LCP image. */
  lemma FirstImageIsLcp(images: seq<SlideImage>)
    requires images != [] && !EmptyEntry(images[0].src)
    ensures StoredAfterRender(None, images, true, true) == Some(LcpImage(images[0].src, images[0].srcset, images[0].sizes))
  {
  }

  /**
   * Slider::render. `hasLcpHook` is function_exists('hw_perf_archive_register_lcp_image')
   * and `inScope` what that function checks before marking.
   */
  method Render(images: seq<SlideImage>, alt: string, fetchpriority: string, permalink: string,
                lcp: LcpStore, hasLcpHook: bool, inScope: bool) returns (out: Markup)
    modifies lcp
    ensures images == [] ==> out == NoMarkup
    ensures images != [] ==> out == SliderMarkup(Slides(images, alt, fetchpriority, permalink), Dots(|images|))
    ensures lcp.stored == StoredAfterRender(old(lcp.stored), images, hasLcpHook, inScope)
  {
    if images == [] {
      return NoMarkup;
    }
    var slides: seq<SlideView> := [];
    var index := 0;
    while index < |images|
      invariant 0 <= index <= |images|
      invariant slides == Slides(images[..index], alt, fetchpriority, permalink)
      invariant lcp.stored == StoredAfterRender(old(lcp.stored), images[..index], hasLcpHook, inScope)
    {
      var image := images[index];
      if index == 0 && hasLcpHook {
        lcp.RegisterImage(AsLcpImage(image), inScope);
      }
      slides := slides + [SlideFor(image, index, alt, fetchpriority, permalink)];
      index := index + 1;
    }
    assert images[..index] == images;

    var dots: seq<DotView> := [];
    var n := |images|;
    if n > 1 {
      var dotCount := DotCount(n);
      var i := 0;
      while i < dotCount
        invariant 0 <= i <= dotCount
        invariant dots == Dots(n)[..i]
      {
        var target := if n <= dotCount then i else if i == 0 then 0 else if i == dotCount - 1 then n - 1 else RoundHalf(n - 1);
        dots := dots + [DotView(i, target, i == 0)];
        i := i + 1;
      }
    }
    return SliderMarkup(slides, dots);
  }
}
