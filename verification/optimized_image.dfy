/** The image component used for event artwork (src/components/OptimizedImage.tsx):
    the rewriting of Unsplash URLs into sized, compressed variants, and the three
    flags (`isLoaded`, `isInView`, `hasError`) that decide what is rendered.
    Widths, heights and quality are whole numbers here. */
module OptimizedImage {
  import opened Wrappers
  import opened Text
  import opened FormUrlEncoded

  const UnsplashHost: string := "unsplash.com"

  /** The default `quality` prop. */
  const DefaultQuality: int := 80

  /** A numeric prop is truthy when it is given and not 0. */
  predicate Truthy(x: Option<int>)
  {
    x.Some? && x.value != 0
  }

  /** The parameters appended, in order: `w` and `h` when truthy, then `q` and
      `auto=format`. */
  function Params(width: Option<int>, height: Option<int>, quality: int): (ps: seq<Pair>)
    ensures |ps| == 2 + (if Truthy(width) then 1 else 0) + (if Truthy(height) then 1 else 0)
    ensures ps[|ps| - 2] == ("q", IntToString(quality)) && ps[|ps| - 1] == ("auto", "format")
    ensures Truthy(width) ==> ps[0] == ("w", IntToString(width.value))
    ensures Truthy(height) ==> ps[|ps| - 3] == ("h", IntToString(height.value))
    ensures !Truthy(width) ==> forall i | 0 <= i < |ps| :: ps[i].0 != "w"
    ensures !Truthy(height) ==> forall i | 0 <= i < |ps| :: ps[i].0 != "h"
  {
    (if Truthy(width) then [("w", IntToString(width.value))] else [])
    + (if Truthy(height) then [("h", IntToString(height.value))] else [])
    + [("q", IntToString(quality)), ("auto", "format")]
  }

  /** The `quality` prop after destructuring: the default 80 applies only when the
      prop is left out, so an explicit 0 is kept. */
  function QualityProp(quality: Option<int>): (q: int)
    ensures quality.None? ==> q == DefaultQuality
    ensures quality.Some? ==> q == quality.value
  {
    quality.GetOr(DefaultQuality)
  }

  /** Without a `quality` prop the query carries `q=80`. */
  lemma DefaultQualityParam(width: Option<int>, height: Option<int>)
    ensures var ps := Params(width, height, QualityProp(None));
      ps[|ps| - 2] == ("q", "80")
  {
    assert IntToString(80) == "80";
  }

  /** `getOptimizedSrc`: a URL containing "unsplash.com" loses its query and gets
      the parameters instead; any other URL is left alone. */
  function GetOptimizedSrc(src: string, width: Option<int>, height: Option<int>, quality: int): (r: string)
    ensures !Contains(src, UnsplashHost) ==> r == src
    ensures Contains(src, UnsplashHost) ==>
      r == Split(src, '?')[0] + "?" + Serialize(Params(width, height, quality))
  {
    if Contains(src, UnsplashHost) then
      Split(src, '?')[0] + "?" + Serialize(Params(width, height, quality))
    else src
  }

  /** An integer's decimal text needs no percent-encoding. */
  lemma IntToStringIsSafe(n: int)
    ensures AllSafe(IntToString(n))
  {
  }

  /** Every name and value in the parameter list is left as it is by the
      serializer. */
  lemma ParamsAreSafe(width: Option<int>, height: Option<int>, quality: int)
    ensures forall i | 0 <= i < |Params(width, height, quality)| ::
      AllSafe(Params(width, height, quality)[i].0) && AllSafe(Params(width, height, quality)[i].1)
  {
    var ps := Params(width, height, quality);
    forall i | 0 <= i < |ps|
      ensures AllSafe(ps[i].0) && AllSafe(ps[i].1)
    {
      if width.Some? { IntToStringIsSafe(width.value); }
      if height.Some? { IntToStringIsSafe(height.value); }
      IntToStringIsSafe(quality);
      assert AllSafe("w") && AllSafe("h") && AllSafe("q") && AllSafe("auto") && AllSafe("format");
    }
  }

  /** The serialized parameters: no `?`, `auto=format` last, and they read back as
      the list. */
  lemma QueryFacts(width: Option<int>, height: Option<int>, quality: int)
    ensures var ps := Params(width, height, quality);
      '?' !in Serialize(ps) && EndsWith(Serialize(ps), "auto=format") && ReadPairs(Serialize(ps)) == ps
  {
    var ps := Params(width, height, quality);
    SerializeHasNoQuestionMark(ps);
    SerializeEndsWithLastPair(ps);
    AutoFormatText(ps[|ps| - 1]);
    ParamsAreSafe(width, height, quality);
    ReadSerialize(ps);
  }

  lemma AutoFormatText(p: Pair)
    requires p == ("auto", "format")
    ensures PairText(p) == "auto=format"
  {
    assert AllSafe(p.0) && AllSafe(p.1);
    PairTextOfSafe(p);
    AutoFormatJoin(p.0, p.1);
  }

  lemma AutoFormatJoin(name: string, value: string)
    requires name == "auto" && value == "format"
    ensures name + "=" + value == "auto=format"
  {
  }

  /** `base?query` for a base and a query without `?`. */
  lemma JoinedUrl(base: string, query: string, suffix: string)
    requires '?' !in base && '?' !in query && EndsWith(query, suffix)
    ensures var r := base + "?" + query;
      CountChar(r, '?') == 1 && StartsWith(r, base + "?") && EndsWith(r, suffix)
      && r[|base| + 1..] == query
  {
    var r := base + "?" + query;
    CountCharAppend(base, "?", '?');
    CountCharAppend(base + "?", query, '?');
    assert CountChar("?", '?') == 1;
    assert r[|r| - |suffix|..] == query[|query| - |suffix|..];
    assert r[..|base + "?"|] == base + "?";
  }

  /** A rewritten URL has exactly one `?`, keeps everything before the original's
      first `?`, ends with `auto=format`, and its query reads back as the
      parameter list. */
  lemma RewrittenUrlShape(src: string, width: Option<int>, height: Option<int>, quality: int)
    requires Contains(src, UnsplashHost)
    ensures var r := GetOptimizedSrc(src, width, height, quality);
      CountChar(r, '?') == 1
      && StartsWith(r, Split(src, '?')[0] + "?")
      && EndsWith(r, "auto=format")
      && ReadPairs(r[|Split(src, '?')[0]| + 1..]) == Params(width, height, quality)
  {
    var base := Split(src, '?')[0];
    var query := Serialize(Params(width, height, quality));
    QueryFacts(width, height, quality);
    JoinedUrl(base, query, "auto=format");
  }

  /** Rewriting a rewritten URL with the same props changes nothing. */
  lemma GetOptimizedSrcIdempotent(src: string, width: Option<int>, height: Option<int>, quality: int)
    ensures var r := GetOptimizedSrc(src, width, height, quality);
      GetOptimizedSrc(r, width, height, quality) == r
  {
    var r := GetOptimizedSrc(src, width, height, quality);
    if Contains(src, UnsplashHost) && Contains(r, UnsplashHost) {
      var base := Split(src, '?')[0];
      var query := Serialize(Params(width, height, quality));
      assert r == base + ['?'] + query;
      SplitAtFirstSeparator(base, '?', query);
    }
  }

  // ---------------------------------------------------------------------------
  // Rendering flags
  // ---------------------------------------------------------------------------

  /** The data URI shown in place of an image that failed to load. */
  const FallbackSrc: string := "data:image/svg+xml;base64,PHN2ZyB3aWR0aD0iNDAwIiBoZWlnaHQ9IjMwMCIgeG1sbnM9Imh0dHA6Ly93d3cudzMub3JnLzIwMDAvc3ZnIj48cmVjdCB3aWR0aD0iMTAwJSIgaGVpZ2h0PSIxMDAlIiBmaWxsPSIjMEQxQjJBIi8+PHRleHQgeD0iNTAlIiB5PSI1MCUiIGZvbnQtZmFtaWx5PSJzYW5zLXNlcmlmIiBmb250LXNpemU9IjE4IiBmaWxsPSIjRjVCNzAwIiB0ZXh0LWFuY2hvcj0ibWlkZGxlIiBkeT0iLjNlbSI+RUtOQSAyMDI1PC90ZXh0Pjwvc3ZnPg=="

  datatype Image = Image(isLoaded: bool, isInView: bool, hasError: bool)

  /** The flags at mount: an eager or priority image is in view at once. */
  function Mount(lazy: bool, priority: bool): (img: Image)
    ensures img.isInView <==> !lazy || priority
    ensures !img.isLoaded && !img.hasError
  {
    Image(false, !lazy || priority, false)
  }

  /** What can happen to a mounted image: the observer reports it intersecting the
      viewport, or the `<img>` element reports a load or an error. */
  datatype ImageEvent = Intersecting | Loaded | Failed

  /** The observer only sets `isInView`; `onLoad` and `onError` can only come
      from an `<img>` that is rendered, which it is only while in view. */
  function Step(img: Image, ev: ImageEvent): (r: Image)
    ensures img.isInView ==> r.isInView
    ensures img.hasError ==> r.hasError
    ensures img.isLoaded ==> r.isLoaded
    ensures r.hasError && !img.hasError ==> ev == Failed && img.isInView
    ensures r.isLoaded && !img.isLoaded ==> ev == Loaded && img.isInView
  {
    match ev
    case Intersecting => img.(isInView := true)
    case Loaded => if img.isInView then img.(isLoaded := true) else img
    case Failed => if img.isInView then img.(hasError := true) else img
  }

  function Run(img: Image, evs: seq<ImageEvent>): Image
    decreases |evs|
  {
    if |evs| == 0 then img else Run(Step(img, evs[0]), evs[1..])
  }

  /** No flag is ever cleared: once in view, loaded or failed, always so. */
  lemma {:induction false} FlagsOnlyRise(img: Image, evs: seq<ImageEvent>)
    ensures img.isInView ==> Run(img, evs).isInView
    ensures img.hasError ==> Run(img, evs).hasError
    ensures img.isLoaded ==> Run(img, evs).isLoaded
    decreases |evs|
  {
    if |evs| > 0 {
      FlagsOnlyRise(Step(img, evs[0]), evs[1..]);
    }
  }

  /** An image that is never in view never loads and never fails. */
  lemma {:induction false} OutOfViewStaysBlank(img: Image, evs: seq<ImageEvent>)
    requires !img.isLoaded && !img.hasError
    requires forall i | 0 <= i < |evs| :: evs[i] != Intersecting
    ensures Run(img, evs) == img || img.isInView
    decreases |evs|
  {
    if |evs| > 0 && !img.isInView {
      assert Step(img, evs[0]) == img;
      OutOfViewStaysBlank(img, evs[1..]);
    }
  }

  /** The `src` of the rendered `<img>`, if one is rendered. */
  function RenderedSrc(img: Image, src: string, width: Option<int>, height: Option<int>, quality: int): (r: Option<string>)
    ensures r.Some? <==> img.isInView
    ensures img.isInView && img.hasError ==> r == Some(FallbackSrc)
    ensures img.isInView && !img.hasError ==> r == Some(GetOptimizedSrc(src, width, height, quality))
  {
    if !img.isInView then None
    else if img.hasError then Some(FallbackSrc)
    else Some(GetOptimizedSrc(src, width, height, quality))
  }

  /** The pulsing placeholder shows while a visible image has neither loaded nor
      failed. */
  predicate ShowsPlaceholder(img: Image)
    ensures ShowsPlaceholder(img) ==> Step(img, Loaded).isLoaded && Step(img, Failed).hasError
  {
    !img.isLoaded && img.isInView && !img.hasError
  }

  /** After an error, whatever happens next, the image shows the fallback and no
      placeholder. */
  lemma AfterErrorFallback(img: Image, evs: seq<ImageEvent>, src: string, width: Option<int>, height: Option<int>, quality: int)
    requires img.hasError
    ensures Run(img, evs).hasError
    ensures Run(img, evs).isInView ==> RenderedSrc(Run(img, evs), src, width, height, quality) == Some(FallbackSrc)
    ensures !ShowsPlaceholder(Run(img, evs))
  {
    FlagsOnlyRise(img, evs);
  }
}
