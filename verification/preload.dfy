/** The asset preloader (src/components/PreloadManager.tsx): one shared counter of
    finished loads, a progress percentage derived from it against an estimate of
    50 assets, a completion callback scheduled from the 50th count on, and a
    top-up at 3 s that schedules the counts still missing. Progress is the whole
    number `2 * count` capped at 100, which is what `count / 50 * 100` is up to
    floating-point noise; the 100 threshold itself is reached exactly. */
module Preload {

  /** `totalAssets`. */
  const TotalAssets: nat := 50

  /** `Math.min((count / 50) * 100, 100)`. */
  function Progress(count: nat): (r: nat)
    ensures r <= 100
    ensures r == 100 <==> count >= TotalAssets
    ensures count < TotalAssets ==> r == 2 * count
  {
    if 2 * count < 100 then 2 * count else 100
  }

  /** Progress never goes down as the count grows. */
  lemma ProgressMonotone(a: nat, b: nat)
    requires a <= b
    ensures Progress(a) <= Progress(b)
  {
  }

  /** The counter, every progress value reported to `onProgress` so far, and how
      many times `onComplete` has been scheduled. */
  datatype Preloader = Preloader(count: nat, reported: seq<nat>, completions: nat)

  const Start: Preloader := Preloader(0, [], 0)

  /** `updateProgress`: count one more load, report the new progress, and schedule
      completion when it has reached 100. */
  function UpdateProgress(p: Preloader): (r: Preloader)
    ensures r.count == p.count + 1
    ensures r.reported == p.reported + [Progress(r.count)]
    ensures r.completions == p.completions + (if r.count >= TotalAssets then 1 else 0)
  {
    var count := p.count + 1;
    var progress := Progress(count);
    Preloader(count, p.reported + [progress], p.completions + (if progress >= 100 then 1 else 0))
  }

  /** How a load ended: the image or stylesheet's `onload` or its `onerror`. */
  datatype Outcome = Loaded | Failed

  /** Both handlers are `updateProgress`. */
  function OnSettled(p: Preloader, o: Outcome): (r: Preloader)
    ensures r.count == p.count + 1
  {
    match o
    case Loaded => UpdateProgress(p)
    case Failed => UpdateProgress(p)
  }

  /** A failed load counts exactly like a successful one. */
  lemma FailureCountsLikeSuccess(p: Preloader)
    ensures OnSettled(p, Failed) == OnSettled(p, Loaded)
  {
  }

  /** `k` calls of `updateProgress`. */
  function Calls(p: Preloader, k: nat): (r: Preloader)
    ensures r.count == p.count + k
    ensures |r.reported| == |p.reported| + k
    decreases k
  {
    if k == 0 then p else Calls(UpdateProgress(p), k - 1)
  }

  /** The reports are non-decreasing and at most 100. */
  predicate ReportsOrdered(p: Preloader)
  {
    && (forall i | 0 <= i < |p.reported| :: p.reported[i] <= 100)
    && (forall i, j | 0 <= i <= j < |p.reported| :: p.reported[i] <= p.reported[j])
    && (|p.reported| > 0 ==> p.reported[|p.reported| - 1] == Progress(p.count))
  }

  /** From the start, every sequence of calls reports a non-decreasing progress
      that never exceeds 100. */
  lemma {:induction false} CallsKeepReportsOrdered(p: Preloader, k: nat)
    requires ReportsOrdered(p)
    requires |p.reported| == 0 ==> p.count == 0
    ensures ReportsOrdered(Calls(p, k))
    decreases k
  {
    if k > 0 {
      var q := UpdateProgress(p);
      if |p.reported| > 0 {
        ProgressMonotone(p.count, q.count);
      }
      assert ReportsOrdered(q);
      CallsKeepReportsOrdered(q, k - 1);
    }
  }

  /** Completion is scheduled once on each call that takes the count to 50 or more,
      so after `k` more calls it has been scheduled `max(0, count + k - max(count,
      49))` more times: once for the call reaching 50, and again for every call
      after it. */
  lemma {:induction false} CompletionsScheduled(p: Preloader, k: nat)
    ensures Calls(p, k).completions ==
      p.completions + (if p.count + k <= 49 then 0
                       else if p.count >= 49 then k
                       else p.count + k - 49)
    decreases k
  {
    if k > 0 {
      CompletionsScheduled(UpdateProgress(p), k - 1);
    }
  }

  // ---------------------------------------------------------------------------
  // Where the calls come from
  // ---------------------------------------------------------------------------

  const FontCount: nat := 2
  const ImageCount: nat := 20
  const CriticalCount: nat := 10

  /** The top-up at 3 s: `50 - count` more calls when the count is short of 50. */
  function TopUp(countAt3s: nat): (k: nat)
    ensures countAt3s + k >= TotalAssets
    ensures countAt3s < TotalAssets ==> countAt3s + k == TotalAssets
    ensures countAt3s >= TotalAssets ==> k == 0
  {
    if countAt3s < TotalAssets then TotalAssets - countAt3s else 0
  }

  /** How a run's loads turned out: how many of the font stylesheets and of the
      images fired `onload` or `onerror` at all (a request may stall and fire
      neither), and how many images were already complete when their delayed check
      ran, which counts them a second time. Only an image that has finished can be
      complete. */
  datatype Settling = Settling(fonts: nat, images: nat, doubled: nat)

  predicate Possible(t: Settling)
  {
    t.fonts <= FontCount && t.images <= ImageCount && t.doubled <= t.images
  }

  /** The calls the sources make: one from the component timer, one per settled
      font, one per settled image plus one more for each image complete at its
      check, and one per critical resource. */
  function SourceCalls(t: Settling): (n: nat)
    requires Possible(t)
    ensures 1 + CriticalCount <= n <= 1 + CriticalCount + FontCount + 2 * ImageCount
    ensures n == 1 + CriticalCount + FontCount + 2 * ImageCount <==>
      t == Settling(FontCount, ImageCount, ImageCount)
    ensures t.fonts == FontCount && t.images == ImageCount ==> n >= 33
  {
    1 + t.fonts + t.images + t.doubled + CriticalCount
  }

  /** All calls of a run: the sources' calls and the top-up, given the count when
      the top-up ran. The component timer (100 ms) and the ten critical resources
      (500 ms to 2300 ms) have all counted by 3 s, so that count is at least 11,
      and it cannot exceed the sources' calls. */
  function TotalCalls(t: Settling, countAt3s: nat): (n: nat)
    requires Possible(t)
    requires 1 + CriticalCount <= countAt3s <= SourceCalls(t)
    ensures n >= TotalAssets
    ensures n - SourceCalls(t) == if countAt3s < TotalAssets then TotalAssets - countAt3s else 0
  {
    SourceCalls(t) + TopUp(countAt3s)
  }

  /** Every run schedules completion at least once, however many requests stall,
      because the top-up makes up the difference; it is scheduled exactly once
      only when every call the sources made had already counted by 3 s, or when
      the sources alone made exactly 50 calls. */
  lemma CompletionOfARun(t: Settling, countAt3s: nat)
    requires Possible(t)
    requires 1 + CriticalCount <= countAt3s <= SourceCalls(t)
    ensures Calls(Start, TotalCalls(t, countAt3s)).completions >= 1
    ensures Calls(Start, TotalCalls(t, countAt3s)).completions == 1 <==>
      (if countAt3s < TotalAssets then countAt3s == SourceCalls(t) else SourceCalls(t) == TotalAssets)
  {
    CompletionsScheduled(Start, TotalCalls(t, countAt3s));
  }

  /** When every font and image stalls, the sources make only 11 calls; the top-up
      then brings the count to exactly 50 and completion is scheduled once. */
  lemma StalledRunCompletesOnce()
    ensures SourceCalls(Settling(0, 0, 0)) == 11
    ensures TotalCalls(Settling(0, 0, 0), 11) == TotalAssets
    ensures Calls(Start, TotalCalls(Settling(0, 0, 0), 11)).completions == 1
  {
    CompletionOfARun(Settling(0, 0, 0), 11);
  }

  /** When every image is complete by its check, the sources alone make 53 calls,
      so the count passes 50 with no top-up and completion is scheduled four
      times. */
  lemma ImagesCanCountTwice()
    ensures SourceCalls(Settling(FontCount, ImageCount, ImageCount)) == 53
    ensures TopUp(53) == 0
    ensures Calls(Start, 53).count == 53 && Calls(Start, 53).completions == 4
  {
    CompletionsScheduled(Start, 53);
  }
}
