/** `CarouselIndicators`: the dot bar under the mobile carousel. It has its
    own window rule, different from the feed's: four leading or four
    trailing slides around the ends, and the bar is hidden for a single
    slide. */
module Carousel {
  import opened Wrappers
  import opened Windows

  const MaxVisible: nat := 5

  /** `renderPages()` for `n` slides with slide `s` selected. */
  function CarouselWindow(n: nat, s: int): (w: seq<int>)
    ensures n <= MaxVisible ==> |w| == n && forall i :: 0 <= i < n ==> w[i] == i
    ensures n >= 1 ==> WellFormed(w, n - 1)
    ensures n > MaxVisible ==> |w| == 6 || |w| == 7
    ensures 0 <= s < n ==> s in w
  {
    if n <= MaxVisible then RangeWindow(n); Range(n)
    else if s < 3 then
      var w := [0, 1, 2, 3, -1, n - 1];
      assert WellFormed(w, n - 1) by { HeadWindow(w, 4, n - 1); }
      w
    else if s > n - 4 then
      var w := [0, -1, n - 4, n - 3, n - 2, n - 1];
      assert WellFormed(w, n - 1) by { TailWindow(w, 4, n - 1); }
      w
    else
      var w := [0, -1, s - 1, s, s + 1, -2, n - 1];
      assert WellFormed(w, n - 1) by { MiddleWindow(w, s, n - 1); }
      w
  }

  /** The rendered indicator bar, or None when `slideCount <= 1` hides it. */
  function Indicators(n: nat, s: int): (r: Option<seq<Entry>>)
    ensures r.None? <==> n <= 1
    ensures r.Some? ==> |r.value| >= 2 && r.value[0] == PageButton(0) && r.value[|r.value| - 1] == PageButton(n - 1)
    ensures r.Some? ==> forall i :: 0 <= i < |r.value| && r.value[i].PageButton? ==> 0 <= r.value[i].index < n
    ensures r.Some? && 0 <= s < n ==> PageButton(s) in r.value
  {
    if n <= 1 then None
    else
      var w := CarouselWindow(n, s);
      RenderWellFormed(w, n - 1);
      assert 0 <= s < n ==> PageButton(s) in Render(w) by {
        if 0 <= s < n {
          var j :| 0 <= j < |w| && w[j] == s;
          assert Render(w)[j] == PageButton(s);
        }
      }
      Some(Render(w))
  }

  /** Every slide is either shown or stood for by an ellipsis. */
  lemma CarouselWindowCovers(n: nat, s: int, k: int)
    requires 0 <= k < n
    ensures k in CarouselWindow(n, s) || exists m :: SkippedBy(CarouselWindow(n, s), m, k)
  {
    WellFormedCovers(CarouselWindow(n, s), n - 1, k);
  }
}
