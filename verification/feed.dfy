/** The home feed's paginator (`MainContentSection`): posts are cut into
    pages of five, the current page is shown, and a compact window of page
    buttons with ellipses is rendered between Previous and Next. */
module Feed {
  import opened Wrappers
  import opened Seqs
  import opened Windows

  const BlogsPerPage: nat := 5

  /** `Math.ceil(n / blogsPerPage)`: the fewest pages of five that hold `n`
      posts. */
  function TotalPages(n: nat): (t: nat)
    ensures t * BlogsPerPage >= n
    ensures t > 0 ==> (t - 1) * BlogsPerPage < n
  {
    (n + BlogsPerPage - 1) / BlogsPerPage
  }

  /** `s.slice(start, end)` for non-negative bounds: the end is clamped to
      the length, an empty range gives the empty list, and entry `i` of the
      result is entry `start + i` of `s`. */
  function JsSlice<T>(s: seq<T>, start: nat, end: nat): (r: seq<T>)
    ensures var e := if end < |s| then end else |s|;
      |r| == (if start < e then e - start else 0)
    ensures forall i :: 0 <= i < |r| ==> r[i] == s[start + i]
  {
    var e := if end < |s| then end else |s|;
    if start >= e then [] else s[start..e]
  }

  /** `pages`: page `i` is `posts.slice(5 * i, 5 * i + 5)`. */
  function Pages<T>(posts: seq<T>): (pages: seq<seq<T>>)
    ensures |pages| == TotalPages(|posts|)
    ensures forall i :: 0 <= i < |pages| ==> 0 < |pages[i]| <= BlogsPerPage
    ensures forall i :: 0 <= i < |pages| - 1 ==> |pages[i]| == BlogsPerPage
  {
    var t := TotalPages(|posts|);
    seq(t, i requires 0 <= i < t => JsSlice(posts, i * BlogsPerPage, (i + 1) * BlogsPerPage))
  }

  /** After the first page, the pages are those of the remaining posts. */
  lemma PagesTail<T>(posts: seq<T>)
    requires |posts| > BlogsPerPage
    ensures Pages(posts)[0] == posts[..BlogsPerPage]
    ensures Pages(posts)[1..] == Pages(posts[BlogsPerPage..])
  {
    var ps, rest := Pages(posts), Pages(posts[BlogsPerPage..]);
    assert |ps[1..]| == |rest|;
    var tail := posts[BlogsPerPage..];
    forall i | 0 <= i < |rest| ensures ps[1..][i] == rest[i] {
      var lo := (i + 1) * BlogsPerPage;
      var e := if lo + BlogsPerPage < |posts| then lo + BlogsPerPage else |posts|;
      assert ps[1..][i] == ps[i + 1] == JsSlice(posts, lo, lo + BlogsPerPage);
      assert rest[i] == JsSlice(tail, lo - BlogsPerPage, lo);
      assert lo < e;
      assert JsSlice(posts, lo, lo + BlogsPerPage) == posts[lo..e];
      assert JsSlice(tail, lo - BlogsPerPage, lo) == tail[lo - BlogsPerPage..e - BlogsPerPage];
      assert tail[lo - BlogsPerPage..e - BlogsPerPage] == posts[lo..e];
    }
  }

  /** Concatenating the pages gives back the posts, in order. */
  lemma {:induction false} PagesFlatten<T>(posts: seq<T>)
    ensures Flatten(Pages(posts)) == posts
    decreases |posts|
  {
    var ps := Pages(posts);
    if |posts| == 0 {
    } else if |posts| <= BlogsPerPage {
      assert |ps| == 1 && ps[0] == posts;
      assert Flatten(ps) == ps[0] + Flatten(ps[1..]);
    } else {
      PagesTail(posts);
      PagesFlatten(posts[BlogsPerPage..]);
      assert Flatten(ps) == ps[0] + Flatten(ps[1..]);
      assert posts == posts[..BlogsPerPage] + posts[BlogsPerPage..];
    }
  }

  /** `pages[currentPage]`, which is `undefined` outside the pages; the
      list component then fails on `posts.map` while rendering. */
  function PageAt<T>(pages: seq<seq<T>>, p: int): (r: Option<seq<T>>)
    ensures r.Some? <==> 0 <= p < |pages|
  {
    if 0 <= p < |pages| then Some(pages[p]) else None
  }

  /** The feed shows items `5p .. min(5p + 5, n) - 1` on page `p`; a current
      page at or past the page count (it is never clamped when the posts
      change) has no page, and the list it is handed is `undefined`. */
  lemma CurrentPageItems<T>(posts: seq<T>, p: int)
    ensures var n := |posts|;
      var e := if BlogsPerPage * p + BlogsPerPage < n then BlogsPerPage * p + BlogsPerPage else n;
      PageAt(Pages(posts), p) == (if 0 <= p < TotalPages(n) then Some(posts[BlogsPerPage * p..e]) else None)
  {
  }

  /* ---------- the page-index window ---------- */

  /** `renderPagination`'s `pagesToShow` for `t` pages and current page `p`. */
  function FeedWindow(t: nat, p: int): (w: seq<int>)
    ensures t <= 5 ==> |w| == t && forall i :: 0 <= i < t ==> w[i] == i
    ensures t == 0 ==> w == []
    ensures t >= 1 ==> WellFormed(w, t - 1)
    ensures t > 5 ==> |w| == 5 || |w| == 7
    ensures 0 <= p < t ==> p in w
  {
    if t <= 5 then RangeWindow(t); Range(t)
    else if p <= 2 then
      var w := [0, 1, 2, -1, t - 1];
      assert WellFormed(w, t - 1) by { HeadWindow(w, 3, t - 1); }
      w
    else if p >= t - 3 then
      var w := [0, -1, t - 3, t - 2, t - 1];
      assert WellFormed(w, t - 1) by { TailWindow(w, 3, t - 1); }
      w
    else
      var w := [0, -1, p - 1, p, p + 1, -2, t - 1];
      assert WellFormed(w, t - 1) by { MiddleWindow(w, p, t - 1); }
      w
  }

  /** A window with an ellipsis misses exactly the pages its markers stand
      for: every page is either shown or skipped by one marker. */
  lemma FeedWindowCovers(t: nat, p: int, k: int)
    requires 0 <= k < t
    ensures k in FeedWindow(t, p) || exists m :: SkippedBy(FeedWindow(t, p), m, k)
  {
    WellFormedCovers(FeedWindow(t, p), t - 1, k);
  }

  /** A stale current page, past the last page, is not highlighted in the
      window. */
  lemma FeedWindowStalePage(t: nat, p: int)
    requires t > 5 && p >= t
    ensures p !in FeedWindow(t, p)
  {
  }

  /* ---------- Previous / Next ---------- */

  predicate PrevDisabled(p: int) { p == 0 }

  /** `setCurrentPage(p => Math.max(0, p - 1))`. */
  function PrevPage(p: int): (r: int)
    ensures r >= 0
    ensures p > 0 ==> r == p - 1
    ensures p >= 0 ==> (r == p <==> PrevDisabled(p))
  {
    if p - 1 > 0 then p - 1 else 0
  }

  predicate NextDisabled(p: int, t: nat) { p == t - 1 }

  /** `setCurrentPage(p => Math.min(totalPages - 1, p + 1))`. */
  function NextPage(p: int, t: nat): (r: int)
    ensures r <= t - 1
    ensures p < t - 1 ==> r == p + 1
    ensures 0 <= p < t ==> 0 <= r && (r == p <==> NextDisabled(p, t))
  {
    if t - 1 < p + 1 then t - 1 else p + 1
  }

  /** The Next rules at a page count of zero: the disabled test is false at
      page 0 and the click arithmetic gives -1. The home page never reaches
      the button in this state, because with no posts page 0 is `undefined`
      and the list above it fails first. */
  lemma NextWithoutPages()
    ensures !NextDisabled(0, 0) && NextPage(0, 0) == -1
    ensures PageAt(Pages<int>([]), 0) == None
  {
  }

  /** A click in the pagination bar. */
  datatype Click = Previous | Next | GoTo(index: int)

  /** A button that is rendered and enabled: Previous and Next unless
      disabled, and every page entry of the window. */
  predicate Enabled(t: nat, p: int, c: Click) {
    match c
    case Previous => !PrevDisabled(p)
    case Next => !NextDisabled(p, t)
    case GoTo(i) => i in FeedWindow(t, p) && !IsMarker(i)
  }

  /** The current page after a click: a disabled button does nothing, a
      page button goes to its page, and an enabled click from a page among
      the pages lands on a page among the pages. */
  function Step(t: nat, p: int, c: Click): (r: int)
    ensures !Enabled(t, p, c) ==> r == p
    ensures c.GoTo? && Enabled(t, p, c) ==> r == c.index
    ensures 0 <= p < t ==> 0 <= r < t
  {
    if !Enabled(t, p, c) then p
    else match c
      case Previous => PrevPage(p)
      case Next => NextPage(p, t)
      case GoTo(i) =>
        WellFormedAscending(FeedWindow(t, p), t - 1);
        i
  }

  /** The current page after a sequence of clicks, with the post list (and
      so the page count) unchanged throughout. As long as the current page
      starts among the pages it stays among them. */
  function Run(t: nat, p: int, clicks: seq<Click>): (r: int)
    ensures |clicks| == 0 ==> r == p
    ensures 0 <= p < t ==> 0 <= r < t
    decreases |clicks|
  {
    if |clicks| == 0 then p else Run(t, Step(t, p, clicks[0]), clicks[1..])
  }

  /** Clicking through `a` and then `b` is clicking through `a + b`. */
  lemma {:induction false} RunConcat(t: nat, p: int, a: seq<Click>, b: seq<Click>)
    ensures Run(t, p, a + b) == Run(t, Run(t, p, a), b)
    decreases |a|
  {
    if |a| > 0 {
      assert (a + b)[0] == a[0] && (a + b)[1..] == a[1..] + b;
      RunConcat(t, Step(t, p, a[0]), a[1..], b);
    } else {
      assert a + b == b;
    }
  }
}
