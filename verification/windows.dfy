/** What the feed paginator and the carousel indicators have in common: a
    window is a list of page indices in which `-1` and `-2` stand for an
    ellipsis, and each entry is rendered either as a page button or as a
    non-clickable ellipsis span. */
module Windows {

  /** The two ellipsis markers, `idx === -1 || idx === -2`. */
  predicate IsMarker(x: int) { x == -1 || x == -2 }

  /** `[0, 1, ..., n - 1]`. */
  function Range(n: nat): (r: seq<int>)
    ensures |r| == n
    ensures forall i :: 0 <= i < n ==> r[i] == i
  {
    seq(n, i requires 0 <= i < n => i)
  }

  /** A window over the pages `0 .. last`: it starts with the first page and
      ends with the last, every entry is a marker or a page, two pages side
      by side are consecutive, and a marker sits between two pages that are
      not consecutive. */
  predicate WellFormed(w: seq<int>, last: int) {
    && |w| > 0 && w[0] == 0 && w[|w| - 1] == last
    && (forall i :: 0 <= i < |w| ==> IsMarker(w[i]) || 0 <= w[i] <= last)
    && (forall i :: 0 <= i < |w| - 1 && !IsMarker(w[i]) && !IsMarker(w[i + 1]) ==> w[i + 1] == w[i] + 1)
    && (forall i :: 0 < i < |w| - 1 && IsMarker(w[i]) ==>
          !IsMarker(w[i - 1]) && !IsMarker(w[i + 1]) && w[i + 1] >= w[i - 1] + 2)
  }

  /** Listing every page is a well-formed window without markers. */
  lemma RangeWindow(n: nat)
    ensures n >= 1 ==> WellFormed(Range(n), n - 1)
    ensures forall k :: 0 <= k < n ==> k in Range(n)
  {
    var r := Range(n);
    forall k | 0 <= k < n ensures k in r { assert r[k] == k; }
  }

  /** The first `k` pages, a marker and the last page, with a gap behind the
      marker. */
  lemma HeadWindow(w: seq<int>, k: nat, last: int)
    requires k >= 1 && last >= k + 1 && |w| == k + 2
    requires forall i :: 0 <= i < k ==> w[i] == i
    requires w[k] == -1 && w[k + 1] == last
    ensures WellFormed(w, last)
  {
  }

  /** The first page, a marker and the last `k` pages, with a gap in front
      of the marker. */
  lemma TailWindow(w: seq<int>, k: nat, last: int)
    requires k >= 1 && last >= k + 1 && |w| == k + 2
    requires w[0] == 0 && w[1] == -1
    requires forall i :: 2 <= i < k + 2 ==> w[i] == last - (k + 1) + i
    ensures WellFormed(w, last)
  {
  }

  /** The first page, a marker, pages `p - 1 .. p + 1`, a marker and the
      last page, with a gap at each marker. */
  lemma MiddleWindow(w: seq<int>, p: int, last: int)
    requires 3 <= p && p + 3 <= last
    requires |w| == 7 && w[0] == 0 && w[1] == -1 && w[5] == -2 && w[6] == last
    requires w[2] == p - 1 && w[3] == p && w[4] == p + 1
    ensures WellFormed(w, last)
  {
  }

  /** The pages of a well-formed window strictly increase, so no page is
      shown twice. */
  lemma WellFormedAscending(w: seq<int>, last: int)
    requires WellFormed(w, last)
    ensures forall i, j :: 0 <= i < j < |w| && !IsMarker(w[i]) && !IsMarker(w[j]) ==> w[i] < w[j]
  {
    forall i, j | 0 <= i < j < |w| && !IsMarker(w[i]) && !IsMarker(w[j]) ensures w[i] < w[j] {
      AscendingBetween(w, last, i, j);
    }
  }

  lemma {:induction false} AscendingBetween(w: seq<int>, last: int, i: int, j: int)
    requires WellFormed(w, last)
    requires 0 <= i < j < |w| && !IsMarker(w[i]) && !IsMarker(w[j])
    ensures w[i] < w[j]
    decreases j - i
  {
    if !IsMarker(w[j - 1]) {
      if j - 1 > i { AscendingBetween(w, last, i, j - 1); }
    } else {
      if j - 2 > i { AscendingBetween(w, last, i, j - 2); }
    }
  }

  /** The marker at position `m` stands for page `k`: `k` lies strictly
      between the pages on either side of it. */
  predicate SkippedBy(w: seq<int>, m: int, k: int) {
    0 < m < |w| - 1 && IsMarker(w[m]) && w[m - 1] < k < w[m + 1]
  }

  /** Every page `0 .. last` is either shown or stood for by a marker. */
  lemma WellFormedCovers(w: seq<int>, last: int, k: int)
    requires WellFormed(w, last)
    requires 0 <= k <= last
    ensures k in w || exists m :: SkippedBy(w, m, k)
  {
    CoversFrom(w, last, k, 0);
  }

  lemma {:induction false} CoversFrom(w: seq<int>, last: int, k: int, i: int)
    requires WellFormed(w, last)
    requires 0 <= i < |w| && !IsMarker(w[i]) && w[i] <= k <= last
    ensures k in w || exists m :: SkippedBy(w, m, k)
    decreases |w| - i
  {
    if w[i] < k {
      if !IsMarker(w[i + 1]) {
        CoversFrom(w, last, k, i + 1);
      } else if k < w[i + 2] {
        assert SkippedBy(w, i + 1, k);
      } else {
        CoversFrom(w, last, k, i + 2);
      }
    }
  }

  /* ---------- rendering ---------- */

  /** What one entry renders as. */
  datatype Entry = PageButton(index: int) | Ellipsis

  function RenderEntry(x: int): Entry {
    if IsMarker(x) then Ellipsis else PageButton(x)
  }

  /** Entry by entry: a marker becomes an ellipsis span and any other index
      a button for that page. */
  function Render(w: seq<int>): (r: seq<Entry>)
    ensures |r| == |w|
    ensures forall i :: 0 <= i < |w| ==>
              (r[i].Ellipsis? <==> IsMarker(w[i])) && (r[i].PageButton? ==> r[i].index == w[i])
  {
    seq(|w|, i requires 0 <= i < |w| => RenderEntry(w[i]))
  }

  /** A well-formed window renders as buttons for pages `0 .. last` in
      strictly increasing order (so their keys differ), separated by
      ellipses that are neither first, last, nor next to each other; each
      ellipsis span comes from a marker and each button shows the page at
      its position. */
  lemma RenderWellFormed(w: seq<int>, last: int)
    requires WellFormed(w, last)
    ensures var r := Render(w);
      && r[0] == PageButton(0) && r[|r| - 1] == PageButton(last)
      && (forall i :: 0 <= i < |r| && r[i].PageButton? ==> 0 <= r[i].index <= last)
      && (forall i :: 0 <= i < |r| ==>
            (r[i].Ellipsis? <==> IsMarker(w[i])) && (r[i].PageButton? ==> r[i].index == w[i]))
      && (forall i, j :: 0 <= i < j < |r| && r[i].PageButton? && r[j].PageButton? ==> r[i].index < r[j].index)
      && (forall i :: 0 < i < |r| - 1 && r[i].Ellipsis? ==> r[i - 1].PageButton? && r[i + 1].PageButton?)
  {
    WellFormedAscending(w, last);
  }
}
