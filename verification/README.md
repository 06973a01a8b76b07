# Blog front-end core, modelled in Dafny

This project models the logic inside the blog front-end's pages. It leaves
out what they render. There are five parts:

- **Search query resolver** (`searchPosts` on the search page). A raw query
  is read as exactly one of four forms, tried in this order:
  - the *most-liked shortcut*: the lower-cased query contains `most liked`
    or `mostliked` anywhere;
  - a *numeric range*, `a...b` or `a-b`, which keeps the posts whose title
    ends in `Blog Post <n>` with `a <= n <= b`;
  - a *letter range*, `x-y` in either case, which keeps the posts whose
    trimmed title starts with a letter in `x .. y`;
  - *free text*, which keeps the posts whose title, content, a tag or the
    author's name contains the lower-cased query.
- **Feed paginator** (`MainContentSection`):
  - pages of five posts;
  - `Math.ceil` for the page count;
  - `slice` for each page;
  - a page-button window in which `-1` and `-2` stand for ellipses;
  - the Previous and Next buttons with their disabled rules.
- **Carousel indicators** (`CarouselIndicators`): their own window rule,
  `renderPages`, and the rule that the bar is hidden when there is at most
  one slide.
- **Like toggle**: on the home page it is applied to both lists, the feed
  and most-liked; on the search page it is applied to the result list.
- **Search bar**:
  - the suggestion filter;
  - the trim-guarded submit;
  - the verbatim suggestion click;
  - the dropdown visibility condition.

Modules follow the source:

- `Text` holds the JavaScript string primitives the code relies on: ASCII
  `toLowerCase`, `includes`, ECMAScript `trim`, `\d+`, `parseInt` and
  `${n}`.
- `Seqs` holds `Array.prototype.filter` and the order-preserving
  subsequence relation that `filter` establishes.
- `Posts` holds the `BlogPost` record, the like toggle and both fixtures.
- `Search`, `Windows`, `Feed`, `Carousel`, `SearchBar` and `Home` hold the
  components.

Some behaviour of the code is easy to misread, and the model keeps it as
written:

- **The shortcut test is a substring test.** It applies `includes` to the
  lower-cased query and ignores no whitespace. So `"show me mostliked"`
  triggers the shortcut and `"most  liked"` (two spaces) is free text.
- **The empty query is not special.** It is free text, and every post
  contains the empty string, so it returns every post.
- **A letter-range query never falls back to free text.** That holds even
  when the query text occurs in a title. `"I-P"` occurs in
  `"AI-Powered Tools"`, yet a post with that title is not found by it.
- **`currentPage` is never clamped.** A page index past the last page is not
  highlighted in the window, and `pages[currentPage]` is `undefined` there:
  the list component's `posts.map` then fails while rendering.
- **Next is disabled only when `currentPage === totalPages - 1`.** At a page
  count of zero that test is false at page 0 and the click arithmetic gives
  `-1`. The button is not reached in that state, because with no posts page
  0 is `undefined` and the list above it fails first.
- **The two windows are different.** The feed shows three pages around an
  end. The carousel shows four slides around an end and uses `< 3` /
  `> n - 4` where the feed uses `<= 2` / `>= t - 3`.

## Model

| member | source | states |
|---|---|---|
| Text.LowerNoUpper | src/app/search/page.tsx:175 | lower-casing a string without capitals leaves it unchanged |
| Text.ContainsEmpty | src/app/search/page.tsx:202-207 | every string includes the empty string |
| Text.ContainsAt | src/app/search/page.tsx:202-207 | a needle that occurs at a known index is included |
| Text.ContainsFirstChar | src/app/search/page.tsx:175 | a non-empty needle can only be included if its first character occurs in the haystack |
| Text.Contains | src/app/search/page.tsx:202-207 | the left-to-right `includes` scan holds exactly when the needle occurs at some index, in both directions |
| Text.TrimStart | src/components/search-bar.tsx:45 | the result is a suffix of the input, everything dropped is whitespace, and the result does not start with whitespace |
| Text.TrimEnd | src/components/search-bar.tsx:45 | the result is a prefix of the input, everything dropped is whitespace, and the result does not end with whitespace |
| Text.Trim | src/components/search-bar.tsx:45-47 | the input is whitespace, then the result, then whitespace; a non-empty result neither starts nor ends with whitespace |
| Text.TrimEmptyIff | src/components/search-bar.tsx:45 | the trimmed text is empty exactly when every character is whitespace, so `if (q.trim())` fails exactly for blank input |
| Text.TrimIdempotent | src/components/search-bar.tsx:45-47 | trimming a trimmed string changes nothing |
| Text.TrimNoop | src/app/search/page.tsx:197 | a string with non-whitespace ends is its own trim |
| Text.DigitChar | src/app/page.tsx:40-41 | a digit value below ten renders as an ASCII digit that reads back as the same value |
| Text.NatToString | src/app/page.tsx:40-41 | `${n}` is a non-empty string of ASCII digits |
| Text.ParseNatToString | src/app/search/page.tsx:181-187 | `parseInt` of the decimal rendering of `n` is `n`: the title numbers the generator writes read back unchanged |
| Text.NatToStringInjective | src/app/page.tsx:40 | distinct numbers render to distinct strings, so the generated ids differ |
| Text.LeadingDigitCount | src/app/search/page.tsx:179 | the count is the length of the maximal digit run at the start: all digits before it, a non-digit (or the end) at it |
| Text.TrailingDigitCount | src/app/search/page.tsx:185 | the count is the length of the maximal digit run at the end: all digits after it, a non-digit (or the start) before it |
| Text.LeadingDigitsOfConcat | src/app/search/page.tsx:179 | a digit run followed by a non-digit is exactly the leading run |
| Text.TrailingDigitsOfConcat | src/app/search/page.tsx:185 | a digit run preceded by a non-digit is exactly the trailing run |
| Seqs.IsSubseqRefl | src/app/search/page.tsx:183-207 | every list is an order-preserving subsequence of itself |
| Seqs.IsSubseqSuffix | src/app/search/page.tsx:171-176 | the most-liked list, the tail of the combined list, is a subsequence of the combined list |
| Seqs.IsSubseqMembers | src/app/search/page.tsx:183-207 | every element of a subsequence comes from the sequence |
| Seqs.Filter | src/app/search/page.tsx:183-207 | `filter` keeps elements in order, keeps only accepted elements, and keeps every accepted element |
| Seqs.FilterConcat | src/app/search/page.tsx:171 | filtering the combined list is filtering each part and concatenating the results |
| Seqs.FilterNone | src/app/search/page.tsx:183-189 | a filter that rejects every element gives the empty list |
| Seqs.FilterAll | src/components/search-bar.tsx:57-59 | a filter that accepts every element gives the list back |
| Seqs.FilterSlice | src/app/search/page.tsx:183-189 | a filter that accepts exactly positions `lo .. hi - 1` gives that slice |
| Seqs.FilterMultiset | src/app/search/page.tsx:183-207 | `filter` keeps each accepted value exactly as often as it occurs and drops every other value |
| Seqs.FilterCons | src/app/search/page.tsx:183-207 | one step of `filter`: the head is kept exactly when it is accepted, ahead of the filtered tail |
| Posts.Toggle | src/app/page.tsx:158-160 | the toggled post has the opposite flag and its likes move by one, down if it was liked and up otherwise; nothing else changes |
| Posts.ToggleLike | src/app/page.tsx:155-162 | the list keeps its length; posts with another id are unchanged; posts with the id are toggled |
| Posts.ToggleLikeKeepsIds | src/app/search/page.tsx:229-237 | the toggle keeps every id in place |
| Posts.ToggleLikeTwice | src/app/search/page.tsx:229-237 | toggling the same id twice restores the list |
| Posts.ToggleLikeAbsent | src/app/page.tsx:164-170 | an id that no post carries leaves the list unchanged |
| Posts.ToggleLikeTotal | src/app/page.tsx:155-162 | the like total rises by the number of matching unliked posts and falls by the number of matching liked ones |
| Posts.CountUnique | src/app/page.tsx:155-162 | with unique ids, exactly one post carries the clicked id |
| Posts.CountAbsent | src/app/page.tsx:164-170 | a missing id is counted zero times |
| Posts.ToggleUniqueTotal | src/app/page.tsx:155-162 | with unique ids, one click moves the like total by exactly one: up for an unliked post, down for a liked one |
| Posts.MockPost | src/app/page.tsx:39-55 | generated post `n` has an id `post-` and a title ending in `Blog Post ` whose digits both read back as `n`, and starts unliked with twenty likes |
| Posts.MockIdsDistinct | src/app/page.tsx:40 | the ids `post-1 .. post-50` are pairwise distinct |
| Posts.FixtureIdsDisjoint | src/app/page.tsx:66-147 | no generated id equals a most-liked id |
| Search.MatchAtTrailingRun | src/app/search/page.tsx:185 | a match of `/Blog Post (\d+)$/` starts right before the trailing digit run |
| Search.TitleNumber | src/app/search/page.tsx:185-187 | a number is read only where `/Blog Post (\d+)$/` matches, and wherever it matches with a group parsing to `n` the number read is `n` |
| Search.TitleNumberOfSuffix | src/app/search/page.tsx:185-187 | any text, then `Blog Post `, then digits, is numbered by those digits |
| Search.TitleNumberNeedsDigit | src/app/search/page.tsx:185-186 | a title not ending in a digit has no number |
| Search.SplitAtLeadingRun | src/app/search/page.tsx:179 | with a separator that does not start with a digit, the first group of `^(\d+)<sep>(\d+)$` is the leading digit run |
| Search.DigitRange | src/app/search/page.tsx:179-182 | a pair is returned only where `^(\d+)<sep>(\d+)$` matches, and for a separator not starting with a digit every match with groups parsing to `a` and `b` returns `(a, b)` |
| Search.DigitRangeOfConcat | src/app/search/page.tsx:179-182 | two digit runs around the separator parse to the two numbers |
| Search.LetterRange | src/app/search/page.tsx:192-195 | the match succeeds exactly for three characters letter, `-`, letter, and both bounds are lower-case |
| Search.FirstTitleChar | src/app/search/page.tsx:197 | there is no first character exactly when the title is all whitespace; otherwise it is the lower-cased first non-whitespace character, and no other |
| Search.FirstNonWhitespaceUnique | src/app/search/page.tsx:197 | a title has at most one first non-whitespace position |
| Search.OutsideSpan | src/app/search/page.tsx:197-198 | a title whose first character is not blank and lies outside the span does not start within it |
| Search.IsMostLikedQuery | src/app/search/page.tsx:175 | the shortcut fires exactly when `most liked` or `mostliked` occurs at some index of the lower-cased query |
| Search.Classify | src/app/search/page.tsx:175-207 | a query is most-liked exactly when the shortcut fires; a numeric range exactly when it does not and one of the two range patterns matches, with bounds from those groups; a letter span exactly when neither and the letter pattern matches, with both letters lower-cased; free text over the lower-cased query otherwise |
| Search.TextMatches | src/app/search/page.tsx:202-207 | a post matches free text exactly when the needle occurs in its lower-cased title, content, some tag or author name |
| Search.Matches | src/app/search/page.tsx:183-207 | the per-post test of each form: the shortcut accepts every post; a numeric range accepts exactly the titles matching `/Blog Post (\d+)$/` with the number in bounds; a letter span exactly the titles whose first non-blank character, lower-cased, is in the span; free text exactly the text matches |
| Search.Resolve | src/app/search/page.tsx:174-210 | a shortcut query returns the most-liked list; any other query returns an in-order subsequence of all posts holding exactly the posts its form matches |
| Search.RangeTextNotMostLiked | src/app/search/page.tsx:175-179 | a query of digits, dots and dashes never triggers the shortcut, so the range branch is reachable |
| Search.DigitsDotsDigitsShape | src/app/search/page.tsx:179 | digits around a separator of dots or dashes consist only of digits, dots and dashes |
| Search.ClassifyDotRange | src/app/search/page.tsx:179-182 | `<digits>...<digits>` is read as the numeric range of the two parsed numbers |
| Search.ClassifyDashRange | src/app/search/page.tsx:179-182 | `<digits>-<digits>` is read as the numeric range of the two parsed numbers |
| Search.DashRangeIsNotDotRange | src/app/search/page.tsx:179 | a dash-separated query does not match the dotted pattern, so the second pattern decides it |
| Search.ClassifyLetterRange | src/app/search/page.tsx:192-195 | `<letter>-<letter>`, in either case, is read as the lower-cased letter span |
| Search.MostLikedShortcut | src/app/search/page.tsx:175-176 | `Most Liked` or `mostliked` anywhere in a query returns the most-liked list, whatever else the query holds |
| Search.NumRangeResult | src/app/search/page.tsx:183-189 | a numeric range keeps, in order, exactly the posts whose title number lies within the bounds |
| Search.NumRangeReversedEmpty | src/app/search/page.tsx:188 | a range with start above end returns nothing |
| Search.NumRangeSkipsUnnumbered | src/app/search/page.tsx:186 | a post whose title has no `Blog Post <n>` suffix is never in a numeric-range result |
| Search.LetterSpanResult | src/app/search/page.tsx:192-199 | a letter span keeps, in order, exactly the posts whose first non-whitespace title character, lower-cased, lies in the span; a blank title is never kept |
| Search.FreeTextResult | src/app/search/page.tsx:202-207 | free text keeps, in order, exactly the posts whose lower-cased title, content, a tag or author name contains the lower-cased query |
| Search.FreeTextFindsTitleSubstring | src/app/search/page.tsx:202-203 | a free-text query cut out of a post's title finds that post |
| Search.EmptyQueryKeepsAll | src/app/search/page.tsx:202-207 | the empty query returns every post |
| Search.AllPosts | src/app/search/page.tsx:171 | the combined list holds the 50 generated posts and the 5 most-liked posts |
| Search.SearchPosts | src/app/search/page.tsx:64-212 | the page's results are always an in-order subsequence of the combined list, and a shortcut query gives the most-liked list |
| Search.MockTitleNumber | src/app/search/page.tsx:70 | generated post `n` is numbered `n` |
| Search.LikedTitlesUnnumbered | src/app/search/page.tsx:87-168 | no most-liked title ends in `Blog Post <n>` |
| Search.MockNumRangeKeep | src/app/search/page.tsx:183-189 | the range `a .. b` keeps generated post `n` exactly when `a <= n <= b` |
| Search.LikedNumRangeReject | src/app/search/page.tsx:183-189 | no numeric range keeps a most-liked post |
| Search.MockNumRangeFilter | src/app/search/page.tsx:183-189 | the range `a .. b` filters the generated posts to posts `a .. b` |
| Search.LikedNumRangeFilter | src/app/search/page.tsx:183-189 | the range filter empties the most-liked list |
| Search.FixtureNumRangeFilter | src/app/search/page.tsx:171-189 | over the combined list the range `a .. b` keeps exactly posts `post-a .. post-b` |
| Search.FixtureNumRange | src/app/search/page.tsx:179-189 | on the page, `a...b` and `a-b` with `1 <= a <= b <= 50` both return exactly posts `post-a .. post-b`, which is `b - a + 1` posts |
| Search.DoubleSpaceIsFreeText | src/app/search/page.tsx:175 | `most  liked` with two spaces is not the shortcut |
| Search.LetterRangeHidesTitleSubstring | src/app/search/page.tsx:192-199 | `I-P` occurs in the title `AI-Powered Tools`, yet as a letter range it does not find that post |
| Windows.RangeWindow | src/components/main-content-section.tsx:63-66 | listing every page is a well-formed window that shows every page |
| Windows.HeadWindow | src/components/main-content-section.tsx:68-69 | the first pages, a marker and the last page, with a gap behind the marker, form a well-formed window |
| Windows.TailWindow | src/components/main-content-section.tsx:70-71 | the first page, a marker and the last pages, with a gap in front of the marker, form a well-formed window |
| Windows.MiddleWindow | src/components/main-content-section.tsx:72-73 | the first page, a marker, three pages around the current one, a marker and the last page form a well-formed window |
| Windows.WellFormedAscending | src/components/main-content-section.tsx:93-96 | the pages of a well-formed window strictly increase, so no button key repeats |
| Windows.AscendingBetween | src/components/main-content-section.tsx:93-96 | any two pages of a well-formed window are in increasing order |
| Windows.WellFormedCovers | src/components/main-content-section.tsx:67-75 | every page is either shown or lies strictly between the neighbours of an ellipsis |
| Windows.CoversFrom | src/components/main-content-section.tsx:67-75 | a page above a shown page is shown or skipped by a later ellipsis |
| Windows.Render | src/components/main-content-section.tsx:87-103 | one rendered entry per window entry: an ellipsis exactly where the window holds `-1` or `-2`, otherwise a button for the page at that position |
| Windows.RenderWellFormed | src/components/ui/carousel.tsx:306-324 | a well-formed window renders first and last page buttons, increasing in-range buttons, an ellipsis exactly at each marker, each button showing the page at its position, and ellipses only between two buttons |
| Feed.TotalPages | src/components/main-content-section.tsx:54-55 | the page count is the fewest pages of five that hold all posts |
| Feed.JsSlice | src/components/main-content-section.tsx:57 | the slice has `max(0, min(end, n) - start)` entries, entry `i` being entry `start + i` of the list |
| Feed.Pages | src/components/main-content-section.tsx:56-58 | there are `totalPages` pages, each of one to five posts, all but the last of exactly five |
| Feed.PagesTail | src/components/main-content-section.tsx:56-58 | the first page is the first five posts and the other pages are the pages of the remaining posts |
| Feed.PagesFlatten | src/components/main-content-section.tsx:56-58 | concatenating the pages gives back the posts in order |
| Feed.PageAt | src/components/main-content-section.tsx:126 | `pages[currentPage]` is defined exactly for an index among the pages; outside them it is `undefined` |
| Feed.CurrentPageItems | src/components/main-content-section.tsx:54-58 | page `p` holds posts `5p .. min(5p+5, n) - 1`; an index outside the pages has no page, so the list is handed `undefined` |
| Feed.FeedWindow | src/components/main-content-section.tsx:60-75 | the window lists every page when there are at most five, is well formed, has five or seven entries otherwise, and always shows the current page when it is in range |
| Feed.FeedWindowCovers | src/components/main-content-section.tsx:67-75 | every page is shown or stood for by an ellipsis |
| Feed.FeedWindowStalePage | src/components/main-content-section.tsx:67-75 | a current page past the last page is not in the window |
| Feed.PrevPage | src/components/main-content-section.tsx:80-81 | Previous never goes below page 0 and goes back one page otherwise; it stays put exactly when disabled |
| Feed.NextPage | src/components/main-content-section.tsx:106-107 | Next never goes past the last page and goes forward one page otherwise; it stays put exactly when disabled |
| Feed.NextWithoutPages | src/components/main-content-section.tsx:106-107 | at a page count of zero the disabled test is false at page 0, the click arithmetic gives -1, and page 0 is `undefined` |
| Feed.Step | src/components/main-content-section.tsx:80-107 | a disabled button leaves the page as it is, a page button goes to its page, and a click from a page among the pages lands among the pages |
| Feed.Run | src/components/main-content-section.tsx:80-107 | no clicks leave the page as it is; from a page among the pages any sequence of clicks stays among the pages |
| Feed.RunConcat | src/components/main-content-section.tsx:80-107 | clicking through one sequence and then another is clicking through their concatenation |
| Carousel.CarouselWindow | src/components/ui/carousel.tsx:282-299 | the window lists every slide when there are at most five, is well formed, has six or seven entries otherwise, and always shows the selected slide when it is in range |
| Carousel.Indicators | src/components/ui/carousel.tsx:279-324 | the bar is hidden exactly for at most one slide; otherwise it starts and ends with the first and last slide buttons, has only in-range buttons, and has the selected slide's button |
| Carousel.CarouselWindowCovers | src/components/ui/carousel.tsx:289-297 | every slide is shown or stood for by an ellipsis |
| SearchBar.FilteredSuggestions | src/components/search-bar.tsx:57-59 | the kept suggestions are in listed order, all contain the query ignoring case, and every suggestion that does is kept |
| SearchBar.EmptyQueryKeepsAllSuggestions | src/components/search-bar.tsx:57-59 | with nothing typed every suggestion is kept |
| SearchBar.Submit | src/components/search-bar.tsx:43-49 | the form stays put exactly for blank input; otherwise it navigates with the trimmed, non-empty text |
| SearchBar.SubmitIsTrimmed | src/components/search-bar.tsx:43-49 | a submitted query has non-whitespace ends, and submitting it again sends the same query |
| SearchBar.SuggestionClickAsSubmit | src/components/search-bar.tsx:43-55 | every listed suggestion is already trimmed, so clicking it sends the same query as typing it and submitting |
| SearchBar.MostLikedSuggestionShortcut | src/components/search-bar.tsx:18 | clicking `Most Liked` lands on the search page's most-liked list |
| SearchBar.FilteredNonEmpty | src/components/search-bar.tsx:82 | some suggestion is kept exactly when some suggestion contains the query |
| SearchBar.DropdownVisible | src/components/search-bar.tsx:82 | the dropdown shows exactly when it is open, the query is non-empty and some suggestion contains it |
| SearchBar.SpaceOpensDropdownButNotSearch | src/components/search-bar.tsx:45 | a lone space opens the dropdown, since the untrimmed text is tested, but submitting it does nothing |
| Home.HandleLike | src/app/page.tsx:155-170 | both lists keep their length, order and ids; in each, the posts carrying the id are toggled and every other post is unchanged |
| Home.ToggleLikeIn | src/app/page.tsx:155-162 | the toggle of one list keeps its length, order and ids, toggles the posts carrying the id and leaves every other post unchanged |
| Home.HandleLikeTwice | src/app/page.tsx:155-170 | liking and unliking the same post restores both lists |
| Home.LikeFeedPost | src/app/page.tsx:155-170 | on the loaded page, liking feed post `i` toggles that post only and leaves the most-liked list unchanged |
| Home.LikeFeedPostTotal | src/app/page.tsx:155-162 | on the loaded page, liking a feed post raises the feed's like total by exactly one |

## Left out

- Rendering is not modelled: JSX, CSS classes, layout, the skeleton shown while loading, and the footer.
- Routing is not modelled: `router.push` and `encodeURIComponent`. A query is assumed to reach the search page unchanged, as `useSearchParams` decodes it.
- React state and effects are not modelled: `useState`, `useEffect` and the order of re-renders. This includes the two identical mobile live-search effects on the search page, which only run `searchPosts` again.
- The `window.innerWidth` checks and the resize listener are not modelled. Choosing between the mobile and desktop layout is a rendering matter.
- The Embla carousel API is not modelled: `slideNodes`, `selectedScrollSnap`, `scrollTo` and its events. The slide count and the selected slide are parameters.
- `async`, the loading flag, `try`/`catch` and `console.error` are not modelled. The fixtures are built in memory and cannot throw.
- `incrementProfileLikes` on the home page is not modelled. It calls into the authentication context, which is not part of this model.
- The click-outside listener that closes the suggestion dropdown is not modelled. It is DOM event handling; the dropdown's open flag is a parameter.
- `Text.Lower`: lower-cases ASCII only. JavaScript's `toLowerCase` also folds non-ASCII capitals, so a query holding one is read differently: U+212A KELVIN SIGN lower-cases to `k` in JavaScript and is kept as it is here. No fixture text or suggestion holds a non-ASCII capital.
- The failure of the feed's list render on an `undefined` page is not modelled as an exception: `Feed.PageAt` returns None there, and the `TypeError` that `posts.map` raises in React's render is rendering behaviour.
- `Text.ParseNat`: exact on unbounded naturals. `parseInt` loses precision above 2^53, which only matters for queries with more than fifteen digits.
- `Posts.Post`: the optional `isLiked` is a plain boolean. Every fixture post sets it.
- `Posts.Post`: `likes` and `comments` are unbounded integers. JavaScript numbers do not overflow at these sizes.
- Date formatting, avatars and image fallbacks are not modelled. They are display only.
- The comment modal and the post detail page are not modelled. They are outside the five parts above.
