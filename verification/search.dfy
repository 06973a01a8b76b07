/** The search page's query resolver `searchPosts`: a raw query is read as
    exactly one of four forms, tried in a fixed order (most-liked shortcut,
    numeric range, letter range, free text), and every form but the first
    is a filter over the combined post list. */
module Search {
  import opened Wrappers
  import opened Text
  import opened Seqs
  import opened Posts

  /* ---------- the "Blog Post <n>" title suffix ---------- */

  const BlogPostMarker: string := "Blog Post "

  /** The regular expression `/Blog Post (\d+)$/` matches `t` at index `j`
      and its group parses to `n`. */
  predicate BlogPostMatchAt(t: string, j: int, n: nat) {
    && 0 <= j && j + |BlogPostMarker| < |t|
    && t[j..j + |BlogPostMarker|] == BlogPostMarker
    && IsDigits(t[j + |BlogPostMarker|..])
    && n == ParseNat(t[j + |BlogPostMarker|..])
  }

  /** A match of the title regex starts right before the trailing digit run. */
  lemma MatchAtTrailingRun(t: string, j: int, n: nat)
    requires BlogPostMatchAt(t, j, n)
    ensures TrailingDigitCount(t) == |t| - j - |BlogPostMarker|
  {
    var x, d := t[..j + |BlogPostMarker|], t[j + |BlogPostMarker|..];
    assert t == x + d;
    assert x[|x| - 1] == ' ';
    TrailingDigitsOfConcat(x, d);
  }

  /** The number a post title ends in, read the way the title regex reads it:
      the trailing run of digits, provided the text before it ends in
      "Blog Post ". It agrees with the regex in both directions. */
  function TitleNumber(t: string): (r: Option<nat>)
    ensures r.Some? ==> exists j :: BlogPostMatchAt(t, j, r.value)
    ensures forall j, n: nat :: BlogPostMatchAt(t, j, n) ==> r == Some(n)
  {
    var m := |BlogPostMarker|;
    var k := TrailingDigitCount(t);
    assert forall j, n: nat :: BlogPostMatchAt(t, j, n) ==> j == |t| - k - m by {
      forall j, n: nat | BlogPostMatchAt(t, j, n) ensures j == |t| - k - m {
        MatchAtTrailingRun(t, j, n);
      }
    }
    if k > 0 && |t| - k >= m && t[|t| - k - m..|t| - k] == BlogPostMarker then
      assert BlogPostMatchAt(t, |t| - k - m, ParseNat(t[|t| - k..]));
      Some(ParseNat(t[|t| - k..]))
    else None
  }

  /** A title made of any text, "Blog Post " and a digit run is numbered by
      that run. */
  lemma TitleNumberOfSuffix(pre: string, d: string)
    requires |d| > 0 && IsDigits(d)
    ensures TitleNumber(pre + BlogPostMarker + d) == Some(ParseNat(d))
  {
    var t := pre + BlogPostMarker + d;
    assert BlogPostMatchAt(t, |pre|, ParseNat(d)) by {
      assert t[|pre|..|pre| + |BlogPostMarker|] == BlogPostMarker;
      assert t[|pre| + |BlogPostMarker|..] == d;
    }
  }

  /** A title whose last character is not a digit carries no number. */
  lemma TitleNumberNeedsDigit(t: string)
    requires |t| == 0 || !IsDigit(t[|t| - 1])
    ensures TitleNumber(t) == None
  {
  }

  /* ---------- numeric ranges: /^(\d+)\.\.\.(\d+)$/ and /^(\d+)-(\d+)$/ ---------- */

  const DotSeparator: string := "..."
  const DashSeparator: string := "-"

  /** `s` is a digit run of length `k`, then `sep`, then a digit run, and the
      two runs parse to `a` and `b`. */
  predicate DigitSplitAt(s: string, sep: string, k: int, a: nat, b: nat) {
    && 0 < k && k + |sep| < |s|
    && IsDigits(s[..k]) && s[k..k + |sep|] == sep && IsDigits(s[k + |sep|..])
    && a == ParseNat(s[..k]) && b == ParseNat(s[k + |sep|..])
  }

  /** A split around a separator that does not start with a digit ends the
      first group at the leading digit run. */
  lemma SplitAtLeadingRun(s: string, sep: string, k: int, a: nat, b: nat)
    requires |sep| > 0 && !IsDigit(sep[0])
    requires DigitSplitAt(s, sep, k, a, b)
    ensures LeadingDigitCount(s) == k
  {
    assert s == s[..k] + s[k..];
    assert s[k..][0] == sep[0];
    LeadingDigitsOfConcat(s[..k], s[k..]);
  }

  /** The anchored match of `^(\d+)<sep>(\d+)$` and its two parsed groups. It
      agrees with the regex in both directions when the separator does not
      start with a digit. */
  function DigitRange(s: string, sep: string): (r: Option<(nat, nat)>)
    ensures r.Some? ==> exists k :: DigitSplitAt(s, sep, k, r.value.0, r.value.1)
    ensures |sep| > 0 && !IsDigit(sep[0]) ==>
              forall k: int, a: nat, b: nat :: DigitSplitAt(s, sep, k, a, b) ==> r == Some((a, b))
  {
    var k := LeadingDigitCount(s);
    assert |sep| > 0 && !IsDigit(sep[0]) ==>
        forall k': int, a: nat, b: nat :: DigitSplitAt(s, sep, k', a, b) ==> k' == k by {
      if |sep| > 0 && !IsDigit(sep[0]) {
        forall k': int, a: nat, b: nat | DigitSplitAt(s, sep, k', a, b) ensures k' == k {
          SplitAtLeadingRun(s, sep, k', a, b);
        }
      }
    }
    if 0 < k && k + |sep| < |s| && s[k..k + |sep|] == sep && IsDigits(s[k + |sep|..])
    then
      assert DigitSplitAt(s, sep, k, ParseNat(s[..k]), ParseNat(s[k + |sep|..]));
      Some((ParseNat(s[..k]), ParseNat(s[k + |sep|..])))
    else None
  }

  /** Two digit runs around the separator are read as that range. */
  lemma DigitRangeOfConcat(d1: string, sep: string, d2: string)
    requires |d1| > 0 && IsDigits(d1) && |d2| > 0 && IsDigits(d2)
    requires |sep| > 0 && !IsDigit(sep[0])
    ensures DigitRange(d1 + sep + d2, sep) == Some((ParseNat(d1), ParseNat(d2)))
  {
    var s := d1 + sep + d2;
    assert s[..|d1|] == d1 && s[|d1|..|d1| + |sep|] == sep && s[|d1| + |sep|..] == d2;
    assert DigitSplitAt(s, sep, |d1|, ParseNat(d1), ParseNat(d2));
  }

  /* ---------- letter ranges: /^([a-z])-([a-z])$/i ---------- */

  /** `s` has the shape letter, `-`, letter. */
  predicate IsLetterRangeText(s: string) {
    |s| == 3 && IsAsciiLetter(s[0]) && s[1] == '-' && IsAsciiLetter(s[2])
  }

  /** The anchored case-insensitive match of `^([a-z])-([a-z])$`, with both
      letters lower-cased. */
  function LetterRange(s: string): (r: Option<(char, char)>)
    ensures r.Some? <==> IsLetterRangeText(s)
    ensures r.Some? ==> 'a' <= r.value.0 <= 'z' && 'a' <= r.value.1 <= 'z'
  {
    if IsLetterRangeText(s) then Some((LowerChar(s[0]), LowerChar(s[2]))) else None
  }

  /** Index `i` holds the first non-whitespace character of `t`. */
  predicate FirstNonWhitespaceAt(t: string, i: int) {
    0 <= i < |t| && !IsWhitespace(t[i]) && AllWhitespace(t[..i])
  }

  /** Some character of `title` is its first non-whitespace one and,
      lower-cased, lies between `lo` and `hi`; a blank title has none. */
  ghost predicate StartsWithin(title: string, lo: char, hi: char) {
    exists i :: FirstNonWhitespaceAt(title, i) && lo <= LowerChar(title[i]) <= hi
  }

  /** A string has at most one first non-whitespace index. */
  lemma FirstNonWhitespaceUnique(t: string, i: int, j: int)
    requires FirstNonWhitespaceAt(t, i) && FirstNonWhitespaceAt(t, j)
    ensures i == j
  {
    WhitespacePrefix(t, i);
    WhitespacePrefix(t, j);
  }

  /** Every character of an all-whitespace prefix is whitespace. */
  lemma WhitespacePrefix(t: string, i: int)
    requires 0 <= i <= |t| && AllWhitespace(t[..i])
    ensures forall k :: 0 <= k < i ==> IsWhitespace(t[k])
  {
    assert forall k :: 0 <= k < i ==> t[..i][k] == t[k];
  }

  /** `post.title.trim().charAt(0).toLowerCase()`: the first non-whitespace
      character of the title, lower-cased, or None when the title is blank
      (its char code is NaN and compares false). */
  function FirstTitleChar(title: string): (r: Option<char>)
    ensures r.None? <==> AllWhitespace(title)
    ensures r.Some? ==> exists i :: FirstNonWhitespaceAt(title, i) && r.value == LowerChar(title[i])
    ensures forall i :: FirstNonWhitespaceAt(title, i) ==> r == Some(LowerChar(title[i]))
  {
    TrimEmptyIff(title);
    var t := Trim(title);
    if |t| == 0 then None
    else
      var a :| TrimmedAt(title, t, a);
      assert t[0] == title[a];
      assert FirstNonWhitespaceAt(title, a);
      assert forall i :: FirstNonWhitespaceAt(title, i) ==> i == a by {
        forall i | FirstNonWhitespaceAt(title, i) ensures i == a {
          FirstNonWhitespaceUnique(title, i, a);
        }
      }
      Some(LowerChar(t[0]))
  }

  /* ---------- the query forms ---------- */

  datatype Query =
    | MostLiked
    | NumRange(lo: nat, hi: nat)
    | LetterSpan(first: char, last: char)
    | FreeText(needle: string)

  const MostLikedPhrase: string := "most liked"
  const MostLikedWord: string := "mostliked"

  /** The shortcut test: the lower-cased query contains either phrase
      anywhere (no whitespace is ignored). */
  function IsMostLikedQuery(q: string): (r: bool)
    ensures r <==> ((exists i :: OccursAt(Lower(q), MostLikedPhrase, i))
                    || (exists i :: OccursAt(Lower(q), MostLikedWord, i)))
  {
    Contains(Lower(q), MostLikedPhrase) || Contains(Lower(q), MostLikedWord)
  }

  /** `q` matches `^(\d+)\.\.\.(\d+)$` or `^(\d+)-(\d+)$`. */
  ghost predicate IsNumRangeText(q: string) {
    (exists k, a, b :: DigitSplitAt(q, DotSeparator, k, a, b))
    || (exists k, a, b :: DigitSplitAt(q, DashSeparator, k, a, b))
  }

  /** Reads the raw query as one of the four forms, first match wins: the
      shortcut exactly for a shortcut query, a numeric range only for a
      range-shaped query (its groups as bounds), a letter span exactly for a
      letter-range-shaped query that is neither of those, and free text over
      the lower-cased query for everything else. */
  function Classify(q: string): (r: Query)
    ensures r.MostLiked? <==> IsMostLikedQuery(q)
    ensures r.NumRange? <==> !IsMostLikedQuery(q) && IsNumRangeText(q)
    ensures r.NumRange? ==> ((exists k :: DigitSplitAt(q, DotSeparator, k, r.lo, r.hi))
                             || (exists k :: DigitSplitAt(q, DashSeparator, k, r.lo, r.hi)))
    ensures r.LetterSpan? <==> !IsMostLikedQuery(q) && IsLetterRangeText(q)
    ensures r.LetterSpan? ==> r.first == LowerChar(q[0]) && r.last == LowerChar(q[2])
    ensures r.FreeText? ==> r.needle == Lower(q)
  {
    if IsMostLikedQuery(q) then MostLiked
    else match DigitRange(q, DotSeparator)
      case Some((a, b)) => NumRange(a, b)
      case None =>
        match DigitRange(q, DashSeparator)
        case Some((a, b)) => NumRange(a, b)
        case None =>
          match LetterRange(q)
          case Some((lo, hi)) => LetterSpan(lo, hi)
          case None => FreeText(Lower(q))
  }

  /** Free text: the needle occurs in the lower-cased title, content, some
      tag, or author name. */
  function TextMatches(p: Post, needle: string): (r: bool)
    ensures r <==> || (exists i :: OccursAt(Lower(p.title), needle, i))
                   || (exists i :: OccursAt(Lower(p.content), needle, i))
                   || (exists k, i :: 0 <= k < |p.tags| && OccursAt(Lower(p.tags[k]), needle, i))
                   || (exists i :: OccursAt(Lower(p.author.name), needle, i))
  {
    || Contains(Lower(p.title), needle)
    || Contains(Lower(p.content), needle)
    || (exists k :: 0 <= k < |p.tags| && Contains(Lower(p.tags[k]), needle))
    || Contains(Lower(p.author.name), needle)
  }

  /** Whether one post passes the filter of a query form: a numeric range
      needs a title the title regex numbers within the bounds, a letter span
      a first non-whitespace title character that lies in the span once
      lower-cased. */
  function Matches(query: Query, p: Post): (r: bool)
    ensures query.MostLiked? ==> r
    ensures query.NumRange? ==>
              (r <==> exists j, n: nat :: BlogPostMatchAt(p.title, j, n) && query.lo <= n <= query.hi)
    ensures query.LetterSpan? ==>
              (r <==> StartsWithin(p.title, query.first, query.last))
    ensures query.FreeText? ==> (r <==> TextMatches(p, query.needle))
  {
    match query
    case MostLiked => true
    case NumRange(lo, hi) =>
      (match TitleNumber(p.title) case Some(n) => lo <= n <= hi case None => false)
    case LetterSpan(lo, hi) =>
      (match FirstTitleChar(p.title) case Some(c) => lo <= c <= hi case None => false)
    case FreeText(needle) => TextMatches(p, needle)
  }

  /** The filter a query form applies to each post. */
  function KeepFor(query: Query): Post -> bool {
    p => Matches(query, p)
  }

  /** `searchPosts` over a post list `all` and the designated most-liked list. */
  function Resolve(q: string, all: seq<Post>, liked: seq<Post>): (r: seq<Post>)
    ensures IsMostLikedQuery(q) ==> r == liked
    ensures !IsMostLikedQuery(q) ==> IsSubseq(r, all)
    ensures !IsMostLikedQuery(q) ==> forall i :: 0 <= i < |r| ==> Matches(Classify(q), r[i])
    ensures !IsMostLikedQuery(q) ==>
              forall i :: 0 <= i < |all| && Matches(Classify(q), all[i]) ==> all[i] in r
  {
    var query := Classify(q);
    if query.MostLiked? then liked else Filter(all, KeepFor(query))
  }

  /* ---------- classification in terms of the query text ---------- */

  /** A string of digits, dots and dashes never triggers the shortcut: its
      lower-cased form has no `m`. */
  lemma RangeTextNotMostLiked(s: string)
    requires forall i :: 0 <= i < |s| ==> IsDigit(s[i]) || s[i] == '.' || s[i] == '-'
    ensures !IsMostLikedQuery(s)
  {
    LowerNoUpper(s);
    if Contains(s, MostLikedPhrase) { ContainsFirstChar(s, MostLikedPhrase); }
    if Contains(s, MostLikedWord) { ContainsFirstChar(s, MostLikedWord); }
  }

  lemma DigitsDotsDigitsShape(d1: string, sep: string, d2: string)
    requires IsDigits(d1) && IsDigits(d2)
    requires forall i :: 0 <= i < |sep| ==> sep[i] == '.' || sep[i] == '-'
    ensures var s := d1 + sep + d2;
      forall i :: 0 <= i < |s| ==> IsDigit(s[i]) || s[i] == '.' || s[i] == '-'
  {
    var s := d1 + sep + d2;
    forall i | 0 <= i < |s| ensures IsDigit(s[i]) || s[i] == '.' || s[i] == '-' {
      if i < |d1| { assert s[i] == d1[i]; }
      else if i < |d1| + |sep| { assert s[i] == sep[i - |d1|]; }
      else { assert s[i] == d2[i - |d1| - |sep|]; }
    }
  }

  /** `<digits>...<digits>` is a numeric range of the two parsed numbers. */
  lemma ClassifyDotRange(d1: string, d2: string)
    requires |d1| > 0 && IsDigits(d1) && |d2| > 0 && IsDigits(d2)
    ensures Classify(d1 + DotSeparator + d2) == NumRange(ParseNat(d1), ParseNat(d2))
  {
    DigitsDotsDigitsShape(d1, DotSeparator, d2);
    RangeTextNotMostLiked(d1 + DotSeparator + d2);
    DigitRangeOfConcat(d1, DotSeparator, d2);
  }

  /** `<digits>-<digits>` is a numeric range of the two parsed numbers. */
  lemma ClassifyDashRange(d1: string, d2: string)
    requires |d1| > 0 && IsDigits(d1) && |d2| > 0 && IsDigits(d2)
    ensures Classify(d1 + DashSeparator + d2) == NumRange(ParseNat(d1), ParseNat(d2))
  {
    var s := d1 + DashSeparator + d2;
    DigitsDotsDigitsShape(d1, DashSeparator, d2);
    RangeTextNotMostLiked(s);
    DigitRangeOfConcat(d1, DashSeparator, d2);
    DashRangeIsNotDotRange(d1, d2);
  }

  lemma DashRangeIsNotDotRange(d1: string, d2: string)
    requires IsDigits(d1)
    ensures DigitRange(d1 + DashSeparator + d2, DotSeparator) == None
  {
    var s := d1 + DashSeparator + d2;
    assert s == d1 + (DashSeparator + d2);
    LeadingDigitsOfConcat(d1, DashSeparator + d2);
    assert s[|d1|] == '-';
  }

  /** `<letter>-<letter>`, in any case, is the lower-cased letter span. */
  lemma ClassifyLetterRange(c1: char, c2: char)
    requires IsAsciiLetter(c1) && IsAsciiLetter(c2)
    ensures Classify([c1, '-', c2]) == LetterSpan(LowerChar(c1), LowerChar(c2))
  {
  }

  /* ---------- what each form returns ---------- */

  /** The shortcut fires on the phrase anywhere in the query, in any case,
      with or without the space, and wins over every other reading. */
  lemma MostLikedShortcut(pre: string, post: string, all: seq<Post>, liked: seq<Post>)
    ensures Resolve(pre + "Most Liked" + post, all, liked) == liked
    ensures Resolve(pre + "mostliked" + post, all, liked) == liked
  {
    var s1 := pre + "Most Liked" + post;
    assert OccursAt(Lower(s1), MostLikedPhrase, |pre|) by {
      assert Lower(s1)[|pre|..|pre| + 10] == MostLikedPhrase;
    }
    ContainsAt(Lower(s1), MostLikedPhrase, |pre|);
    var s2 := pre + "mostliked" + post;
    assert OccursAt(Lower(s2), MostLikedWord, |pre|) by {
      assert Lower(s2)[|pre|..|pre| + 9] == MostLikedWord;
    }
    ContainsAt(Lower(s2), MostLikedWord, |pre|);
  }

  /** A numeric range keeps exactly the posts whose title number lies in the
      range, in their original order. */
  lemma NumRangeResult(q: string, a: nat, b: nat, all: seq<Post>, liked: seq<Post>)
    requires Classify(q) == NumRange(a, b)
    ensures var r := Resolve(q, all, liked);
      && IsSubseq(r, all)
      && (forall i :: 0 <= i < |r| ==> TitleNumber(r[i].title).Some? && a <= TitleNumber(r[i].title).value <= b)
      && (forall i :: 0 <= i < |all| && TitleNumber(all[i].title).Some? && a <= TitleNumber(all[i].title).value <= b
            ==> all[i] in r)
  {
    var r := Resolve(q, all, liked);
    forall i | 0 <= i < |r|
      ensures TitleNumber(r[i].title).Some? && a <= TitleNumber(r[i].title).value <= b
    {
      assert Matches(NumRange(a, b), r[i]);
    }
  }

  /** A reversed numeric range matches nothing. */
  lemma NumRangeReversedEmpty(q: string, a: nat, b: nat, all: seq<Post>, liked: seq<Post>)
    requires Classify(q) == NumRange(a, b) && a > b
    ensures Resolve(q, all, liked) == []
  {
  }

  /** A post whose title does not end in "Blog Post <n>" is never in a
      numeric range result. */
  lemma NumRangeSkipsUnnumbered(q: string, a: nat, b: nat, all: seq<Post>, liked: seq<Post>, p: Post)
    requires Classify(q) == NumRange(a, b)
    requires TitleNumber(p.title) == None
    ensures p !in Resolve(q, all, liked)
  {
  }

  /** A letter span keeps exactly the posts whose first non-blank title
      character, lower-cased, lies in the span; a blank title never
      matches. */
  lemma LetterSpanResult(c1: char, c2: char, all: seq<Post>, liked: seq<Post>)
    requires IsAsciiLetter(c1) && IsAsciiLetter(c2)
    ensures var r := Resolve([c1, '-', c2], all, liked);
      var lo, hi := LowerChar(c1), LowerChar(c2);
      && IsSubseq(r, all)
      && (forall i :: 0 <= i < |r| ==> StartsWithin(r[i].title, lo, hi))
      && (forall i :: 0 <= i < |all| && StartsWithin(all[i].title, lo, hi) ==> all[i] in r)
  {
    ClassifyLetterRange(c1, c2);
  }

  /** Free text keeps exactly the posts with the lower-cased query in their
      title, content, a tag or the author's name. */
  lemma FreeTextResult(q: string, all: seq<Post>, liked: seq<Post>)
    requires Classify(q).FreeText?
    ensures var r := Resolve(q, all, liked);
      && IsSubseq(r, all)
      && (forall i :: 0 <= i < |r| ==> TextMatches(r[i], Lower(q)))
      && (forall i :: 0 <= i < |all| && TextMatches(all[i], Lower(q)) ==> all[i] in r)
  {
  }

  /** A free-text query cut out of a post's title finds that post. */
  lemma FreeTextFindsTitleSubstring(q: string, p: Post, all: seq<Post>, liked: seq<Post>, i: int)
    requires Classify(q).FreeText?
    requires OccursAt(p.title, q, i)
    requires p in all
    ensures p in Resolve(q, all, liked)
  {
    assert Lower(p.title)[i..i + |q|] == Lower(q);
    ContainsAt(Lower(p.title), Lower(q), i);
    var j :| 0 <= j < |all| && all[j] == p;
    FreeTextResult(q, all, liked);
  }

  /** The empty query is free text that every post matches. */
  lemma EmptyQueryKeepsAll(all: seq<Post>, liked: seq<Post>)
    ensures Resolve("", all, liked) == all
  {
    assert Classify("") == FreeText("");
    forall i | 0 <= i < |all| ensures Matches(FreeText(""), all[i]) {
      ContainsEmpty(Lower(all[i].title));
    }
    FilterAll(all, KeepFor(FreeText("")));
  }

  /* ---------- the search page's fixture ---------- */

  /** The list the search page filters: generated posts, then most-liked. */
  function AllPosts(): (ps: seq<Post>)
    ensures |ps| == MockPostCount + |MostLikedPosts|
  {
    MockPosts() + MostLikedPosts
  }

  /** `searchPosts(q)` as the search page runs it. Every result, the
      shortcut's included, is an order-preserving subsequence of the
      combined list. */
  function SearchPosts(q: string): (r: seq<Post>)
    ensures IsSubseq(r, AllPosts())
    ensures IsMostLikedQuery(q) ==> r == MostLikedPosts
  {
    IsSubseqSuffix(MockPosts(), MostLikedPosts);
    Resolve(q, AllPosts(), MostLikedPosts)
  }

  /** Generated post `n` is numbered `n`. */
  lemma MockTitleNumber(n: nat)
    ensures TitleNumber(MockPost(n).title) == Some(n)
  {
    var pre := "5 Reasons to Learn Frontend Development in 2025 ";
    assert MockTitlePrefix == pre + BlogPostMarker;
    assert MockPost(n).title == pre + BlogPostMarker + NatToString(n);
    TitleNumberOfSuffix(pre, NatToString(n));
    ParseNatToString(n);
  }

  /** None of the most-liked titles ends in "Blog Post <n>". */
  lemma LikedTitlesUnnumbered(k: nat)
    requires k < |MostLikedPosts|
    ensures TitleNumber(MostLikedPosts[k].title) == None
  {
    if k == 0 {
      var x := "The Future of Web Development: AI-Powered Tools in ";
      assert MostLikedPosts[0].title == x + "2025";
      TrailingDigitsOfConcat(x, "2025");
      assert x[|x| - 10] != 'B';
    } else {
      TitleNumberNeedsDigit(MostLikedPosts[k].title);
    }
  }

  lemma MockNumRangeKeep(a: nat, b: nat, n: nat)
    ensures KeepFor(NumRange(a, b))(MockPost(n)) <==> a <= n <= b
  {
    MockTitleNumber(n);
  }

  lemma LikedNumRangeReject(a: nat, b: nat, k: nat)
    requires k < |MostLikedPosts|
    ensures !KeepFor(NumRange(a, b))(MostLikedPosts[k])
  {
    LikedTitlesUnnumbered(k);
  }

  /** Over the fixture, the filter of the range `a .. b` keeps exactly the
      generated posts `post-a .. post-b`. */
  lemma FixtureNumRangeFilter(a: nat, b: nat)
    requires 1 <= a <= b <= MockPostCount
    ensures Filter(AllPosts(), KeepFor(NumRange(a, b))) == MockPosts()[a - 1..b]
  {
    var keep := KeepFor(NumRange(a, b));
    MockNumRangeFilter(a, b);
    LikedNumRangeFilter(a, b);
    FilterConcat(MockPosts(), MostLikedPosts, keep);
  }

  lemma MockNumRangeFilter(a: nat, b: nat)
    requires 1 <= a <= b <= MockPostCount
    ensures Filter(MockPosts(), KeepFor(NumRange(a, b))) == MockPosts()[a - 1..b]
  {
    var keep := KeepFor(NumRange(a, b));
    var ms := MockPosts();
    forall i | 0 <= i < |ms| ensures keep(ms[i]) <==> a - 1 <= i < b {
      assert ms[i] == MockPost(i + 1);
      MockNumRangeKeep(a, b, i + 1);
    }
    FilterSlice(ms, keep, a - 1, b);
  }

  lemma LikedNumRangeFilter(a: nat, b: nat)
    ensures Filter(MostLikedPosts, KeepFor(NumRange(a, b))) == []
  {
    var keep := KeepFor(NumRange(a, b));
    forall k | 0 <= k < |MostLikedPosts| ensures !keep(MostLikedPosts[k]) {
      LikedNumRangeReject(a, b, k);
    }
    FilterNone(MostLikedPosts, keep);
  }

  /** Over the fixture, `a...b` and `a-b` with 1 <= a <= b <= 50 return
      exactly posts `post-a .. post-b`, that is b - a + 1 posts. */
  lemma FixtureNumRange(a: nat, b: nat)
    requires 1 <= a <= b <= MockPostCount
    ensures SearchPosts(NatToString(a) + DotSeparator + NatToString(b)) == MockPosts()[a - 1..b]
    ensures SearchPosts(NatToString(a) + DashSeparator + NatToString(b)) == MockPosts()[a - 1..b]
    ensures |MockPosts()[a - 1..b]| == b - a + 1
  {
    ParseNatToString(a);
    ParseNatToString(b);
    ClassifyDotRange(NatToString(a), NatToString(b));
    ClassifyDashRange(NatToString(a), NatToString(b));
    FixtureNumRangeFilter(a, b);
  }

  /** Only the literal phrases trigger the shortcut: a doubled space makes
      "most  liked" plain free text. */
  lemma DoubleSpaceIsFreeText()
    ensures !IsMostLikedQuery("most  liked")
  {
    var h := "most  liked";
    LowerNoUpper(h);
    assert h[..10][5] != MostLikedPhrase[5];
    assert h[1..][..10][0] != MostLikedPhrase[0];
    assert !Contains(h, MostLikedPhrase);
    assert h[..9][4] != MostLikedWord[4];
    assert h[1..][..9][0] != MostLikedWord[0];
    assert h[2..][..9][0] != MostLikedWord[0];
    assert !Contains(h, MostLikedWord);
  }

  /** A letter range is never read as free text, even when it is cut out of
      a title: "I-P" occurs in "AI-Powered Tools", yet it selects titles
      whose first character lies in i .. p, so that post is not found. */
  lemma LetterRangeHidesTitleSubstring(p: Post, all: seq<Post>, liked: seq<Post>)
    requires p.title == "AI-Powered Tools"
    ensures OccursAt(p.title, "I-P", 1)
    ensures p !in Resolve("I-P", all, liked)
  {
    var t := p.title;
    assert t[1] == 'I' && t[2] == '-' && t[3] == 'P';
    assert t[1..4] == "I-P";
    assert ['I', '-', 'P'] == "I-P";
    LetterSpanResult('I', 'P', all, liked);
    assert t[0] == 'A' && t[..0] == [];
    OutsideSpan(t, 'i', 'p');
  }

  /** A title whose first character is not blank and lies outside the span
      does not start within it. */
  lemma OutsideSpan(t: string, lo: char, hi: char)
    requires FirstNonWhitespaceAt(t, 0) && !(lo <= LowerChar(t[0]) <= hi)
    ensures !StartsWithin(t, lo, hi)
  {
    forall j | FirstNonWhitespaceAt(t, j) ensures j == 0 {
      FirstNonWhitespaceUnique(t, j, 0);
    }
  }
}
