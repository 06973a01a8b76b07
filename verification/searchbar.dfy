/** The header's `SearchBar`: a fixed suggestion list filtered as the user
    types, a dropdown that shows the matches, and the two ways of leaving for
    the search page (submitting the form, clicking a suggestion). */
module SearchBar {
  import opened Wrappers
  import opened Text
  import opened Seqs
  import opened Posts
  import opened Search

  const Suggestions: seq<string> := [
    "Most Liked",
    "React",
    "TypeScript",
    "CSS",
    "AI",
    "Accessibility",
    "Frontend Development",
    "Web Development"
  ]

  function SuggestionKeep(q: string): string -> bool {
    s => Contains(Lower(s), Lower(q))
  }

  /** `filteredSuggestions`: the suggestions whose lower-cased text contains
      the lower-cased query, in their listed order. */
  function FilteredSuggestions(q: string): (r: seq<string>)
    ensures IsSubseq(r, Suggestions)
    ensures forall i :: 0 <= i < |r| ==> Contains(Lower(r[i]), Lower(q))
    ensures forall i :: 0 <= i < |Suggestions| && Contains(Lower(Suggestions[i]), Lower(q)) ==> Suggestions[i] in r
  {
    Filter(Suggestions, SuggestionKeep(q))
  }

  /** With nothing typed every suggestion is kept. */
  lemma EmptyQueryKeepsAllSuggestions()
    ensures FilteredSuggestions("") == Suggestions
  {
    forall i | 0 <= i < |Suggestions| ensures SuggestionKeep("")(Suggestions[i]) {
      ContainsEmpty(Lower(Suggestions[i]));
    }
    FilterAll(Suggestions, SuggestionKeep(""));
  }

  /** Where the bar sends the browser. */
  datatype Navigation = Stay | GoToSearch(query: string)

  /** `handleSearch`: navigates with the trimmed text, and only when the
      trimmed text is non-empty. */
  function Submit(q: string): (r: Navigation)
    ensures r.Stay? <==> AllWhitespace(q)
    ensures r.GoToSearch? ==> r.query == Trim(q) && |r.query| > 0
  {
    TrimEmptyIff(q);
    var t := Trim(q);
    if |t| > 0 then GoToSearch(t) else Stay
  }

  /** A submitted query is never padded with whitespace, and submitting it
      again sends the same query. */
  lemma SubmitIsTrimmed(q: string)
    requires Submit(q).GoToSearch?
    ensures var s := Submit(q).query;
      !IsWhitespace(s[0]) && !IsWhitespace(s[|s| - 1]) && Submit(s) == Submit(q)
  {
    TrimIdempotent(q);
  }

  /** `handleSuggestionClick`: navigates with the suggestion text verbatim. */
  function SuggestionClick(s: string): (r: Navigation)
    ensures r.GoToSearch? && r.query == s
  {
    GoToSearch(s)
  }

  /** Every listed suggestion is already trimmed, so clicking it sends the
      same query as typing it and submitting the form. */
  lemma SuggestionClickAsSubmit(i: nat)
    requires i < |Suggestions|
    ensures SuggestionClick(Suggestions[i]) == Submit(Suggestions[i])
  {
    var s := Suggestions[i];
    assert |s| > 0 && !IsWhitespace(s[0]) && !IsWhitespace(s[|s| - 1]) by {
      if i == 0 { assert s == "Most Liked"; }
      else if i == 1 { assert s == "React"; }
      else if i == 2 { assert s == "TypeScript"; }
      else if i == 3 { assert s == "CSS"; }
      else if i == 4 { assert s == "AI"; }
      else if i == 5 { assert s == "Accessibility"; }
      else if i == 6 { assert s == "Frontend Development"; }
      else { assert s == "Web Development"; }
    }
    TrimNoop(s);
  }

  /** Clicking the "Most Liked" suggestion lands on the most-liked shortcut
      of the search page. */
  lemma MostLikedSuggestionShortcut()
    ensures SuggestionClick(Suggestions[0]) == GoToSearch("Most Liked")
    ensures SearchPosts(SuggestionClick(Suggestions[0]).query) == MostLikedPosts
  {
    assert "" + "Most Liked" + "" == "Most Liked";
    MostLikedShortcut("", "", AllPosts(), MostLikedPosts);
  }

  predicate SomeSuggestionMatches(q: string) {
    exists i :: 0 <= i < |Suggestions| && Contains(Lower(Suggestions[i]), Lower(q))
  }

  lemma FilteredNonEmpty(q: string)
    ensures |FilteredSuggestions(q)| > 0 <==> SomeSuggestionMatches(q)
  {
    var r := FilteredSuggestions(q);
    if |r| > 0 {
      IsSubseqMembers(r, Suggestions);
      assert r[0] in Suggestions;
      var i :| 0 <= i < |Suggestions| && Suggestions[i] == r[0];
      assert Contains(Lower(Suggestions[i]), Lower(q));
    }
  }

  /** The dropdown condition `showSuggestions && searchQuery &&
      filteredSuggestions.length > 0`. */
  function DropdownVisible(open: bool, q: string): (v: bool)
    ensures v <==> (open && |q| > 0 && SomeSuggestionMatches(q))
  {
    FilteredNonEmpty(q);
    open && |q| > 0 && |FilteredSuggestions(q)| > 0
  }

  /** The dropdown tests the untrimmed text, so a lone space opens it (three
      suggestions contain a space) although submitting a lone space does
      nothing. */
  lemma SpaceOpensDropdownButNotSearch()
    ensures DropdownVisible(true, " ")
    ensures Submit(" ") == Stay
  {
    assert Lower(" ") == " ";
    assert OccursAt(Lower(Suggestions[0]), " ", 4);
    ContainsAt(Lower(Suggestions[0]), " ", 4);
  }
}
