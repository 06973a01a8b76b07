/** The home page's state: the feed's posts and the most-liked list, both
    filled from the fixtures, and `handleLike`, which applies the same
    toggle to both lists. */
module Home {
  import opened Text
  import opened Posts

  datatype HomeState = HomeState(posts: seq<Post>, mostLiked: seq<Post>)

  /** The state once both fixtures are loaded. */
  function LoadedHome(): HomeState {
    HomeState(MockPosts(), MostLikedPosts)
  }

  /** `after` is `before` with every post carrying `id` toggled and every
      other post, and the order and ids of all of them, as they were. */
  predicate LikedIn(before: seq<Post>, after: seq<Post>, id: string) {
    && |after| == |before|
    && forall i :: 0 <= i < |before| ==>
         && after[i].id == before[i].id
         && after[i] == (if before[i].id == id then Toggle(before[i]) else before[i])
  }

  /** `handleLike(id)`: the toggle, applied to each list on its own. Both
      lists keep their length and ids, and only the posts carrying `id`
      change. */
  function HandleLike(st: HomeState, id: string): (r: HomeState)
    ensures LikedIn(st.posts, r.posts, id)
    ensures LikedIn(st.mostLiked, r.mostLiked, id)
  {
    ToggleLikeIn(st.posts, id);
    ToggleLikeIn(st.mostLiked, id);
    HomeState(ToggleLike(st.posts, id), ToggleLike(st.mostLiked, id))
  }

  lemma ToggleLikeIn(posts: seq<Post>, id: string)
    ensures LikedIn(posts, ToggleLike(posts, id), id)
  {
    var r := ToggleLike(posts, id);
    forall i | 0 <= i < |posts|
      ensures r[i] == (if posts[i].id == id then Toggle(posts[i]) else posts[i])
    {
      if posts[i].id == id {
        assert r[i].(isLiked := posts[i].isLiked, likes := posts[i].likes) == posts[i];
      }
    }
  }

  /** Liking and unliking the same post restores the page state. */
  lemma HandleLikeTwice(st: HomeState, id: string)
    ensures HandleLike(HandleLike(st, id), id) == st
  {
    ToggleLikeTwice(st.posts, id);
    ToggleLikeTwice(st.mostLiked, id);
  }

  /** On the loaded page, liking feed post `i` changes that post alone and
      leaves the most-liked list as it is. */
  lemma LikeFeedPost(i: nat)
    requires i < MockPostCount
    ensures var id := MockPosts()[i].id;
      var r := HandleLike(LoadedHome(), id);
      && r.mostLiked == MostLikedPosts
      && r.posts[i] == Toggle(MockPosts()[i])
      && (forall j :: 0 <= j < MockPostCount && j != i ==> r.posts[j] == MockPosts()[j])
  {
    var id := MockPosts()[i].id;
    forall k | 0 <= k < |MostLikedPosts| ensures MostLikedPosts[k].id != id {
      FixtureIdsDisjoint(i, k);
    }
    ToggleLikeAbsent(MostLikedPosts, id);
    forall j | 0 <= j < MockPostCount && j != i ensures MockPosts()[j].id != id {
      if j < i { MockIdsDistinct(j, i); } else { MockIdsDistinct(i, j); }
    }
  }

  /** On the loaded page, liking feed post `i` raises the feed's like total
      by exactly one. */
  lemma LikeFeedPostTotal(i: nat)
    requires i < MockPostCount
    ensures TotalLikes(HandleLike(LoadedHome(), MockPosts()[i].id).posts) == TotalLikes(MockPosts()) + 1
  {
    var ps := MockPosts();
    forall a, b | 0 <= a < b < |ps| ensures ps[a].id != ps[b].id {
      MockIdsDistinct(a, b);
    }
    ToggleUniqueTotal(ps, i);
  }
}
