/** The `BlogPost` record shared by the home page and the search page, the
    two in-memory fixtures both pages build, and the like toggle both pages
    apply to a list of posts. */
module Posts {
  import opened Wrappers
  import opened Text

  datatype Author = Author(id: string, name: string, avatar: Option<string>)

  /** One blog post. The optional `isLiked` flag of the source is a plain
      flag here: every fixture post sets it. */
  datatype Post = Post(
    id: string,
    title: string,
    content: string,
    image: Option<string>,
    author: Author,
    tags: seq<string>,
    likes: int,
    comments: int,
    createdAt: string,
    isLiked: bool)

  /* ---------- the like toggle ---------- */

  /** The post after one click on its like button. */
  function Toggle(p: Post): (q: Post)
    ensures q.isLiked != p.isLiked
    ensures q.likes == (if p.isLiked then p.likes - 1 else p.likes + 1)
    ensures q.(isLiked := p.isLiked, likes := p.likes) == p
  {
    p.(isLiked := !p.isLiked, likes := if p.isLiked then p.likes - 1 else p.likes + 1)
  }

  /** `posts.map(post => post.id === id ? toggled : post)`. */
  function ToggleLike(posts: seq<Post>, id: string): (r: seq<Post>)
    ensures |r| == |posts|
    ensures forall i :: 0 <= i < |posts| && posts[i].id != id ==> r[i] == posts[i]
    ensures forall i :: 0 <= i < |posts| && posts[i].id == id ==>
              && r[i].isLiked == !posts[i].isLiked
              && r[i].likes == (if posts[i].isLiked then posts[i].likes - 1 else posts[i].likes + 1)
              && r[i].(isLiked := posts[i].isLiked, likes := posts[i].likes) == posts[i]
  {
    if |posts| == 0 then []
    else
      var head := if posts[0].id == id then Toggle(posts[0]) else posts[0];
      var rest := ToggleLike(posts[1..], id);
      assert forall i :: 1 <= i < |posts| ==> ([head] + rest)[i] == rest[i - 1] && posts[i] == posts[1..][i - 1];
      [head] + rest
  }

  /** The toggle never changes which posts are listed: ids are kept in place. */
  lemma ToggleLikeKeepsIds(posts: seq<Post>, id: string)
    ensures forall i :: 0 <= i < |posts| ==> ToggleLike(posts, id)[i].id == posts[i].id
  {
  }

  /** Clicking like twice on the same post restores the list. */
  lemma {:induction false} ToggleLikeTwice(posts: seq<Post>, id: string)
    ensures ToggleLike(ToggleLike(posts, id), id) == posts
    decreases |posts|
  {
    if |posts| > 0 {
      ToggleLikeTwice(posts[1..], id);
      assert ToggleLike(posts, id)[1..] == ToggleLike(posts[1..], id);
    }
  }

  /** An id that no post carries leaves the list as it is. */
  lemma ToggleLikeAbsent(posts: seq<Post>, id: string)
    requires forall i :: 0 <= i < |posts| ==> posts[i].id != id
    ensures ToggleLike(posts, id) == posts
  {
  }

  /** Sum of the like counters of a list. */
  function TotalLikes(posts: seq<Post>): int {
    if |posts| == 0 then 0 else posts[0].likes + TotalLikes(posts[1..])
  }

  /** Number of posts with id `id` whose like flag is `liked`. */
  function CountWithId(posts: seq<Post>, id: string, liked: bool): nat {
    if |posts| == 0 then 0
    else (if posts[0].id == id && posts[0].isLiked == liked then 1 else 0) + CountWithId(posts[1..], id, liked)
  }

  /** The total of the like counters moves by one per matching unliked post
      and back by one per matching liked post. */
  lemma {:induction false} ToggleLikeTotal(posts: seq<Post>, id: string)
    ensures TotalLikes(ToggleLike(posts, id))
            == TotalLikes(posts) + CountWithId(posts, id, false) - CountWithId(posts, id, true)
    decreases |posts|
  {
    if |posts| > 0 {
      ToggleLikeTotal(posts[1..], id);
      assert ToggleLike(posts, id)[1..] == ToggleLike(posts[1..], id);
    }
  }

  /** Ids that appear at most once in the list. */
  predicate UniqueIds(posts: seq<Post>) {
    forall a, b :: 0 <= a < b < |posts| ==> posts[a].id != posts[b].id
  }

  /** With unique ids, the counting in `ToggleLikeTotal` is one for the post
      clicked and zero otherwise. */
  lemma {:induction false} CountUnique(posts: seq<Post>, k: nat, liked: bool)
    requires UniqueIds(posts) && k < |posts|
    ensures CountWithId(posts, posts[k].id, liked) == (if posts[k].isLiked == liked then 1 else 0)
    decreases |posts|
  {
    var id := posts[k].id;
    if k == 0 {
      CountAbsent(posts[1..], id, liked);
    } else {
      assert posts[1..][k - 1] == posts[k];
      CountUnique(posts[1..], k - 1, liked);
    }
  }

  lemma {:induction false} CountAbsent(posts: seq<Post>, id: string, liked: bool)
    requires forall i :: 0 <= i < |posts| ==> posts[i].id != id
    ensures CountWithId(posts, id, liked) == 0
    decreases |posts|
  {
    if |posts| > 0 {
      CountAbsent(posts[1..], id, liked);
    }
  }

  /** With unique ids, one click moves the list's like total by exactly one:
      up for an unliked post, down for a liked one. */
  lemma ToggleUniqueTotal(posts: seq<Post>, k: nat)
    requires UniqueIds(posts) && k < |posts|
    ensures TotalLikes(ToggleLike(posts, posts[k].id))
            == TotalLikes(posts) + (if posts[k].isLiked then -1 else 1)
  {
    ToggleLikeTotal(posts, posts[k].id);
    CountUnique(posts, k, false);
    CountUnique(posts, k, true);
  }

  /* ---------- fixtures ---------- */

  const MockTitlePrefix: string := "5 Reasons to Learn Frontend Development in 2025 Blog Post "

  const MockContent: string :=
    "Frontend development is more than just building beautiful user interfaces \U{2014} it's about crafting user experiences that are fast, accessible, and intuitive. As we move into 2025, the demand for skilled frontend developers continues to rise."

  /** The `n`-th generated post (1-based), as `Array.from({ length: 50 }, (_, i) => ...)`
      builds it for `i = n - 1`: its id and the end of its title both read
      back as `n`, and it starts unliked with twenty likes. */
  function MockPost(n: nat): (r: Post)
    ensures |r.id| > 5 && r.id[..5] == "post-"
    ensures IsDigits(r.id[5..]) && ParseNat(r.id[5..]) == n
    ensures |r.title| > |MockTitlePrefix| && r.title[..|MockTitlePrefix|] == MockTitlePrefix
    ensures IsDigits(r.title[|MockTitlePrefix|..]) && ParseNat(r.title[|MockTitlePrefix|..]) == n
    ensures !r.isLiked && r.likes == 20
  {
    var d := NatToString(n);
    ParseNatToString(n);
    assert ("post-" + d)[5..] == d;
    assert (MockTitlePrefix + d)[|MockTitlePrefix|..] == d;
    Post(
      id := "post-" + d,
      title := MockTitlePrefix + d,
      content := MockContent,
      image := Some("/image-5.png"),
      author := Author("author-1", "John Doe", Some("/image-6.png")),
      tags := ["Programming", "Frontend", "Coding"],
      likes := 20,
      comments := 20,
      createdAt := "2025-05-27T00:00:00Z",
      isLiked := false)
  }

  const MockPostCount: nat := 50

  /** The fifty generated posts `post-1 .. post-50`. */
  function MockPosts(): (ps: seq<Post>)
    ensures |ps| == MockPostCount
    ensures forall i :: 0 <= i < |ps| ==> ps[i] == MockPost(i + 1)
  {
    seq(MockPostCount, i requires 0 <= i < MockPostCount => MockPost(i + 1))
  }

  /** The five hand-written most-liked posts. */
  const MostLikedPosts: seq<Post> := [
    Post("liked-1", "The Future of Web Development: AI-Powered Tools in 2025",
      LikedContent1,
      None, Author("author-1", "Sarah Johnson", Some("/image-6.png")),
      ["AI", "Web Development", "Technology"], 156, 23, "2025-05-25T00:00:00Z", false),
    Post("liked-2", "Mastering React Performance: Optimization Techniques That Work",
      LikedContent2,
      None, Author("author-2", "Mike Chen", Some("/image-6.png")),
      ["React", "Performance", "Frontend"], 142, 18, "2025-05-24T00:00:00Z", false),
    Post("liked-3", "TypeScript Best Practices for Large-Scale Applications",
      LikedContent3,
      None, Author("author-3", "Emily Rodriguez", Some("/image-6.png")),
      ["TypeScript", "Best Practices", "Architecture"], 128, 31, "2025-05-23T00:00:00Z", false),
    Post("liked-4", "CSS Grid vs Flexbox: When to Use Each Layout System",
      LikedContent4,
      None, Author("author-4", "David Kim", Some("/image-6.png")),
      ["CSS", "Layout", "Design"], 115, 27, "2025-05-22T00:00:00Z", false),
    Post("liked-5", "Building Accessible Web Applications: A Complete Guide",
      LikedContent5,
      None, Author("author-5", "Lisa Thompson", Some("/image-6.png")),
      ["Accessibility", "UX", "Inclusive Design"], 98, 15, "2025-05-21T00:00:00Z", false)
  ]

  /* The bodies of the most-liked posts. */

  const LikedContent1: string :=
    "Artificial Intelligence is revolutionizing web development. From automated code generation to intelligent debugging, AI tools are becoming essential for modern developers. Learn how to leverage these technologies to build better applications faster."

  const LikedContent2: string :=
    "Performance optimization in React applications is crucial for user experience. Discover proven techniques for reducing bundle size, implementing code splitting, and optimizing rendering performance."

  const LikedContent3: string :=
    "TypeScript has become the standard for building maintainable JavaScript applications. Explore advanced patterns, type safety techniques, and architectural decisions that scale with your project."

  const LikedContent4: string :=
    "Understanding when to use CSS Grid versus Flexbox can significantly improve your layout efficiency. This comprehensive guide covers real-world scenarios and practical examples for both systems."

  const LikedContent5: string :=
    "Web accessibility is not just a legal requirement\U{2014}it's a moral imperative. Learn how to build applications that work for everyone, including users with disabilities, and improve your overall user experience."


  /** The fixture ids `post-1 .. post-50` are pairwise distinct. */
  lemma MockIdsDistinct(i: nat, j: nat)
    requires i < j < MockPostCount
    ensures MockPosts()[i].id != MockPosts()[j].id
  {
    var a, b := NatToString(i + 1), NatToString(j + 1);
    if "post-" + a == "post-" + b {
      assert a == ("post-" + a)[5..];
      NatToStringInjective(i + 1, j + 1);
    }
  }

  /** No generated post shares its id with a most-liked post: the id
      prefixes `post-` and `liked-` differ in their first letter. */
  lemma FixtureIdsDisjoint(i: nat, k: nat)
    requires i < MockPostCount && k < |MostLikedPosts|
    ensures MockPosts()[i].id != MostLikedPosts[k].id
  {
    MockIdInitial(i);
    LikedIdInitial(k);
  }

  lemma MockIdInitial(i: nat)
    requires i < MockPostCount
    ensures |MockPosts()[i].id| > 0 && MockPosts()[i].id[0] == 'p'
  {
    var id := MockPosts()[i].id;
    assert id[..5][0] == 'p';
  }

  lemma LikedIdInitial(k: nat)
    requires k < |MostLikedPosts|
    ensures |MostLikedPosts[k].id| > 0 && MostLikedPosts[k].id[0] == 'l'
  {
    if k == 0 { assert MostLikedPosts[0].id == "liked-1"; }
    else if k == 1 { assert MostLikedPosts[1].id == "liked-2"; }
    else if k == 2 { assert MostLikedPosts[2].id == "liked-3"; }
    else if k == 3 { assert MostLikedPosts[3].id == "liked-4"; }
    else { assert MostLikedPosts[4].id == "liked-5"; }
  }

}
