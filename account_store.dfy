/**
 * The program's accounts as one store: three maps from address to record,
 * the way the framework loads them (`Account<T>`, `init`, `seeds`), and the
 * invariant that every instruction keeps.
 */
module AccountStore {
  import opened Errors
  import opened Addresses
  import opened States

  /** Every account the program owns, by address and kind. */
  datatype Store = Store(
    blogs: map<Key, Blog>,
    posts: map<Key, BlogPost>,
    comments: map<Key, Comment>)

  const Empty: Store := Store(map[], map[], map[])

  /** An address holds some account of the program. */
  predicate Occupied(s: Store, k: Key) {
    k in s.blogs || k in s.posts || k in s.comments
  }

  /** Deserialising `Account<Blog>`: the address must hold a blog; an empty
      address and an account of another kind are refused differently. */
  function LoadBlog(s: Store, k: Key): (r: Result<Blog>)
    ensures r.Ok? <==> k in s.blogs
    ensures r.Ok? ==> r.value == s.blogs[k]
  {
    if k in s.blogs then Ok(s.blogs[k])
    else if Occupied(s, k) then Err(AccountDiscriminatorMismatch)
    else Err(AccountNotInitialized)
  }

  function LoadPost(s: Store, k: Key): (r: Result<BlogPost>)
    ensures r.Ok? <==> k in s.posts
    ensures r.Ok? ==> r.value == s.posts[k]
  {
    if k in s.posts then Ok(s.posts[k])
    else if Occupied(s, k) then Err(AccountDiscriminatorMismatch)
    else Err(AccountNotInitialized)
  }

  function LoadComment(s: Store, k: Key): (r: Result<Comment>)
    ensures r.Ok? <==> k in s.comments
    ensures r.Ok? ==> r.value == s.comments[k]
  {
    if k in s.comments then Ok(s.comments[k])
    else if Occupied(s, k) then Err(AccountDiscriminatorMismatch)
    else Err(AccountNotInitialized)
  }

  /** The `init` constraint with `seeds`: the supplied address must be the
      derived one, and nothing may live there yet. */
  function CheckInit(s: Store, k: Key, seeds: seq<Seed>): (r: Outcome)
    ensures r.Pass? <==> SeedsWithinLimits(seeds) && k == Pda(seeds) && !Occupied(s, k)
  {
    var seedsOk := CheckSeeds(k, seeds);
    if seedsOk.Fail? then seedsOk else Require(!Occupied(s, k), AccountAlreadyInUse)
  }

  // ---------------------------------------------------------------------
  // Counting live records

  /** How many posts a blog's counter claims for `owner`. */
  function PostsCountedFor(b: Blog, owner: Key): nat {
    if b.owner == owner then b.numberOfPosts else 0
  }

  /** The sum of `number_of_posts` over all blogs of `owner`. */
  ghost function PostTotal(blogs: map<Key, Blog>, owner: Key): nat
    decreases |blogs|
  {
    if blogs == map[] then 0
    else
      var k :| k in blogs;
      assert |blogs - {k}| < |blogs| by { MapRemoveCard(blogs, k); }
      PostsCountedFor(blogs[k], owner) + PostTotal(blogs - {k}, owner)
  }

  /** The addresses of the live posts of `owner`. */
  ghost function PostsOwnedBy(posts: map<Key, BlogPost>, owner: Key): set<Key> {
    set k | k in posts && posts[k].owner == owner
  }

  /** The addresses of the live posts that name `blog` as their blog. */
  ghost function PostsOfBlog(posts: map<Key, BlogPost>, blog: Key): set<Key> {
    set k | k in posts && posts[k].blog == blog
  }

  /** The addresses of the live comments that name `post` as their post. */
  ghost function CommentsOn(comments: map<Key, Comment>, post: Key): set<Key> {
    set k | k in comments && comments[k].blogPost == post
  }

  lemma MapRemoveCard<V>(m: map<Key, V>, k: Key)
    requires k in m
    ensures |m - {k}| == |m| - 1
  {
    assert (m - {k}).Keys == m.Keys - {k};
  }

  /** The total does not depend on which blog the definition picks first:
      any blog can be taken out of the sum. */
  lemma {:induction false} PostTotalRemove(blogs: map<Key, Blog>, k: Key, owner: Key)
    requires k in blogs
    ensures PostTotal(blogs, owner) == PostsCountedFor(blogs[k], owner) + PostTotal(blogs - {k}, owner)
    decreases |blogs|
  {
    var j :| j in blogs && PostTotal(blogs, owner) == PostsCountedFor(blogs[j], owner) + PostTotal(blogs - {j}, owner);
    if j != k {
      MapRemoveCard(blogs, j);
      MapRemoveCard(blogs, k);
      PostTotalRemove(blogs - {j}, k, owner);
      PostTotalRemove(blogs - {k}, j, owner);
      assert blogs - {j} - {k} == blogs - {k} - {j};
    }
  }

  /** Writing one blog changes the total by that blog's difference. */
  lemma PostTotalUpdate(blogs: map<Key, Blog>, k: Key, b: Blog, owner: Key)
    ensures k in blogs ==>
      PostTotal(blogs[k := b], owner) == PostTotal(blogs, owner) - PostsCountedFor(blogs[k], owner) + PostsCountedFor(b, owner)
    ensures k !in blogs ==>
      PostTotal(blogs[k := b], owner) == PostTotal(blogs, owner) + PostsCountedFor(b, owner)
  {
    PostTotalRemove(blogs[k := b], k, owner);
    if k in blogs {
      PostTotalRemove(blogs, k, owner);
      assert blogs[k := b] - {k} == blogs - {k};
    } else {
      assert blogs[k := b] - {k} == blogs;
    }
  }

  /** Blogs of other owners contribute nothing to an owner's total. */
  lemma {:induction false} PostTotalOfStrangers(blogs: map<Key, Blog>, owner: Key)
    requires forall k :: k in blogs ==> blogs[k].owner != owner
    ensures PostTotal(blogs, owner) == 0
    decreases |blogs|
  {
    if blogs != map[] {
      var k :| k in blogs;
      PostTotalRemove(blogs, k, owner);
      MapRemoveCard(blogs, k);
      PostTotalOfStrangers(blogs - {k}, owner);
    }
  }

  /** Adding a post at a fresh address adds it to its owner's posts only. */
  lemma PostsOwnedByInsert(posts: map<Key, BlogPost>, k: Key, p: BlogPost, owner: Key)
    requires k !in posts
    ensures |PostsOwnedBy(posts[k := p], owner)| == |PostsOwnedBy(posts, owner)| + (if p.owner == owner then 1 else 0)
  {
    if p.owner == owner {
      assert PostsOwnedBy(posts[k := p], owner) == PostsOwnedBy(posts, owner) + {k};
    } else {
      assert PostsOwnedBy(posts[k := p], owner) == PostsOwnedBy(posts, owner);
    }
  }

  /** Removing a post removes it from its owner's posts only. */
  lemma PostsOwnedByRemove(posts: map<Key, BlogPost>, k: Key, owner: Key)
    requires k in posts
    ensures |PostsOwnedBy(posts - {k}, owner)| == |PostsOwnedBy(posts, owner)| - (if posts[k].owner == owner then 1 else 0)
  {
    if posts[k].owner == owner {
      assert PostsOwnedBy(posts - {k}, owner) == PostsOwnedBy(posts, owner) - {k};
    } else {
      assert PostsOwnedBy(posts - {k}, owner) == PostsOwnedBy(posts, owner);
    }
  }

  /** Rewriting a post without changing its owner keeps every owner's posts. */
  lemma PostsOwnedByReplace(posts: map<Key, BlogPost>, k: Key, p: BlogPost, owner: Key)
    requires k in posts && p.owner == posts[k].owner
    ensures PostsOwnedBy(posts[k := p], owner) == PostsOwnedBy(posts, owner)
  {
  }

  lemma CommentsOnInsert(comments: map<Key, Comment>, k: Key, c: Comment, post: Key)
    requires k !in comments
    ensures |CommentsOn(comments[k := c], post)| == |CommentsOn(comments, post)| + (if c.blogPost == post then 1 else 0)
  {
    if c.blogPost == post {
      assert CommentsOn(comments[k := c], post) == CommentsOn(comments, post) + {k};
    } else {
      assert CommentsOn(comments[k := c], post) == CommentsOn(comments, post);
    }
  }

  lemma CommentsOnRemove(comments: map<Key, Comment>, k: Key, post: Key)
    requires k in comments
    ensures |CommentsOn(comments - {k}, post)| == |CommentsOn(comments, post)| - (if comments[k].blogPost == post then 1 else 0)
  {
    if comments[k].blogPost == post {
      assert CommentsOn(comments - {k}, post) == CommentsOn(comments, post) - {k};
    } else {
      assert CommentsOn(comments - {k}, post) == CommentsOn(comments, post);
    }
  }

  // ---------------------------------------------------------------------
  // The invariant of every reachable store

  /** Each record sits at the address derived from its own fields, and fits
      its slot. */
  ghost predicate WellPlaced(s: Store) {
    && (forall k :: k in s.blogs ==>
          && k == BlogAddress(s.blogs[k].title, s.blogs[k].owner)
          && |s.blogs[k].title| <= MAX_SEED_LEN
          && BlogFits(s.blogs[k]))
    && (forall k :: k in s.posts ==>
          k == PostAddress(s.posts[k].title, s.posts[k].owner) && PostFits(s.posts[k]))
    && (forall k :: k in s.comments ==>
          k == CommentAddress(s.comments[k].blogPost, s.comments[k].commentAuthor) && CommentFits(s.comments[k]))
  }

  /** An address holds at most one account: `init` refuses an occupied
      address whatever kind of record lives there, and closing frees it. */
  ghost predicate OneRecordPerAddress(s: Store) {
    && s.blogs.Keys !! s.posts.Keys
    && s.blogs.Keys !! s.comments.Keys
    && s.posts.Keys !! s.comments.Keys
  }

  /** A post names a live blog of its own owner; a comment names a live blog.
      (A comment's post may be gone: deleting a post keeps its comments.) */
  ghost predicate ReferencesLive(s: Store) {
    && (forall k :: k in s.posts ==>
          s.posts[k].blog in s.blogs && s.blogs[s.posts[k].blog].owner == s.posts[k].owner)
    && (forall k :: k in s.comments ==> s.comments[k].blog in s.blogs)
  }

  /** The post counters are exact per owner: over all blogs of an owner,
      `number_of_posts` adds up to the number of that owner's live posts. */
  ghost predicate PostCountersBalanced(s: Store) {
    forall owner :: PostTotal(s.blogs, owner) == |PostsOwnedBy(s.posts, owner)|
  }

  /** A post's `number_of_comments` never exceeds the live comments naming it. */
  ghost predicate CommentCountersBounded(s: Store) {
    forall k :: k in s.posts ==> s.posts[k].numberOfComments <= |CommentsOn(s.comments, k)|
  }

  ghost predicate Valid(s: Store) {
    && WellPlaced(s) && OneRecordPerAddress(s) && ReferencesLive(s)
    && PostCountersBalanced(s) && CommentCountersBounded(s)
  }

  /** Rewriting one post without changing its owner, and leaving the blogs
      alone, keeps the per-owner post totals. */
  lemma PostRewriteKeepsBalance(s: Store, s': Store, k: Key)
    requires PostCountersBalanced(s) && k in s.posts
    requires s'.blogs == s.blogs && k in s'.posts && s'.posts == s.posts[k := s'.posts[k]]
    requires s'.posts[k].owner == s.posts[k].owner
    ensures PostCountersBalanced(s')
  {
    forall owner ensures PostTotal(s'.blogs, owner) == |PostsOwnedBy(s'.posts, owner)| {
      PostsOwnedByReplace(s.posts, k, s'.posts[k], owner);
    }
  }

  /** The store the program starts with. */
  lemma EmptyValid()
    ensures Valid(Empty)
  {
    forall owner ensures PostTotal(Empty.blogs, owner) == |PostsOwnedBy(Empty.posts, owner)| {
      assert PostsOwnedBy(Empty.posts, owner) == {};
    }
  }

  /** In a valid store the `seeds = [blog.title, blog.owner]` constraint on a
      loaded blog always holds: any live blog passes it. */
  lemma LiveBlogPassesSeeds(s: Store, k: Key)
    requires Valid(s) && k in s.blogs
    ensures CheckSeeds(k, BlogSeeds(s.blogs[k].title, s.blogs[k].owner)).Pass?
  {
    BlogSeedsWithinLimits(s.blogs[k].title, s.blogs[k].owner);
  }

  /** An owner with a single blog: its counter is exact, i.e. it equals the
      number of live posts that name that blog. */
  lemma SingleBlogCounterExact(s: Store, b: Key)
    requires Valid(s) && b in s.blogs
    requires forall k :: k in s.blogs && s.blogs[k].owner == s.blogs[b].owner ==> k == b
    ensures s.blogs[b].numberOfPosts == |PostsOfBlog(s.posts, b)|
  {
    var owner := s.blogs[b].owner;
    PostTotalRemove(s.blogs, b, owner);
    PostTotalOfStrangers(s.blogs - {b}, owner);
    assert PostsOwnedBy(s.posts, owner) == PostsOfBlog(s.posts, b);
  }
}
