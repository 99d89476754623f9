/**
 * `delete_blog_post`: lower a blog's `number_of_posts` and close the
 * signer's post.
 */
module DeleteBlogPost {
  import opened Errors
  import opened Addresses
  import opened States
  import opened AccountStore
  import CreateBlogPost

  /** The accounts the instruction takes. */
  datatype Accounts = Accounts(owner: SignerKey, blogPost: Key, blog: Key)

  /** The whole instruction. It succeeds exactly when a post lives at the
      address derived from the title and the signer, the supplied blog is a
      live blog of the signer (not necessarily the post's own blog) and its
      counter is positive. It then frees the post's slot, lowers that blog's
      counter by one and leaves the comments alone. */
  function Apply(s: Store, acc: Accounts, title: Bytes): (r: Result<Store>)
    ensures r.Ok? <==>
      && acc.blogPost in s.posts
      && acc.blog in s.blogs
      && acc.blogPost == PostAddress(title, acc.owner)
      && |s.blogs[acc.blog].title| <= MAX_SEED_LEN
      && acc.blog == BlogAddress(s.blogs[acc.blog].title, s.blogs[acc.blog].owner)
      && s.blogs[acc.blog].owner == acc.owner
      && s.blogs[acc.blog].numberOfPosts > 0
    ensures r.Ok? ==>
      var b := s.blogs[acc.blog];
      && r.value.posts == s.posts - {acc.blogPost}
      && r.value.blogs == s.blogs[acc.blog := b.(numberOfPosts := b.numberOfPosts - 1)]
      && r.value.comments == s.comments
  {
    PostAndCommentSeedsWithinLimits(title, acc.owner, acc.blogPost, acc.owner);
    var post :- LoadPost(s, acc.blogPost);
    var blog :- LoadBlog(s, acc.blog);
    BlogSeedsWithinLimits(blog.title, blog.owner);
    // blog_post: `seeds = [hash_string_content(title), owner]`, `close = owner`
    :- CheckSeeds(acc.blogPost, PostSeeds(HashStringContent(title), acc.owner));
    // blog: `seeds = [blog.title, blog.owner]`, `constraint = blog.owner == owner`
    :- CheckSeeds(acc.blog, BlogSeeds(blog.title, blog.owner));
    :- Require(blog.owner == acc.owner, UnauthorizedOwner);
    // handler: `checked_sub(1).ok_or(Underflow)?`
    var count :- CheckedSub(blog.numberOfPosts, 1).OkOr(Underflow);
    // exit: the post's account is closed
    Ok(Store(s.blogs[acc.blog := blog.(numberOfPosts := count)], s.posts - {acc.blogPost}, s.comments))
  }

  /** An empty counter aborts with `Underflow` and the post stays. */
  lemma EmptyCounterUnderflows(s: Store, acc: Accounts, title: Bytes)
    requires Valid(s)
    requires acc.blogPost in s.posts && acc.blogPost == PostAddress(title, acc.owner)
    requires acc.blog in s.blogs && s.blogs[acc.blog].owner == acc.owner
    requires s.blogs[acc.blog].numberOfPosts == 0
    ensures Apply(s, acc, title) == Err(Underflow)
  {
    PostAndCommentSeedsWithinLimits(title, acc.owner, acc.blogPost, acc.owner);
    LiveBlogPassesSeeds(s, acc.blog);
  }

  /** A supplied blog whose owner is not the signer is refused. */
  lemma StrangersBlogRefused(s: Store, acc: Accounts, title: Bytes)
    requires Valid(s)
    requires acc.blogPost in s.posts && acc.blogPost == PostAddress(title, acc.owner)
    requires acc.blog in s.blogs && s.blogs[acc.blog].owner != acc.owner
    ensures Apply(s, acc, title) == Err(UnauthorizedOwner)
  {
    PostAndCommentSeedsWithinLimits(title, acc.owner, acc.blogPost, acc.owner);
    LiveBlogPassesSeeds(s, acc.blog);
  }

  /** Only the owner's own post can be deleted. */
  lemma OnlyOwnerDeletes(s: Store, acc: Accounts, title: Bytes)
    requires Valid(s)
    requires Apply(s, acc, title).Ok?
    ensures s.posts[acc.blogPost].owner == acc.owner && s.posts[acc.blogPost].title == title
  {
    var p := s.posts[acc.blogPost];
    BlogAndPostAddressesInjective(p.title, p.owner, title, acc.owner);
  }

  /** The comments of the deleted post stay in the store, now naming an
      address that holds no post. */
  lemma CommentsOutliveTheirPost(s: Store, acc: Accounts, title: Bytes, c: Key)
    requires Apply(s, acc, title).Ok?
    requires c in s.comments && s.comments[c].blogPost == acc.blogPost
    ensures var s' := Apply(s, acc, title).value;
      c in s'.comments && s'.comments[c] == s.comments[c] && s'.comments[c].blogPost !in s'.posts
  {
  }

  /** Deleting frees the address: the same owner can create a post with the
      same title again, under any of their blogs whose counter has room. */
  lemma DeleteThenRecreate(s: Store, acc: Accounts, title: Bytes, blog: Key, content: Bytes, now: i64)
    requires Valid(s)
    requires Apply(s, acc, title).Ok?
    requires blog in s.blogs && s.blogs[blog].owner == acc.owner
    requires s.blogs[blog].numberOfPosts < U64_MAX
    requires PostFits(CreateBlogPost.NewPost(CreateBlogPost.Accounts(acc.owner, acc.blogPost, blog), title, content, now))
    ensures CreateBlogPost.Apply(Apply(s, acc, title).value,
                                 CreateBlogPost.Accounts(acc.owner, acc.blogPost, blog), title, content, now).Ok?
  {
    LiveBlogPassesSeeds(s, blog);
  }

  /** The instruction keeps the store invariant: the post leaves its owner's
      count and one of that owner's blogs gives up one from its counter. */
  lemma PreservesValid(s: Store, acc: Accounts, title: Bytes)
    requires Valid(s)
    requires Apply(s, acc, title).Ok?
    ensures Valid(Apply(s, acc, title).value)
  {
    var s' := Apply(s, acc, title).value;
    var b := s.blogs[acc.blog];
    var b' := b.(numberOfPosts := b.numberOfPosts - 1);
    OnlyOwnerDeletes(s, acc, title);
    forall owner ensures PostTotal(s'.blogs, owner) == |PostsOwnedBy(s'.posts, owner)| {
      PostTotalUpdate(s.blogs, acc.blog, b', owner);
      PostsOwnedByRemove(s.posts, acc.blogPost, owner);
    }
  }

  /** Two blogs of one owner, each with one post of its own. */
  function TwoBlogsOneOwner(): Store {
    var owner: SignerKey := External(1);
    Store(map[BlogAddress([0x41], owner) := Blog(owner, [0x41], [], 1, 0),
              BlogAddress([0x42], owner) := Blog(owner, [0x42], [], 1, 0)],
          map[PostAddress([0x41], owner) := BlogPost(owner, BlogAddress([0x41], owner), [0x41], [], 0, 0, 0),
              PostAddress([0x42], owner) := BlogPost(owner, BlogAddress([0x42], owner), [0x42], [], 0, 0, 0)],
          map[])
  }

  /** The witness store's records sit at their addresses and fit. */
  lemma TwoBlogsOneOwnerWellPlaced()
    ensures WellPlaced(TwoBlogsOneOwner()) && ReferencesLive(TwoBlogsOneOwner())
  {
    var owner: SignerKey := External(1);
    BlogSeedsWithinLimits([0x41], owner);
    BlogSeedsWithinLimits([0x42], owner);
  }

  /** The witness store's owner total is two, as are its live posts. */
  lemma TwoBlogsOneOwnerBalanced()
    ensures PostCountersBalanced(TwoBlogsOneOwner())
  {
    var s := TwoBlogsOneOwner();
    var owner: SignerKey := External(1);
    var kA, kB := BlogAddress([0x41], owner), BlogAddress([0x42], owner);
    var pA, pB := PostAddress([0x41], owner), PostAddress([0x42], owner);
    BlogAndPostAddressesInjective([0x41], owner, [0x42], owner);
    assert s.posts.Keys == {pA, pB};
    assert s.blogs - {kA} == map[kB := s.blogs[kB]];
    assert s.blogs - {kA} - {kB} == map[];
    forall o ensures PostTotal(s.blogs, o) == |PostsOwnedBy(s.posts, o)| {
      PostTotalRemove(s.blogs, kA, o);
      PostTotalRemove(s.blogs - {kA}, kB, o);
      if o == owner {
        assert PostsOwnedBy(s.posts, o) == {pA, pB};
      } else {
        assert PostsOwnedBy(s.posts, o) == {};
      }
    }
  }

  /** The witness store satisfies the invariant, and each blog's counter is
      exact. */
  lemma TwoBlogsOneOwnerValid()
    ensures Valid(TwoBlogsOneOwner())
    ensures forall k :: k in TwoBlogsOneOwner().blogs ==>
      TwoBlogsOneOwner().blogs[k].numberOfPosts == |PostsOfBlog(TwoBlogsOneOwner().posts, k)|
  {
    var s := TwoBlogsOneOwner();
    var owner: SignerKey := External(1);
    var kA, kB := BlogAddress([0x41], owner), BlogAddress([0x42], owner);
    var pA, pB := PostAddress([0x41], owner), PostAddress([0x42], owner);
    TwoBlogsOneOwnerWellPlaced();
    TwoBlogsOneOwnerBalanced();
    BlogAndPostAddressesInjective([0x41], owner, [0x42], owner);
    assert PostsOfBlog(s.posts, kA) == {pA};
    assert PostsOfBlog(s.posts, kB) == {pB};
  }

  /** The per-blog count the program's own tests expect (tests/blog.ts,
      lines 226, 260, 527 and 554) is not kept: with two blogs of
      one owner, deleting a post of the first while naming the second leaves
      the first counting a post it no longer has and the second counting one
      less than it holds. */
  lemma CountersDriftAcrossBlogs()
    ensures exists s: Store, acc: Accounts, title: Bytes ::
      && Valid(s)
      && Apply(s, acc, title).Ok?
      && s.blogs[acc.blog].numberOfPosts == |PostsOfBlog(s.posts, acc.blog)|
      && var s' := Apply(s, acc, title).value;
         exists other :: other in s'.blogs && s'.blogs[other].numberOfPosts != |PostsOfBlog(s'.posts, other)|
  {
    var s := TwoBlogsOneOwner();
    var owner: SignerKey := External(1);
    var kA, kB := BlogAddress([0x41], owner), BlogAddress([0x42], owner);
    var pA, pB := PostAddress([0x41], owner), PostAddress([0x42], owner);
    TwoBlogsOneOwnerValid();
    var acc := Accounts(owner, pA, kB);
    assert kA != kB && pA != pB;
    LiveBlogPassesSeeds(s, kB);
    assert Apply(s, acc, [0x41]).Ok?;
    var s' := Apply(s, acc, [0x41]).value;
    assert s'.posts == map[pB := s.posts[pB]];
    assert PostsOfBlog(s'.posts, kA) == {};
    assert s'.blogs[kA].numberOfPosts == 1;
  }
}
