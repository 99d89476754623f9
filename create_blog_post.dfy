/**
 * `create_blog_post`: allocate a post at `[hash(title), owner]` under one of
 * the owner's blogs and bump that blog's `number_of_posts`.
 */
module CreateBlogPost {
  import opened Errors
  import opened Addresses
  import opened States
  import opened AccountStore

  /** The accounts the instruction takes. */
  datatype Accounts = Accounts(owner: SignerKey, blogPost: Key, blog: Key)

  /** The record the handler writes; `updated_at` stays zero until an update. */
  function NewPost(acc: Accounts, title: Bytes, content: Bytes, now: i64): BlogPost {
    BlogPost(acc.owner, acc.blog, title, content, 0, now, 0)
  }

  /** The `seeds = [blog.title, blog.owner]` constraint on a loaded blog holds. */
  predicate BlogSeedsHold(k: Key, b: Blog) {
    |b.title| <= MAX_SEED_LEN && k == BlogAddress(b.title, b.owner)
  }

  /** The whole instruction. It succeeds exactly when the blog is live and
      owned by the signer, the post address is the one derived from the title
      and the signer and is free, the counter can grow and the post fits its
      slot. It then adds the post, raises that blog's counter by one and
      changes nothing else. */
  function Apply(s: Store, acc: Accounts, title: Bytes, content: Bytes, now: i64): (r: Result<Store>)
    ensures r.Ok? <==>
      && acc.blog in s.blogs
      && acc.blogPost == PostAddress(title, acc.owner)
      && !Occupied(s, acc.blogPost)
      && BlogSeedsHold(acc.blog, s.blogs[acc.blog])
      && s.blogs[acc.blog].owner == acc.owner
      && s.blogs[acc.blog].numberOfPosts < U64_MAX
      && PostFits(NewPost(acc, title, content, now))
    ensures r.Ok? ==>
      var b := s.blogs[acc.blog];
      && acc.blogPost !in s.posts
      && r.value.posts == s.posts[acc.blogPost := NewPost(acc, title, content, now)]
      && r.value.blogs == s.blogs[acc.blog := b.(numberOfPosts := b.numberOfPosts + 1)]
      && r.value.comments == s.comments
  {
    PostAndCommentSeedsWithinLimits(title, acc.owner, acc.blogPost, acc.owner);
    // `Account<Blog>` is deserialised before any constraint is checked
    var blog :- LoadBlog(s, acc.blog);
    BlogSeedsWithinLimits(blog.title, blog.owner);
    // blog_post: `init`, `seeds = [hash_string_content(title), owner]`
    :- CheckInit(s, acc.blogPost, PostSeeds(HashStringContent(title), acc.owner));
    // blog: `seeds = [blog.title, blog.owner]`, then `has_one = owner`. The
    // raw `constraint = blog.owner == owner` tests the same equality after
    // `has_one`, so its `UnauthorizedOwner` is never the error reported.
    :- CheckSeeds(acc.blog, BlogSeeds(blog.title, blog.owner));
    :- Require(blog.owner == acc.owner, ConstraintHasOne);
    // handler: the post's fields, then `checked_add(1).ok_or(Overflow)?`
    var post := NewPost(acc, title, content, now);
    var count :- CheckedAdd(blog.numberOfPosts, 1).OkOr(Overflow);
    // exit: the post is serialised into its 5155-byte slot
    :- Require(PostFits(post), AccountDidNotSerialize);
    Ok(Store(s.blogs[acc.blog := blog.(numberOfPosts := count)], s.posts[acc.blogPost := post], s.comments))
  }

  /** On success the post at `PostAddress(title, signer)` is owned by the
      signer, names the blog, holds the title and content and no comments,
      and the blog's counter went up by exactly one. */
  lemma NewPostRecorded(s: Store, acc: Accounts, title: Bytes, content: Bytes, now: i64)
    requires Apply(s, acc, title, content, now).Ok?
    ensures var s' := Apply(s, acc, title, content, now).value;
      && PostAddress(title, acc.owner) in s'.posts
      && s'.posts[PostAddress(title, acc.owner)] == BlogPost(acc.owner, acc.blog, title, content, 0, now, 0)
      && s'.blogs[acc.blog].numberOfPosts == s.blogs[acc.blog].numberOfPosts + 1
  {
  }

  /** Only the new post and the chosen blog's counter change. */
  lemma OnlyPostAndCounterChange(s: Store, acc: Accounts, title: Bytes, content: Bytes, now: i64)
    requires Apply(s, acc, title, content, now).Ok?
    ensures var s' := Apply(s, acc, title, content, now).value;
      && s'.comments == s.comments
      && s'.blogs.Keys == s.blogs.Keys
      && (forall k :: k in s.blogs && k != acc.blog ==> s'.blogs[k] == s.blogs[k])
      && s'.blogs[acc.blog] == s.blogs[acc.blog].(numberOfPosts := s'.blogs[acc.blog].numberOfPosts)
      && s'.posts.Keys == s.posts.Keys + {acc.blogPost}
      && (forall k :: k in s.posts ==> s'.posts[k] == s.posts[k])
  {
  }

  /** A full counter aborts the instruction with `Overflow`: no post is
      allocated and the counter stays. */
  lemma FullCounterOverflows(s: Store, acc: Accounts, title: Bytes, content: Bytes, now: i64)
    requires acc.blog in s.blogs && s.blogs[acc.blog].numberOfPosts == U64_MAX
    requires acc.blogPost == PostAddress(title, acc.owner) && !Occupied(s, acc.blogPost)
    requires BlogSeedsHold(acc.blog, s.blogs[acc.blog]) && s.blogs[acc.blog].owner == acc.owner
    ensures Apply(s, acc, title, content, now) == Err(Overflow)
  {
    PostAndCommentSeedsWithinLimits(title, acc.owner, acc.blogPost, acc.owner);
    BlogSeedsWithinLimits(s.blogs[acc.blog].title, s.blogs[acc.blog].owner);
  }

  /** Only the blog's owner can post to it: any other signer is refused
      (by `has_one`, before the raw constraint is reached). */
  lemma StrangerRefused(s: Store, acc: Accounts, title: Bytes, content: Bytes, now: i64)
    requires acc.blog in s.blogs && s.blogs[acc.blog].owner != acc.owner
    requires acc.blogPost == PostAddress(title, acc.owner) && !Occupied(s, acc.blogPost)
    requires BlogSeedsHold(acc.blog, s.blogs[acc.blog])
    ensures Apply(s, acc, title, content, now) == Err(ConstraintHasOne)
  {
    PostAndCommentSeedsWithinLimits(title, acc.owner, acc.blogPost, acc.owner);
    BlogSeedsWithinLimits(s.blogs[acc.blog].title, s.blogs[acc.blog].owner);
  }

  /** At most one post per (title, owner) across all of that owner's blogs:
      while one exists, creating another with the same title fails whichever
      blog is named. */
  lemma OnePostPerTitleAndOwner(s: Store, acc: Accounts, title: Bytes, content: Bytes, now: i64, other: Key)
    requires Valid(s)
    requires other in s.posts && s.posts[other].title == title && s.posts[other].owner == acc.owner
    ensures Apply(s, acc, title, content, now).Err?
  {
    BlogAndPostAddressesInjective(title, acc.owner, title, acc.owner);
  }

  /** The blog must be live: naming an address that holds no blog fails. */
  lemma MissingBlogFails(s: Store, acc: Accounts, title: Bytes, content: Bytes, now: i64)
    requires acc.blog !in s.blogs
    ensures Apply(s, acc, title, content, now).Err?
    ensures !Occupied(s, acc.blog) ==> Apply(s, acc, title, content, now) == Err(AccountNotInitialized)
  {
  }

  /** The instruction keeps the store invariant; in particular the owner's
      post total and post count both grow by one. */
  lemma PreservesValid(s: Store, acc: Accounts, title: Bytes, content: Bytes, now: i64)
    requires Valid(s)
    requires Apply(s, acc, title, content, now).Ok?
    ensures Valid(Apply(s, acc, title, content, now).value)
  {
    var s' := Apply(s, acc, title, content, now).value;
    var b := s.blogs[acc.blog];
    var b' := b.(numberOfPosts := b.numberOfPosts + 1);
    var p := NewPost(acc, title, content, now);
    forall owner ensures PostTotal(s'.blogs, owner) == |PostsOwnedBy(s'.posts, owner)| {
      PostTotalUpdate(s.blogs, acc.blog, b', owner);
      PostsOwnedByInsert(s.posts, acc.blogPost, p, owner);
    }
    forall k | k in s'.posts ensures s'.posts[k].numberOfComments <= |CommentsOn(s'.comments, k)| {
      if k != acc.blogPost {
        assert s'.posts[k] == s.posts[k];
      }
    }
  }
}
