/**
 * `update_blog_post`: replace the content of the signer's post.
 */
module UpdateBlogPost {
  import opened Errors
  import opened Addresses
  import opened States
  import opened AccountStore

  /** The accounts the instruction takes. */
  datatype Accounts = Accounts(owner: SignerKey, blogPost: Key, blog: Key)

  /** The post after the handler: new content and `updated_at`, all else kept. */
  function Updated(p: BlogPost, content: Bytes, now: i64): (q: BlogPost)
    ensures q.content == content && q.updatedAt == now
    ensures q.owner == p.owner && q.blog == p.blog && q.title == p.title
    ensures q.numberOfComments == p.numberOfComments && q.createdAt == p.createdAt
  {
    p.(content := content, updatedAt := now)
  }

  /** The whole instruction. It succeeds exactly when a post lives at the
      address derived from the title and the signer, the supplied blog is a
      live blog owned by the signer (any of them: it is not compared with the
      post's own blog), and the new content fits the slot. It then rewrites
      that post and nothing else. */
  function Apply(s: Store, acc: Accounts, title: Bytes, content: Bytes, now: i64): (r: Result<Store>)
    ensures r.Ok? <==>
      && acc.blogPost in s.posts
      && acc.blog in s.blogs
      && acc.blogPost == PostAddress(title, acc.owner)
      && |s.blogs[acc.blog].title| <= MAX_SEED_LEN
      && acc.blog == BlogAddress(s.blogs[acc.blog].title, s.blogs[acc.blog].owner)
      && s.blogs[acc.blog].owner == acc.owner
      && PostFits(Updated(s.posts[acc.blogPost], content, now))
    ensures r.Ok? ==>
      && r.value.posts == s.posts[acc.blogPost := Updated(s.posts[acc.blogPost], content, now)]
      && r.value.blogs == s.blogs
      && r.value.comments == s.comments
  {
    PostAndCommentSeedsWithinLimits(title, acc.owner, acc.blogPost, acc.owner);
    var post :- LoadPost(s, acc.blogPost);
    var blog :- LoadBlog(s, acc.blog);
    BlogSeedsWithinLimits(blog.title, blog.owner);
    // blog_post: `seeds = [hash_string_content(title), owner]`
    :- CheckSeeds(acc.blogPost, PostSeeds(HashStringContent(title), acc.owner));
    // blog: `seeds = [blog.title, blog.owner]`, `constraint = blog.owner == owner`
    :- CheckSeeds(acc.blog, BlogSeeds(blog.title, blog.owner));
    :- Require(blog.owner == acc.owner, UnauthorizedOwner);
    // handler: content and updated_at
    var updated := Updated(post, content, now);
    // exit: the post is serialised back into its slot
    :- Require(PostFits(updated), AccountDidNotSerialize);
    Ok(s.(posts := s.posts[acc.blogPost := updated]))
  }

  /** Only the post's own key can reach it: in a valid store, success means
      the signer owns the post and named its title. */
  lemma OnlyOwnerUpdates(s: Store, acc: Accounts, title: Bytes, content: Bytes, now: i64)
    requires Valid(s)
    requires Apply(s, acc, title, content, now).Ok?
    ensures s.posts[acc.blogPost].owner == acc.owner && s.posts[acc.blogPost].title == title
  {
    var p := s.posts[acc.blogPost];
    BlogAndPostAddressesInjective(p.title, p.owner, title, acc.owner);
  }

  /** A supplied blog whose owner is not the signer is refused with
      `UnauthorizedOwner`. */
  lemma StrangersBlogRefused(s: Store, acc: Accounts, title: Bytes, content: Bytes, now: i64)
    requires Valid(s)
    requires acc.blogPost in s.posts && acc.blogPost == PostAddress(title, acc.owner)
    requires acc.blog in s.blogs && s.blogs[acc.blog].owner != acc.owner
    ensures Apply(s, acc, title, content, now) == Err(UnauthorizedOwner)
  {
    PostAndCommentSeedsWithinLimits(title, acc.owner, acc.blogPost, acc.owner);
    LiveBlogPassesSeeds(s, acc.blog);
  }

  /** Any live blog of the signer satisfies the blog constraint, whether or
      not it is the post's own blog. */
  lemma AnyBlogOfSignerAccepted(s: Store, acc: Accounts, title: Bytes, content: Bytes, now: i64)
    requires Valid(s)
    requires acc.blogPost in s.posts && acc.blogPost == PostAddress(title, acc.owner)
    requires acc.blog in s.blogs && s.blogs[acc.blog].owner == acc.owner
    requires PostFits(Updated(s.posts[acc.blogPost], content, now))
    ensures Apply(s, acc, title, content, now).Ok?
  {
    LiveBlogPassesSeeds(s, acc.blog);
  }

  /** Updating twice with the same content and time is updating once. */
  lemma Idempotent(s: Store, acc: Accounts, title: Bytes, content: Bytes, now: i64)
    requires Apply(s, acc, title, content, now).Ok?
    ensures var s1 := Apply(s, acc, title, content, now).value;
      Apply(s1, acc, title, content, now) == Ok(s1)
  {
    var s1 := Apply(s, acc, title, content, now).value;
    assert s1.posts[acc.blogPost] == Updated(s.posts[acc.blogPost], content, now);
    assert Updated(s1.posts[acc.blogPost], content, now) == s1.posts[acc.blogPost];
    assert s1.posts[acc.blogPost := s1.posts[acc.blogPost]] == s1.posts;
  }

  /** The instruction keeps the store invariant. */
  lemma PreservesValid(s: Store, acc: Accounts, title: Bytes, content: Bytes, now: i64)
    requires Valid(s)
    requires Apply(s, acc, title, content, now).Ok?
    ensures Valid(Apply(s, acc, title, content, now).value)
  {
    var s' := Apply(s, acc, title, content, now).value;
    var q := Updated(s.posts[acc.blogPost], content, now);
    forall owner ensures PostTotal(s'.blogs, owner) == |PostsOwnedBy(s'.posts, owner)| {
      PostsOwnedByReplace(s.posts, acc.blogPost, q, owner);
    }
  }
}
