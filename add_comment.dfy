/**
 * `add_comment`: allocate the signer's comment on a post and bump the post's
 * `number_of_comments`.
 */
module AddComment {
  import opened Errors
  import opened Addresses
  import opened States
  import opened AccountStore

  /** The accounts the instruction takes. */
  datatype Accounts = Accounts(commentAuthor: SignerKey, comment: Key, blogPost: Key, blog: Key)

  /** The record the handler writes. */
  function NewComment(acc: Accounts, content: Bytes, now: i64): Comment {
    Comment(acc.commentAuthor, acc.blogPost, acc.blog, content, now)
  }

  /** The whole instruction. It succeeds exactly when the comment address is
      the one derived from the post and the signer and is free, a post lives
      at the address derived from the given title and its own owner, the
      supplied blog is a live blog of that same owner, the post's counter can
      grow and the content fits the slot. It then adds the comment, raises
      the post's counter by one and leaves the blogs alone. */
  function Apply(s: Store, acc: Accounts, blogPostTitle: Bytes, content: Bytes, now: i64): (r: Result<Store>)
    ensures r.Ok? <==>
      && acc.blogPost in s.posts
      && acc.blog in s.blogs
      && acc.comment == CommentAddress(acc.blogPost, acc.commentAuthor)
      && !Occupied(s, acc.comment)
      && acc.blogPost == PostAddress(blogPostTitle, s.posts[acc.blogPost].owner)
      && |s.blogs[acc.blog].title| <= MAX_SEED_LEN
      && acc.blog == BlogAddress(s.blogs[acc.blog].title, s.blogs[acc.blog].owner)
      && s.blogs[acc.blog].owner == s.posts[acc.blogPost].owner
      && s.posts[acc.blogPost].numberOfComments < U64_MAX
      && CommentFits(NewComment(acc, content, now))
    ensures r.Ok? ==>
      var p := s.posts[acc.blogPost];
      && acc.comment !in s.comments
      && r.value.comments == s.comments[acc.comment := NewComment(acc, content, now)]
      && r.value.posts == s.posts[acc.blogPost := p.(numberOfComments := p.numberOfComments + 1)]
      && r.value.blogs == s.blogs
  {
    PostAndCommentSeedsWithinLimits(blogPostTitle, acc.commentAuthor, acc.blogPost, acc.commentAuthor);
    var post :- LoadPost(s, acc.blogPost);
    var blog :- LoadBlog(s, acc.blog);
    PostAndCommentSeedsWithinLimits(blogPostTitle, post.owner, acc.blogPost, acc.commentAuthor);
    BlogSeedsWithinLimits(blog.title, blog.owner);
    // comment: `init`, `seeds = [b"comment", blog_post, comment_author]`
    :- CheckInit(s, acc.comment, CommentSeeds(acc.blogPost, acc.commentAuthor));
    // blog_post: `seeds = [hash_string_content(blog_post_title), blog_post.owner]`
    :- CheckSeeds(acc.blogPost, PostSeeds(HashStringContent(blogPostTitle), post.owner));
    // blog: `seeds = [blog.title, blog.owner]`, `constraint = blog.owner == blog_post.owner`
    :- CheckSeeds(acc.blog, BlogSeeds(blog.title, blog.owner));
    :- Require(blog.owner == post.owner, UnauthorizedOwner);
    // handler: the comment's fields, then `checked_add(1).unwrap()`
    var comment := NewComment(acc, content, now);
    var count :- CheckedAdd(post.numberOfComments, 1).Unwrap();
    // exit: the comment is serialised into its 417-byte slot
    :- Require(CommentFits(comment), AccountDidNotSerialize);
    Ok(Store(s.blogs, s.posts[acc.blogPost := post.(numberOfComments := count)], s.comments[acc.comment := comment]))
  }

  /** On success the comment at `CommentAddress(post, signer)` records the
      signer as author, the post, the blog and the content, and the post's
      counter went up by exactly one. */
  lemma NewCommentRecorded(s: Store, acc: Accounts, blogPostTitle: Bytes, content: Bytes, now: i64)
    requires Apply(s, acc, blogPostTitle, content, now).Ok?
    ensures var s' := Apply(s, acc, blogPostTitle, content, now).value;
      var k := CommentAddress(acc.blogPost, acc.commentAuthor);
      && k in s'.comments
      && s'.comments[k] == Comment(acc.commentAuthor, acc.blogPost, acc.blog, content, now)
      && s'.posts[acc.blogPost].numberOfComments == s.posts[acc.blogPost].numberOfComments + 1
  {
  }

  /** An author has at most one live comment per post: while it exists, a
      second one fails with `AccountAlreadyInUse`. */
  lemma OneCommentPerAuthorAndPost(s: Store, acc: Accounts, blogPostTitle: Bytes, content: Bytes, now: i64)
    requires acc.blogPost in s.posts && acc.blog in s.blogs
    requires acc.comment == CommentAddress(acc.blogPost, acc.commentAuthor) && Occupied(s, acc.comment)
    ensures Apply(s, acc, blogPostTitle, content, now) == Err(AccountAlreadyInUse)
  {
    PostAndCommentSeedsWithinLimits(blogPostTitle, acc.commentAuthor, acc.blogPost, acc.commentAuthor);
  }

  /** The post must exist at the address derived from the title and its
      owner: a missing post fails (with `AccountNotInitialized` when nothing
      lives at the address), and so does a title that is not the post's own. */
  lemma PostMustExist(s: Store, acc: Accounts, blogPostTitle: Bytes, content: Bytes, now: i64)
    requires Valid(s)
    ensures acc.blogPost !in s.posts ==> Apply(s, acc, blogPostTitle, content, now).Err?
    ensures !Occupied(s, acc.blogPost) ==> Apply(s, acc, blogPostTitle, content, now) == Err(AccountNotInitialized)
    ensures acc.blogPost in s.posts && s.posts[acc.blogPost].title != blogPostTitle ==>
      Apply(s, acc, blogPostTitle, content, now).Err?
  {
    if acc.blogPost in s.posts {
      var p := s.posts[acc.blogPost];
      BlogAndPostAddressesInjective(p.title, p.owner, blogPostTitle, p.owner);
    }
  }

  /** A blog of someone other than the post's owner is refused with
      `UnauthorizedOwner`. */
  lemma ForeignBlogRefused(s: Store, acc: Accounts, blogPostTitle: Bytes, content: Bytes, now: i64)
    requires Valid(s)
    requires acc.blogPost in s.posts && acc.blog in s.blogs
    requires acc.comment == CommentAddress(acc.blogPost, acc.commentAuthor) && !Occupied(s, acc.comment)
    requires acc.blogPost == PostAddress(blogPostTitle, s.posts[acc.blogPost].owner)
    requires s.blogs[acc.blog].owner != s.posts[acc.blogPost].owner
    ensures Apply(s, acc, blogPostTitle, content, now) == Err(UnauthorizedOwner)
  {
    PostAndCommentSeedsWithinLimits(blogPostTitle, s.posts[acc.blogPost].owner, acc.blogPost, acc.commentAuthor);
    LiveBlogPassesSeeds(s, acc.blog);
  }

  /** A full counter panics in `unwrap()`: the whole instruction aborts and
      no comment is created. */
  lemma FullCounterPanics(s: Store, acc: Accounts, blogPostTitle: Bytes, content: Bytes, now: i64)
    requires Valid(s)
    requires acc.blogPost in s.posts && acc.blog in s.blogs
    requires acc.comment == CommentAddress(acc.blogPost, acc.commentAuthor) && !Occupied(s, acc.comment)
    requires acc.blogPost == PostAddress(blogPostTitle, s.posts[acc.blogPost].owner)
    requires s.blogs[acc.blog].owner == s.posts[acc.blogPost].owner
    requires s.posts[acc.blogPost].numberOfComments == U64_MAX
    ensures Apply(s, acc, blogPostTitle, content, now) == Err(Panic)
  {
    PostAndCommentSeedsWithinLimits(blogPostTitle, s.posts[acc.blogPost].owner, acc.blogPost, acc.commentAuthor);
    LiveBlogPassesSeeds(s, acc.blog);
  }

  /** Content longer than 300 bytes does not fit the slot and the
      instruction fails. */
  lemma OverlongContentFails(s: Store, acc: Accounts, blogPostTitle: Bytes, content: Bytes, now: i64)
    requires |content| > COMMENT_CONTENT_MAX_LEN
    ensures Apply(s, acc, blogPostTitle, content, now).Err?
  {
  }

  /** Adding a comment to a post and raising that post's counter by one
      keeps every counter within its post's live comments. */
  lemma CommentAddedKeepsBound(s: Store, s': Store, ck: Key, c: Comment, pk: Key)
    requires CommentCountersBounded(s) && pk in s.posts && ck !in s.comments && c.blogPost == pk
    requires s.posts[pk].numberOfComments < U64_MAX
    requires s'.comments == s.comments[ck := c]
    requires s'.posts == s.posts[pk := s.posts[pk].(numberOfComments := s.posts[pk].numberOfComments + 1)]
    ensures CommentCountersBounded(s')
  {
    forall k | k in s'.posts ensures s'.posts[k].numberOfComments <= |CommentsOn(s'.comments, k)| {
      CommentsOnInsert(s.comments, ck, c, k);
    }
  }

  /** The instruction keeps the store invariant; the post's counter and its
      live comments both grow by one. */
  lemma PreservesValid(s: Store, acc: Accounts, blogPostTitle: Bytes, content: Bytes, now: i64)
    requires Valid(s)
    requires Apply(s, acc, blogPostTitle, content, now).Ok?
    ensures Valid(Apply(s, acc, blogPostTitle, content, now).value)
  {
    var s' := Apply(s, acc, blogPostTitle, content, now).value;
    PostRewriteKeepsBalance(s, s', acc.blogPost);
    CommentAddedKeepsBound(s, s', acc.comment, NewComment(acc, content, now), acc.blogPost);
  }
}
