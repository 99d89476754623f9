/**
 * `delete_comment`: close a comment and lower its post's
 * `number_of_comments`.
 */
module DeleteComment {
  import opened Errors
  import opened Addresses
  import opened States
  import opened AccountStore
  import CreateBlogPost
  import DeleteBlogPost
  import AddComment

  /** The accounts the instruction takes. */
  datatype Accounts = Accounts(signer: SignerKey, comment: Key, blogPost: Key)

  /** The whole instruction. It succeeds exactly when a comment lives at the
      address derived from the supplied post and the comment's own author, a
      post lives at the address derived from the title and its own owner, the
      signer is that author or that post's owner, and the post's counter is
      positive. It then frees the comment's slot, lowers the post's counter
      by one and leaves the blogs alone. */
  function Apply(s: Store, acc: Accounts, blogPostTitle: Bytes): (r: Result<Store>)
    ensures r.Ok? <==>
      && acc.comment in s.comments
      && acc.blogPost in s.posts
      && acc.comment == CommentAddress(acc.blogPost, s.comments[acc.comment].commentAuthor)
      && acc.blogPost == PostAddress(blogPostTitle, s.posts[acc.blogPost].owner)
      && (acc.signer == s.comments[acc.comment].commentAuthor || acc.signer == s.posts[acc.blogPost].owner)
      && s.posts[acc.blogPost].numberOfComments > 0
    ensures r.Ok? ==>
      var p := s.posts[acc.blogPost];
      && r.value.comments == s.comments - {acc.comment}
      && r.value.posts == s.posts[acc.blogPost := p.(numberOfComments := p.numberOfComments - 1)]
      && r.value.blogs == s.blogs
  {
    var comment :- LoadComment(s, acc.comment);
    var post :- LoadPost(s, acc.blogPost);
    PostAndCommentSeedsWithinLimits(blogPostTitle, post.owner, acc.blogPost, comment.commentAuthor);
    // comment: `seeds = [b"comment", blog_post, comment.comment_author]`, `close = signer`
    :- CheckSeeds(acc.comment, CommentSeeds(acc.blogPost, comment.commentAuthor));
    // blog_post: `seeds = [hash_string_content(blog_post_title), blog_post.owner]`
    :- CheckSeeds(acc.blogPost, PostSeeds(HashStringContent(blogPostTitle), post.owner));
    // handler: `signer == comment.comment_author || signer == blog_post.owner`
    :- Require(acc.signer == comment.commentAuthor || acc.signer == post.owner, UnauthorizedOwner);
    // handler: `checked_sub(1).ok_or(Underflow)?`
    var count :- CheckedSub(post.numberOfComments, 1).OkOr(Underflow);
    // exit: the comment's account is closed
    Ok(Store(s.blogs, s.posts[acc.blogPost := post.(numberOfComments := count)], s.comments - {acc.comment}))
  }

  /** In a valid store the comment deleted is one that names the supplied
      post, although the stored `blog_post` field is never compared: the
      address alone pins it. */
  lemma DeletedCommentIsOnThePost(s: Store, acc: Accounts, blogPostTitle: Bytes)
    requires Valid(s)
    requires Apply(s, acc, blogPostTitle).Ok?
    ensures s.comments[acc.comment].blogPost == acc.blogPost
    ensures s.posts[acc.blogPost].title == blogPostTitle
  {
    var c := s.comments[acc.comment];
    var p := s.posts[acc.blogPost];
    CommentAddressInjective(c.blogPost, c.commentAuthor, acc.blogPost, c.commentAuthor);
    BlogAndPostAddressesInjective(p.title, p.owner, blogPostTitle, p.owner);
  }

  /** Who may delete: with the accounts in place, the instruction succeeds
      exactly when the signer wrote the comment or owns the post's blog, the
      intended rule (tests/blog.ts, line 814), and the counter is positive.
      Anyone else is refused with `UnauthorizedOwner` whatever the counter,
      since the check on the signer runs before the counter is lowered. The
      code compares with the post's owner, which in a valid store is the
      owner of the post's blog. */
  lemma AuthorOrBlogOwnerDeletes(s: Store, acc: Accounts, blogPostTitle: Bytes)
    requires Valid(s)
    requires acc.comment in s.comments && acc.blogPost in s.posts
    requires acc.comment == CommentAddress(acc.blogPost, s.comments[acc.comment].commentAuthor)
    requires acc.blogPost == PostAddress(blogPostTitle, s.posts[acc.blogPost].owner)
    ensures Apply(s, acc, blogPostTitle).Ok? <==>
      && (acc.signer == s.comments[acc.comment].commentAuthor
          || acc.signer == s.blogs[s.posts[acc.blogPost].blog].owner)
      && s.posts[acc.blogPost].numberOfComments > 0
    ensures !(acc.signer == s.comments[acc.comment].commentAuthor
              || acc.signer == s.blogs[s.posts[acc.blogPost].blog].owner) ==>
      Apply(s, acc, blogPostTitle) == Err(UnauthorizedOwner)
  {
    PostAndCommentSeedsWithinLimits(blogPostTitle, s.posts[acc.blogPost].owner, acc.blogPost,
                                    s.comments[acc.comment].commentAuthor);
  }

  /** A counter already at zero aborts with `Underflow` and the comment stays. */
  lemma EmptyCounterUnderflows(s: Store, acc: Accounts, blogPostTitle: Bytes)
    requires acc.comment in s.comments && acc.blogPost in s.posts
    requires acc.comment == CommentAddress(acc.blogPost, s.comments[acc.comment].commentAuthor)
    requires acc.blogPost == PostAddress(blogPostTitle, s.posts[acc.blogPost].owner)
    requires acc.signer == s.comments[acc.comment].commentAuthor || acc.signer == s.posts[acc.blogPost].owner
    requires s.posts[acc.blogPost].numberOfComments == 0
    ensures Apply(s, acc, blogPostTitle) == Err(Underflow)
  {
    PostAndCommentSeedsWithinLimits(blogPostTitle, s.posts[acc.blogPost].owner, acc.blogPost,
                                    s.comments[acc.comment].commentAuthor);
  }

  /** While a comment's post is absent, deleting the comment fails for
      every signer, post and title. */
  lemma OrphanedCommentIsStuck(s: Store, acc: Accounts, blogPostTitle: Bytes)
    requires Valid(s)
    requires acc.comment in s.comments && s.comments[acc.comment].blogPost !in s.posts
    ensures Apply(s, acc, blogPostTitle).Err?
  {
    var c := s.comments[acc.comment];
    CommentAddressInjective(c.blogPost, c.commentAuthor, acc.blogPost, c.commentAuthor);
  }

  /** Deleting a post and creating it again under the same title leaves its
      old comments behind a fresh counter of zero: deleting one of them then
      fails with `Underflow`, even for its author. */
  lemma RecreatedPostStrandsComments(s: Store, del: DeleteBlogPost.Accounts, create: CreateBlogPost.Accounts,
                                     title: Bytes, content: Bytes, now: i64, acc: Accounts)
    requires Valid(s)
    requires DeleteBlogPost.Apply(s, del, title).Ok?
    requires create.owner == del.owner && create.blogPost == del.blogPost
    requires CreateBlogPost.Apply(DeleteBlogPost.Apply(s, del, title).value, create, title, content, now).Ok?
    requires acc.comment in s.comments && s.comments[acc.comment].blogPost == del.blogPost
    requires acc.blogPost == del.blogPost && acc.signer == s.comments[acc.comment].commentAuthor
    ensures var s2 := CreateBlogPost.Apply(DeleteBlogPost.Apply(s, del, title).value, create, title, content, now).value;
      Apply(s2, acc, title) == Err(Underflow)
  {
    var s2 := CreateBlogPost.Apply(DeleteBlogPost.Apply(s, del, title).value, create, title, content, now).value;
    assert s2.comments == s.comments;
    assert s2.posts[acc.blogPost].owner == del.owner;
    EmptyCounterUnderflows(s2, acc, title);
  }

  /** The re-created post's counter counts only the comments added since,
      yet any comment on the post draws on it: once another author comments
      on the re-created post, an old comment's author can delete the old
      comment, and it is the new comment that is left behind a zero counter. */
  lemma OldCommentDeletableAfterNewOne(s: Store, del: DeleteBlogPost.Accounts, create: CreateBlogPost.Accounts,
                                       title: Bytes, content: Bytes, now: i64,
                                       add: AddComment.Accounts, text: Bytes, later: i64, acc: Accounts)
    requires Valid(s)
    requires DeleteBlogPost.Apply(s, del, title).Ok?
    requires create.owner == del.owner && create.blogPost == del.blogPost
    requires CreateBlogPost.Apply(DeleteBlogPost.Apply(s, del, title).value, create, title, content, now).Ok?
    requires add.blogPost == del.blogPost
    requires AddComment.Apply(CreateBlogPost.Apply(DeleteBlogPost.Apply(s, del, title).value, create, title, content, now).value,
                              add, title, text, later).Ok?
    requires acc.comment in s.comments && s.comments[acc.comment].blogPost == del.blogPost
    requires acc.blogPost == del.blogPost && acc.signer == s.comments[acc.comment].commentAuthor
    ensures var s3 := AddComment.Apply(CreateBlogPost.Apply(DeleteBlogPost.Apply(s, del, title).value, create, title, content, now).value,
                                       add, title, text, later).value;
      && Apply(s3, acc, title).Ok?
      && Apply(s3, acc, title).value.posts[acc.blogPost].numberOfComments == 0
      && add.comment in Apply(s3, acc, title).value.comments
  {
    var s2 := CreateBlogPost.Apply(DeleteBlogPost.Apply(s, del, title).value, create, title, content, now).value;
    var s3 := AddComment.Apply(s2, add, title, text, later).value;
    assert s2.comments == s.comments;
    assert add.comment != acc.comment;
    assert s3.posts[acc.blogPost].numberOfComments == 1;
    assert s3.posts[acc.blogPost].owner == del.owner;
    PostAndCommentSeedsWithinLimits(title, del.owner, acc.blogPost, acc.signer);
  }

  /** The instruction keeps the store invariant: the post loses one comment
      and one from its counter. */
  lemma PreservesValid(s: Store, acc: Accounts, blogPostTitle: Bytes)
    requires Valid(s)
    requires Apply(s, acc, blogPostTitle).Ok?
    ensures Valid(Apply(s, acc, blogPostTitle).value)
  {
    var s' := Apply(s, acc, blogPostTitle).value;
    var p := s.posts[acc.blogPost];
    DeletedCommentIsOnThePost(s, acc, blogPostTitle);
    PostRewriteKeepsBalance(s, s', acc.blogPost);
    forall k | k in s'.posts ensures s'.posts[k].numberOfComments <= |CommentsOn(s'.comments, k)| {
      CommentsOnRemove(s.comments, acc.comment, k);
    }
  }
}
