/**
 * The blog program as the runtime sees it: one ledger of accounts that the
 * six instructions change in place. Each method checks the account
 * constraints in the order the framework does, runs the handler, and either
 * writes its changes or leaves every account as it was.
 */
module BlogProgram {
  import opened Errors
  import opened Addresses
  import opened States
  import opened AccountStore
  import IB = InitializeBlog
  import CP = CreateBlogPost
  import UP = UpdateBlogPost
  import DP = DeleteBlogPost
  import AC = AddComment
  import DC = DeleteComment

  /** The accounts the program owns, by address and record kind. */
  class Ledger {
    var blogs: map<Key, Blog>
    var posts: map<Key, BlogPost>
    var comments: map<Key, Comment>

    /** The accounts as a value. */
    function State(): Store
      reads this
    {
      Store(blogs, posts, comments)
    }

    /** The invariant every reachable ledger keeps. */
    ghost predicate Valid()
      reads this
    {
      AccountStore.Valid(State())
    }

    /** A ledger before any instruction has run. */
    constructor ()
      ensures State() == Empty && Valid()
    {
      blogs, posts, comments := map[], map[], map[];
      EmptyValid();
    }

    /** `initialize_blog`: on success the ledger is what `InitializeBlog.Apply`
        computes; on failure it fails with the same error and nothing changes. */
    method InitializeBlog(acc: IB.Accounts, title: Bytes, description: Bytes, now: i64) returns (r: Result<()>)
      modifies this
      ensures r.Ok? ==> IB.Apply(old(State()), acc, title, description, now) == Ok(State())
      ensures r.Err? ==> IB.Apply(old(State()), acc, title, description, now) == Err(r.error)
      ensures r.Err? ==> State() == old(State())
      ensures old(Valid()) ==> Valid()
    {
      ghost var s := State();
      :- CheckInit(State(), acc.blog, BlogSeeds(title, acc.owner));
      var blog := IB.NewBlog(acc.owner, title, description, now);
      :- Require(BlogFits(blog), AccountDidNotSerialize);
      blogs := blogs[acc.blog := blog];
      if AccountStore.Valid(s) {
        IB.PreservesValid(s, acc, title, description, now);
      }
      return Ok(());
    }

    /** `create_blog_post`, tied to `CreateBlogPost.Apply` in the same way. */
    method CreateBlogPost(acc: CP.Accounts, title: Bytes, content: Bytes, now: i64) returns (r: Result<()>)
      modifies this
      ensures r.Ok? ==> CP.Apply(old(State()), acc, title, content, now) == Ok(State())
      ensures r.Err? ==> CP.Apply(old(State()), acc, title, content, now) == Err(r.error)
      ensures r.Err? ==> State() == old(State())
      ensures old(Valid()) ==> Valid()
    {
      ghost var s := State();
      var blog :- LoadBlog(State(), acc.blog);
      :- CheckInit(State(), acc.blogPost, PostSeeds(HashStringContent(title), acc.owner));
      :- CheckSeeds(acc.blog, BlogSeeds(blog.title, blog.owner));
      :- Require(blog.owner == acc.owner, ConstraintHasOne);
      var post := CP.NewPost(acc, title, content, now);
      var count :- CheckedAdd(blog.numberOfPosts, 1).OkOr(Overflow);
      :- Require(PostFits(post), AccountDidNotSerialize);
      blogs := blogs[acc.blog := blog.(numberOfPosts := count)];
      posts := posts[acc.blogPost := post];
      if AccountStore.Valid(s) {
        CP.PreservesValid(s, acc, title, content, now);
      }
      return Ok(());
    }

    /** `update_blog_post`, tied to `UpdateBlogPost.Apply`. */
    method UpdateBlogPost(acc: UP.Accounts, title: Bytes, content: Bytes, now: i64) returns (r: Result<()>)
      modifies this
      ensures r.Ok? ==> UP.Apply(old(State()), acc, title, content, now) == Ok(State())
      ensures r.Err? ==> UP.Apply(old(State()), acc, title, content, now) == Err(r.error)
      ensures r.Err? ==> State() == old(State())
      ensures old(Valid()) ==> Valid()
    {
      ghost var s := State();
      var post :- LoadPost(State(), acc.blogPost);
      var blog :- LoadBlog(State(), acc.blog);
      :- CheckSeeds(acc.blogPost, PostSeeds(HashStringContent(title), acc.owner));
      :- CheckSeeds(acc.blog, BlogSeeds(blog.title, blog.owner));
      :- Require(blog.owner == acc.owner, UnauthorizedOwner);
      var updated := UP.Updated(post, content, now);
      :- Require(PostFits(updated), AccountDidNotSerialize);
      posts := posts[acc.blogPost := updated];
      if AccountStore.Valid(s) {
        UP.PreservesValid(s, acc, title, content, now);
      }
      return Ok(());
    }

    /** `delete_blog_post`, tied to `DeleteBlogPost.Apply`. */
    method DeleteBlogPost(acc: DP.Accounts, title: Bytes) returns (r: Result<()>)
      modifies this
      ensures r.Ok? ==> DP.Apply(old(State()), acc, title) == Ok(State())
      ensures r.Err? ==> DP.Apply(old(State()), acc, title) == Err(r.error)
      ensures r.Err? ==> State() == old(State())
      ensures old(Valid()) ==> Valid()
    {
      ghost var s := State();
      var post :- LoadPost(State(), acc.blogPost);
      var blog :- LoadBlog(State(), acc.blog);
      :- CheckSeeds(acc.blogPost, PostSeeds(HashStringContent(title), acc.owner));
      :- CheckSeeds(acc.blog, BlogSeeds(blog.title, blog.owner));
      :- Require(blog.owner == acc.owner, UnauthorizedOwner);
      var count :- CheckedSub(blog.numberOfPosts, 1).OkOr(Underflow);
      blogs := blogs[acc.blog := blog.(numberOfPosts := count)];
      posts := posts - {acc.blogPost};
      if AccountStore.Valid(s) {
        DP.PreservesValid(s, acc, title);
      }
      return Ok(());
    }

    /** `add_comment`, tied to `AddComment.Apply`. */
    method AddComment(acc: AC.Accounts, blogPostTitle: Bytes, content: Bytes, now: i64) returns (r: Result<()>)
      modifies this
      ensures r.Ok? ==> AC.Apply(old(State()), acc, blogPostTitle, content, now) == Ok(State())
      ensures r.Err? ==> AC.Apply(old(State()), acc, blogPostTitle, content, now) == Err(r.error)
      ensures r.Err? ==> State() == old(State())
      ensures old(Valid()) ==> Valid()
    {
      ghost var s := State();
      var post :- LoadPost(State(), acc.blogPost);
      var blog :- LoadBlog(State(), acc.blog);
      :- CheckInit(State(), acc.comment, CommentSeeds(acc.blogPost, acc.commentAuthor));
      :- CheckSeeds(acc.blogPost, PostSeeds(HashStringContent(blogPostTitle), post.owner));
      :- CheckSeeds(acc.blog, BlogSeeds(blog.title, blog.owner));
      :- Require(blog.owner == post.owner, UnauthorizedOwner);
      var comment := AC.NewComment(acc, content, now);
      var count :- CheckedAdd(post.numberOfComments, 1).Unwrap();
      :- Require(CommentFits(comment), AccountDidNotSerialize);
      comments := comments[acc.comment := comment];
      posts := posts[acc.blogPost := post.(numberOfComments := count)];
      if AccountStore.Valid(s) {
        AC.PreservesValid(s, acc, blogPostTitle, content, now);
      }
      return Ok(());
    }

    /** `delete_comment`, tied to `DeleteComment.Apply`. */
    method DeleteComment(acc: DC.Accounts, blogPostTitle: Bytes) returns (r: Result<()>)
      modifies this
      ensures r.Ok? ==> DC.Apply(old(State()), acc, blogPostTitle) == Ok(State())
      ensures r.Err? ==> DC.Apply(old(State()), acc, blogPostTitle) == Err(r.error)
      ensures r.Err? ==> State() == old(State())
      ensures old(Valid()) ==> Valid()
    {
      ghost var s := State();
      var comment :- LoadComment(State(), acc.comment);
      var post :- LoadPost(State(), acc.blogPost);
      :- CheckSeeds(acc.comment, CommentSeeds(acc.blogPost, comment.commentAuthor));
      :- CheckSeeds(acc.blogPost, PostSeeds(HashStringContent(blogPostTitle), post.owner));
      :- Require(acc.signer == comment.commentAuthor || acc.signer == post.owner, UnauthorizedOwner);
      var count :- CheckedSub(post.numberOfComments, 1).OkOr(Underflow);
      posts := posts[acc.blogPost := post.(numberOfComments := count)];
      comments := comments - {acc.comment};
      if AccountStore.Valid(s) {
        DC.PreservesValid(s, acc, blogPostTitle);
      }
      return Ok(());
    }
  }
}
