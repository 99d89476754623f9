/**
 * `initialize_blog`: allocate a blog at `[title, owner]` and write its fields.
 */
module InitializeBlog {
  import opened Errors
  import opened Addresses
  import opened States
  import opened AccountStore

  /** The accounts the instruction takes. */
  datatype Accounts = Accounts(owner: SignerKey, blog: Key)

  /** The record the handler writes into the fresh account. */
  function NewBlog(owner: Key, title: Bytes, description: Bytes, now: i64): Blog {
    Blog(owner, title, description, 0, now)
  }

  /** The whole instruction: account constraints, handler, serialisation.
      It succeeds exactly when the title can be a seed, the supplied address
      is the derived one and is free, and the record fits its slot; it then
      adds that one blog and changes nothing else. */
  function Apply(s: Store, acc: Accounts, title: Bytes, description: Bytes, now: i64): (r: Result<Store>)
    ensures r.Ok? <==>
      && |title| <= MAX_SEED_LEN
      && acc.blog == BlogAddress(title, acc.owner)
      && !Occupied(s, acc.blog)
      && BlogFits(NewBlog(acc.owner, title, description, now))
    ensures r.Ok? ==>
      && r.value.blogs == s.blogs[acc.blog := NewBlog(acc.owner, title, description, now)]
      && acc.blog !in s.blogs
      && r.value.posts == s.posts
      && r.value.comments == s.comments
  {
    BlogSeedsWithinLimits(title, acc.owner);
    // blog: `init`, `seeds = [title.as_bytes(), owner.key().as_ref()]`
    :- CheckInit(s, acc.blog, BlogSeeds(title, acc.owner));
    // handler: owner, title, description, number_of_posts = 0, created_at
    var blog := NewBlog(acc.owner, title, description, now);
    // exit: the record is serialised into its 197-byte slot
    :- Require(BlogFits(blog), AccountDidNotSerialize);
    Ok(s.(blogs := s.blogs[acc.blog := blog]))
  }

  /** On success the blog at `BlogAddress(title, signer)` holds the signer as
      owner, the given strings and no posts: nobody can create a blog owned
      by someone else. */
  lemma SignerOwnsNewBlog(s: Store, acc: Accounts, title: Bytes, description: Bytes, now: i64)
    requires Apply(s, acc, title, description, now).Ok?
    ensures var s' := Apply(s, acc, title, description, now).value;
      && BlogAddress(title, acc.owner) in s'.blogs
      && s'.blogs[BlogAddress(title, acc.owner)] == Blog(acc.owner, title, description, 0, now)
      && forall k :: k in s'.blogs && k !in s.blogs ==> s'.blogs[k].owner == acc.owner
  {
  }

  /** An occupied address makes the instruction fail with `AccountAlreadyInUse`,
      whatever the description, and the store is unchanged. */
  lemma OccupiedAddressFails(s: Store, acc: Accounts, title: Bytes, description: Bytes, now: i64)
    requires |title| <= MAX_SEED_LEN && acc.blog == BlogAddress(title, acc.owner)
    requires Occupied(s, acc.blog)
    ensures Apply(s, acc, title, description, now) == Err(AccountAlreadyInUse)
  {
    BlogSeedsWithinLimits(title, acc.owner);
  }

  /** Running the instruction again with the same title and owner fails. */
  lemma ReinitializeFails(s: Store, acc: Accounts, title: Bytes, d1: Bytes, d2: Bytes, t1: i64, t2: i64)
    requires Apply(s, acc, title, d1, t1).Ok?
    ensures Apply(Apply(s, acc, title, d1, t1).value, acc, title, d2, t2) == Err(AccountAlreadyInUse)
  {
    OccupiedAddressFails(Apply(s, acc, title, d1, t1).value, acc, title, d2, t2);
  }

  /** A title longer than a seed may be, or strings that overflow the slot,
      make the instruction fail. */
  lemma OversizedInputFails(s: Store, acc: Accounts, title: Bytes, description: Bytes, now: i64)
    ensures |title| > MAX_SEED_LEN ==> Apply(s, acc, title, description, now) == Err(MaxSeedLengthExceeded)
    ensures |title| + |description| > BLOG_TITLE_MAX_LEN + BLOG_DESCRIPTION_MAX_LEN ==>
      Apply(s, acc, title, description, now).Err?
  {
    BlogSeedsWithinLimits(title, acc.owner);
  }

  /** One owner can hold several blogs with distinct titles, each at its own
      address. */
  lemma OwnerMayHoldSeveralBlogs(s: Store, owner: SignerKey, t1: Bytes, t2: Bytes, d1: Bytes, d2: Bytes, now: i64)
    requires t1 != t2
    requires Apply(s, Accounts(owner, BlogAddress(t1, owner)), t1, d1, now).Ok?
    requires !Occupied(s, BlogAddress(t2, owner))
    requires |t2| <= MAX_SEED_LEN && |t2| + |d2| <= BLOG_TITLE_MAX_LEN + BLOG_DESCRIPTION_MAX_LEN
    ensures var s1 := Apply(s, Accounts(owner, BlogAddress(t1, owner)), t1, d1, now).value;
      var r2 := Apply(s1, Accounts(owner, BlogAddress(t2, owner)), t2, d2, now);
      && r2.Ok?
      && BlogAddress(t1, owner) in r2.value.blogs && BlogAddress(t2, owner) in r2.value.blogs
      && BlogAddress(t1, owner) != BlogAddress(t2, owner)
  {
    SlotBudgets(NewBlog(owner, t2, d2, now), BlogPost(owner, owner, [], [], 0, 0, 0), Comment(owner, owner, owner, [], 0));
  }

  /** The instruction keeps the store invariant. */
  lemma PreservesValid(s: Store, acc: Accounts, title: Bytes, description: Bytes, now: i64)
    requires Valid(s)
    requires Apply(s, acc, title, description, now).Ok?
    ensures Valid(Apply(s, acc, title, description, now).value)
  {
    var s' := Apply(s, acc, title, description, now).value;
    var b := NewBlog(acc.owner, title, description, now);
    forall owner ensures PostTotal(s'.blogs, owner) == |PostsOwnedBy(s'.posts, owner)| {
      PostTotalUpdate(s.blogs, acc.blog, b, owner);
    }
  }
}
