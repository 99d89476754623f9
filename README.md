# sol-blog: a Dafny model of the blog program's instructions

The blog program is an Anchor program for Solana. It keeps three kinds of records
in accounts that the program owns:

- a **Blog**: owner, title, description, `number_of_posts`;
- a **BlogPost**: owner, its blog, title, content, `number_of_comments`;
- a **Comment**: author, its post, its blog, content.

Each record lives at a program-derived address computed from seeds:

- a blog at `[title, owner]`;
- a post at `[sha256(title), owner]`;
- a comment at `["comment", post, author]`.

Six instructions change the accounts:

- `initialize_blog`
- `create_blog_post`
- `update_blog_post`
- `delete_blog_post`
- `add_comment`
- `delete_comment`

Each instruction first has the framework validate its accounts. That means deserialising each `Account<T>`, then
checking every `init`, `seeds`, `has_one` and `constraint` attribute. The handler then runs, with `u64`
`checked_add`/`checked_sub`. Finally the records are serialised back into their fixed-size slots. Any failure
aborts the whole transaction, so no change is kept.

The model has these parts:

- `errors.dfy`: the error codes of `BlogError` and of the framework, plus `Result`, `Outcome` and `Option`,
  which thread the failures the way Rust's `?` does.
- `addresses.dfy`: seeds and program-derived addresses.
  - A derived address is the datatype value `Pda(seeds)` and a digest is `Sha256(preimage)`. Because
    constructors are injective, distinct seeds give distinct addresses. This stands for the collision
    resistance of SHA-256. It also keeps apart seed lists of different kinds whose concatenated bytes
    agree; the runtime does not (see `Addresses.AddressKindsDisjoint` under "Left out").
  - Keys that are not addresses of this program are `External`: key pairs, and addresses of other
    programs. The blog program never calls itself, so none of its addresses can sign one of its instructions (it
    signs for a new address only in the system-program call that `init` makes); a signer is always `External`.
  - The runtime's seed limits are modelled: at most 32 bytes per seed, fewer than 16 seeds.
- `states.dfy`: the three records and `u64`/`i64`. It also gives the Borsh sizes of the records and of
  their `8 + INIT_SPACE` slots: 197, 5155 and 417 bytes.
- `account_store.dfy`: the account store as three maps from address to record, and the loaders that
  `Account<T>` performs. It also defines the invariant `Valid` that every reachable store keeps:
  - every record sits at its derived address and fits its slot;
  - every post names a live blog of its owner, and every comment names a live blog;
  - per owner, the `number_of_posts` of the owner's blogs add up to the owner's live posts;
  - a post's `number_of_comments` never exceeds the live comments naming it.
- One module per instruction. Each has a function `Apply(store, accounts, arguments)` that runs the whole
  instruction in the framework's order, plus lemmas about it.
- `program.dfy`: a class `Ledger` whose three map fields are changed in place by one method per instruction.
  - Each method's contract ties it to the instruction's `Apply`. On success the new ledger is `Apply`'s result.
  - On failure the method fails with the same error and nothing changes.
  - Each method keeps `Valid`.

## Model

| member | source | states |
|---|---|---|
| `Errors.Require` | programs/blog/src/instructions/delete_comment.rs:11-14 | a guard passes exactly when its condition holds, and otherwise fails with its error |
| `Errors.Option.OkOr` | programs/blog/src/instructions/create_blog_post.rs:19-22 | `ok_or(e)?` passes the value of `Some` and fails with exactly `e` on `None` |
| `Errors.Option.Unwrap` | programs/blog/src/instructions/add_comment.rs:18 | `unwrap()` passes the value of `Some` and aborts the instruction with a panic on `None` |
| `States.CheckedAdd` | programs/blog/src/instructions/create_blog_post.rs:19-22 | `checked_add` yields the sum exactly when it is at most `u64::MAX`, and `None` otherwise |
| `States.CheckedSub` | programs/blog/src/instructions/delete_blog_post.rs:9-12 | `checked_sub` yields the difference exactly when it is not negative, and `None` otherwise |
| `States.SlotBudgets` | programs/blog/src/states.rs:3-41 | the slots hold 197, 5155 and 417 bytes; a blog fits iff title + description ≤ 132 bytes, a post iff title + content ≤ 5050, a comment iff content ≤ 300 |
| `States.WithinCapacitiesFits` | programs/blog/src/states.rs:7-37 | every record whose strings respect their `max_len` fits its slot |
| `Addresses.HashStringContent` | programs/blog/src/instructions/mod.rs:17-20 | the digest is the hash of exactly the title's bytes |
| `Addresses.FindProgramAddress` | programs/blog/src/instructions/initialize_blog.rs:21-27 | an address is derived exactly when every seed is at most 32 bytes and there are fewer than 16 seeds; the address is the one for those seeds; otherwise the error is `MaxSeedLengthExceeded` |
| `Addresses.CheckSeeds` | programs/blog/src/instructions/create_blog_post.rs:40-43 | a `seeds` constraint passes exactly when the seeds are within limits and the account is at the address derived from them |
| `Addresses.BlogSeedsWithinLimits` | programs/blog/src/instructions/initialize_blog.rs:25 | the blog seeds `[title, owner]` are within the runtime limits iff the title has at most 32 bytes |
| `Addresses.PostAndCommentSeedsWithinLimits` | programs/blog/src/instructions/add_comment.rs:32-38 | post seeds (a 32-byte hash and a key) and comment seeds are always within the limits, whatever the title's length |
| `Addresses.BlogAndPostAddressesInjective` | programs/blog/src/instructions/create_blog_post.rs:36 | two blog addresses, or two post addresses, are equal iff their titles and owners are equal |
| `Addresses.CommentAddressInjective` | programs/blog/src/instructions/delete_comment.rs:32 | two comment addresses are equal iff their posts and authors are equal |
| `Addresses.AddressKindsDisjoint` | programs/blog/src/instructions/add_comment.rs:32 | blog, post and comment addresses never coincide where their seed bytes differ in length (a blog title other than 32 bytes against a post; a derivable blog title against a comment; always for a post against a comment), and all are this program's derived addresses |
| `AccountStore.LoadBlog` | programs/blog/src/instructions/create_blog_post.rs:47 | `Account<Blog>` loads exactly when a blog lives at the address, and yields that blog |
| `AccountStore.LoadPost` | programs/blog/src/instructions/update_blog_post.rs:26 | `Account<BlogPost>` loads exactly when a post lives at the address, and yields that post |
| `AccountStore.LoadComment` | programs/blog/src/instructions/delete_comment.rs:35 | `Account<Comment>` loads exactly when a comment lives at the address, and yields it |
| `AccountStore.CheckInit` | programs/blog/src/instructions/create_blog_post.rs:32-38 | `init` passes exactly when the seeds are within limits, the address is the derived one, and no account occupies it |
| `AccountStore.EmptyValid` | programs/blog/src/states.rs:3-41 | the store with no accounts satisfies the invariant, including one record per address |
| `AccountStore.LiveBlogPassesSeeds` | programs/blog/src/instructions/update_blog_post.rs:27-30 | in a valid store, any live blog passes its `seeds = [blog.title, blog.owner]` constraint |
| `AccountStore.SingleBlogCounterExact` | programs/blog/src/states.rs:11 | in a valid store, the `number_of_posts` of an owner's only blog equals the number of live posts naming that blog |
| `InitializeBlog.Apply` | programs/blog/src/instructions/initialize_blog.rs:4-30 | succeeds iff the title is at most 32 bytes, the address is `[title, signer]`'s and free, and the record fits; then exactly that blog is added, with `number_of_posts = 0`, and no post or comment changes |
| `InitializeBlog.SignerOwnsNewBlog` | programs/blog/src/instructions/initialize_blog.rs:5-10 | after success the blog at `[title, signer]` holds the signer as owner, the given strings and no posts; every new blog is owned by the signer |
| `InitializeBlog.OccupiedAddressFails` | programs/blog/src/instructions/initialize_blog.rs:21-26 | an occupied address fails with `AccountAlreadyInUse` |
| `InitializeBlog.ReinitializeFails` | programs/blog/src/instructions/initialize_blog.rs:21-26 | running it twice with the same title and signer fails the second time |
| `InitializeBlog.OversizedInputFails` | programs/blog/src/instructions/initialize_blog.rs:24-25 | a title over 32 bytes fails with `MaxSeedLengthExceeded`; strings over the slot's budget fail |
| `InitializeBlog.OwnerMayHoldSeveralBlogs` | programs/blog/src/instructions/initialize_blog.rs:25 | one signer can create two blogs with distinct titles, each at its own address |
| `InitializeBlog.PreservesValid` | programs/blog/src/instructions/initialize_blog.rs:4-30 | the instruction keeps the store invariant |
| `CreateBlogPost.Apply` | programs/blog/src/instructions/create_blog_post.rs:6-49 | succeeds iff the blog is live, sits at its seeds and is owned by the signer, the post address is `[hash(title), signer]`'s and free, the counter is below `u64::MAX`, and the post fits; then the post is added and that blog's counter rises by one, nothing else changing |
| `CreateBlogPost.NewPostRecorded` | programs/blog/src/instructions/create_blog_post.rs:11-22 | after success the post at `[hash(title), signer]` has the signer as owner, the blog, title and content, and no comments; the counter rose by exactly one |
| `CreateBlogPost.OnlyPostAndCounterChange` | programs/blog/src/instructions/create_blog_post.rs:6-24 | only the new post and the chosen blog's counter change |
| `CreateBlogPost.FullCounterOverflows` | programs/blog/src/instructions/create_blog_post.rs:19-22 | a counter at `u64::MAX` fails with `Overflow` and no post is allocated |
| `CreateBlogPost.StrangerRefused` | programs/blog/src/instructions/create_blog_post.rs:44-45 | a signer who does not own the blog is refused, by `has_one` (`ConstraintHasOne`) |
| `CreateBlogPost.OnePostPerTitleAndOwner` | programs/blog/src/instructions/create_blog_post.rs:32-38 | while a post with that title and owner exists, creating another fails, whichever blog is named |
| `CreateBlogPost.MissingBlogFails` | programs/blog/src/instructions/create_blog_post.rs:40-47 | naming an address with no blog fails, with `AccountNotInitialized` when the address is empty |
| `CreateBlogPost.PreservesValid` | programs/blog/src/instructions/create_blog_post.rs:6-49 | the instruction keeps the store invariant |
| `UpdateBlogPost.Updated` | programs/blog/src/instructions/update_blog_post.rs:10-11 | the handler changes the content and `updated_at` only |
| `UpdateBlogPost.Apply` | programs/blog/src/instructions/update_blog_post.rs:7-35 | succeeds iff a post lives at `[hash(title), signer]`, the supplied blog is live at its seeds and owned by the signer, and the new post fits; then only that post changes |
| `UpdateBlogPost.OnlyOwnerUpdates` | programs/blog/src/instructions/update_blog_post.rs:21-26 | in a valid store, success means the signer owns the post and named its title |
| `UpdateBlogPost.StrangersBlogRefused` | programs/blog/src/instructions/update_blog_post.rs:31 | a supplied blog of someone else fails with `UnauthorizedOwner` |
| `UpdateBlogPost.AnyBlogOfSignerAccepted` | programs/blog/src/instructions/update_blog_post.rs:27-33 | any live blog of the signer is accepted, whether or not it is the post's blog |
| `UpdateBlogPost.Idempotent` | programs/blog/src/instructions/update_blog_post.rs:10 | updating twice with the same content and time equals updating once |
| `UpdateBlogPost.PreservesValid` | programs/blog/src/instructions/update_blog_post.rs:7-35 | the instruction keeps the store invariant |
| `DeleteBlogPost.Apply` | programs/blog/src/instructions/delete_blog_post.rs:6-37 | succeeds iff a post lives at `[hash(title), signer]`, the supplied blog is live at its seeds, owned by the signer, with a positive counter; then the post is removed, that blog's counter falls by one, and comments stay |
| `DeleteBlogPost.EmptyCounterUnderflows` | programs/blog/src/instructions/delete_blog_post.rs:11-12 | a counter at zero fails with `Underflow` and the post stays |
| `DeleteBlogPost.StrangersBlogRefused` | programs/blog/src/instructions/delete_blog_post.rs:33 | a supplied blog of someone else fails with `UnauthorizedOwner` |
| `DeleteBlogPost.OnlyOwnerDeletes` | programs/blog/src/instructions/delete_blog_post.rs:22-27 | in a valid store, the deleted post is the signer's post with that title |
| `DeleteBlogPost.CommentsOutliveTheirPost` | programs/blog/src/instructions/delete_blog_post.rs:6-14 | the deleted post's comments stay unchanged, naming an address without a post |
| `DeleteBlogPost.DeleteThenRecreate` | programs/blog/src/instructions/delete_blog_post.rs:26 | after deletion, the same owner can create a post with that title again under any of their blogs |
| `DeleteBlogPost.PreservesValid` | programs/blog/src/instructions/delete_blog_post.rs:6-37 | the instruction keeps the store invariant |
| `DeleteBlogPost.CountersDriftAcrossBlogs` | programs/blog/src/instructions/delete_blog_post.rs:29-34 | there is a valid store where deleting one blog's post while naming another blog leaves a blog counting a post it no longer has |
| `AddComment.Apply` | programs/blog/src/instructions/add_comment.rs:6-50 | succeeds iff the post lives at `[hash(title), post.owner]`, the comment address is `["comment", post, signer]`'s and free, the blog is live at its seeds and owned by the post's owner, the counter is below `u64::MAX`, and the comment fits; then the comment is added, the post's counter rises by one, and blogs are untouched |
| `AddComment.NewCommentRecorded` | programs/blog/src/instructions/add_comment.rs:7-18 | after success the comment at `["comment", post, signer]` has the signer as author, the post, the blog and the content; the counter rose by exactly one |
| `AddComment.OneCommentPerAuthorAndPost` | programs/blog/src/instructions/add_comment.rs:28-34 | while the signer's comment on the post exists, another fails with `AccountAlreadyInUse` |
| `AddComment.PostMustExist` | programs/blog/src/instructions/add_comment.rs:36-41 | a missing post, or a title that is not the post's own, makes it fail; an empty post address fails with `AccountNotInitialized` |
| `AddComment.ForeignBlogRefused` | programs/blog/src/instructions/add_comment.rs:46 | a blog not owned by the post's owner fails with `UnauthorizedOwner` |
| `AddComment.FullCounterPanics` | programs/blog/src/instructions/add_comment.rs:18 | a counter at `u64::MAX` panics in `unwrap` and no comment is created |
| `AddComment.OverlongContentFails` | programs/blog/src/instructions/add_comment.rs:31 | content over 300 bytes fails |
| `AddComment.PreservesValid` | programs/blog/src/instructions/add_comment.rs:6-50 | the instruction keeps the store invariant |
| `DeleteComment.Apply` | programs/blog/src/instructions/delete_comment.rs:6-43 | succeeds iff a comment lives at `["comment", post, its author]`, the post lives at `[hash(title), post.owner]`, the signer is the author or the post's owner, and the counter is positive; then the comment is removed, the post's counter falls by one, and blogs are untouched |
| `DeleteComment.DeletedCommentIsOnThePost` | programs/blog/src/instructions/delete_comment.rs:29-41 | in a valid store, the removed comment is one naming the supplied post, and the title is the post's own |
| `DeleteComment.AuthorOrBlogOwnerDeletes` | programs/blog/src/instructions/delete_comment.rs:11-19 | with the accounts in place, it succeeds iff the signer is the author or the owner of the post's blog and the post's counter is positive; any other signer fails with `UnauthorizedOwner` whatever the counter, since `require!` runs before `checked_sub` |
| `DeleteComment.EmptyCounterUnderflows` | programs/blog/src/instructions/delete_comment.rs:16-19 | a counter at zero fails with `Underflow` and the comment stays |
| `DeleteComment.OrphanedCommentIsStuck` | programs/blog/src/instructions/delete_comment.rs:29-41 | while a comment's post is absent, deleting the comment fails for every signer, post and title |
| `DeleteComment.RecreatedPostStrandsComments` | programs/blog/src/instructions/delete_comment.rs:16-19 | right after a post is deleted and re-created, deleting one of its old comments fails with `Underflow`, even for the author |
| `DeleteComment.OldCommentDeletableAfterNewOne` | programs/blog/src/instructions/delete_comment.rs:11-19 | after a post is re-created and gains one new comment, an old comment's author can delete the old comment; the counter drops to zero and the new comment stays |
| `DeleteComment.PreservesValid` | programs/blog/src/instructions/delete_comment.rs:6-43 | the instruction keeps the store invariant |
| `BlogProgram.Ledger.constructor` | programs/blog/src/states.rs:3-41 | a new ledger holds no accounts and is valid |
| `BlogProgram.Ledger.InitializeBlog` | programs/blog/src/instructions/initialize_blog.rs:4-14 | in place: success leaves the ledger at `InitializeBlog.Apply`'s result; failure returns its error and changes nothing; validity is kept |
| `BlogProgram.Ledger.CreateBlogPost` | programs/blog/src/instructions/create_blog_post.rs:6-25 | in place, tied to `CreateBlogPost.Apply` the same way |
| `BlogProgram.Ledger.UpdateBlogPost` | programs/blog/src/instructions/update_blog_post.rs:7-14 | in place, tied to `UpdateBlogPost.Apply` the same way |
| `BlogProgram.Ledger.DeleteBlogPost` | programs/blog/src/instructions/delete_blog_post.rs:6-15 | in place, tied to `DeleteBlogPost.Apply` the same way |
| `BlogProgram.Ledger.AddComment` | programs/blog/src/instructions/add_comment.rs:6-21 | in place, tied to `AddComment.Apply` the same way |
| `BlogProgram.Ledger.DeleteComment` | programs/blog/src/instructions/delete_comment.rs:6-22 | in place, tied to `DeleteComment.Apply` the same way |

## Where the code and the intended rules differ

The program's tests (`tests/blog.ts`) state some rules the code does not enforce. The model follows the code
in each of these cases.

- A blog title is bounded by the 32-byte seed limit (`MaxSeedLengthExceeded`), not by the 50 that
  tests/blog.ts:147 names. The `max_len(32)` capacity agrees with that limit.
- No string has a minimum length. An empty title is accepted.
- No string length is checked explicitly. The only bound is that the whole record fits its slot, so fields
  share a budget. A blog title of 10 bytes leaves 122 for the description, not 100. A post title may exceed
  50 bytes when the content is short.
- The tests expect a blog's `number_of_posts` to count the posts naming that blog (tests/blog.ts:226, 260,
  527, 554). `update_blog_post` and
  `delete_blog_post` accept any blog of the signer, and the delete decrements the blog supplied. So the
  invariant kept is the per-owner total (`AccountStore.PostCountersBalanced`).
  `DeleteBlogPost.CountersDriftAcrossBlogs` shows a per-blog counter going wrong.
  `AccountStore.SingleBlogCounterExact` shows the per-blog count holds for an owner with one blog.
- The tests expect a post's `number_of_comments` to equal its live comments (tests/blog.ts:611, 665, 811). Deleting a post keeps its comments,
  and re-creating it restarts the counter at zero. So the invariant kept is only "at most"
  (`AccountStore.CommentCountersBounded`). While the post is absent its old comments cannot be deleted
  (`OrphanedCommentIsStuck`). The re-created post's counter counts only the comments added since, but
  any of its comments, old or new, draws on it. Right after re-creation an old comment's deletion
  underflows (`RecreatedPostStrandsComments`). After one new comment an old one can be deleted, and the new
  one is then left behind a zero counter (`OldCommentDeletableAfterNewOne`).
- The intended rule lets the blog owner delete a comment (tests/blog.ts:814). The code compares the signer with the post's owner. In a
  valid store every post's owner owns the post's blog, so the two rules agree (`AuthorOrBlogOwnerDeletes`).
- `create_blog_post` checks `has_one = owner` before its raw owner constraint. A stranger therefore gets
  the framework's `ConstraintHasOne`, never `UnauthorizedOwner`.
- Failures are the framework's error codes, not one validation error: `AccountAlreadyInUse`,
  `AccountNotInitialized`, `AccountDiscriminatorMismatch`, `ConstraintSeeds`, `MaxSeedLengthExceeded`, `AccountDidNotSerialize`, `Panic`.

## Left out

- The clock: `created_at`/`updated_at` come from `Clock::get()` and are a parameter `now` of each instruction.
- `bump` fields: a function of the address. They are dropped from the records, but their byte is counted in
  the slot sizes.
- SHA-256 and address derivation are not computed. Both are free constructors, so collision resistance is
  assumed, not proved. Whether a seed list has a valid bump (off-curve point) is not modelled: every list
  within the limits has an address.
- Lamports, rent, `payer =` and the refund of `close`: runtime economics. A payer that cannot fund the rent
  makes `init` fail, so the "succeeds iff" rows of `InitializeBlog.Apply`, `CreateBlogPost.Apply` and
  `AddComment.Apply` assume a funded payer.
- Accounts that are not the program's own are not modelled. This covers the system program, an account of
  another owner or program placed at a record's address, and mismatched account owners.
- `close = owner`/`close = signer` also require the target to differ from the closed account. The blog
  program never calls itself, so a signer is never one of its addresses; that check always passes and is
  not modelled.
- Account metas: every `Apply` assumes the transaction flags its accounts as the instruction declares. A
  `mut` account passed read-only (`ConstraintMut`) and a `Signer` that did not sign (`AccountNotSigner`) are
  refused by the framework, and the model does not represent these flags.
- `Addresses.AddressKindsDisjoint`: does not promise that a blog address differs from a post address when
  the blog title is 32 bytes long. The runtime hashes the seeds' bytes without tags. So a blog of owner `o`
  whose 32-byte title equals the bytes of SHA-256(P) sits at the address of `o`'s post titled P. This needs
  a title digest that is valid UTF-8, found by search rather than by a collision, and only `o` is affected.
  The model's tagged seeds keep the two apart.
- `InitializeBlog.Apply`: in that overlap, when `o`'s post P is live, the program fails with
  `AccountAlreadyInUse`, while the model succeeds.
- `CreateBlogPost.Apply`: in the same overlap with the blog created first, the program fails with
  `AccountAlreadyInUse` when creating P, while the model succeeds.
- `programs/blog/src/lib.rs`: instruction dispatch only, with no logic.
- Transaction size and compute limits, and the encoding of strings as UTF-8: strings are byte sequences.
- Concurrency: each instruction is one atomic step, as the runtime executes it.
- Re-serialising a `mut` account whose size did not change is not modelled, because it cannot fail.
