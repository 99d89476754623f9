/**
 * The three record kinds the blog program stores, their fixed-size slots,
 * and the unsigned counter arithmetic it uses on them.
 *
 * Each record is written into an account allocated with room for
 * `8 + INIT_SPACE` bytes: an 8-byte type tag (the discriminator) followed by
 * the Borsh encoding of the fields, where a string takes a 4-byte length
 * prefix plus its bytes and `max_len(n)` reserves n bytes for it. The slot
 * never grows, so a record fits only while its encoding is no longer than
 * the slot. That is the only bound on string lengths the program enforces.
 * The `bump` field of each record is left out of the datatypes (it is a
 * function of the address), but its byte is counted in the sizes.
 */
module States {
  import opened Errors
  import opened Addresses

  type u64 = x: int | 0 <= x < 0x1_0000_0000_0000_0000
  type i64 = x: int | -0x8000_0000_0000_0000 <= x < 0x8000_0000_0000_0000

  const U64_MAX: u64 := 0xFFFF_FFFF_FFFF_FFFF

  /** `u64::checked_add`: `None` on overflow. */
  function CheckedAdd(a: u64, b: u64): (r: Option<u64>)
    ensures r.Some? <==> a + b <= U64_MAX
    ensures r.Some? ==> r.value == a + b
  {
    if a + b <= U64_MAX then Some(a + b) else None
  }

  /** `u64::checked_sub`: `None` on underflow. */
  function CheckedSub(a: u64, b: u64): (r: Option<u64>)
    ensures r.Some? <==> b <= a
    ensures r.Some? ==> r.value == a - b
  {
    if b <= a then Some(a - b) else None
  }

  /** A blog, stored at `BlogAddress(title, owner)`. */
  datatype Blog = Blog(
    owner: Key,
    title: Bytes,
    description: Bytes,
    numberOfPosts: u64,
    createdAt: i64)

  /** A post, stored at `PostAddress(title, owner)`; `blog` is the address
      of the blog it was created under. */
  datatype BlogPost = BlogPost(
    owner: Key,
    blog: Key,
    title: Bytes,
    content: Bytes,
    numberOfComments: u64,
    createdAt: i64,
    updatedAt: i64)

  /** A comment, stored at `CommentAddress(blogPost, commentAuthor)`. */
  datatype Comment = Comment(
    commentAuthor: Key,
    blogPost: Key,
    blog: Key,
    content: Bytes,
    createdAt: i64)

  // `max_len` capacities of the string fields
  const BLOG_TITLE_MAX_LEN: nat := 32
  const BLOG_DESCRIPTION_MAX_LEN: nat := 100
  const POST_TITLE_MAX_LEN: nat := 50
  const POST_CONTENT_MAX_LEN: nat := 5000
  const COMMENT_CONTENT_MAX_LEN: nat := 300

  // Encoded widths
  const DISCRIMINATOR_LEN: nat := 8
  const PUBKEY_LEN: nat := 32
  const STRING_PREFIX_LEN: nat := 4
  const U64_LEN: nat := 8
  const I64_LEN: nat := 8
  const U8_LEN: nat := 1

  /** Encoded length of a blog whose strings have the given lengths. */
  function BlogEncodedLen(titleLen: nat, descriptionLen: nat): nat {
    DISCRIMINATOR_LEN + PUBKEY_LEN + (STRING_PREFIX_LEN + titleLen)
      + (STRING_PREFIX_LEN + descriptionLen) + U64_LEN + I64_LEN + U8_LEN
  }

  function PostEncodedLen(titleLen: nat, contentLen: nat): nat {
    DISCRIMINATOR_LEN + PUBKEY_LEN + PUBKEY_LEN + (STRING_PREFIX_LEN + titleLen)
      + (STRING_PREFIX_LEN + contentLen) + U64_LEN + I64_LEN + I64_LEN + U8_LEN
  }

  function CommentEncodedLen(contentLen: nat): nat {
    DISCRIMINATOR_LEN + PUBKEY_LEN + PUBKEY_LEN + PUBKEY_LEN
      + (STRING_PREFIX_LEN + contentLen) + I64_LEN + U8_LEN
  }

  /** Slot sizes `8 + INIT_SPACE`: every string at its `max_len`. */
  const BLOG_SPACE: nat := BlogEncodedLen(BLOG_TITLE_MAX_LEN, BLOG_DESCRIPTION_MAX_LEN)
  const POST_SPACE: nat := PostEncodedLen(POST_TITLE_MAX_LEN, POST_CONTENT_MAX_LEN)
  const COMMENT_SPACE: nat := CommentEncodedLen(COMMENT_CONTENT_MAX_LEN)

  predicate BlogFits(b: Blog) {
    BlogEncodedLen(|b.title|, |b.description|) <= BLOG_SPACE
  }

  predicate PostFits(p: BlogPost) {
    PostEncodedLen(|p.title|, |p.content|) <= POST_SPACE
  }

  predicate CommentFits(c: Comment) {
    CommentEncodedLen(|c.content|) <= COMMENT_SPACE
  }

  /** The slots hold 197, 5155 and 417 bytes. Because the whole record must
      fit rather than each field, a blog's title and description share a
      budget of 132 bytes, and a post's title and content share 5050. */
  lemma SlotBudgets(b: Blog, p: BlogPost, c: Comment)
    ensures BLOG_SPACE == 197 && POST_SPACE == 5155 && COMMENT_SPACE == 417
    ensures BlogFits(b) <==> |b.title| + |b.description| <= BLOG_TITLE_MAX_LEN + BLOG_DESCRIPTION_MAX_LEN
    ensures PostFits(p) <==> |p.title| + |p.content| <= POST_TITLE_MAX_LEN + POST_CONTENT_MAX_LEN
    ensures CommentFits(c) <==> |c.content| <= COMMENT_CONTENT_MAX_LEN
  {
  }

  /** Every record whose strings respect their `max_len` fits its slot. */
  lemma WithinCapacitiesFits(b: Blog, p: BlogPost, c: Comment)
    requires |b.title| <= BLOG_TITLE_MAX_LEN && |b.description| <= BLOG_DESCRIPTION_MAX_LEN
    requires |p.title| <= POST_TITLE_MAX_LEN && |p.content| <= POST_CONTENT_MAX_LEN
    requires |c.content| <= COMMENT_CONTENT_MAX_LEN
    ensures BlogFits(b) && PostFits(p) && CommentFits(c)
  {
  }
}
