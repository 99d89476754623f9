/**
 * Keys and program-derived addresses.
 *
 * Every record of the blog program lives at an address derived from a list
 * of seeds. The runtime hashes the seeds' bytes one after another (with the
 * bump and the program id), so two seed lists give one address exactly when
 * their concatenated bytes agree, unless someone finds a SHA-256 collision.
 * The model takes collision resistance as given by letting the address BE
 * its seed list: `Pda(seeds)`. Equal addresses then have equal seeds by
 * construction, and no axiom is needed. The post-title hash
 * `hash_string_content` is treated the same way: a digest is represented by
 * its preimage.
 *
 * Tagging each seed with its kind keeps apart two seed lists whose bytes
 * agree. For the program's three seed shapes that happens in one case only:
 * a 32-byte blog title whose bytes are the digest of a post title of the
 * same owner. `AddressKindsDisjoint` states disjointness only where the
 * byte lengths already rule the overlap out.
 */
module Addresses {
  import opened Errors

  type byte = b: int | 0 <= b < 0x100

  /** A Rust `String` or `&[u8]`, as its UTF-8 bytes. Lengths are in bytes. */
  type Bytes = seq<byte>

  /** A 32-byte SHA-256 digest, represented by the bytes that were hashed. */
  datatype Digest = Sha256(preimage: Bytes)

  /** A 32-byte public key: either a key that is not an address of this
      program (a key pair's public half, or an address of another program),
      or an address this program derives from seeds. */
  datatype Key = External(id: nat) | Pda(seeds: seq<Seed>)

  /** One seed of an address derivation. */
  datatype Seed = Raw(bytes: Bytes) | Hashed(digest: Digest) | KeyOf(key: Key)

  /** The key of a transaction signer. The blog program never calls itself,
      so none of its addresses can sign one of its instructions; it signs for
      a new address only in the system-program call that `init` makes. */
  type SignerKey = k: Key | k.External? witness External(0)

  /** The runtime's limits on one derivation. */
  const MAX_SEED_LEN: nat := 32
  const MAX_SEEDS: nat := 16

  /** The literal seed `b"comment"`. */
  const COMMENT_TAG: Bytes := [0x63, 0x6f, 0x6d, 0x6d, 0x65, 0x6e, 0x74]

  /** `hash_string_content`: the SHA-256 digest of a title's bytes. */
  function HashStringContent(content: Bytes): (d: Digest)
    ensures d.preimage == content
  {
    Sha256(content)
  }

  /** The length in bytes of a seed; digests and keys are 32 bytes wide. */
  function SeedLen(seed: Seed): nat {
    match seed
    case Raw(bytes) => |bytes|
    case Hashed(_) => 32
    case KeyOf(_) => 32
  }

  /** A derivation succeeds only when every seed is at most 32 bytes long and
      there is room for the bump seed that the search appends. */
  predicate SeedsWithinLimits(seeds: seq<Seed>) {
    |seeds| < MAX_SEEDS && forall i :: 0 <= i < |seeds| ==> SeedLen(seeds[i]) <= MAX_SEED_LEN
  }

  /** `find_program_address`: the address of a seed list, or the runtime's
      refusal of an over-long seed. */
  function FindProgramAddress(seeds: seq<Seed>): (r: Result<Key>)
    ensures r.Ok? <==> SeedsWithinLimits(seeds)
    ensures r.Ok? ==> r.value.Pda? && r.value.seeds == seeds
    ensures r.Err? ==> r.error == MaxSeedLengthExceeded
  {
    if SeedsWithinLimits(seeds) then Ok(Pda(seeds)) else Err(MaxSeedLengthExceeded)
  }

  /** The `seeds = [...]` account constraint: the supplied address must be
      the one derived from the seeds. */
  function CheckSeeds(k: Key, seeds: seq<Seed>): (r: Outcome)
    ensures r.Pass? <==> SeedsWithinLimits(seeds) && k == Pda(seeds)
    ensures r.Fail? && SeedsWithinLimits(seeds) ==> r.error == ConstraintSeeds
  {
    match FindProgramAddress(seeds)
    case Err(e) => Fail(e)
    case Ok(pda) => Require(k == pda, ConstraintSeeds)
  }

  /** Seeds of a blog: `[title.as_bytes(), owner]` (the title is used raw). */
  function BlogSeeds(title: Bytes, owner: Key): seq<Seed> {
    [Raw(title), KeyOf(owner)]
  }

  /** Seeds of a post: `[hash_string_content(title), owner]`. */
  function PostSeeds(titleHash: Digest, owner: Key): seq<Seed> {
    [Hashed(titleHash), KeyOf(owner)]
  }

  /** Seeds of a comment: `[b"comment", blog_post, comment_author]`. */
  function CommentSeeds(post: Key, author: Key): seq<Seed> {
    [Raw(COMMENT_TAG), KeyOf(post), KeyOf(author)]
  }

  function BlogAddress(title: Bytes, owner: Key): Key { Pda(BlogSeeds(title, owner)) }

  function PostAddress(title: Bytes, owner: Key): Key { Pda(PostSeeds(HashStringContent(title), owner)) }

  function CommentAddress(post: Key, author: Key): Key { Pda(CommentSeeds(post, author)) }

  /** A blog title derives an address exactly when it is at most 32 bytes. */
  lemma BlogSeedsWithinLimits(title: Bytes, owner: Key)
    ensures SeedsWithinLimits(BlogSeeds(title, owner)) <==> |title| <= MAX_SEED_LEN
  {
    var seeds := BlogSeeds(title, owner);
    assert SeedLen(seeds[0]) == |title|;
  }

  /** Post and comment seeds are always derivable: a post title of any length
      is hashed to 32 bytes first. */
  lemma PostAndCommentSeedsWithinLimits(title: Bytes, owner: Key, post: Key, author: Key)
    ensures SeedsWithinLimits(PostSeeds(HashStringContent(title), owner))
    ensures SeedsWithinLimits(CommentSeeds(post, author))
  {
  }

  /** One blog per (title, owner) and one post per (title, owner): both
      derivations are injective. */
  lemma BlogAndPostAddressesInjective(t1: Bytes, o1: Key, t2: Bytes, o2: Key)
    ensures BlogAddress(t1, o1) == BlogAddress(t2, o2) <==> t1 == t2 && o1 == o2
    ensures PostAddress(t1, o1) == PostAddress(t2, o2) <==> t1 == t2 && o1 == o2
  {
  }

  /** One comment per (post, author). */
  lemma CommentAddressInjective(p1: Key, a1: Key, p2: Key, a2: Key)
    ensures CommentAddress(p1, a1) == CommentAddress(p2, a2) <==> p1 == p2 && a1 == a2
  {
  }

  /** The three kinds of address never coincide where their seed bytes
      differ in length, and none of them is a key outside this program's
      derivations. Blog seeds hash `|title| + 32` bytes, post seeds 64 and
      comment seeds 71, so a blog address can meet a post address only for a
      32-byte title, and a comment address only for a title over the seed
      limit. */
  lemma AddressKindsDisjoint(t1: Bytes, o1: Key, t2: Bytes, o2: Key, p: Key, a: Key)
    ensures |t1| != 32 ==> BlogAddress(t1, o1) != PostAddress(t2, o2)
    ensures |t1| <= MAX_SEED_LEN ==> BlogAddress(t1, o1) != CommentAddress(p, a)
    ensures PostAddress(t2, o2) != CommentAddress(p, a)
    ensures BlogAddress(t1, o1).Pda? && PostAddress(t2, o2).Pda? && CommentAddress(p, a).Pda?
  {
  }
}
