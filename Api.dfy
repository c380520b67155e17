/** Records the public-timeline endpoint returns: one account and one status
    per post, with the engagement counters and the local user's flags. */
module Api {

  /** Rust's `u32` ranges over 0 .. 2^32 - 1. */
  const U32_LIMIT: nat := 0x1_0000_0000

  type U32 = n: nat | n < U32_LIMIT

  datatype Account = Account(username: string, avatar: string)

  /** One status. `isBookmarked` is read and written by the timeline even
      though the record declaration in the API file does not list it. */
  datatype StatusData = StatusData(
    id: string,
    account: Account,
    content: string,
    favoritesCount: U32,
    isFavorited: bool,
    reblogsCount: U32,
    isReblogged: bool,
    repliesCount: U32,
    isReplied: bool,
    isBookmarked: bool)
}
