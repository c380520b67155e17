/** The interaction reducer: what one favourite, reply, reblog or bookmark
    press does to one status record, stated on values. */
module Interactions {
  import opened Api

  /** The toggle is defined exactly when its `u32` arithmetic does not leave
      the range: turning a flag off needs a count of at least one (the
      subtraction does not clamp), turning it on needs room for one more. */
  predicate CanToggle(flag: bool, count: nat) {
    if flag then count >= 1 else count + 1 < U32_LIMIT
  }

  /** The flag/counter pair after one toggle: the flag flips and the count
      moves by one in the same direction. */
  function Toggled(flag: bool, count: U32): (r: (bool, U32))
    requires CanToggle(flag, count)
    ensures r.0 == !flag
    ensures r.0 ==> r.1 == count + 1
    ensures !r.0 ==> r.1 + 1 == count
    ensures CanToggle(r.0, r.1)
  {
    if flag then (false, count - 1) else (true, count + 1)
  }

  /** Toggling twice restores the flag and the count exactly. */
  lemma ToggledTwice(flag: bool, count: U32)
    requires CanToggle(flag, count)
    ensures Toggled(Toggled(flag, count).0, Toggled(flag, count).1) == (flag, count)
  {
  }

  /** The four controls under a status. */
  datatype Action = Favorite | Reply | Reblog | Bookmark

  /** The flag an action flips. */
  function Flag(s: StatusData, a: Action): bool {
    match a
    case Favorite => s.isFavorited
    case Reply => s.isReplied
    case Reblog => s.isReblogged
    case Bookmark => s.isBookmarked
  }

  /** The counter paired with an action's flag; a bookmark has none. */
  function Count(s: StatusData, a: Action): U32
    requires a != Bookmark
  {
    match a
    case Favorite => s.favoritesCount
    case Reply => s.repliesCount
    case Reblog => s.reblogsCount
  }

  /** Everything about a status that no interaction touches. */
  predicate SamePost(s: StatusData, t: StatusData) {
    s.id == t.id && s.account == t.account && s.content == t.content
  }

  predicate CanApply(s: StatusData, a: Action) {
    a == Bookmark || CanToggle(Flag(s, a), Count(s, a))
  }

  /** The record after pressing control `a` once. Only the action's flag and
      counter change; a bookmark changes its flag and no counter. */
  function Apply(s: StatusData, a: Action): (r: StatusData)
    requires CanApply(s, a)
    ensures SamePost(r, s)
    ensures Flag(r, a) == !Flag(s, a)
    ensures a != Bookmark ==> Count(r, a) == if Flag(r, a) then Count(s, a) + 1 else Count(s, a) - 1
    ensures forall b: Action :: b != a ==> Flag(r, b) == Flag(s, b)
    ensures forall b: Action :: b != a && b != Bookmark ==> Count(r, b) == Count(s, b)
    ensures CanApply(r, a)
  {
    match a
    case Favorite =>
      var (f, c) := Toggled(s.isFavorited, s.favoritesCount);
      s.(isFavorited := f, favoritesCount := c)
    case Reply =>
      var (f, c) := Toggled(s.isReplied, s.repliesCount);
      s.(isReplied := f, repliesCount := c)
    case Reblog =>
      var (f, c) := Toggled(s.isReblogged, s.reblogsCount);
      s.(isReblogged := f, reblogsCount := c)
    case Bookmark =>
      s.(isBookmarked := !s.isBookmarked)
  }

  /** Each control is its own inverse: pressing it twice gives back the
      identical record. */
  lemma ApplyTwice(s: StatusData, a: Action)
    requires CanApply(s, a)
    ensures Apply(Apply(s, a), a) == s
  {
    match a
    case Favorite => ToggledTwice(s.isFavorited, s.favoritesCount);
    case Reply => ToggledTwice(s.isReplied, s.repliesCount);
    case Reblog => ToggledTwice(s.isReblogged, s.reblogsCount);
    case Bookmark =>
  }

  /** Pressing control `a` `n` times in a row. */
  function ApplyN(s: StatusData, a: Action, n: nat): StatusData
    requires CanApply(s, a)
    decreases n
  {
    if n == 0 then s else ApplyN(Apply(s, a), a, n - 1)
  }

  /** After an even number of presses the record is back to what it was;
      after an odd number it is the record after one press. */
  lemma {:induction false} ApplyNParity(s: StatusData, a: Action, n: nat)
    requires CanApply(s, a)
    ensures ApplyN(s, a, n) == if n % 2 == 0 then s else Apply(s, a)
    decreases n
  {
    if n > 0 {
      ApplyNParity(Apply(s, a), a, n - 1);
      ApplyTwice(s, a);
    }
  }
}
