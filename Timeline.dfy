/** The timeline view-model: a store of statuses keyed by id, the id list of
    the last fetched page, the feed projected from the two, and the four
    interaction handlers that update the store in place. */
module Timeline {
  import opened Api
  import opened Interactions

  datatype Option<T> = None | Some(value: T)

  type Store = map<string, StatusData>

  /** Every entry is stored under its own id, as the merge inserts it. */
  predicate KeyedById(store: Store) {
    forall k :: k in store ==> store[k].id == k
  }

  /** The ids of a page, in page order, one per record. */
  function Ids(page: seq<StatusData>): (r: seq<string>)
    ensures |r| == |page|
    ensures forall i :: 0 <= i < |page| ==> r[i] == page[i].id
  {
    if page == [] then [] else Ids(page[..|page| - 1]) + [page[|page| - 1].id]
  }

  /** The index of the last record in `page` whose id is `k`. */
  function LastIndexOf(page: seq<StatusData>, k: string): (j: nat)
    requires k in Ids(page)
    ensures j < |page| && page[j].id == k
    ensures forall j' :: j < j' < |page| ==> page[j'].id != k
  {
    if page[|page| - 1].id == k then |page| - 1
    else
      assert Ids(page) == Ids(page[..|page| - 1]) + [page[|page| - 1].id];
      LastIndexOf(page[..|page| - 1], k)
  }

  /** The store after inserting every record of `page`, in order, under its
      id. Keys old and new are all present; an id of the page holds the last
      record the page carries for it; every other entry is kept as it was. */
  function MergeStore(store: Store, page: seq<StatusData>): (r: Store)
    ensures forall k :: k in r <==> k in store || k in Ids(page)
    ensures forall k :: k in Ids(page) ==> r[k] == page[LastIndexOf(page, k)]
    ensures forall k :: k in store && k !in Ids(page) ==> r[k] == store[k]
    ensures KeyedById(store) ==> KeyedById(r)
    decreases |page|
  {
    if page == [] then store
    else
      var last := page[|page| - 1];
      assert Ids(page) == Ids(page[..|page| - 1]) + [last.id];
      MergeStore(store, page[..|page| - 1])[last.id := last]
  }

  /** The feed: the current record of every listed id, in list order. */
  function Project(ids: seq<string>, store: Store): (r: seq<StatusData>)
    requires forall i :: 0 <= i < |ids| ==> ids[i] in store
    ensures |r| == |ids|
    ensures forall i :: 0 <= i < |ids| ==> r[i] == store[ids[i]]
    ensures KeyedById(store) ==> Ids(r) == ids
  {
    seq(|ids|, i requires 0 <= i < |ids| => store[ids[i]])
  }

  /** Every id of a merged page is a key of the merged store, so the page's
      id list can be projected against it. */
  lemma MergedIdsPresent(store: Store, page: seq<StatusData>)
    ensures forall i :: 0 <= i < |Ids(page)| ==> Ids(page)[i] in MergeStore(store, page)
  {
    var ids := Ids(page);
    forall i | 0 <= i < |ids| ensures ids[i] in MergeStore(store, page) {
      assert ids[i] in ids;
    }
  }

  /** Projecting a merged page gives, at each position, the last record the
      page carries for that position's id. */
  lemma ProjectMerged(store: Store, page: seq<StatusData>, i: nat)
    requires i < |page|
    ensures forall k :: 0 <= k < |Ids(page)| ==> Ids(page)[k] in MergeStore(store, page)
    ensures Project(Ids(page), MergeStore(store, page))[i] == page[LastIndexOf(page, page[i].id)]
  {
    MergedIdsPresent(store, page);
    assert Ids(page)[i] in Ids(page);
  }

  /** When a page's ids are distinct, projecting it after the merge gives
      back the page itself. */
  lemma ProjectMergedDistinct(store: Store, page: seq<StatusData>)
    requires forall i, j :: 0 <= i < j < |page| ==> page[i].id != page[j].id
    ensures forall k :: 0 <= k < |Ids(page)| ==> Ids(page)[k] in MergeStore(store, page)
    ensures Project(Ids(page), MergeStore(store, page)) == page
  {
    MergedIdsPresent(store, page);
    var feed := Project(Ids(page), MergeStore(store, page));
    forall i | 0 <= i < |page| ensures feed[i] == page[i] {
      ProjectMerged(store, page, i);
      assert LastIndexOf(page, page[i].id) == i;
    }
  }

  /** Merging the same page again leaves the store as the first merge made it. */
  lemma MergeIdempotent(store: Store, page: seq<StatusData>)
    ensures MergeStore(MergeStore(store, page), page) == MergeStore(store, page)
  {
    var once := MergeStore(store, page);
    var twice := MergeStore(once, page);
    assert twice.Keys == once.Keys;
    forall k | k in once ensures twice[k] == once[k] { }
  }

  /** Changing one entry of the store changes the feed exactly at the
      positions listing that entry's id. */
  lemma ProjectUpdate(ids: seq<string>, store: Store, id: string, s: StatusData)
    requires forall i :: 0 <= i < |ids| ==> ids[i] in store
    requires id in store
    ensures forall i :: 0 <= i < |ids| ==>
      Project(ids, store[id := s])[i] == if ids[i] == id then s else Project(ids, store)[i]
  {
  }

  /** The shared toggle helper: the flag and its counter are passed in and
      handed back updated, as through two mutable references. */
  method Toggle(flag: bool, count: U32) returns (flag': bool, count': U32)
    requires CanToggle(flag, count)
    ensures (flag', count') == Toggled(flag, count)
  {
    if flag {
      flag' := false;
      count' := count - 1;
    } else {
      flag' := true;
      count' := count + 1;
    }
  }

  class Timeline {
    /** The status store shared with the rest of the application. */
    var statuses: Store
    /** The ids of the last merged page; `None` until one is published. */
    var statusIds: Option<seq<string>>

    ghost predicate Valid()
      reads this
    {
      statusIds.Some? ==> forall i :: 0 <= i < |statusIds.value| ==> statusIds.value[i] in statuses
    }

    constructor (statuses: Store)
      ensures Valid()
      ensures this.statuses == statuses && statusIds == None
    {
      this.statuses := statuses;
      statusIds := None;
    }

    /** Merges one fetched page: every record is inserted under its id, in
        order, and the page's ids are published as the new id list. */
    method Merge(page: seq<StatusData>)
      requires Valid()
      modifies this
      ensures Valid()
      ensures statuses == MergeStore(old(statuses), page)
      ensures statusIds == Some(Ids(page))
      ensures old(KeyedById(statuses)) ==> KeyedById(statuses)
    {
      var ids: seq<string> := [];
      for i := 0 to |page|
        invariant ids == Ids(page[..i])
        invariant statuses == MergeStore(old(statuses), page[..i])
      {
        var status := page[i];
        assert page[..i + 1][..i] == page[..i];
        ids := ids + [status.id];
        statuses := statuses[status.id := status];
      }
      assert page[..|page|] == page;
      statusIds := Some(ids);
      forall j | 0 <= j < |ids| ensures ids[j] in statuses {
        assert ids[j] in Ids(page);
      }
    }

    /** The feed to render: nothing until an id list is published, then the
        current record of every listed id, in list order. */
    function Feed(): (r: Option<seq<StatusData>>)
      reads this
      requires Valid()
      ensures r.None? <==> statusIds.None?
      ensures r.Some? ==> |r.value| == |statusIds.value|
      ensures r.Some? ==> forall i :: 0 <= i < |r.value| ==> r.value[i] == statuses[statusIds.value[i]]
      ensures r.Some? && KeyedById(statuses) ==> Ids(r.value) == statusIds.value
    {
      match statusIds
      case None => None
      case Some(ids) => Some(Project(ids, statuses))
    }

    method OnFavorite(id: string)
      requires Valid()
      requires id in statuses && CanApply(statuses[id], Favorite)
      modifies this
      ensures Valid()
      ensures statuses == old(statuses)[id := Apply(old(statuses)[id], Favorite)]
      ensures statusIds == old(statusIds)
    {
      var status := statuses[id];
      var isFavorited, favoritesCount := Toggle(status.isFavorited, status.favoritesCount);
      statuses := statuses[id := status.(isFavorited := isFavorited, favoritesCount := favoritesCount)];
    }

    method OnReply(id: string)
      requires Valid()
      requires id in statuses && CanApply(statuses[id], Reply)
      modifies this
      ensures Valid()
      ensures statuses == old(statuses)[id := Apply(old(statuses)[id], Reply)]
      ensures statusIds == old(statusIds)
    {
      var status := statuses[id];
      var isReplied, repliesCount := Toggle(status.isReplied, status.repliesCount);
      statuses := statuses[id := status.(isReplied := isReplied, repliesCount := repliesCount)];
    }

    method OnReblog(id: string)
      requires Valid()
      requires id in statuses && CanApply(statuses[id], Reblog)
      modifies this
      ensures Valid()
      ensures statuses == old(statuses)[id := Apply(old(statuses)[id], Reblog)]
      ensures statusIds == old(statusIds)
    {
      var status := statuses[id];
      var isReblogged, reblogsCount := Toggle(status.isReblogged, status.reblogsCount);
      statuses := statuses[id := status.(isReblogged := isReblogged, reblogsCount := reblogsCount)];
    }

    method OnBookmark(id: string)
      requires Valid()
      requires id in statuses
      modifies this
      ensures Valid()
      ensures statuses == old(statuses)[id := Apply(old(statuses)[id], Bookmark)]
      ensures statusIds == old(statusIds)
    {
      var status := statuses[id];
      statuses := statuses[id := status.(isBookmarked := !status.isBookmarked)];
    }
  }

  /** Pressing the same control of one status twice, through the handlers,
      leaves the store and the published id list as they were. */
  method PressTwice(t: Timeline, id: string, a: Action)
    requires t.Valid()
    requires id in t.statuses && CanApply(t.statuses[id], a)
    modifies t
    ensures t.Valid()
    ensures t.statuses == old(t.statuses) && t.statusIds == old(t.statusIds)
  {
    ghost var before := t.statuses[id];
    ApplyTwice(before, a);
    match a
    case Favorite => t.OnFavorite(id); t.OnFavorite(id);
    case Reply => t.OnReply(id); t.OnReply(id);
    case Reblog => t.OnReblog(id); t.OnReblog(id);
    case Bookmark => t.OnBookmark(id); t.OnBookmark(id);
    assert t.statuses == old(t.statuses)[id := before];
  }

  /** A page with one status, favourited and unfavourited again. */
  method FavoriteScenario() {
    var status := StatusData("1", Account("a", "u"), "hi", 5, false, 0, false, 0, false, false);
    var t := new Timeline(map[]);
    t.Merge([status]);
    assert Ids([status]) == ["1"];
    assert t.Feed() == Some([status]) by { ProjectMergedDistinct(map[], [status]); }
    t.OnFavorite("1");
    assert t.statuses["1"].favoritesCount == 6 && t.statuses["1"].isFavorited;
    t.OnFavorite("1");
    assert t.statuses["1"] == status;
  }
}
