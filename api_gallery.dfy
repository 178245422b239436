/**
 * The simpler gallery served under `public/api`: a grid only, with the same
 * page-by-page growth and the same persisted reaction map, but no slideshow
 * and no error handling around its fetch.
 */
module ApiGallery {
  import opened Photos
  import Pagination
  import opened Reactions

  class PhotoGallery {
    var channel: Option<Channel>
    var photos: seq<Photo>
    var visiblePhotos: seq<Photo>
    var page: nat
    const pageSize: nat
    var reactions: ReactionMap
    /** The storage entry the reactions are loaded from and saved to. */
    const store: ReactionSlot

    /** The component's invariant: the visible photos are the pages appended so far. */
    ghost predicate Valid()
      reads this
    {
      Pagination.Consistent(photos, pageSize, Pagination.Cursor(visiblePhotos, page))
    }

    /** Construction: no photos yet, first page pending, reactions read from storage. */
    constructor (store: ReactionSlot)
      ensures Valid()
      ensures channel == None && photos == [] && visiblePhotos == [] && page == 0 && pageSize == 12
      ensures reactions == LoadReactions(store.saved)
      ensures this.store == store
    {
      channel := None;
      photos := [];
      visiblePhotos := [];
      page := 0;
      pageSize := 12;
      reactions := LoadReactions(store.saved);
      this.store := store;
    }

    /**
     * `firstUpdated`: the one fetch of the photo list. `None` is a request or
     * body that failed, which rejects before any field is assigned; otherwise
     * the channel and photos are taken (missing photos read as none) and the
     * first page is appended.
     */
    method FirstUpdated(response: Option<Feed>)
      requires Valid()
      requires photos == []
      modifies this
      ensures Valid()
      ensures response == None ==> channel == old(channel) && photos == old(photos)
      ensures response.Some? ==> channel == response.value.channel && photos == response.value.photos.GetOr([])
      ensures visiblePhotos == photos[..Pagination.Min(|photos|, pageSize)]
      ensures page == if |photos| > 0 then 1 else 0
      ensures reactions == old(reactions)
    {
      if response.Some? {
        channel := response.value.channel;
        photos := response.value.photos.GetOr([]);
        AppendPage();
      }
    }

    /**
     * `#appendPage`, fired by the intersection observer: appends the next
     * slice of photos and counts the page, or does nothing past the end.
     */
    method AppendPage()
      requires Valid()
      modifies this
      ensures Valid()
      ensures Pagination.Cursor(visiblePhotos, page)
        == Pagination.AppendPage(photos, pageSize, Pagination.Cursor(old(visiblePhotos), old(page)))
      ensures old(page) * pageSize < |photos| ==>
        visiblePhotos == old(visiblePhotos) + photos[old(page) * pageSize..Pagination.Min(|photos|, old(page) * pageSize + pageSize)]
        && page == old(page) + 1
      ensures |photos| <= old(page) * pageSize ==> visiblePhotos == old(visiblePhotos) && page == old(page)
      ensures channel == old(channel) && photos == old(photos) && reactions == old(reactions)
    {
      Pagination.AppendPageConsistent(photos, pageSize, Pagination.Cursor(visiblePhotos, page));
      var start := page * pageSize;
      var next := Pagination.Slice(photos, start, start + pageSize);
      if |next| > 0 {
        visiblePhotos := visiblePhotos + next;
        page := page + 1;
      }
    }

    /** `#saveReactions`: write the whole current map to the storage entry. */
    method SaveReactions()
      requires Valid()
      modifies store
      ensures Valid()
      ensures store.saved == Some(reactions)
    {
      store.saved := Some(reactions);
    }

    /**
     * `#setReaction`, on a card's reaction intent: replace the one entry for
     * `id` and persist the whole new map.
     */
    method SetReaction(id: PhotoId, value: Reaction)
      requires Valid()
      modifies this, store
      ensures Valid()
      ensures reactions == WithReaction(old(reactions), id, value)
      ensures store.saved == Some(reactions)
      ensures channel == old(channel) && photos == old(photos) && visiblePhotos == old(visiblePhotos)
      ensures page == old(page)
    {
      reactions := reactions[id := value];
      SaveReactions();
    }
  }

  /**
   * Any number of observer firings after a successful fetch leave exactly the
   * first `min(|photos|, (k + 1) * pageSize)` photos visible.
   */
  method ScrollPages(g: PhotoGallery, feed: Feed, k: nat)
    requires g.Valid() && g.photos == []
    modifies g
    ensures g.Valid()
    ensures g.photos == feed.photos.GetOr([])
    ensures g.visiblePhotos == g.photos[..Pagination.Min(|g.photos|, (k + 1) * g.pageSize)]
  {
    g.FirstUpdated(Some(feed));
    var i := 0;
    while i < k
      invariant 0 <= i <= k
      invariant g.Valid() && g.photos == feed.photos.GetOr([])
      invariant Pagination.Cursor(g.visiblePhotos, g.page)
        == Pagination.AppendPages(g.photos, g.pageSize, Pagination.Start(), i + 1)
    {
      g.AppendPage();
      Pagination.AppendPagesStep(g.photos, g.pageSize, Pagination.Start(), i + 1);
      i := i + 1;
    }
    Pagination.AppendPagesFromStart(g.photos, g.pageSize, k + 1);
  }
}
