/**
 * The full photo gallery component: a grid that grows page by page, a
 * slideshow view with a wrap-around cursor driven by buttons and arrow keys,
 * and the reaction map it persists on every change.
 */
module Gallery {
  import opened Photos
  import Pagination
  import Slideshow
  import opened Reactions

  datatype View = Grid | Slide

  class PhotoGallery {
    var channel: Option<Channel>
    var photos: seq<Photo>
    var visiblePhotos: seq<Photo>
    var page: nat
    const pageSize: nat
    var reactions: ReactionMap
    var view: View
    var index: nat
    /** The storage entry the reactions are loaded from and saved to. */
    const store: ReactionSlot

    /** The component's invariant: consistent pagination and an in-range slideshow cursor. */
    ghost predicate Valid()
      reads this
    {
      && Pagination.Consistent(photos, pageSize, Pagination.Cursor(visiblePhotos, page))
      && Slideshow.InRange(index, |photos|)
    }

    /** Construction: no photos yet, grid view, first page pending, reactions read from storage. */
    constructor (store: ReactionSlot)
      ensures Valid()
      ensures channel == None && photos == [] && visiblePhotos == [] && page == 0
      ensures pageSize == 12 && view == Grid && index == 0
      ensures reactions == LoadReactions(store.saved)
      ensures this.store == store
    {
      channel := None;
      photos := [];
      visiblePhotos := [];
      page := 0;
      pageSize := 12;
      reactions := LoadReactions(store.saved);
      view := Grid;
      index := 0;
      this.store := store;
    }

    /**
     * `firstUpdated`: the one fetch of the photo list. `None` is a failed
     * request or body, which is logged and changes nothing; otherwise the
     * channel and photos are taken (missing photos read as none) and the
     * first page is appended.
     */
    method FirstUpdated(response: Option<Feed>)
      requires Valid()
      requires photos == []
      modifies this
      ensures Valid()
      ensures response == None ==> channel == old(channel) && photos == old(photos)
      ensures response.Some? ==> channel == response.value.channel && photos == response.value.photos.GetOr([])
      ensures visiblePhotos == photos[..Pagination.Min(|photos|, pageSize)]
      ensures page == if |photos| > 0 then 1 else 0
      ensures reactions == old(reactions) && view == old(view) && index == old(index)
    {
      if response.Some? {
        channel := response.value.channel;
        photos := response.value.photos.GetOr([]);
        AppendPage();
      }
    }

    /**
     * `#appendPage`, fired by the intersection observer: appends the next
     * slice of photos and counts the page, or does nothing past the end.
     */
    method AppendPage()
      requires Valid()
      modifies this
      ensures Valid()
      ensures Pagination.Cursor(visiblePhotos, page)
        == Pagination.AppendPage(photos, pageSize, Pagination.Cursor(old(visiblePhotos), old(page)))
      ensures old(page) * pageSize < |photos| ==>
        visiblePhotos == old(visiblePhotos) + photos[old(page) * pageSize..Pagination.Min(|photos|, old(page) * pageSize + pageSize)]
        && page == old(page) + 1
      ensures |photos| <= old(page) * pageSize ==> visiblePhotos == old(visiblePhotos) && page == old(page)
      ensures channel == old(channel) && photos == old(photos) && reactions == old(reactions)
      ensures view == old(view) && index == old(index)
    {
      Pagination.AppendPageConsistent(photos, pageSize, Pagination.Cursor(visiblePhotos, page));
      var start := page * pageSize;
      var next := Pagination.Slice(photos, start, start + pageSize);
      if |next| > 0 {
        visiblePhotos := visiblePhotos + next;
        page := page + 1;
      }
    }

    /** The Grid and Slideshow buttons: switch the view and nothing else. */
    method SetView(v: View)
      requires Valid()
      modifies this
      ensures Valid()
      ensures view == v
      ensures channel == old(channel) && photos == old(photos) && visiblePhotos == old(visiblePhotos)
      ensures page == old(page) && reactions == old(reactions) && index == old(index)
    {
      view := v;
    }

    /** `#next`: show the following photo, wrapping from the last to the first. */
    method Next()
      requires Valid()
      modifies this
      ensures Valid()
      ensures index == Slideshow.Next(old(index), |photos|)
      ensures channel == old(channel) && photos == old(photos) && visiblePhotos == old(visiblePhotos)
      ensures page == old(page) && reactions == old(reactions) && view == old(view)
    {
      if |photos| > 0 {
        index := (index + 1) % |photos|;
      }
      Slideshow.MovesKeepInRange(old(index), |photos|);
    }

    /** `#prev`: show the preceding photo, wrapping from the first to the last. */
    method Prev()
      requires Valid()
      modifies this
      ensures Valid()
      ensures index == Slideshow.Prev(old(index), |photos|)
      ensures channel == old(channel) && photos == old(photos) && visiblePhotos == old(visiblePhotos)
      ensures page == old(page) && reactions == old(reactions) && view == old(view)
    {
      if |photos| > 0 {
        index := (index - 1 + |photos|) % |photos|;
      }
      Slideshow.MovesKeepInRange(old(index), |photos|);
    }

    /**
     * The window keydown listener: ignored outside the slideshow; there,
     * ArrowRight acts as Next, ArrowLeft as Prev and any other key does nothing.
     */
    method KeyDown(key: string)
      requires Valid()
      modifies this
      ensures Valid()
      ensures index ==
        if old(view) != Slide then old(index)
        else if key == "ArrowRight" then Slideshow.Next(old(index), |photos|)
        else if key == "ArrowLeft" then Slideshow.Prev(old(index), |photos|)
        else old(index)
      ensures channel == old(channel) && photos == old(photos) && visiblePhotos == old(visiblePhotos)
      ensures page == old(page) && reactions == old(reactions) && view == old(view)
    {
      if view != Slide {
        return;
      }
      if key == "ArrowRight" {
        Next();
      }
      if key == "ArrowLeft" {
        Prev();
      }
    }

    /** `#saveReactions`: write the whole current map to the storage entry. */
    method SaveReactions()
      requires Valid()
      modifies store
      ensures Valid()
      ensures store.saved == Some(reactions)
    {
      store.saved := Some(reactions);
    }

    /**
     * `#setReaction`, on a card's reaction intent: replace the one entry for
     * `id` and persist the whole new map.
     */
    method SetReaction(id: PhotoId, value: Reaction)
      requires Valid()
      modifies this, store
      ensures Valid()
      ensures reactions == WithReaction(old(reactions), id, value)
      ensures store.saved == Some(reactions)
      ensures channel == old(channel) && photos == old(photos) && visiblePhotos == old(visiblePhotos)
      ensures page == old(page) && view == old(view) && index == old(index)
    {
      reactions := reactions[id := value];
      SaveReactions();
    }

    /**
     * The photo the slideshow shows: `photos[index]` when there are photos,
     * nothing (the loading placeholder) otherwise; the invariant makes the
     * lookup safe.
     */
    function CurrentPhoto(): (r: Option<Photo>)
      requires Valid()
      reads this
      ensures r.Some? <==> |photos| > 0
      ensures r.Some? ==> r.value in photos && r.value == photos[index]
    {
      if |photos| > 0 then Some(photos[index]) else None
    }
  }

  /** In the slideshow, ArrowRight then ArrowLeft shows the same photo again. */
  method ArrowRightThenLeft(g: PhotoGallery)
    requires g.Valid() && g.view == Slide
    modifies g
    ensures g.Valid() && g.index == old(g.index)
  {
    g.KeyDown("ArrowRight");
    g.KeyDown("ArrowLeft");
    Slideshow.PrevNextInverse(old(g.index), |g.photos|);
  }

  /** A reaction set in one gallery is what the next gallery built on the same storage loads. */
  method ReactionSurvivesReload(store: ReactionSlot, id: PhotoId, value: Reaction)
    returns (before: ReactionMap, after: ReactionMap)
    modifies store
    ensures after == before
    ensures before == WithReaction(LoadReactions(old(store.saved)), id, value)
  {
    var g := new PhotoGallery(store);
    g.SetReaction(id, value);
    before := g.reactions;
    var reloaded := new PhotoGallery(store);
    after := reloaded.reactions;
  }
}
