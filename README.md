# Photo gallery state, modelled in Dafny

This project models the state behind the `photo-gallery` custom element. It covers
the full component (`src/photo-gallery.js`) and its grid-only variant
(`public/api/src/photo-gallery.js`). The state has three parts:

- **Incremental pagination.** The intersection observer fires `#appendPage` whenever the
  sentinel under the grid comes near the viewport. Each call appends the next `pageSize`
  photos to `visiblePhotos` and counts a page. Past the end of `photos` it does nothing.
- **Slideshow cursor.** `#next` and `#prev` move `index` by one and wrap around modulo the
  photo count. The arrow keys drive them, but only in the slideshow view.
- **Reactions.** A card's like or dislike replaces one entry of the reaction map. The whole
  map is then written to the `photo-reactions` storage entry.

Modules:

- `Photos` (`photos.dfy`): the photo, author, channel and feed records.
- `Pagination` (`pagination.dfy`): JavaScript slice semantics, the append step as a function
  on a `Cursor` (visible photos and page), the prefix invariant `Consistent`, and the lemmas
  about any number of appends. Both galleries use it.
- `Slideshow` (`slideshow.dfy`): the wrap-around `Next`/`Prev` functions and their lemmas.
- `Reactions` (`reactions.dfy`): the reaction map update, lookup and load. The storage entry
  is the class `ReactionSlot`.
- `Gallery` (`gallery.dfy`): the class `PhotoGallery` of `src/photo-gallery.js`. Its methods
  update its fields in place. Its invariant `Valid()` says two things: pagination is
  consistent, and the slideshow index is in range.
- `ApiGallery` (`api_gallery.dfy`): the class `PhotoGallery` of `public/api/src/photo-gallery.js`.

Every method in both classes takes `Valid()` as a precondition and keeps it. `SaveReactions` does too, though it writes only the storage entry. `pageSize` is a
constant field that the constructor sets to 12. That makes the prefix invariant
`visiblePhotos == photos[..min(|photos|, page * pageSize)]` hold across every sequence of
calls.

## Model

| member | source | states |
|---|---|---|
| `Pagination.Slice` | src/photo-gallery.js:112 | `photos.slice(start, start + pageSize)`: both ends clamp to the length. The result is `photos[start + i]` at each position, and empty when start is at or past the end |
| `Pagination.AppendPage` | src/photo-gallery.js:110-117 | `#appendPage` as a step on (visible photos, page). It changes the state exactly when `pageSize > 0` and `page*pageSize` is below the photo count. A change appends at least one photo behind the old visible list and counts exactly one page |
| `Pagination.AppendPages` | src/photo-gallery.js:124-126 | k successive observer firings, each an `AppendPage`. The page grows by at most k |
| `Pagination.Consistent` | src/photo-gallery.js:110-117 | The prefix invariant: the visible photos are `photos[..min(|photos|, page*pageSize)]`, and no page was counted past the end. Its contract states the consequence: the visible list is a prefix of `photos` of that length |
| `Pagination.StartConsistent` | src/photo-gallery.js:32-34 | The initial cursor (no visible photos, page 0) satisfies the prefix invariant for every positive page size |
| `Pagination.AppendPageConsistent` | src/photo-gallery.js:110-117 | One append keeps the prefix invariant. If `page*pageSize < |photos|`, it appends exactly `photos[page*pageSize .. min(|photos|, page*pageSize+pageSize))` and increments `page`. Otherwise the state is unchanged |
| `Pagination.AppendPageNoOpIffComplete` | src/photo-gallery.js:112-116 | Under the invariant, an append changes nothing if and only if every photo is already visible. Repeated appends at the end are therefore idempotent |
| `Pagination.AppendPagesConsistent` | src/photo-gallery.js:110-117 | After any number k of appends from a consistent state, the invariant still holds. `page` has grown by at most k, and by exactly k unless the end of `photos` was reached |
| `Pagination.AppendPagesFromStart` | src/photo-gallery.js:110-117 | After k appends from the initial state, `visiblePhotos` is the prefix of `photos` of length `min(|photos|, k*pageSize)` |
| `Pagination.AppendPagesExtends` | src/photo-gallery.js:114-115 | Appends never shrink the visible list. The old list stays a prefix of the new one, and `page` never decreases |
| `Pagination.AppendPagesStep` | src/photo-gallery.js:125 | k+1 observer firings equal k firings followed by one more append |
| `Pagination.ThreePhotosTwoPerPage` | src/photo-gallery.js:110-117 | Three photos, page size 2: the first append shows [1,2], the second shows [1,2,3], and the third is a no-op |
| `Slideshow.Next` | src/photo-gallery.js:143 | `(index + 1) % count` for a non-empty list: the result is below the count. With no photos the index is unchanged |
| `Slideshow.Prev` | src/photo-gallery.js:144 | `(index - 1 + count) % count` for a non-empty list: the result is below the count. With no photos the index is unchanged |
| `Slideshow.InRange` | src/photo-gallery.js:37 | The cursor bound: 0 while there are no photos, a valid index otherwise. When it holds, the index names a photo exactly when the list is non-empty |
| `Slideshow.NextStep` | src/photo-gallery.js:143 | Inside the list, Next moves one photo forward. From the last photo it wraps to 0 |
| `Slideshow.PrevStep` | src/photo-gallery.js:144 | Inside the list, Prev moves one photo back. From 0 it wraps to `count - 1` |
| `Slideshow.MovesKeepInRange` | src/photo-gallery.js:143-144 | Both moves keep the index in range: 0 with no photos, below the count otherwise |
| `Slideshow.PrevNextInverse` | src/photo-gallery.js:143-144 | Next then Prev returns the original index, and so does Prev then Next. This holds for every in-range index and every photo count, including zero |
| `Slideshow.ThreePhotosWrap` | src/photo-gallery.js:143-144 | With three photos, Prev from 0 gives 2, and Next from 2 gives 0 |
| `Reactions.ReactionSlot.constructor` | src/photo-gallery.js:131-134 | The `photo-reactions` storage entry that both loading and saving use. It starts with the given content: a map, or nothing when the entry is absent or unreadable |
| `Reactions.WithReaction` | src/photo-gallery.js:135 | `{ ...reactions, [id]: value }`: the new map sends `id` to `value`. Every other key keeps its old value, and no other key is added or dropped |
| `Reactions.LoadReactions` | src/photo-gallery.js:130-133 | `#loadReactions` returns the stored map. When the entry is absent or unreadable it returns the empty map |
| `Reactions.ReactionOf` | src/photo-gallery.js:82 | The card's `reactions[id]`, or null when absent: a value exactly when `id` is in the map, and then it is the mapped reaction |
| `Reactions.ReactionAfterSet` | src/photo-gallery.js:135 | Reading a photo's reaction after setting it gives the value set. Other photos read as before |
| `Reactions.SaveLoadRoundTrip` | src/photo-gallery.js:130-134 | A map written to the storage entry loads back unchanged |
| `Gallery.PhotoGallery.constructor` | src/photo-gallery.js:28-39 | The new gallery has no channel and no photos, no visible photos, page 0, page size 12, grid view and index 0. Its reactions are loaded from storage, and `Valid()` holds |
| `Gallery.PhotoGallery.FirstUpdated` | src/photo-gallery.js:41-52 | On a failed fetch nothing changes. On success, channel and photos are taken (missing photos read as `[]`) and the first page, `photos[..min(|photos|, pageSize)]`, is visible. Reactions, view and index are untouched |
| `Gallery.PhotoGallery.AppendPage` | src/photo-gallery.js:110-117 | The new visible list and page are the append step applied to the old ones: the next slice plus one page, or no change past the end. Other fields are unchanged and the invariant is kept |
| `Gallery.PhotoGallery.SetView` | src/photo-gallery.js:72-73 | The Grid/Slideshow buttons set `view` and nothing else |
| `Gallery.PhotoGallery.Next` | src/photo-gallery.js:143 | `index` becomes `Slideshow.Next` of the old index. All other fields are unchanged, and the index stays in range |
| `Gallery.PhotoGallery.Prev` | src/photo-gallery.js:144 | `index` becomes `Slideshow.Prev` of the old index. All other fields are unchanged, and the index stays in range |
| `Gallery.PhotoGallery.KeyDown` | src/photo-gallery.js:54-58 | Outside slide view a key changes nothing. In slide view, ArrowRight acts as Next, ArrowLeft acts as Prev, and any other key changes nothing. No other field changes |
| `Gallery.PhotoGallery.SaveReactions` | src/photo-gallery.js:134 | The storage entry holds exactly the current reaction map |
| `Gallery.PhotoGallery.SetReaction` | src/photo-gallery.js:135 | `reactions` becomes the old map with only `id` replaced, and the storage entry holds the whole new map. Nothing else changes |
| `Gallery.PhotoGallery.CurrentPhoto` | src/photo-gallery.js:90-94 | The slideshow shows `photos[index]` exactly when the list is non-empty. The invariant makes that lookup in bounds |
| `Gallery.ArrowRightThenLeft` | src/photo-gallery.js:54-58 | In slide view, ArrowRight followed by ArrowLeft leaves `index` where it was |
| `Gallery.ReactionSurvivesReload` | src/photo-gallery.js:130-135 | A reaction set in one gallery is exactly what a new gallery on the same storage loads |
| `ApiGallery.PhotoGallery.constructor` | public/api/src/photo-gallery.js:20-28 | The new gallery has no channel and no photos, no visible photos, page 0 and page size 12. Its reactions are loaded from storage, and `Valid()` holds |
| `ApiGallery.PhotoGallery.FirstUpdated` | public/api/src/photo-gallery.js:30-37 | On a failed fetch nothing is assigned. On success, channel and photos are taken and the first page is visible |
| `ApiGallery.PhotoGallery.AppendPage` | public/api/src/photo-gallery.js:56-63 | The append step as in the full gallery: the next slice plus one page when that slice is non-empty, no change past the end. The invariant is kept |
| `ApiGallery.PhotoGallery.SaveReactions` | public/api/src/photo-gallery.js:79-81 | The storage entry holds exactly the current reaction map |
| `ApiGallery.PhotoGallery.SetReaction` | public/api/src/photo-gallery.js:83-87 | Only key `id` of the map is replaced, and the storage entry holds the whole new map. Pagination state is unchanged |
| `ApiGallery.ScrollPages` | public/api/src/photo-gallery.js:56-70 | After the fetch and k observer firings, exactly the first `min(|photos|, (k+1)*pageSize)` photos are visible |

## Left out

- Rendering is not modelled: `render`, templates, `static styles` and `requestUpdate`. They are presentation only. The slideshow lookup is kept, as `CurrentPhoto`.
- The network request `fetch('/api/photos.json')` and `res.json()` are not modelled. They become the parameter of `FirstUpdated`: `None` stands for a failed request or body. The `console.error` logging is dropped.
- `FirstUpdated` requires `photos == []`. The component fetches once, before any photo is known; a second fetch replacing a non-empty list is not modelled.
- `#observeIfGrid`, `#createSentinel`, `_io` and the `updated` hook are not modelled. These are IntersectionObserver setup and teardown, which are browser callbacks. `updated` calls `#observeIfGrid` whenever `view` or `visiblePhotos` changes. That tears the observer down in slide view and sets it up again after every append, which keeps appends firing while the sentinel stays in view. The observer only calls `AppendPage`.
- AppendPage: callers may invoke it at any time, in either view. In the source, `firstUpdated` appends the first page directly, in whatever view is current (src/photo-gallery.js:47). Every later append comes from the observer, and the observer exists only in grid view. So the model allows appends after the first in slide view, which the source never performs.
- The keydown listener is modelled as `KeyDown`, which may be called at any time. Before the listener is attached, the photo list is empty, so `KeyDown` changes nothing then, just as a missing listener would.
- `#sharePhoto` is not modelled: `navigator.share`, clipboard write and `alert` are platform calls with no state of the gallery's own.
- localStorage and JSON are not modelled directly. The `photo-reactions` entry is the object `ReactionSlot`, which holds the map itself. JSON encoding and decoding, and the catch that turns unparseable content into `{}`, are folded into its `None` case.
- SaveReactions: the storage write is assumed to succeed. `localStorage.setItem` is not inside a `try`, so it can throw, for example when the quota is exceeded or storage is blocked. The entry then keeps the old map.
- SetReaction: after a storage write that throws, `reactions` already holds the new map but the entry still holds the old one. The model promises `store.saved == Some(reactions)` for a successful write only.
- ReactionOf: the modelled reaction object has no prototype. In the source, `reactions[id] || null` is not null for a never-set id that names an inherited property of `Object.prototype`, such as `constructor`, `toString` or `__proto__`. The model reads such ids as absent. Setting and loading are unaffected, because the spread, the computed key and `JSON.parse` all create own properties.
- Reaction values are the two the photo card emits (`like`, `dislike`). Other JSON values that foreign code might put into the storage entry are not modelled.
- `pageSize` is a constant set to 12. The source makes it a public reactive property that outside code could reassign, which would break the prefix invariant.
- The other reactive properties are not modelled as externally writable either: `photos`, `visiblePhotos`, `page`, `index` and `view`, and `channel` and `reactions` too. In both components any script or HTML attribute can set them. Both `Valid()` predicates and the `photos == []` precondition of `FirstUpdated` hold only while the component's own methods are the only writers.
- `src/photo-card.js` and the scaffold stubs `photo-gallery.js` and `photo-card.js` at the repository root are not part of this model. They render and dispatch events only.
- `customElements.define` registration is not modelled. It is a process-global side effect.
