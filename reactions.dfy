/**
 * Per-photo reactions ("like" / "dislike"), kept by the gallery in a map from
 * photo id to reaction and persisted as a whole to one storage slot.
 */
module Reactions {
  import opened Photos

  /** The two values a photo card can send with its reaction intent. */
  datatype Reaction = Like | Dislike

  type ReactionMap = map<PhotoId, Reaction>

  /**
   * `{ ...reactions, [id]: value }`: a new map that sends `id` to `value`
   * and agrees with the old one on every other key.
   */
  function WithReaction(m: ReactionMap, id: PhotoId, value: Reaction): (r: ReactionMap)
    ensures r.Keys == m.Keys + {id}
    ensures r[id] == value
    ensures forall k :: k in m && k != id ==> r[k] == m[k]
  {
    m[id := value]
  }

  /**
   * The browser storage entry `photo-reactions`, with its JSON encoding left
   * out: `None` stands for an entry that is absent or does not parse,
   * `Some(m)` for one that holds the map `m`.
   */
  class ReactionSlot {
    var saved: Option<ReactionMap>

    constructor (initial: Option<ReactionMap>)
      ensures saved == initial
    {
      saved := initial;
    }
  }

  /** `#loadReactions`: the stored map, or the empty map when there is none or it is unreadable. */
  function LoadReactions(saved: Option<ReactionMap>): (r: ReactionMap)
    ensures saved == Some(r) || (saved == None && r == map[])
  {
    saved.GetOr(map[])
  }

  /** What a reaction lookup renders: `reactions[id] || null`. */
  function ReactionOf(m: ReactionMap, id: PhotoId): (r: Option<Reaction>)
    ensures r.Some? <==> id in m
    ensures r.Some? ==> r.value == m[id]
  {
    if id in m then Some(m[id]) else None
  }

  /** Reading a photo's reaction right after setting it gives the value set; other photos are untouched. */
  lemma ReactionAfterSet(m: ReactionMap, id: PhotoId, value: Reaction, other: PhotoId)
    ensures ReactionOf(WithReaction(m, id, value), id) == Some(value)
    ensures other != id ==> ReactionOf(WithReaction(m, id, value), other) == ReactionOf(m, other)
  {
  }

  /** A map that was saved loads back unchanged. */
  lemma SaveLoadRoundTrip(m: ReactionMap)
    ensures LoadReactions(Some(m)) == m
  {
  }
}
