/**
 * The favourites store of src/utils/favorites.ts: a list of GIF ids kept as
 * JSON in one local-storage slot, read afresh by every operation. The class
 * holds the slot; the pure functions say what each operation writes.
 */
module Favorites {
  import opened Seqs

  /** The local-storage key of the list. */
  const FavoritesKey: string := "gif-web-favorites"

  /** What the slot holds: nothing (or an empty string), text that is not JSON, or a JSON list of ids. */
  datatype Slot = NoEntry | Unparsable | Ids(ids: seq<string>)

  /** `getFavorites`: the stored list; an empty or unreadable slot reads as no favourites. */
  function Favorites(slot: Slot): seq<string> {
    if slot.Ids? then slot.ids else []
  }

  /** `[...favorites, gifId]`, written only when the id is not already there. */
  function Added(favorites: seq<string>, id: string): (r: seq<string>)
    ensures id in r
    ensures id in favorites ==> r == favorites
    ensures id !in favorites ==> r == favorites + [id]
  {
    if id in favorites then favorites else favorites + [id]
  }

  /** `favorites.filter(x => x !== gifId)`. */
  function Removed(favorites: seq<string>, id: string): (r: seq<string>)
    ensures id !in r
    ensures forall x :: x != id ==> (x in r <==> x in favorites)
    ensures multiset(r) == multiset(favorites)[id := 0]
  {
    if favorites == [] then []
    else
      var rest := Removed(favorites[1..], id);
      assert favorites == [favorites[0]] + favorites[1..];
      if favorites[0] == id then rest else [favorites[0]] + rest
  }

  /** The slot after `addToFavorites`: unchanged when the id is present or the write throws. */
  function AfterAdd(slot: Slot, id: string, writeOk: bool): Slot {
    if id !in Favorites(slot) && writeOk then Ids(Added(Favorites(slot), id)) else slot
  }

  /** The slot after `removeFromFavorites`: the filtered list is written even when nothing was removed. */
  function AfterRemove(slot: Slot, id: string, writeOk: bool): Slot {
    if writeOk then Ids(Removed(Favorites(slot), id)) else slot
  }

  /** The slot after `toggleFavorite`. */
  function AfterToggle(slot: Slot, id: string, writeOk: bool): Slot {
    if id in Favorites(slot) then AfterRemove(slot, id, writeOk) else AfterAdd(slot, id, writeOk)
  }

  class FavoritesStore {
    /** The `gif-web-favorites` slot of local storage. */
    var slot: Slot

    constructor(slot: Slot)
      ensures this.slot == slot
    {
      this.slot := slot;
    }

    /** `getFavorites`. */
    function GetFavorites(): seq<string>
      reads this
    {
      Favorites(slot)
    }

    /** `isFavorite`. */
    function IsFavorite(id: string): bool
      reads this
    {
      id in Favorites(slot)
    }

    /** `addToFavorites`; `writeOk` says whether `localStorage.setItem` succeeds. */
    method AddToFavorites(id: string, writeOk: bool)
      modifies this
      ensures slot == AfterAdd(old(slot), id, writeOk)
    {
      var favorites := Favorites(slot);
      if id !in favorites {
        if writeOk {
          slot := Ids(favorites + [id]);
        }
      }
    }

    /** `removeFromFavorites`. */
    method RemoveFromFavorites(id: string, writeOk: bool)
      modifies this
      ensures slot == AfterRemove(old(slot), id, writeOk)
    {
      var favorites := Favorites(slot);
      var updated := Removed(favorites, id);
      if writeOk {
        slot := Ids(updated);
      }
    }

    /** `toggleFavorite`: the result is the opposite of the membership before the call, whether or not the write succeeded. */
    method ToggleFavorite(id: string, writeOk: bool) returns (r: bool)
      modifies this
      ensures r == (id !in Favorites(old(slot)))
      ensures slot == AfterToggle(old(slot), id, writeOk)
      ensures writeOk ==> r == IsFavorite(id)
    {
      var isCurrentlyFavorite := IsFavorite(id);
      if isCurrentlyFavorite {
        RemoveFromFavorites(id, writeOk);
        r := false;
      } else {
        AddToFavorites(id, writeOk);
        r := true;
      }
    }
  }

  /** Once written, the id is a favourite; a failed write changes nothing. */
  lemma AddMakesFavorite(slot: Slot, id: string, writeOk: bool)
    ensures writeOk ==> id in Favorites(AfterAdd(slot, id, writeOk))
    ensures !writeOk ==> AfterAdd(slot, id, writeOk) == slot
    ensures id in Favorites(slot) ==> AfterAdd(slot, id, writeOk) == slot
  {
  }

  /** Adding twice is adding once. */
  lemma AddIdempotent(slot: Slot, id: string, writeOk: bool)
    ensures AfterAdd(AfterAdd(slot, id, writeOk), id, writeOk) == AfterAdd(slot, id, writeOk)
  {
  }

  /** After a written removal the id is gone and every other favourite stays, each as often as before. */
  lemma RemoveDropsOnlyTheId(slot: Slot, id: string)
    ensures var after := Favorites(AfterRemove(slot, id, true));
      && id !in after
      && multiset(after) == multiset(Favorites(slot))[id := 0]
  {
  }

  /** Removing twice is removing once. */
  lemma {:induction false} RemoveIdempotent(favorites: seq<string>, id: string)
    ensures Removed(Removed(favorites, id), id) == Removed(favorites, id)
  {
    RemovedAbsent(Removed(favorites, id), id);
  }

  /** Filtering out an id that is not there changes nothing. */
  lemma {:induction false} RemovedAbsent(favorites: seq<string>, id: string)
    requires id !in favorites
    ensures Removed(favorites, id) == favorites
  {
    if favorites != [] {
      assert id !in favorites[1..];
      RemovedAbsent(favorites[1..], id);
      assert favorites == [favorites[0]] + favorites[1..];
    }
  }

  /** Filtering keeps the order of what remains: it distributes over concatenation. */
  lemma {:induction false} RemovedConcat(a: seq<string>, b: seq<string>, id: string)
    ensures Removed(a + b, id) == Removed(a, id) + Removed(b, id)
  {
    if a != [] {
      var ab := a + b;
      assert ab[0] == a[0] && ab[1..] == a[1..] + b;
      RemovedConcat(a[1..], b, id);
      var tail := Removed(a[1..], id) + Removed(b, id);
      assert Removed(ab, id) == if a[0] == id then tail else [a[0]] + tail;
      assert Removed(a, id) == if a[0] == id then Removed(a[1..], id) else [a[0]] + Removed(a[1..], id);
    } else {
      assert a + b == b;
    }
  }

  /** A list without duplicates keeps that property through additions and removals. */
  lemma AddRemoveKeepDistinct(favorites: seq<string>, id: string)
    requires NoDuplicates(favorites)
    ensures NoDuplicates(Added(favorites, id))
    ensures NoDuplicates(Removed(favorites, id))
  {
    SubMultisetDistinct(Removed(favorites, id), favorites);
  }

  /** Toggling an id that is not a favourite, twice with both writes succeeding, restores the list. */
  lemma ToggleTwiceRestores(slot: Slot, id: string)
    requires id !in Favorites(slot)
    ensures Favorites(AfterToggle(AfterToggle(slot, id, true), id, true)) == Favorites(slot)
  {
    var favorites := Favorites(slot);
    RemovedConcat(favorites, [id], id);
    RemovedAbsent(favorites, id);
    assert Removed([id], id) == [];
  }

  /** Toggling a favourite twice moves it to the end of the list. */
  lemma ToggleTwiceMovesToEnd(slot: Slot, id: string)
    requires id in Favorites(slot)
    ensures Favorites(AfterToggle(AfterToggle(slot, id, true), id, true)) == Removed(Favorites(slot), id) + [id]
  {
  }

  /** Toggling changes the membership of the toggled id only. */
  lemma ToggleKeepsOthers(slot: Slot, id: string, x: string, writeOk: bool)
    requires x != id
    ensures x in Favorites(AfterToggle(slot, id, writeOk)) <==> x in Favorites(slot)
    ensures writeOk ==> (id in Favorites(AfterToggle(slot, id, writeOk)) <==> id !in Favorites(slot))
  {
  }

  /** A removal written over an unreadable or missing slot replaces it with an empty list. */
  lemma RemoveRepairsSlot(slot: Slot, id: string)
    requires !slot.Ids?
    ensures AfterRemove(slot, id, true) == Ids([])
  {
  }
}
