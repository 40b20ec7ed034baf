/** The dashboard's client state: the submission list, its sort direction,
    the favourite set and the two display filters, with the handlers that
    change them. The remote calls a handler makes are described by their
    outcome (`succeeded`), and the request a handler issues is returned. */
module Dashboard {
  import opened Common
  import opened Storage
  import opened ListMetadata
  import opened Favorites
  import opened Seqs
  import StableSort

  datatype SortOrder = Asc | Desc

  /** `sortOrder === 'desc' ? 'asc' : 'desc'`. */
  function Flip(order: SortOrder): (flipped: SortOrder)
    ensures flipped != order
  {
    if order == Desc then Asc else Desc
  }

  /** The comparator `timeA - timeB` (ascending) or `timeB - timeA`
      (descending) as an integer sort key. */
  function Ascending(e: Entry): int { e.submittedAt }
  function Descending(e: Entry): int { -e.submittedAt }

  function SortKey(order: SortOrder): Entry -> int {
    if order == Asc then Ascending else Descending
  }

  /** `[...metadata].sort(...)` in the given direction: ordered by
      `submittedAt`, and a permutation of the list. */
  function SortBySubmitted(s: seq<Entry>, order: SortOrder): (r: seq<Entry>)
    ensures multiset(r) == multiset(s)
    ensures order == Asc ==> forall i, j :: 0 <= i < j < |r| ==> r[i].submittedAt <= r[j].submittedAt
    ensures order == Desc ==> forall i, j :: 0 <= i < j < |r| ==> r[i].submittedAt >= r[j].submittedAt
  {
    StableSort.SortSpec(s, SortKey(order));
    StableSort.Sort(s, SortKey(order))
  }

  /** The entries submitted at time `t`, in list order. */
  function SubmittedAt(s: seq<Entry>, t: int): seq<Entry> {
    StableSort.WithKey(s, Ascending, t)
  }

  lemma {:induction false} WithKeyDescending(s: seq<Entry>, t: int)
    ensures StableSort.WithKey(s, Descending, -t) == SubmittedAt(s, t)
  {
    if s != [] {
      WithKeyDescending(s[1..], t);
    }
  }

  /** The sort is stable in both directions: entries with equal
      `submittedAt` keep their relative order. */
  lemma SortBySubmittedStable(s: seq<Entry>, order: SortOrder, t: int)
    ensures SubmittedAt(SortBySubmitted(s, order), t) == SubmittedAt(s, t)
  {
    var r := SortBySubmitted(s, order);
    if order == Asc {
      StableSort.SortStable(s, Ascending, t);
    } else {
      StableSort.SortStable(s, Descending, -t);
      WithKeyDescending(s, t);
      WithKeyDescending(r, t);
    }
  }

  function IsFavorite(favorites: set<string>): Entry -> bool {
    (e: Entry) => e.fileInfo.id in favorites
  }

  function IsAdopted(e: Entry): bool { e.isAdopted }

  /** `filteredMetadata`, then `filteredByAdoption`. */
  function Displayed(metadata: seq<Entry>, favorites: set<string>,
                     favoritesOnly: bool, adoptedOnly: bool): (r: seq<Entry>)
    ensures |r| <= |metadata|
    ensures !favoritesOnly && !adoptedOnly ==> r == metadata
  {
    var filtered := if favoritesOnly then Filter(metadata, IsFavorite(favorites)) else metadata;
    if adoptedOnly then Filter(filtered, IsAdopted) else filtered
  }

  /** Whether an entry passes both switched-on filters. */
  function Shown(favorites: set<string>, favoritesOnly: bool, adoptedOnly: bool): Entry -> bool {
    (e: Entry) => (favoritesOnly ==> e.fileInfo.id in favorites) && (adoptedOnly ==> e.isAdopted)
  }

  /** The displayed list is `metadata` filtered once by both conditions: an
      order-preserving subsequence that keeps exactly the entries that are
      favourites (when that filter is on) and adopted (when that one is on);
      with both off it is all of `metadata`. */
  lemma DisplayedSpec(metadata: seq<Entry>, favorites: set<string>, favoritesOnly: bool, adoptedOnly: bool)
    ensures Displayed(metadata, favorites, favoritesOnly, adoptedOnly)
            == Filter(metadata, Shown(favorites, favoritesOnly, adoptedOnly))
    ensures IsSubsequence(Displayed(metadata, favorites, favoritesOnly, adoptedOnly), metadata)
    ensures forall e :: e in Displayed(metadata, favorites, favoritesOnly, adoptedOnly)
              <==> e in metadata && (favoritesOnly ==> e.fileInfo.id in favorites) && (adoptedOnly ==> e.isAdopted)
    ensures !favoritesOnly && !adoptedOnly ==> Displayed(metadata, favorites, favoritesOnly, adoptedOnly) == metadata
  {
    var shown := Shown(favorites, favoritesOnly, adoptedOnly);
    if favoritesOnly && adoptedOnly {
      FilterFilter(metadata, IsFavorite(favorites), IsAdopted, shown);
    } else if favoritesOnly {
      FilterFilter(metadata, IsFavorite(favorites), (e: Entry) => true, shown);
      FilterAll(Filter(metadata, IsFavorite(favorites)), (e: Entry) => true);
    } else if adoptedOnly {
      FilterFilter(metadata, (e: Entry) => true, IsAdopted, shown);
      FilterAll(metadata, (e: Entry) => true);
    } else {
      FilterAll(metadata, shown);
    }
    FilterIsSubsequence(metadata, shown);
  }

  function KeyDiffers(key: string): Entry -> bool {
    (e: Entry) => e.fileInfo.key != key
  }

  /** `metadata.filter(item => item.fileInfo.key !== key)`. */
  function WithoutEntryKey(s: seq<Entry>, key: string): (r: seq<Entry>)
    ensures forall e :: e in r <==> e in s && e.fileInfo.key != key
  {
    Filter(s, KeyDiffers(key))
  }

  /** The request a favourite toggle sends: the delete-favorite call, or the
      upload of a marker file of that name. */
  datatype FavoriteRequest =
    | RemoveMarker(userId: string, fileId: string)
    | UploadMarker(name: string)

  class DashboardState {
    const userId: string
    var sortOrder: SortOrder
    var metadata: seq<Entry>
    var showFavoritesOnly: bool
    var showAdoptedOnly: bool
    var favoritedItems: set<string>

    constructor (initialMetadata: seq<Entry>, userId: string)
      ensures this.userId == userId && metadata == initialMetadata
      ensures sortOrder == Desc && !showFavoritesOnly && !showAdoptedOnly
      ensures favoritedItems == {}
    {
      this.userId := userId;
      metadata := initialMetadata;
      sortOrder := Desc;
      showFavoritesOnly := false;
      showAdoptedOnly := false;
      favoritedItems := {};
    }

    /** `fetchFavorites`: the ids list-favorites returned become the set; a
        failed request leaves it as it was. */
    method LoadFavorites(response: Option<seq<string>>)
      modifies this`favoritedItems
      ensures response.Some? ==> favoritedItems == set x | x in response.value
      ensures response.None? ==> favoritedItems == old(favoritedItems)
    {
      if response.Some? {
        favoritedItems := set x | x in response.value;
      }
    }

    /** `handleFavorite`: a favourite is removed only after a successful
        delete-favorite response, and added only when the marker upload
        returns a result; a failure of either kind changes nothing. */
    method HandleFavorite(entry: Entry, succeeded: bool) returns (request: FavoriteRequest)
      modifies this`favoritedItems
      ensures entry.fileInfo.id in old(favoritedItems) ==>
                request == RemoveMarker(userId, entry.fileInfo.id)
                && favoritedItems == if succeeded then old(favoritedItems) - {entry.fileInfo.id}
                                     else old(favoritedItems)
      ensures entry.fileInfo.id !in old(favoritedItems) ==>
                request == UploadMarker(FavoriteName(userId, entry.fileInfo.id))
                && favoritedItems == if succeeded then old(favoritedItems) + {entry.fileInfo.id}
                                     else old(favoritedItems)
    {
      var id := entry.fileInfo.id;
      if id in favoritedItems {
        request := RemoveMarker(userId, id);
        if succeeded {
          favoritedItems := favoritedItems - {id};
        }
      } else {
        request := UploadMarker(FavoriteName(userId, id));
        if succeeded {
          favoritedItems := favoritedItems + {id};
        }
      }
    }

    /** `handleDelete`: after the file deletion, every entry with that key
        leaves the list and the rest keep their order. */
    method HandleDelete(data: Entry)
      modifies this`metadata
      ensures metadata == WithoutEntryKey(old(metadata), data.fileInfo.key)
      ensures IsSubsequence(metadata, old(metadata))
    {
      FilterIsSubsequence(metadata, KeyDiffers(data.fileInfo.key));
      metadata := WithoutEntryKey(metadata, data.fileInfo.key);
    }

    /** `toggleSort`: flip the direction, then sort the list in the new one. */
    method ToggleSort()
      modifies this`sortOrder, this`metadata
      ensures sortOrder == Flip(old(sortOrder))
      ensures metadata == SortBySubmitted(old(metadata), sortOrder)
    {
      var newOrder := Flip(sortOrder);
      sortOrder := newOrder;
      metadata := SortBySubmitted(metadata, newOrder);
    }

    method ToggleFavoritesOnly()
      modifies this`showFavoritesOnly
      ensures showFavoritesOnly == !old(showFavoritesOnly)
    {
      showFavoritesOnly := !showFavoritesOnly;
    }

    method ToggleAdoptedOnly()
      modifies this`showAdoptedOnly
      ensures showAdoptedOnly == !old(showAdoptedOnly)
    {
      showAdoptedOnly := !showAdoptedOnly;
    }
  }

  /** The page starts in descending order, so the first toggle sorts
      ascending. */
  method FirstToggleAscends(initialMetadata: seq<Entry>, userId: string) returns (d: DashboardState)
    ensures d.sortOrder == Asc
    ensures forall i, j :: 0 <= i < j < |d.metadata| ==> d.metadata[i].submittedAt <= d.metadata[j].submittedAt
    ensures multiset(d.metadata) == multiset(initialMetadata)
  {
    d := new DashboardState(initialMetadata, userId);
    d.ToggleSort();
  }
}
