/** Favourite markers: a favourite is a JSON file named
    `favorite_{userId}_{id}.json`. The dashboard builds the name, the
    list-favorites route (`GET /api/list-favorites`) reads ids back from the
    listed names, and delete-favorite removes a marker by name. */
module Favorites {
  import opened Common
  import opened Storage

  const MarkerSuffix: string := ".json"

  function MarkerPrefix(userId: string): string {
    "favorite_" + userId + "_"
  }

  /** `favorite_${userId}_${id}.json`. */
  function FavoriteName(userId: string, id: string): (name: string)
    ensures StartsWith(name, MarkerPrefix(userId)) && EndsWith(name, MarkerSuffix)
    ensures |name| == |MarkerPrefix(userId)| + |id| + |MarkerSuffix|
    ensures name[|MarkerPrefix(userId)|..|name| - |MarkerSuffix|] == id
  {
    var name := MarkerPrefix(userId) + id + MarkerSuffix;
    assert name[..|MarkerPrefix(userId)|] == MarkerPrefix(userId);
    assert name[|name| - |MarkerSuffix|..] == MarkerSuffix;
    assert name[|MarkerPrefix(userId)|..|name| - |MarkerSuffix|] == id;
    name
  }

  /** The filter `startsWith(favorite_{userId}_) && endsWith(.json)` followed
      by the capture of `favorite_{userId}_(.+).json` and the filter on a
      truthy capture: the text between the prefix and the final ".json",
      when there is at least one character of it. */
  function ExtractId(userId: string, name: string): (r: Option<string>)
    ensures r.Some? ==> r.value != "" && FavoriteName(userId, r.value) == name
  {
    var p := MarkerPrefix(userId);
    if StartsWith(name, p) && EndsWith(name, MarkerSuffix) && |name| > |p| + |MarkerSuffix|
    then
      var id := name[|p|..|name| - |MarkerSuffix|];
      assert name == name[..|p|] + id + name[|name| - |MarkerSuffix|..];
      Some(id)
    else None
  }

  /** Round trip: the dashboard's marker name decodes to its id, except that
      a marker with an empty id is dropped. */
  lemma ExtractFavoriteName(userId: string, id: string)
    ensures ExtractId(userId, FavoriteName(userId, id)) == if id == "" then None else Some(id)
  {
    var p := MarkerPrefix(userId);
    var name := FavoriteName(userId, id);
    assert name[..|p|] == p;
    assert name[|name| - |MarkerSuffix|..] == MarkerSuffix;
    if id != "" {
      assert name[|p|..|name| - |MarkerSuffix|] == id;
    }
  }

  /** A listed name decodes to `x` exactly when it is the marker of `x`. */
  lemma ExtractIdIff(userId: string, name: string, x: string)
    ensures ExtractId(userId, name) == Some(x) <==> x != "" && name == FavoriteName(userId, x)
  {
    ExtractFavoriteName(userId, x);
  }

  /** No per-user isolation: the prefix of user `a` also matches every
      marker of user `a_b`, which it reads as an id starting with `b_`. */
  lemma PrefixShared(a: string, b: string, x: string)
    ensures ExtractId(a, FavoriteName(a + "_" + b, x)) == Some(b + "_" + x)
  {
    assert FavoriteName(a + "_" + b, x) == FavoriteName(a, b + "_" + x);
    ExtractFavoriteName(a, b + "_" + x);
  }

  /** The ids the route returns for a listing, in listing order. */
  function FavoriteIds(userId: string, files: seq<FileRecord>): (r: seq<string>)
    ensures forall x :: x in r ==> x != ""
  {
    if files == [] then []
    else
      (match ExtractId(userId, files[0].name)
       case Some(x) => [x]
       case None => [])
      + FavoriteIds(userId, files[1..])
  }

  function NameCount(files: seq<FileRecord>, name: string): nat {
    if files == [] then 0
    else (if files[0].name == name then 1 else 0) + NameCount(files[1..], name)
  }

  /** An id is returned exactly when it is non-empty and its marker is listed. */
  lemma {:induction false} FavoriteIdsMembership(userId: string, files: seq<FileRecord>, x: string)
    ensures x in FavoriteIds(userId, files)
        <==> x != "" && exists i :: 0 <= i < |files| && files[i].name == FavoriteName(userId, x)
  {
    if files != [] {
      FavoriteIdsMembership(userId, files[1..], x);
      ExtractIdIff(userId, files[0].name, x);
      if exists i :: 0 <= i < |files[1..]| && files[1..][i].name == FavoriteName(userId, x) {
        var i :| 0 <= i < |files[1..]| && files[1..][i].name == FavoriteName(userId, x);
        assert files[i + 1] == files[1..][i];
      }
      if exists i :: 0 <= i < |files| && files[i].name == FavoriteName(userId, x) {
        var i :| 0 <= i < |files| && files[i].name == FavoriteName(userId, x);
        if i > 0 { assert files[1..][i - 1] == files[i]; }
      }
    }
  }

  /** Each listed marker gives one id: duplicate markers give duplicate ids. */
  lemma {:induction false} FavoriteIdsCount(userId: string, files: seq<FileRecord>, x: string)
    requires x != ""
    ensures multiset(FavoriteIds(userId, files))[x] == NameCount(files, FavoriteName(userId, x))
  {
    if files != [] {
      FavoriteIdsCount(userId, files[1..], x);
      ExtractIdIff(userId, files[0].name, x);
    }
  }

  /** Listing order is kept across a concatenation of listings. */
  lemma {:induction false} FavoriteIdsAppend(userId: string, a: seq<FileRecord>, b: seq<FileRecord>)
    ensures FavoriteIds(userId, a + b) == FavoriteIds(userId, a) + FavoriteIds(userId, b)
  {
    if a == [] {
      assert a + b == b;
    } else {
      assert (a + b)[1..] == a[1..] + b;
      FavoriteIdsAppend(userId, a[1..], b);
    }
  }

  lemma {:induction false} NameCountAppend(a: seq<FileRecord>, b: seq<FileRecord>, name: string)
    ensures NameCount(a + b, name) == NameCount(a, name) + NameCount(b, name)
  {
    if a == [] {
      assert a + b == b;
    } else {
      assert (a + b)[1..] == a[1..] + b;
      NameCountAppend(a[1..], b, name);
    }
  }

  /** The route handler: an empty or missing `userId` is rejected before the
      listing is used; a failed listing is the 500 error body. */
  function ListFavorites(userId: string, listing: Option<seq<FileRecord>>): (r: Response<seq<string>>)
    ensures userId == "" ==> r == Fail(400, "User ID is required")
    ensures userId != "" && listing.None? ==> r == Fail(500, "Failed to fetch favorites")
    ensures r.Ok? <==> userId != "" && listing.Some?
    ensures r.Ok? ==> r.body == FavoriteIds(userId, listing.value)
  {
    if userId == "" then Fail(400, "User ID is required")
    else match listing
      case None => Fail(500, "Failed to fetch favorites")
      case Some(files) => Ok(FavoriteIds(userId, files))
  }
}
