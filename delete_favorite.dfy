/** `DELETE /api/delete-favorite?userId=&fileId=`: finds the first file whose
    name is exactly the marker and deletes it by its key. */
module DeleteFavorite {
  import opened Common
  import opened Storage
  import opened Favorites

  /** `files.find(file => file.name === name)`, as an index. */
  function FindByName(files: seq<FileRecord>, name: string): (r: Option<nat>)
    ensures r.Some? ==> r.value < |files| && files[r.value].name == name
    ensures r.Some? ==> forall j :: 0 <= j < r.value ==> files[j].name != name
    ensures r.None? ==> forall j :: 0 <= j < |files| ==> files[j].name != name
  {
    if files == [] then None
    else if files[0].name == name then Some(0)
    else match FindByName(files[1..], name)
      case None => None
      case Some(i) => Some(i + 1)
  }

  /** The route handler. `serviceUp` is false when the listing or the
      deletion throws, which the handler turns into the 500 error body. */
  method Delete(store: Store, userId: string, fileId: string, serviceUp: bool) returns (r: Response<bool>)
    requires store.Valid()
    modifies store
    ensures store.Valid()
    ensures userId == "" || fileId == "" ==>
              r == Fail(400, "User ID and File ID are required") && store.files == old(store.files)
    ensures userId != "" && fileId != "" && !serviceUp ==>
              r == Fail(500, "Failed to delete favorite") && store.files == old(store.files)
    ensures userId != "" && fileId != "" && serviceUp ==>
              match FindByName(old(store.files), FavoriteName(userId, fileId))
              case None => r == Fail(404, "Favorite not found") && store.files == old(store.files)
              case Some(i) => r == Ok(true) && store.files == old(store.files)[..i] + old(store.files)[i + 1..]
  {
    if userId == "" || fileId == "" {
      return Fail(400, "User ID and File ID are required");
    }
    if !serviceUp {
      return Fail(500, "Failed to delete favorite");
    }
    var found := FindByName(store.files, FavoriteName(userId, fileId));
    if found.None? {
      return Fail(404, "Favorite not found");
    }
    var i := found.value;
    WithoutUniqueKey(store.files, i);
    store.DeleteByKey(store.files[i].key);
    r := Ok(true);
  }

  /** A successful deletion removes one copy of the marker: list-favorites
      then reports the id once less, and a repeated deletion is a 404 exactly
      when there was a single marker. */
  lemma DeleteRemovesOneMarker(files: seq<FileRecord>, userId: string, fileId: string, i: nat)
    requires fileId != ""
    requires FindByName(files, FavoriteName(userId, fileId)) == Some(i)
    ensures NameCount(files[..i] + files[i + 1..], FavoriteName(userId, fileId)) + 1
            == NameCount(files, FavoriteName(userId, fileId))
    ensures multiset(FavoriteIds(userId, files[..i] + files[i + 1..]))[fileId] + 1
            == multiset(FavoriteIds(userId, files))[fileId]
    ensures FindByName(files[..i] + files[i + 1..], FavoriteName(userId, fileId)).None?
            <==> NameCount(files, FavoriteName(userId, fileId)) == 1
  {
    var name := FavoriteName(userId, fileId);
    var rest := files[..i] + files[i + 1..];
    assert files == files[..i] + ([files[i]] + files[i + 1..]);
    NameCountAppend(files[..i], [files[i]] + files[i + 1..], name);
    NameCountAppend([files[i]], files[i + 1..], name);
    NameCountAppend(files[..i], files[i + 1..], name);
    NameCountNone(files[..i], name);
    FavoriteIdsCount(userId, files, fileId);
    FavoriteIdsCount(userId, rest, fileId);
    NameCountFind(rest, name);
  }

  lemma {:induction false} NameCountNone(files: seq<FileRecord>, name: string)
    requires forall j :: 0 <= j < |files| ==> files[j].name != name
    ensures NameCount(files, name) == 0
  {
    if files != [] {
      NameCountNone(files[1..], name);
    }
  }

  /** `find` fails exactly when no file has the name. */
  lemma {:induction false} NameCountFind(files: seq<FileRecord>, name: string)
    ensures FindByName(files, name).None? <==> NameCount(files, name) == 0
  {
    if files != [] {
      NameCountFind(files[1..], name);
    }
  }
}
