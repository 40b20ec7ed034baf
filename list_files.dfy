/** `GET /api/list-files`: every listed file as a `{fileInfo}` record, behind
    its own five-minute cache slot. */
module ListFiles {
  import opened Common
  import opened Storage
  import opened ListingCache

  /** `{ fileInfo: file }`: the only field each element carries. */
  datatype FilesEntry = FilesEntry(fileInfo: FileInfo)

  /** One entry per listed file, metadata or not, in listing order, carrying
      the file's name, key, id and upload time, the key's URL and the status
      "Uploaded". */
  function ListAll(files: seq<FileRecord>): (r: seq<FilesEntry>)
    ensures |r| == |files|
    ensures forall i :: 0 <= i < |files| ==>
              && r[i].fileInfo.url == FileUrl(files[i].key)
              && r[i].fileInfo.status == Uploaded
              && r[i].fileInfo.name == files[i].name
              && r[i].fileInfo.key == files[i].key
              && r[i].fileInfo.id == files[i].id
              && r[i].fileInfo.uploadedAt == files[i].uploadedAt
  {
    if files == [] then []
    else [FilesEntry(FileInfoOf(files[0]))] + ListAll(files[1..])
  }

  /** Listing order is kept across a concatenation of listings. */
  lemma {:induction false} ListAllAppend(a: seq<FileRecord>, b: seq<FileRecord>)
    ensures ListAll(a + b) == ListAll(a) + ListAll(b)
  {
    if a == [] {
      assert a + b == b;
    } else {
      assert (a + b)[1..] == a[1..] + b;
      ListAllAppend(a[1..], b);
    }
  }

  /** The route handler: the same cache discipline as list-metadata. */
  method Get(slot: Slot<FilesEntry>, now: int, listing: Option<seq<FileRecord>>)
    returns (r: Response<seq<FilesEntry>>)
    modifies slot
    ensures old(slot.Fresh(now)) ==> r == Ok(old(slot.cached).value) && unchanged(slot)
    ensures !old(slot.Fresh(now)) && listing.None? ==>
              r == Fail(500, "Failed to fetch metadata") && unchanged(slot)
    ensures !old(slot.Fresh(now)) && listing.Some? ==>
              r == Ok(ListAll(listing.value))
              && slot.cached == Some(ListAll(listing.value))
              && slot.lastFetchTime == now
  {
    if slot.Fresh(now) {
      return Ok(slot.cached.value);
    }
    if listing.None? {
      return Fail(500, "Failed to fetch metadata");
    }
    var contents := ListAll(listing.value);
    slot.Refresh(now, contents);
    r := Ok(contents);
  }
}
