/** `POST /api/submit-metadata`: stores the posted body as a JSON file named
    after the video it describes. */
module SubmitMetadata {
  import opened Common
  import opened Storage
  import opened ListMetadata

  const MetadataSuffix: string := ".metadata.json"

  /** `${associatedVideo}.metadata.json`: always a metadata name for
      list-metadata, never a video name, so a sidecar never enters the video
      map; and the video's name can be read back from its front. */
  function MetadataFileName(associatedVideo: string): (name: string)
    ensures IsMetadataName(name) && !IsVideoName(name)
    ensures StartsWith(name, associatedVideo)
    ensures name[..|name| - |MetadataSuffix|] == associatedVideo
  {
    var name := associatedVideo + MetadataSuffix;
    assert name[|name| - |MetadataSuffix|..] == MetadataSuffix;
    assert name[|name| - 4..] == MetadataSuffix[|MetadataSuffix| - 4..];
    assert name[|name| - 5..] == MetadataSuffix[|MetadataSuffix| - 5..];
    name
  }

  /** What the upload service assigns to an uploaded file. */
  datatype Assigned = Assigned(key: string, id: string, size: nat, uploadedAt: int)

  /** `{ success: true, data }` with the upload's data. */
  datatype Submitted = Submitted(success: bool, data: FileRecord)

  /** The record the store lists for the uploaded sidecar. */
  function StoredFile(body: Metadata, a: Assigned): FileRecord {
    FileRecord(MetadataFileName(body.associatedVideo), a.key, a.id, a.size, a.uploadedAt, Uploaded)
  }

  /** The route handler. `upload` is the service's answer: `None` when the
      result has no `data` (or the call throws). */
  method Post(store: Store, body: Metadata, upload: Option<Assigned>) returns (r: Response<Submitted>)
    requires store.Valid()
    requires upload.Some? ==> !HasKey(store.files, upload.value.key)
    modifies store
    ensures store.Valid()
    ensures upload.None? ==>
              r == Fail(500, "Failed to process metadata submission") && store.files == old(store.files)
    ensures upload.Some? ==>
              r == Ok(Submitted(true, StoredFile(body, upload.value)))
              && store.files == old(store.files) + [StoredFile(body, upload.value)]
  {
    if upload.None? {
      return Fail(500, "Failed to process metadata submission");
    }
    var f := StoredFile(body, upload.value);
    store.Upload(f);
    r := Ok(Submitted(true, f));
  }

  /** Upload a video, then submit its metadata: once the sidecar's body can be
      fetched, list-metadata has an entry for it whose `videoUrl` is the
      video's URL and whose upload method is `File` unless the body stored a
      link. */
  lemma SubmittedIsListed(files: seq<FileRecord>, fetch: Fetch, body: Metadata, a: Assigned, i: nat)
    requires i < |files| && files[i].name == body.associatedVideo
    requires IsVideoName(body.associatedVideo)
    requires forall j :: i < j < |files| ==> files[j].name != files[i].name
    requires fetch(a.key) == Some(body)
    ensures exists e :: e in Correlate(files + [StoredFile(body, a)], fetch)
              && e.fileInfo.key == a.key
              && e.associatedVideo == body.associatedVideo
              && e.videoUrl == Some(FileUrl(files[i].key))
              && (e.uploadMethod == File <==> !Truthy(body.videoUrl))
  {
    var m := StoredFile(body, a);
    var all := files + [m];
    assert all[|files|] == m;
    assert all[i] == files[i];
    JoinAllComplete(all, VideoMap(all), fetch, |files|);
    VideoMapLastWins(all, i);
    var e := Join(FileInfoOf(m), body, VideoMap(all));
    assert e in Correlate(all, fetch);
  }
}
