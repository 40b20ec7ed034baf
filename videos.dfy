/** `GET /api/videos`: every listed file as a display record with placeholder
    uploader fields; no cache. */
module Videos {
  import opened Common
  import opened Storage

  datatype VideoRecord = VideoRecord(
    name: string,
    url: string,
    size: nat,
    kind: string,
    uploaderName: string,
    contactInfo: string,
    description: string,
    uploadedAt: int)

  /** `name || ""` on a string: the empty name is the only falsy one, so on
      a total, typed field the default changes nothing. */
  function OrEmpty(s: string): string {
    if s == "" then "" else s
  }

  /** `size || 0` on a number: zero is the only falsy size, so on a total,
      typed field the default changes nothing. */
  function OrZero(n: nat): nat {
    if n == 0 then 0 else n
  }

  /** The `files.map` of the handler. */
  function ProcessFiles(files: seq<FileRecord>): (r: seq<VideoRecord>)
    ensures |r| == |files|
    ensures forall i :: 0 <= i < |files| ==>
              && r[i].url == FileUrl(files[i].key)
              && r[i].name == files[i].name
              && r[i].size == files[i].size
              && r[i].uploadedAt == files[i].uploadedAt
              && r[i].kind == "video"
              && r[i].uploaderName == "" && r[i].contactInfo == "" && r[i].description == ""
  {
    if files == [] then []
    else
      var f := files[0];
      [VideoRecord(OrEmpty(f.name), FileUrl(f.key), OrZero(f.size), "video", "", "", "", f.uploadedAt)]
      + ProcessFiles(files[1..])
  }

  /** The route handler: a failed listing is the 500 error body. */
  function Get(listing: Option<seq<FileRecord>>): (r: Response<seq<VideoRecord>>)
    ensures r.Ok? <==> listing.Some?
    ensures r.Fail? ==> r == Fail(500, "Failed to fetch video files")
    ensures r.Ok? ==> |r.body| == |listing.value|
    ensures r.Ok? ==> r.body == ProcessFiles(listing.value)
  {
    match listing
    case None => Fail(500, "Failed to fetch video files")
    case Some(files) => Ok(ProcessFiles(files))
  }
}
