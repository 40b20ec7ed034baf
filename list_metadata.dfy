/** `GET /api/list-metadata`: correlates each metadata sidecar file with the
    video it names, behind a five-minute cache slot.

    The per-file `fetch` and `response.json()` are an oracle from a file's key
    to the parsed body (`None` when the response is not ok or the parse
    throws); the parallel fan-out is a sequential pass that keeps listing
    order. */
module ListMetadata {
  import opened Common
  import opened Storage
  import opened ListingCache

  datatype UploadMethod = Link | File

  /** The parsed JSON body of a metadata file. `videoUrl` is the optional
      field a link submission stores. */
  datatype Metadata = Metadata(
    name: string,
    email: string,
    description: string,
    submittedAt: int,
    associatedVideo: string,
    videoTitle: string,
    videoUrl: Option<string>,
    isAdopted: bool)

  /** One element of the response (`MetadataContent`). */
  datatype Entry = Entry(
    name: string,
    email: string,
    description: string,
    submittedAt: int,
    associatedVideo: string,
    videoTitle: string,
    videoUrl: Option<string>,
    fileInfo: FileInfo,
    uploadMethod: UploadMethod,
    isAdopted: bool)

  type Fetch = string -> Option<Metadata>

  predicate IsVideoName(name: string) {
    EndsWith(name, ".mp4") || EndsWith(name, ".webm")
  }

  predicate IsMetadataName(name: string) {
    EndsWith(name, ".metadata.json")
  }

  /** The `videoMap`: video file name to URL, built in listing order, so a
      later file of the same name replaces an earlier one. */
  function VideoMap(files: seq<FileRecord>): (m: map<string, string>)
    ensures forall n :: n in m ==> IsVideoName(n)
    ensures forall n :: n in m <==> exists i :: 0 <= i < |files| && files[i].name == n && IsVideoName(n)
  {
    if files == [] then map[]
    else
      var last := files[|files| - 1];
      var m := VideoMap(files[..|files| - 1]);
      assert forall i :: 0 <= i < |files| - 1 ==> files[..|files| - 1][i] == files[i];
      if IsVideoName(last.name) then m[last.name := FileUrl(last.key)] else m
  }

  /** A name maps to the URL of the last video file of that name. */
  lemma {:induction false} VideoMapLastWins(files: seq<FileRecord>, i: nat)
    requires i < |files|
    requires IsVideoName(files[i].name)
    requires forall j :: i < j < |files| ==> files[j].name != files[i].name
    ensures files[i].name in VideoMap(files)
    ensures VideoMap(files)[files[i].name] == FileUrl(files[i].key)
  {
    var n := |files|;
    if i < n - 1 {
      var prefix := files[..n - 1];
      assert prefix[i] == files[i];
      VideoMapLastWins(prefix, i);
    }
  }

  /** `videoMap.get(name)`. */
  function Lookup(videos: map<string, string>, name: string): Option<string> {
    if name in videos then Some(videos[name]) else None
  }

  /** The object built for one fetched metadata file: the body's fields, its
      `fileInfo`, the `videoUrl` of the video map (replacing any stored one)
      and the upload method read off the stored `videoUrl`. */
  function Join(info: FileInfo, body: Metadata, videos: map<string, string>): (e: Entry)
    ensures e.fileInfo == info && e.associatedVideo == body.associatedVideo
    ensures e.name == body.name && e.email == body.email && e.description == body.description
    ensures e.submittedAt == body.submittedAt && e.videoTitle == body.videoTitle
    ensures e.isAdopted == body.isAdopted
    ensures e.videoUrl.Some? <==> body.associatedVideo in videos
    ensures e.videoUrl.Some? ==> e.videoUrl.value == videos[body.associatedVideo]
    ensures e.uploadMethod == Link <==> Truthy(body.videoUrl)
  {
    Entry(body.name, body.email, body.description, body.submittedAt,
          body.associatedVideo, body.videoTitle,
          Lookup(videos, body.associatedVideo), info,
          if Truthy(body.videoUrl) then Link else File,
          body.isAdopted)
  }

  /** Whether `file` yields an entry: it is a metadata file and its body was
      fetched and parsed. */
  predicate Yields(f: FileRecord, fetch: Fetch) {
    IsMetadataName(f.name) && fetch(f.key).Some?
  }

  /** Filter the metadata files, join each fetched one, drop the failures. */
  function JoinAll(files: seq<FileRecord>, videos: map<string, string>, fetch: Fetch): (r: seq<Entry>)
    ensures |r| <= |files|
  {
    if files == [] then []
    else
      (if Yields(files[0], fetch)
       then [Join(FileInfoOf(files[0]), fetch(files[0].key).value, videos)]
       else [])
      + JoinAll(files[1..], videos, fetch)
  }

  /** The whole correlation: the video map is built from the same listing. */
  function Correlate(files: seq<FileRecord>, fetch: Fetch): (r: seq<Entry>)
    ensures |r| == |Yielding(files, fetch)|
  {
    JoinAllOnePerFile(files, VideoMap(files), fetch);
    JoinAll(files, VideoMap(files), fetch)
  }

  /** The files that yield an entry, in listing order. */
  function Yielding(files: seq<FileRecord>, fetch: Fetch): (r: seq<FileRecord>)
    ensures |r| <= |files|
    ensures forall i :: 0 <= i < |r| ==> Yields(r[i], fetch)
  {
    if files == [] then []
    else (if Yields(files[0], fetch) then [files[0]] else []) + Yielding(files[1..], fetch)
  }

  /** The yielding files are exactly the listed files that yield. */
  lemma {:induction false} YieldingMembers(files: seq<FileRecord>, fetch: Fetch)
    ensures forall f :: f in Yielding(files, fetch) <==> f in files && Yields(f, fetch)
  {
    if files != [] {
      YieldingMembers(files[1..], fetch);
      assert files == [files[0]] + files[1..];
    }
  }

  /** The result is the list of yielding files, each joined: one entry per
      fetched metadata file and in listing order. */
  lemma {:induction false} JoinAllOnePerFile(files: seq<FileRecord>, videos: map<string, string>, fetch: Fetch)
    ensures |JoinAll(files, videos, fetch)| == |Yielding(files, fetch)|
    ensures forall i :: 0 <= i < |Yielding(files, fetch)| ==>
              JoinAll(files, videos, fetch)[i]
              == Join(FileInfoOf(Yielding(files, fetch)[i]), fetch(Yielding(files, fetch)[i].key).value, videos)
  {
    if files != [] {
      var tail := files[1..];
      JoinAllOnePerFile(tail, videos, fetch);
      var j, y := JoinAll(files, videos, fetch), Yielding(files, fetch);
      var jt, yt := JoinAll(tail, videos, fetch), Yielding(tail, fetch);
      if Yields(files[0], fetch) {
        assert j == [Join(FileInfoOf(files[0]), fetch(files[0].key).value, videos)] + jt;
        assert y == [files[0]] + yt;
        forall i | 1 <= i < |y|
          ensures j[i] == Join(FileInfoOf(y[i]), fetch(y[i].key).value, videos)
        {
          assert j[i] == jt[i - 1] && y[i] == yt[i - 1];
        }
      } else {
        assert j == jt && y == yt;
      }
    }
  }

  /** Listing order is kept: the entries of a concatenation are the entries
      of each part, one after the other. */
  lemma {:induction false} JoinAllAppend(a: seq<FileRecord>, b: seq<FileRecord>, videos: map<string, string>, fetch: Fetch)
    ensures JoinAll(a + b, videos, fetch) == JoinAll(a, videos, fetch) + JoinAll(b, videos, fetch)
  {
    if a != [] {
      assert (a + b)[0] == a[0];
      assert (a + b)[1..] == a[1..] + b;
      JoinAllAppend(a[1..], b, videos, fetch);
    } else {
      assert a + b == b;
    }
  }

  /** A failed fetch for one key drops exactly the entries of the files with
      that key, and every other entry is as before. */
  lemma {:induction false} JoinAllDropsFailed(files: seq<FileRecord>, videos: map<string, string>,
                                              fetch: Fetch, failing: Fetch, key: string)
    requires failing(key) == None
    requires forall k :: k != key ==> failing(k) == fetch(k)
    ensures JoinAll(files, videos, failing) == JoinAll(WithoutKey(files, key), videos, fetch)
  {
    if files != [] {
      JoinAllDropsFailed(files[1..], videos, fetch, failing, key);
      var rest := WithoutKey(files[1..], key);
      if files[0].key != key {
        var kept := [files[0]] + rest;
        assert WithoutKey(files, key) == kept;
        assert kept[0] == files[0] && kept[1..] == rest;
        assert failing(files[0].key) == fetch(files[0].key);
      } else {
        assert WithoutKey(files, key) == rest;
      }
    }
  }

  /** Every entry comes from one metadata file of the listing whose body was
      fetched: its `fileInfo` is that file's, with status "Uploaded" and the
      key's URL; its `videoUrl` is the video map's; and its upload method is
      `Link` exactly when the stored body has a non-empty `videoUrl`. */
  lemma {:induction false} JoinAllSound(files: seq<FileRecord>, videos: map<string, string>, fetch: Fetch, e: Entry)
    requires e in JoinAll(files, videos, fetch)
    ensures exists i :: 0 <= i < |files| && IsMetadataName(files[i].name) && fetch(files[i].key).Some?
              && e.fileInfo == FileInfoOf(files[i])
              && e.associatedVideo == fetch(files[i].key).value.associatedVideo
              && (e.uploadMethod == Link <==> Truthy(fetch(files[i].key).value.videoUrl))
    ensures e.fileInfo.status == Uploaded && e.fileInfo.url == FileUrl(e.fileInfo.key)
    ensures IsMetadataName(e.fileInfo.name)
    ensures e.videoUrl == Lookup(videos, e.associatedVideo)
  {
    if Yields(files[0], fetch) && e == Join(FileInfoOf(files[0]), fetch(files[0].key).value, videos) {
      assert files[0].key == e.fileInfo.key;
    } else {
      JoinAllSound(files[1..], videos, fetch, e);
      var i :| 0 <= i < |files[1..]| && IsMetadataName(files[1..][i].name) && fetch(files[1..][i].key).Some?
                && e.fileInfo == FileInfoOf(files[1..][i])
                && e.associatedVideo == fetch(files[1..][i].key).value.associatedVideo
                && (e.uploadMethod == Link <==> Truthy(fetch(files[1..][i].key).value.videoUrl));
      assert files[i + 1] == files[1..][i];
    }
  }

  /** Every fetched metadata file of the listing has its entry. */
  lemma {:induction false} JoinAllComplete(files: seq<FileRecord>, videos: map<string, string>, fetch: Fetch, i: nat)
    requires i < |files|
    requires Yields(files[i], fetch)
    ensures Join(FileInfoOf(files[i]), fetch(files[i].key).value, videos) in JoinAll(files, videos, fetch)
  {
    if i > 0 {
      assert files[1..][i - 1] == files[i];
      JoinAllComplete(files[1..], videos, fetch, i - 1);
    }
  }

  /** The resolved `videoUrl` of an entry is present exactly when the listing
      holds a video file named by its `associatedVideo`, and it is then the URL
      of the last such file. */
  lemma CorrelatedVideoUrl(files: seq<FileRecord>, fetch: Fetch, e: Entry, i: nat)
    requires e in Correlate(files, fetch)
    requires i < |files| && files[i].name == e.associatedVideo
    requires forall j :: i < j < |files| ==> files[j].name != files[i].name
    ensures e.videoUrl.Some? <==> IsVideoName(e.associatedVideo)
    ensures IsVideoName(e.associatedVideo) ==> e.videoUrl == Some(FileUrl(files[i].key))
  {
    JoinAllSound(files, VideoMap(files), fetch, e);
    if IsVideoName(e.associatedVideo) {
      VideoMapLastWins(files, i);
    }
  }

  /** With no file of that name in the listing the resolved `videoUrl` is
      absent, whatever the stored body held: this is what a link submission
      (`associatedVideo` = "link_...") receives. */
  lemma UnmatchedVideoUrl(files: seq<FileRecord>, fetch: Fetch, e: Entry)
    requires e in Correlate(files, fetch)
    requires forall j :: 0 <= j < |files| ==> files[j].name != e.associatedVideo
    ensures e.videoUrl == None
  {
    JoinAllSound(files, VideoMap(files), fetch, e);
  }

  /** The route handler. The slot is consulted first; only on a miss is the
      listing used, and only a successful recomputation refreshes the slot. */
  method Get(slot: Slot<Entry>, now: int, listing: Option<seq<FileRecord>>, fetch: Fetch)
    returns (r: Response<seq<Entry>>)
    modifies slot
    ensures old(slot.Fresh(now)) ==> r == Ok(old(slot.cached).value) && unchanged(slot)
    ensures !old(slot.Fresh(now)) && listing.None? ==>
              r == Fail(500, "Failed to fetch metadata") && unchanged(slot)
    ensures !old(slot.Fresh(now)) && listing.Some? ==>
              r == Ok(Correlate(listing.value, fetch))
              && slot.cached == Some(Correlate(listing.value, fetch))
              && slot.lastFetchTime == now
  {
    if slot.Fresh(now) {
      return Ok(slot.cached.value);
    }
    if listing.None? {
      return Fail(500, "Failed to fetch metadata");
    }
    var contents := Correlate(listing.value, fetch);
    slot.Refresh(now, contents);
    r := Ok(contents);
  }

  /** Two requests in a row, the first of which finds the slot stale and the
      listing available: a second request less than the cache duration later
      gets the same list whatever the store then holds; a later one reflects
      its own listing. */
  method GetTwice(slot: Slot<Entry>, t1: int, t2: int,
                  first: seq<FileRecord>, second: Option<seq<FileRecord>>, fetch: Fetch)
    returns (r1: Response<seq<Entry>>, r2: Response<seq<Entry>>)
    requires !slot.Fresh(t1)
    modifies slot
    ensures r1 == Ok(Correlate(first, fetch))
    ensures t2 - t1 < CacheDuration ==> r2 == r1
    ensures t2 - t1 >= CacheDuration ==>
              r2 == (if second.Some? then Ok(Correlate(second.value, fetch))
                     else Fail(500, "Failed to fetch metadata"))
  {
    r1 := Get(slot, t1, Some(first), fetch);
    r2 := Get(slot, t2, second, fetch);
  }
}
