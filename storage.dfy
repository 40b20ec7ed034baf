/** The upload service, seen from this application: a sequence of file
    records, the fixed URL template on a file's key, the `FileInfo` record the
    listing routes build from a file, and a store object whose uploads append
    a record and whose deletions remove records by key. */
module Storage {
  import opened Common

  datatype Status = Uploaded | Uploading | Failed | DeletionPending

  /** One object as `listFiles` reports it. */
  datatype FileRecord = FileRecord(
    name: string,
    key: string,
    id: string,
    size: nat,
    uploadedAt: int,
    status: Status)

  /** The `fileInfo` record the listing routes attach to a file. */
  datatype FileInfo = FileInfo(
    name: string,
    url: string,
    uploadedAt: int,
    key: string,
    id: string,
    status: Status)

  const UrlPrefix: string := "https://utfs.io/f/"

  /** `https://utfs.io/f/${key}`: the retrieval URL of a file. */
  function FileUrl(key: string): (url: string)
    ensures StartsWith(url, UrlPrefix)
    ensures url[|UrlPrefix|..] == key
  {
    UrlPrefix + key
  }

  /** Distinct keys give distinct URLs, so the URL identifies the file. */
  lemma FileUrlInjective(k1: string, k2: string)
    ensures FileUrl(k1) == FileUrl(k2) ==> k1 == k2
  {
    if FileUrl(k1) == FileUrl(k2) {
      calc {
        k1;
        FileUrl(k1)[|UrlPrefix|..];
        FileUrl(k2)[|UrlPrefix|..];
        k2;
      }
    }
  }

  /** The record both listing routes build (the status is always "Uploaded",
      whatever the service reports). */
  function FileInfoOf(f: FileRecord): (info: FileInfo)
    ensures info.status == Uploaded
    ensures StartsWith(info.url, UrlPrefix) && info.url[|UrlPrefix|..] == info.key == f.key
    ensures info.name == f.name && info.id == f.id && info.uploadedAt == f.uploadedAt
  {
    FileInfo(f.name, FileUrl(f.key), f.uploadedAt, f.key, f.id, Uploaded)
  }

  predicate DistinctKeys(files: seq<FileRecord>) {
    forall i, j :: 0 <= i < j < |files| ==> files[i].key != files[j].key
  }

  predicate HasKey(files: seq<FileRecord>, key: string) {
    exists i :: 0 <= i < |files| && files[i].key == key
  }

  /** What `deleteFiles(key)` leaves: every file whose key differs, in order. */
  function WithoutKey(files: seq<FileRecord>, key: string): (r: seq<FileRecord>)
    ensures |r| <= |files|
  {
    if files == [] then []
    else (if files[0].key == key then [] else [files[0]]) + WithoutKey(files[1..], key)
  }

  /** Deleting by key keeps exactly the files whose key differs. */
  lemma {:induction false} WithoutKeyMembers(files: seq<FileRecord>, key: string)
    ensures forall f :: f in WithoutKey(files, key) <==> f in files && f.key != key
  {
    if files != [] {
      WithoutKeyMembers(files[1..], key);
      assert files == [files[0]] + files[1..];
    }
  }

  /** With distinct keys, deleting by the key of the file at index `i`
      removes that one file and nothing else. */
  lemma {:induction false} WithoutUniqueKey(files: seq<FileRecord>, i: nat)
    requires DistinctKeys(files)
    requires i < |files|
    ensures WithoutKey(files, files[i].key) == files[..i] + files[i + 1..]
  {
    var key := files[i].key;
    var tail := files[1..];
    if i == 0 {
      forall j | 0 <= j < |tail|
        ensures tail[j].key != key
      {
        assert tail[j] == files[j + 1];
      }
      WithoutAbsentKey(tail, key);
      assert files[..0] + files[1..] == tail;
    } else {
      DistinctKeysTail(files);
      assert tail[i - 1] == files[i];
      WithoutUniqueKey(tail, i - 1);
      assert files[0].key != key;
      assert WithoutKey(files, key) == [files[0]] + WithoutKey(tail, key);
      assert tail[..i - 1] == files[1..i] && tail[i..] == files[i + 1..];
      assert [files[0]] + files[1..i] == files[..i];
    }
  }

  lemma DistinctKeysTail(files: seq<FileRecord>)
    requires files != [] && DistinctKeys(files)
    ensures DistinctKeys(files[1..])
  {
    var tail := files[1..];
    forall a, b | 0 <= a < b < |tail|
      ensures tail[a].key != tail[b].key
    {
      assert tail[a] == files[a + 1] && tail[b] == files[b + 1];
    }
  }

  /** Deleting a key that no file has changes nothing. */
  lemma {:induction false} WithoutAbsentKey(files: seq<FileRecord>, key: string)
    requires forall j :: 0 <= j < |files| ==> files[j].key != key
    ensures WithoutKey(files, key) == files
  {
    if files != [] {
      WithoutAbsentKey(files[1..], key);
    }
  }

  /** The service's file store, as the routes that upload and delete see it. */
  class Store {
    var files: seq<FileRecord>

    /** The service gives every file its own key. */
    ghost predicate Valid()
      reads this
    {
      DistinctKeys(files)
    }

    constructor (initial: seq<FileRecord>)
      requires DistinctKeys(initial)
      ensures Valid() && files == initial
    {
      files := initial;
    }

    /** `uploadFiles`: the new file, with the key the service assigned, is
        listed after all existing ones. */
    method Upload(f: FileRecord)
      requires Valid()
      requires !HasKey(files, f.key)
      modifies this
      ensures Valid()
      ensures files == old(files) + [f]
    {
      files := files + [f];
    }

    /** `deleteFiles(key)`. */
    method DeleteByKey(key: string)
      requires Valid()
      modifies this
      ensures Valid()
      ensures files == WithoutKey(old(files), key)
    {
      WithoutKeyKeepsDistinct(files, key);
      files := WithoutKey(files, key);
    }
  }

  /** Deleting by key keeps distinct keys distinct. */
  lemma {:induction false} WithoutKeyKeepsDistinct(files: seq<FileRecord>, key: string)
    requires DistinctKeys(files)
    ensures DistinctKeys(WithoutKey(files, key))
  {
    if files != [] {
      WithoutKeyKeepsDistinct(files[1..], key);
      WithoutKeyMembers(files[1..], key);
      var rest := WithoutKey(files[1..], key);
      forall f | f in rest
        ensures f.key != files[0].key
      {
        var j :| 0 <= j < |files[1..]| && files[1..][j] == f;
        assert files[j + 1] == f;
      }
    }
  }
}
