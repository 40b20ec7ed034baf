# TwitchPetAwards core, modelled in Dafny

TwitchPetAwards is a Next.js site. Viewers submit pet videos, or links to them, with a
metadata form. A dashboard lists the submissions. Signed-in users mark favourites, and
visitors vote. Behind it there are three hosted services: file storage, a database and
an auth provider. Everything the site does with the files it keeps in storage is logic
around a list of file records. That logic is what this project models:

- **Submission correlation and the listing cache** (`list-metadata`, `list-files`,
  `videos`, `submit-metadata` routes).
  - Files are classified by name suffix, and each gets its URL from its key.
  - Every `.metadata.json` body is joined to its video through `associatedVideo`, and
    bodies that fail to fetch are dropped.
  - The result is memoised in a module-level slot for five minutes.
- **Favourite markers as filenames**: `favorite_{userId}_{id}.json` is built by the
  dashboard, decoded by `list-favorites` and removed by `delete-favorite`.
- **Dashboard state**: the favourite set, the two stacked display filters, the
  sort-direction toggle and delete-by-key.
- **Vote aggregation**: group votes by video, count them, and sort by count.
- **The single-choice vote checkbox state machine.**
- **The two upload filename generators.**

The modelling choices:

- Storage is a sequence of `FileRecord`s (`name`, `key`, `id`, `size`, `uploadedAt`,
  `status`), held by the `Storage.Store` class. Upload appends a record. Delete
  removes the records carrying a key.
- A listing call is a parameter of type `Option<seq<FileRecord>>`. `None` stands for a
  call that throws or returns something that is not an array.
- Fetching and parsing one metadata body is an oracle `key -> Option<Metadata>`.
- The clock is a parameter. So is `Math.random().toString(36)`.
- A route's JSON answer is `Response<T>`: `Ok(body)`, or `Fail(status, error)` with the
  exact error text.
- Module-level caches and React state are classes whose fields the methods reassign:
  - `ListingCache.Slot`, for `cachedMetadata`/`lastFetchTime`;
  - `Dashboard.DashboardState`;
  - `VoteForm.Form`.
- The pure parts (filters, maps, joins, filename strings) are functions. The properties
  are lemmas about those functions.
- `Array.prototype.sort` is stable. It is modelled as a stable insertion sort on an
  integer key (`StableSort`), and `Array.prototype.filter` as `Seqs.Filter`.

In `list-metadata` each entry's `videoUrl` is always the video-map lookup of `associatedVideo`, even for a
link submission whose stored body has its own `videoUrl`. A link submission therefore
comes back with `videoUrl` absent, unless a video file happens to be named after its
`associatedVideo`. Its `uploadMethod` is still `link`. `ListMetadata.JoinAllSound` and
`ListMetadata.UnmatchedVideoUrl` state this.

## Model

| member | source | states |
|---|---|---|
| Common.LastIndexOf | src/utils/uploadthing.ts:15 | the result is -1 or an index holding the character, and no later index holds it |
| Common.Substring | src/utils/uploadthing.ts:24 | JavaScript `substring`: never longer than the string, and the plain slice when the bounds are in range |
| Storage.FileUrl | src/app/api/list-metadata/route.ts:57 | the URL is `https://utfs.io/f/` followed by exactly the key |
| Storage.FileUrlInjective | src/app/api/list-metadata/route.ts:57 | different keys give different URLs |
| Storage.FileInfoOf | src/app/api/list-metadata/route.ts:63-70 | the `fileInfo` record (also built at list-files/route.ts:55-62) copies the name, key, id and time, has status Uploaded, and its URL reads back as the key |
| Storage.WithoutKey | src/app/api/delete-favorite/route.ts:35 | deleting by key never grows the list |
| Storage.WithoutKeyMembers | src/app/api/delete-favorite/route.ts:35 | deleting by key keeps exactly the records with another key |
| Storage.WithoutUniqueKey | src/app/api/delete-favorite/route.ts:35 | with distinct keys, deleting the key of record `i` removes record `i` and nothing else |
| Storage.WithoutAbsentKey | src/app/api/delete-favorite/route.ts:35 | deleting a key no record has leaves the list unchanged |
| Storage.WithoutKeyKeepsDistinct | src/app/api/delete-favorite/route.ts:35 | deletion keeps the keys distinct |
| Storage.Store.Upload | src/app/api/submit-metadata/route.ts:19 | an upload with a fresh key appends that record and keeps the keys distinct |
| Storage.Store.DeleteByKey | src/app/api/delete-favorite/route.ts:35 | the store afterwards is `WithoutKey` of the old one, and its keys stay distinct |
| ListingCache.Slot.constructor | src/app/api/list-metadata/route.ts:9-10 | the slot starts empty, with `lastFetchTime` 0 |
| ListingCache.Slot.Fresh | src/app/api/list-metadata/route.ts:43 | the cache is used only when it holds a list fetched less than five minutes ago, and a list stored at `now` is fresh at `now` |
| ListingCache.Slot.Refresh | src/app/api/list-metadata/route.ts:95-97 | the slot holds exactly the new list, stamped with `now`, and is fresh at `now` |
| ListMetadata.VideoMap | src/app/api/list-metadata/route.ts:54-58 | the map's keys are exactly the listed names ending in `.mp4` or `.webm` |
| ListMetadata.VideoMapLastWins | src/app/api/list-metadata/route.ts:54-58 | for duplicate names the last such file wins, mapped to its key's URL |
| ListMetadata.Join | src/app/api/list-metadata/route.ts:79-86 | the entry carries the file's `fileInfo` and copies the body's `name`, `email`, `description`, `submittedAt`, `associatedVideo`, `videoTitle` and `isAdopted`; it has a `videoUrl` exactly when the video map knows `associatedVideo`, and then it is the map's URL; it is `link` exactly when the body's `videoUrl` is truthy |
| ListMetadata.JoinAll | src/app/api/list-metadata/route.ts:61-93 | never more entries than listed files |
| ListMetadata.Correlate | src/app/api/list-metadata/route.ts:54-93 | with the video map built from the same listing, one entry per yielding metadata file |
| ListMetadata.Yielding | src/app/api/list-metadata/route.ts:61-93 | every kept file is a `.metadata.json` file whose body can be fetched, and none is added |
| ListMetadata.YieldingMembers | src/app/api/list-metadata/route.ts:61-93 | keeps exactly the `.metadata.json` files whose body can be fetched |
| ListMetadata.JoinAllOnePerFile | src/app/api/list-metadata/route.ts:61-93 | one entry per surviving metadata file, in listing order, each the join of that file with its body |
| ListMetadata.JoinAllAppend | src/app/api/list-metadata/route.ts:73-93 | the join distributes over concatenated listings |
| ListMetadata.JoinAllDropsFailed | src/app/api/list-metadata/route.ts:73-93 | a body that fails to fetch drops only its own file, and the output equals that of the listing without it |
| ListMetadata.JoinAllSound | src/app/api/list-metadata/route.ts:61-93 | every entry comes from a listed metadata file with a body, has status Uploaded and a URL built from its key, takes `videoUrl` from the video map, and is `link` exactly when the body's `videoUrl` is truthy |
| ListMetadata.JoinAllComplete | src/app/api/list-metadata/route.ts:73-93 | every metadata file whose body fetches contributes its entry |
| ListMetadata.CorrelatedVideoUrl | src/app/api/list-metadata/route.ts:79-84 | an entry whose `associatedVideo` names a listed file has a `videoUrl` exactly when that name is a video name, and it is that file's URL |
| ListMetadata.UnmatchedVideoUrl | src/app/api/list-metadata/route.ts:79-84 | an entry whose `associatedVideo` names no listed file has no `videoUrl` |
| ListMetadata.Get | src/app/api/list-metadata/route.ts:39-107 | a fresh cache answers verbatim and is untouched; a failed listing gives 500 and leaves the slot; otherwise the correlated list is returned and cached with `now` |
| ListMetadata.GetTwice | src/app/api/list-metadata/route.ts:42-45 | a second call within five minutes of a refresh repeats the first answer, and a later one lists again |
| ListFiles.ListAll | src/app/api/list-files/route.ts:54-81 | one entry per listed file, in order, carrying its name, key, id and time, the key's URL and status Uploaded |
| ListFiles.ListAllAppend | src/app/api/list-files/route.ts:54-81 | the mapping distributes over concatenated listings |
| ListFiles.Get | src/app/api/list-files/route.ts:39-95 | the same cache discipline as list-metadata, over `ListAll` |
| Videos.ProcessFiles | src/app/api/videos/route.ts:27-49 | one record per file, in order, with the key's URL, type `video` and empty uploader, contact and description fields |
| Videos.Get | src/app/api/videos/route.ts:18-59 | answers with `ProcessFiles` of the listing exactly when the listing succeeds, and otherwise with the 500 "Failed to fetch video files" body |
| SubmitMetadata.MetadataFileName | src/app/api/submit-metadata/route.ts:14 | the name is `associatedVideo` followed by `.metadata.json`; it passes the metadata filter and is never a video name |
| SubmitMetadata.Post | src/app/api/submit-metadata/route.ts:6-37 | a failed upload gives the 500 body and leaves the store unchanged; a successful one answers `{success: true, data}` and appends exactly that file |
| SubmitMetadata.SubmittedIsListed | src/app/api/submit-metadata/route.ts:14-29 | after a submission for a listed video, and assuming the metadata fetch of the new file returns exactly the submitted body, list-metadata yields an entry for it with that video's URL and the upload method its body implies |
| Favorites.FavoriteName | src/app/dashboard/DashboardContent.tsx:156 | the marker name starts with `favorite_{userId}_`, ends with `.json`, and holds exactly the id between them |
| Favorites.ExtractId | src/app/api/list-favorites/route.ts:22-31 | a decoded id is non-empty, and its marker name is the decoded name |
| Favorites.ExtractFavoriteName | src/app/api/list-favorites/route.ts:28-31 | a marker built for a non-empty id decodes back to that id, and one with an empty id is dropped |
| Favorites.ExtractIdIff | src/app/api/list-favorites/route.ts:22-31 | a name decodes to `x` exactly when it is the marker of a non-empty `x` |
| Favorites.PrefixShared | src/app/api/list-favorites/route.ts:22-25 | for all users `a` and `b`, user `a`'s prefix also matches every marker of user `a_b`, read as an id starting with `b_` |
| Favorites.FavoriteIds | src/app/api/list-favorites/route.ts:22-31 | every returned id is non-empty |
| Favorites.FavoriteIdsMembership | src/app/api/list-favorites/route.ts:22-31 | `x` is returned exactly when `x` is non-empty and its marker is a listed name |
| Favorites.FavoriteIdsCount | src/app/api/list-favorites/route.ts:22-33 | each id is returned as many times as its marker is listed |
| Favorites.FavoriteIdsAppend | src/app/api/list-favorites/route.ts:22-33 | the output follows listing order: the ids of a concatenated listing are the concatenated ids |
| Favorites.ListFavorites | src/app/api/list-favorites/route.ts:6-41 | an empty user id gives 400 "User ID is required", a failed listing gives 500, and otherwise the body is `FavoriteIds` of the listing |
| DeleteFavorite.FindByName | src/app/api/delete-favorite/route.ts:23-25 | the result is the first index holding that exact name, or none when no record has it |
| DeleteFavorite.Delete | src/app/api/delete-favorite/route.ts:6-45 | 400 without both ids, 500 when the service fails, 404 when no marker has the exact name, each leaving the store unchanged; otherwise only the first such marker is removed and the answer is success |
| DeleteFavorite.DeleteRemovesOneMarker | src/app/api/delete-favorite/route.ts:23-35 | a deletion removes one marker of that name, so the id is listed once fewer, and it stops being found exactly when it was the only one |
| DeleteFavorite.NameCountFind | src/app/api/delete-favorite/route.ts:23-32 | the 404 case arises exactly when no listed file has the marker name |
| StableSort.Sort | src/app/dashboard/DashboardContent.tsx:224-228 | sorting keeps the length |
| StableSort.SortSpec | src/app/dashboard/DashboardContent.tsx:224-228 | the sorted list is ordered by the key and is a permutation of the input |
| StableSort.SortStable | src/app/dashboard/DashboardContent.tsx:224-228 | within each key class the input order is kept |
| StableSort.SortKeepsTies | src/app/dashboard/VoteAggregatesTable.tsx:52-53 | a ranking that increases along ties in the input still does so after sorting |
| StableSort.SortDistinctBy | src/app/dashboard/VoteAggregatesTable.tsx:52-53 | a projection that separates the input's elements also separates the sorted list's |
| Seqs.Filter | src/app/dashboard/DashboardContent.tsx:233-239 | the result keeps exactly the elements that satisfy the predicate, and is no longer than the input |
| Seqs.FilterIsSubsequence | src/app/dashboard/DashboardContent.tsx:233-239 | a filter keeps the order of what it keeps |
| Seqs.FilterFilter | src/app/dashboard/DashboardContent.tsx:233-239 | two stacked filters equal one filter by the conjunction |
| Seqs.FilterAll | src/app/dashboard/DashboardContent.tsx:233-239 | a filter that keeps everything is the identity |
| Dashboard.SortBySubmitted | src/app/dashboard/DashboardContent.tsx:224-230 | the sorted list is a permutation of the list, ordered by `submittedAt` ascending or descending as asked |
| Dashboard.SortBySubmittedStable | src/app/dashboard/DashboardContent.tsx:224-230 | entries with equal `submittedAt` keep their relative order in both directions |
| Dashboard.Flip | src/app/dashboard/DashboardContent.tsx:221 | the new direction differs from the old one |
| Dashboard.Displayed | src/app/dashboard/DashboardContent.tsx:233-239 | the displayed list is never longer than `metadata`, and is all of it when both filters are off |
| Dashboard.DisplayedSpec | src/app/dashboard/DashboardContent.tsx:233-239 | the displayed list is one filter by both switched-on conditions, an order-preserving subsequence holding exactly the qualifying entries, and all of `metadata` when both filters are off |
| Dashboard.WithoutEntryKey | src/app/dashboard/DashboardContent.tsx:196 | keeps exactly the entries whose file key differs from the deleted one |
| Dashboard.DashboardState.constructor | src/app/dashboard/DashboardContent.tsx:45-51 | the page starts descending, with both filters off and no favourites |
| Dashboard.DashboardState.LoadFavorites | src/app/dashboard/DashboardContent.tsx:99-121 | a successful fetch replaces the set by the returned ids, and a failed one leaves it |
| Dashboard.DashboardState.HandleFavorite | src/app/dashboard/DashboardContent.tsx:124-192 | a favourite is removed only after a successful delete request, and added with its `favorite_{userId}_{id}.json` marker only when the upload returns a result; a failure changes nothing |
| Dashboard.DashboardState.HandleDelete | src/app/dashboard/DashboardContent.tsx:194-198 | the list loses exactly the entries with the deleted key and keeps the order of the rest |
| Dashboard.DashboardState.ToggleSort | src/app/dashboard/DashboardContent.tsx:220-231 | the direction flips and the list is sorted in the new direction |
| Dashboard.DashboardState.ToggleFavoritesOnly | src/app/dashboard/DashboardContent.tsx:277 | the favourites filter flips |
| Dashboard.DashboardState.ToggleAdoptedOnly | src/app/dashboard/DashboardContent.tsx:300 | the adopted filter flips |
| Dashboard.FirstToggleAscends | src/app/dashboard/DashboardContent.tsx:45 | the first toggle after load sorts ascending, as a permutation of the initial list |
| VoteAggregates.FirstIndex | src/app/dashboard/VoteAggregatesTable.tsx:42-48 | the index of the first counted vote for an id, or the length when there is none |
| VoteAggregates.Step | src/app/dashboard/VoteAggregatesTable.tsx:37-49 | one iteration keeps the map's invariant: keys listed once in insertion order, records under their own id, no zero count |
| VoteAggregates.Fold | src/app/dashboard/VoteAggregatesTable.tsx:36-50 | the filled map satisfies that invariant |
| VoteAggregates.Aggregates | src/app/dashboard/VoteAggregatesTable.tsx:33-54 | one row per key of the filled map, with counts in non-increasing order |
| VoteAggregates.ComputeAggregates | src/app/dashboard/VoteAggregatesTable.tsx:33-54 | the loop over the votes computes `Aggregates`, and its rows are in non-increasing count order |
| VoteAggregates.FoldKeys | src/app/dashboard/VoteAggregatesTable.tsx:37-49 | the map has a record exactly for the ids with a vote that has a video |
| VoteAggregates.FoldCounts | src/app/dashboard/VoteAggregatesTable.tsx:40-48 | each record's count is the number of counted votes for its id |
| VoteAggregates.CountVotesPositive | src/app/dashboard/VoteAggregatesTable.tsx:40-48 | an id has a positive count exactly when it has a counted vote |
| VoteAggregates.FoldFirst | src/app/dashboard/VoteAggregatesTable.tsx:42-48 | each record's name and streamer come from the first counted vote for its id |
| VoteAggregates.FoldOrder | src/app/dashboard/VoteAggregatesTable.tsx:39-49 | the map's keys are in order of first counted vote |
| VoteAggregates.FoldTotal | src/app/dashboard/VoteAggregatesTable.tsx:36-50 | the counts add up to the number of votes that have a video |
| VoteAggregates.TotalSort | src/app/dashboard/VoteAggregatesTable.tsx:52-53 | sorting does not change the sum of the counts |
| VoteAggregates.AggregatesAreRecords | src/app/dashboard/VoteAggregatesTable.tsx:52 | the table's rows are exactly the map's records |
| VoteAggregates.AggregatesRows | src/app/dashboard/VoteAggregatesTable.tsx:33-54 | one row per video id with a counted vote and no other; each count is that id's number of counted votes, at least one; name and streamer come from its first vote |
| VoteAggregates.AggregatesOrder | src/app/dashboard/VoteAggregatesTable.tsx:52-53 | rows are sorted by count, largest first; rows of equal count are in order of first vote; the counts sum to the number of votes that have a video |
| VoteForm.SlotOf | src/app/voting/voteForm.tsx:18-26 | the box a selection checks is one of the three |
| VoteForm.CheckedFor | src/app/voting/voteForm.tsx:15-31 | box `i` is checked exactly when there is a selection and `i` is its slot |
| VoteForm.RowsAgree | src/app/voting/voteForm.tsx:60-94 | for a selection taken from the rows, row `i`'s box is checked exactly when row `i` is selected |
| VoteForm.ForeignIdChecksThird | src/app/voting/voteForm.tsx:24-26 | an id outside 2 and 3 checks the third box, even when it is not row 3's id 4 |
| VoteForm.Form.constructor | src/app/voting/voteForm.tsx:7-8 | nothing is selected and no box is checked |
| VoteForm.Form.HandleVote | src/app/voting/voteForm.tsx:10-32 | checking while another entry is selected changes nothing; checking otherwise selects the entry and checks only its slot; unchecking clears everything; the boxes always show the selection |
| VoteForm.VoteOnRows | src/app/voting/voteForm.tsx:88-95 | handlers fired from the rows keep each box checked exactly when its row is selected, so at most one is |
| UploadNaming.Extension | src/utils/uploadthing.ts:15-16 | the extension is empty, or starts with its only `.` |
| UploadNaming.BaseName | src/utils/uploadthing.ts:19 | the base name is a prefix of the name |
| UploadNaming.SplitName | src/utils/uploadthing.ts:15-19 | base and extension concatenate to the name; the extension is empty exactly when the last `.` is at index 0 or absent |
| UploadNaming.LeadingDotOnly | src/utils/uploadthing.ts:15-19 | a name whose only `.` is its first character is all base, with no extension |
| UploadNaming.Sanitize | src/utils/uploadthing.ts:22-23 | same length, each character kept when in `[A-Za-z0-9_-]` and replaced by `_` otherwise, so only safe characters remain |
| UploadNaming.SanitizeIdempotent | src/utils/uploadthing.ts:23 | cleaning a cleaned name changes nothing |
| UploadNaming.StripTimestamp | src/utils/uploadthing.ts:27 | the result is exactly the input with every `-`, `:` and `.` removed and every other character kept in order, repeats included; so it has no separators and keeps every other character |
| UploadNaming.CleanedName | src/utils/uploadthing.ts:22-24 | the cleaned base is at most 30 characters, all of them in `[A-Za-z0-9_-]` |
| UploadNaming.CleanedNameSpec | src/utils/uploadthing.ts:22-24 | the cleaned base is as long as the base, but at most 30 characters, and is the sanitised prefix of the base |
| UploadNaming.GenerateUniqueFilename | src/utils/uploadthing.ts:13-32 | the generated name ends with the original extension |
| UploadNaming.GeneratedShape | src/utils/uploadthing.ts:26-31 | the name is cleaned base, `_`, separator-free timestamp, `_`, at most six random characters and the extension, and is bounded in length |
| VideoUploaderNaming.AfterLastDot | src/components/VideoUploader.tsx:11 | the text after the last `.` holds no `.`, ends the name, and is the whole name when there is no `.` |
| VideoUploaderNaming.NatToDecimal | src/components/VideoUploader.tsx:9 | the clock renders as a non-empty string of decimal digits |
| VideoUploaderNaming.DecimalRoundTrip | src/components/VideoUploader.tsx:9 | the rendered digits read back as the clock value |
| VideoUploaderNaming.GenerateUniqueFilename | src/components/VideoUploader.tsx:8-13 | the generated name ends with `.` and the original's text after its last `.` |
| VideoUploaderNaming.GeneratedKeepsExtension | src/components/VideoUploader.tsx:11-12 | the generated name's text after its last `.` equals the original's |
| VideoUploaderNaming.GeneratedClockPrefix | src/components/VideoUploader.tsx:9-12 | the generated name starts with the clock value in decimal, followed by `-` |
| VideoUploaderNaming.TrailingDot | src/components/VideoUploader.tsx:11-12 | a name ending in `.` has an empty extension, so the result ends in `.` |

## Left out

- Remote services: the storage, database and auth calls are not modelled. Listing is a
  parameter, upload and delete are sequence updates on `Storage.Store`, and the
  per-file metadata fetch and parse is an oracle. The vote form's `handleClick` is a
  database insert and is left out with them.
- Storage.Store.Upload: requires a key that is not already in the store. The service
  assigns fresh keys, and the model takes that on trust.
- Concurrency: the `Promise.all` fan-out in list-metadata is a sequential map that keeps
  listing order. Concurrent requests racing on the module-level cache are not modelled.
- JSON and dates: `JSON.stringify`/`JSON.parse`, `toISOString` and `getTime` are not
  modelled. Timestamps are integers, and invalid dates (NaN) do not arise.
  `UploadNaming.GenerateUniqueFilename` takes the ISO string as a parameter.
- Missing fields: a listed file always has a name, key and size. The `file && file.name`
  guards in list-metadata, and the `|| ""`/`|| 0` defaults in videos, only ever see
  present values.
- Text: strings are sequences of Unicode characters. JavaScript's UTF-16 code units, and
  characters `.` does not match in a regular expression (line terminators), are not
  modelled.
- Favorites.ExtractId: assumes the user id holds no regular-expression metacharacters.
  The route interpolates it raw into a pattern.
- Rendering, notifications, loading flags, timers and the delete confirmation dialog of
  the dashboard are presentation and are left out.
- `formatFileSize` (floating point) is left out.
- The `delete-file` wrappers, the upload router configuration and the page and layout
  components are left out: they do not decide anything.
