# tencent-cos-action sync core, modelled in Dafny

The action mirrors a local directory into a Tencent COS bucket under a remote prefix. It runs these steps in order:

1. It walks the local tree depth first. It fingerprints every non-directory with md5 under its path relative to `local_path`.
2. It lists the bucket page by page under `remote_path`. It records every object's ETag under its key relative to the prefix.
3. It compares the two indexes.
4. It uploads every local file.
5. When `clean` is set, it deletes the remote keys that have no local counterpart.
6. It reports `uploaded N files` and, when something was deleted, `, cleaned M files`.

This project models those steps as imperative Dafny and proves what each step promises.

- `Paths` (`paths.dfy`) models the prefix strip. It cuts `root.length` characters, then loops dropping leading `/`. It also models `Path.join`.
- `Indexes` (`indexes.dfy`) holds three things:
  - `Record`, the index that successive `files[p] = hash` writes produce. A later write wins.
  - `IsEnumeration`, the iteration order of a key set: every key exactly once.
  - `Enumerate`, which picks such an order.
- `LocalFiles` (`local_files.dfy`) has the recursive `walk` over an abstract tree. The walk hands each leaf to a `Collector` object whose `files` field it fills in place. `CollectLocalFiles` is proved equal to the specification `LocalIndex`.
- `RemoteFiles` (`remote_files.dfy`) has the `do … while (IsTruncated === true)` listing over a sequence of replies. A reply that is `None` stands for a failed `getBucket` call. `CollectRemoteFiles` is proved equal to `RemoteListing`, and it also reports the marker each call sent.
- `Reconcile` (`reconcile.dfy`) holds three things:
  - the diff loop, modelled as written;
  - `findDeletedFiles`;
  - the filter that the code comment describes but the code does not implement.
- `Transfer` (`transfer.dfy`) has a `Bucket` class whose objects map and request log the upload and delete loops update. Any request may be rejected, and the first rejection stops the loop.
- `Orchestrator` (`orchestrator.dfy`) has `process`: the order of the steps, the counts and the closing message.

**The diff throws on any match.** The comment above the diff loop says files with the same md5 are skipped. The code disagrees. On the first remote key whose fingerprint equals the local one, it calls `localFiles.delete(file)`. `localFiles` is a plain object, so that call is a `TypeError` and the run fails before any upload. When no fingerprint matches, the run uploads every local key, because `localFileKeys` was taken before the loop and the loop never changes it.

The model follows the code. `DiffAsWritten` fails with `NotAFunction("localFiles.delete")` exactly when some key matches, and `Process` uploads all local keys. The skip-unchanged filter is written separately as `IntendedUploadSet`. `AsWrittenAgreesWithIntentIffNoMatch` relates it to the code: the two agree exactly when no fingerprint matches.

External effects are parameters:
- the local tree is an `FsNode` value;
- md5 and the bytes of a file are functions `md5` and `read`;
- the listing replies are a sequence of pages;
- whether the bucket accepts a put or delete is a predicate `rejects`;
- iteration orders are whatever `Enumerate` picks.

## Model

| member | source | states |
|---|---|---|
| Paths.StripRoot | index.js:84-87 | the strip loop returns the path with `root.length` characters cut off and every leading '/' dropped; the result is a suffix of the path and does not start with '/' |
| Paths.DropSlashesShape | index.js:85-87 | dropping leading slashes leaves a suffix with no leading '/' |
| Paths.RelativeShape | index.js:124-127 | the key recorded for any path or object key is a suffix of it and never starts with '/' |
| Paths.DropSlashesIdempotent | index.js:85-87 | running the slash-dropping loop on its own result changes nothing |
| Paths.RelativeUnderRoot | index.js:84-87 | when the path really is `root ++ s`, the key is `s` with its leading '/' removed |
| Paths.KeyRoundTrip | index.js:124-127 | stripping the remote prefix from `join(prefix, p)` (line 25) gives back `p` when `p` has no leading '/' |
| Paths.JoinInjective | index.js:25 | two relative paths joined to the same prefix give the same key only if they are equal |
| Paths.CutIgnoresPrefix | index.js:84 | the cut is by length only: a root spelled `./dist` cuts six characters off `dist/a.txt` and leaves `.txt` |
| Indexes.RecordConcat | index.js:90 | writing the entries of `a` and then of `b` into an index is writing the entries of `a + b` |
| Indexes.RecordKeys | index.js:90 | the keys of an index after the writes are the keys it had plus the key of every item written |
| Indexes.RecordLastWins | index.js:129 | the value under a key is the value of the last item written to that key |
| Indexes.Enumerate | index.js:174 | returns an iteration order of the set: each element exactly once and nothing else |
| Indexes.EnumerationSize | index.js:100-102 | a loop over an iteration order of a set runs exactly as many times as the set has elements |
| LocalFiles.Collector.constructor | index.js:80-81 | the callback's `files` object starts empty, with the root and the md5 function fixed |
| LocalFiles.Collector.Visit | index.js:83-91 | the callback writes the md5 of the leaf under its stripped path and changes nothing else |
| LocalFiles.Walk | index.js:7-17 | if the walk over the tree succeeds, `files` becomes the old index with every leaf written in walk order; otherwise the walk fails with the error of the first unreadable entry |
| LocalFiles.WalkEntries | index.js:13-16 | walks the directory's entries one after another; the first error ends the loop and is the walk's error |
| LocalFiles.WalkEntry | index.js:15 | walks one entry under `join(path, name)` and records its leaves after those of the earlier entries |
| LocalFiles.ScanChildrenErrorStops | index.js:14-16 | once an entry fails, the loop over the directory fails with that error whatever the later entries are |
| LocalFiles.CollectLocalFiles | index.js:79-94 | resolves to the index of every leaf under its stripped path (`LocalIndex`), or to the first I/O error |
| LocalFiles.RootFileIndex | index.js:9-10 | a root that is not a directory gives exactly one entry, under the empty key, holding the root's md5 |
| LocalFiles.ScanVisitsEachFile | index.js:7-17 | when the walk succeeds it hands the callback exactly as many paths as the tree has leaves |
| LocalFiles.ScanChildrenVisitsEachFile | index.js:13-16 | the same count, for the entries of a directory |
| LocalFiles.ScanFailsIffUnreadable | index.js:8-16 | the walk fails if and only if the tree holds an entry that cannot be read |
| LocalFiles.ScanChildrenFailsIffUnreadable | index.js:13-16 | the same, for the entries of a directory |
| LocalFiles.LocalIndexKeys | index.js:83-91 | the keys of the local index are exactly the stripped leaf paths, and none starts with '/' |
| LocalFiles.LocalIndexLastWins | index.js:90 | on a stripped-key collision, the key holds the md5 of the last leaf stripped to it |
| RemoteFiles.StopIndex | index.js:132 | the loop stops at the first reply that is not a page with `IsTruncated` exactly `true`; every reply before it continues |
| RemoteFiles.MarkersAt | index.js:116-131 | one marker per call: the first call sends none, and call k sends the `NextMarker` of reply k-1 |
| RemoteFiles.ListedIsRecord | index.js:118-130 | recording the pages one after another is recording all their objects at once, in order |
| RemoteFiles.RecordPage | index.js:120-130 | the inner loop writes each object's ETag under its stripped key, in page order |
| RemoteFiles.ListPage | index.js:119-130 | one turn of the outer loop adds the objects of page i to the index of the pages before it |
| RemoteFiles.CollectRemoteFiles | index.js:113-135 | resolves to the page-by-page index of every consumed page (`RemoteListing`) or to the failing call's error; at least one call is made, calls stop at the first non-truncated reply, and call k sends marker k |
| RemoteFiles.TextFlagEndsListing | index.js:132 | a first page whose flag is the text "true" rather than the boolean ends the listing after one call |
| RemoteFiles.ListingIsRecord | index.js:113-135 | a successful listing is the index of all consumed objects, recorded in order |
| RemoteFiles.RemoteIndexKeys | index.js:120-129 | the keys of the remote index are exactly the stripped keys of all consumed objects, and none starts with '/' |
| RemoteFiles.RecordedRemoteKeys | index.js:124-129 | the same, for any sequence of objects |
| RemoteFiles.RemoteIndexLastWins | index.js:129 | on a duplicate stripped key, the key holds the ETag of the last object stripped to it |
| RemoteFiles.RecordedRemoteLastWins | index.js:129 | the same, for any sequence of objects |
| RemoteFiles.EntriesOfPages | index.js:118-132 | an object is collected if and only if it is on one of the pages received, so nothing is omitted and nothing is invented |
| RemoteFiles.EntryOfPage | index.js:120 | every object of a received page is collected |
| RemoteFiles.PageOfEntry | index.js:120 | every collected object comes from a received page |
| Reconcile.DiffAsWritten | index.js:174-178 | the diff loop fails with `localFiles.delete is not a function` exactly when some remote key has the local fingerprint, and passes otherwise |
| Reconcile.FindDeletedFiles | index.js:137-145 | the result is exactly the remote keys minus the local keys, so it is a subset of the remote keys and disjoint from the local keys |
| Reconcile.AsWrittenAgreesWithIntentIffNoMatch | index.js:173-181 | uploading all local keys equals the skip-unchanged filter of the comment if and only if no fingerprint matches, and the filter is always a subset of the local keys |
| Reconcile.UploadsAndDeletesDisjoint | index.js:181-188 | no path is both uploaded and deleted, under either upload set; deletes are remote keys |
| Reconcile.SyncedRunIsIdle | index.js:173-188 | against an already synced bucket the intended filter uploads nothing and nothing is deleted; as written the run throws unless the index is empty |
| Reconcile.TwoFilesOneUnchanged | index.js:173-189 | for local {a.txt: H1, b.txt: H2} and remote {a.txt: H1, c.txt: H3}, the intended filter is {b.txt}, clean deletes {c.txt} and without clean nothing is deleted, and as written the match on a.txt throws |
| Reconcile.EmptyTreeCleansEverything | index.js:182-189 | with no local files nothing matches and nothing is uploaded, and clean deletes every remote key |
| Transfer.FirstRejected | index.js:100-101 | the position of the first rejected request: every request before it is accepted |
| Transfer.Bucket.Send | index.js:20-36 | one SDK call: the request is logged, and it either fails with its error and leaves the objects alone, or it applies its effect |
| Transfer.Bucket.UploadFiles | index.js:96-111 | puts each file's bytes under `join(remotePath, file)` in order; exactly the requests up to and including the first rejected one are issued; the objects reflect the accepted ones; the count is the number completed, and it equals the number of files on success |
| Transfer.Bucket.CleanDeleteFiles | index.js:147-162 | the same for `deleteObject` of `join(remotePath, file)` |
| Transfer.StopsAt | index.js:100-101 | a loop that reaches a rejected request with none rejected before it stops there and fails with that request's error |
| Transfer.RunsThrough | index.js:100-110 | a loop with no rejection issues every request and passes |
| Transfer.NothingIssuedAfterRejection | index.js:100-102 | if request i is rejected, no request after i is issued and the loop fails |
| Transfer.ApplyAllUntouched | index.js:151-152 | the bucket changes only at the keys of the requests applied |
| Transfer.UploadsStored | index.js:25-27 | after the uploads of distinct files, each file's key holds that file's bytes |
| Transfer.DeletesRemoved | index.js:46 | after the deletes, none of the deleted keys remains in the bucket |
| Orchestrator.DecimalRoundTrip | index.js:193 | a printed count is a non-empty run of digits with no leading zero (the canonical `${n}` form) that reads back as the count |
| Orchestrator.CleanedSuffixIffCleaned | index.js:191-195 | the closing line is `uploaded N files` followed by the cleaned part, and ends there if and only if the cleaned count is 0 |
| Orchestrator.CleanedSuffixNamesCount | index.js:192-194 | when something was cleaned, the suffix is `, cleaned `, the count in decimal, then ` files` |
| Orchestrator.UploadAndClean | index.js:180-195 | uploads every local key first. An upload failure ends the run with no delete issued. Otherwise deletes run only when clean is set, and then over exactly the remote-only keys. The summary counts: uploaded = local key count; cleaned = delete-set size, or 0 without clean |
| Orchestrator.Process | index.js:164-196 | runs the local walk, the listing, the diff, the uploads and the deletes in that order. Each stage runs only if the one before succeeded. A failure ends the run with that stage's error, and the bucket keeps everything changed before it. On success the summary has the counts and message `uploaded N files[, cleaned M files]` |
| Orchestrator.UploadedKeysListBack | index.js:124-127 | every local key, uploaded under the remote prefix (line 25) and listed back, strips to itself |

## Left out

- GitHub Actions plumbing (index.js:198-223) is not modelled: reading the inputs and reporting failure through `setFailed`. The configuration is a `Config` value with the local path, the remote path and `clean`. The failure message is the `Error` a run ends with.
- The `accelerate` input (index.js:202) is left out; it only selects a transport.
- The SDK wrappers (index.js:19-77) are not modelled. `putObject` and `deleteObject` are `Bucket.Send` with an abstract `rejects` predicate, and `getBucket` is a given sequence of replies. The replies do not depend on the bucket's objects, and the bucket, region and storage class are dropped.
- The real filesystem is replaced by the `FsNode` tree. Symbolic links are leaves, as `lstat` reports them. `Unreadable` stands for any failing `lstat`, `opendir` or md5 read.
- md5 and ETag semantics are left out. Fingerprints are opaque strings compared for equality. Nothing models that COS ETags arrive quoted while md5 hex does not, or the comment's caveat about encrypted buckets.
- Paths.Join: `Path.join` is modelled as plain concatenation with one '/'. Its normalisation is not modelled, so the model does not capture that a root spelled `./dist` yields leaves `dist/...` whose length cut is wrong. `Paths.CutIgnoresPrefix` states that cut on the literal strings.
- The progress percentage (index.js:103, index.js:154) is left out because it is floating-point telemetry. All `console.log` output is left out too, except the closing line, which is modelled as `Summary.message`.
- The undeclared global `stats` (index.js:8) is left out. Each `lstat` result is used only before the next one.
- Iteration order: JavaScript fixes it (`Object.keys` lists integer-like keys ascending, then the other keys in insertion order; a `Set` iterates in insertion order). The model does not track these orders. It allows any duplicate-free order of the keys (`IsEnumeration`), chosen by `Enumerate`. So it does not capture that deletes follow the listing order (`findDeletedFiles`, index.js:139-143, fills the set in `remoteFileKeys` order) or that uploads follow walk order.
- Paths.Cut: JavaScript's `length` and `substring` count UTF-16 code units, while a Dafny `string` counts Unicode scalar values. The two cuts agree whenever the path starts with the root, which holds for every path the walk builds. The model does not capture the cut for a path with astral-plane characters that does not start with the root.
- Object-key quirks are left out. For example, a `__proto__` key is silently dropped by `files[p] = hash` in JavaScript. The model records every key.
- RemoteFiles.CollectRemoteFiles: the listing is assumed to end (`Ends`), as the reply sequence has a non-truncated page. A bucket that keeps answering `IsTruncated: true` would make the source loop forever.
- Concurrency and the asynchronous scheduling of promises are left out. Every `await` is modelled as a sequential call.
