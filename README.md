# FileFoundry deduplicating file store: a Dafny model

FileFoundry is a file-storage backend that stores every distinct content once.
An upload is hashed with SHA-256. New content is written to `storage/<hash>`
under the storage root and gets a `file_hashes` row with reference count 1.
Known content only has that row's count raised. Either way the uploader gets a
`files` row that points at the hash row. A delete is a soft delete: the file row
is marked deleted and one reference is taken from the hash row, which is dropped
once no reference is left. The uploader's row keeps a ledger: bytes uploaded,
bytes actually stored, bytes saved by deduplication, and the quota counter.
Middleware in front of the handlers keeps a fixed-window rate limit per user and
endpoint in the database, checks the storage quota of uploads and refuses
oversized requests.

The model has these modules:

- `Models`: the schema rows and their defaults.
- `Text`: lower-case hex, decimal, `filepath.Ext`, `strings.TrimSuffix` and path joining.
- `FileHelpers`: the pure helpers of the file handler.
- `Dedup`: one `processFileUpload` step on the tables and the blob store, and the engine's consistency invariant.
- `Uploads`: validation, the batch inside its transaction, the ledger charge and the whole `UploadFile` request.
- `Deletion`: `DeleteFile`.
- `Viewing`: `ViewFile`.
- `Handlers`: the class `FileHandler`, whose fields are the tables and the disk. Its methods update them step by step and are each proved to compute the matching value-level function.
- `RateLimit`: the class `LimitTable` of the database rate limiter, the `contains` loop, the quota gate and the size gate.

The consistency invariant is `Dedup.Valid`. It says:

- every hash row sits under its own digest;
- the row names its canonical blob;
- that blob is on disk, with the row's size and digest;
- row ids are unique;
- every live file resolves to a row;
- every row's reference count equals the number of live files pointing at it.

Uploads and deletes keep the invariant. On top of it the model proves:

- The round trip: after an upload, viewing a file serves its part's digest, and serves exactly its part's bytes when no other content on the disk or in the upload shares that digest.
- An upload charges the ledger exactly, and the quota holds afterwards.
- A delete frees bytes exactly when the last reference goes.
- The rate limiter admits at most two requests in the second after a user's first request on an endpoint.

The inputs that come from outside the program are parameters:

- SHA-256, the MIME validator and its allow-list test (`Uploads.Oracles`);
- the UUIDs `uuid.New` hands out (`Dedup.NewIds`, one pair per part);
- the clock, as nanoseconds since the epoch;
- the set of blob paths whose write fails.

The database is a set of maps, and the disk is a map from path to bytes. A
transaction is modelled as a snapshot that is restored on rollback. Blobs
written before a rollback stay on disk, as they do in the code.

The model follows the code as written, including these behaviours:

- **Blobs are never removed.** A delete never removes a blob from disk, and a rolled-back upload leaves the blobs it wrote.
- **The two counters drift apart.** A delete lowers `storage_used` by the file's logical size, but lowers `actual_storage_bytes` only by the bytes freed. An upload raises both by the bytes newly stored. So deleting a deduplicated copy moves the two counters apart; `Deletion.DeleteCharges` states the drift.
- **The quota pre-check uses the logical size.** The check inside the upload compares the logical total against the quota, even though only new content is charged.
- **The reference count has no floor.**

`DeleteFile` and `ViewFile` look up the hash row by its primary key. The model
states the primary-key constraint as `Dedup.RowIdsUnique`: the methods require
it and `Dedup.Valid` keeps it.

## Model

| member | source | states |
|---|---|---|
| Models.NewUser | backend/internal/models/models.go:42-48 | a new user has the 1 GiB default quota, all counters at zero, and a balanced ledger |
| Models.NewFile | backend/internal/models/models.go:102-114 | a new file row is live, has no deletion time, and carries the given id, size, hash row and owner |
| Models.DefaultRateLimit | backend/internal/models/models.go:214-221 | a rate-limit row with the schema defaults has a one-second window, two requests and no count |
| Text.HexLower | backend/internal/handlers/file.go:447 | `%x` of n bytes is 2n lower-case hex digits |
| Text.HexRoundTrip | backend/internal/handlers/file.go:447 | decoding the `%x` text of bytes gives the bytes back |
| Text.HexDecodeRoundTrip | backend/internal/handlers/file.go:447 | every even-length lower-case hex text is the `%x` text of its decoding |
| Text.HexLowerInjective | backend/internal/handlers/file.go:447 | different bytes never print to the same hex text |
| Text.DecimalRoundTrip | backend/internal/handlers/file.go:796 | the `%d` text of an integer reads back as that integer |
| Text.Ext | backend/internal/handlers/file.go:793 | the extension is empty, or a dot followed by no dot or slash, and it is a suffix of the path |
| Text.ExtStartAtDot | backend/internal/handlers/file.go:793 | in `p.q`, where q has no dot or slash, the extension starts at that last dot |
| Text.TrimSuffix | backend/internal/handlers/file.go:794 | the result plus the suffix is the input, or the input is unchanged when it does not end in the suffix |
| Text.Join | backend/internal/handlers/file.go:342 | a joined path ends in the relative path |
| Text.JoinInjective | backend/internal/handlers/file.go:342 | joining one root to different relative paths gives different paths |
| FileHelpers.ContentHash | backend/internal/handlers/file.go:445-448 | the content hash is 64 lower-case hex digits |
| FileHelpers.ContentHashInjective | backend/internal/handlers/file.go:445-448 | two digests print to the same hash text if and only if they are equal |
| FileHelpers.ContentHashOnto | backend/internal/handlers/file.go:445-448 | every 64-digit lower-case hex text is the hash text of its decoded digest |
| FileHelpers.UniqueFilenameParts | backend/internal/handlers/file.go:792-797 | the stored name is the name without its extension, `_`, the Unix seconds, then the extension |
| FileHelpers.UniqueFilenameKeepsExtension | backend/internal/handlers/file.go:792-797 | the stored name has the original name's extension |
| FileHelpers.UniqueFilenameDistinctSeconds | backend/internal/handlers/file.go:795-796 | two uploads of one name get the same stored name exactly when they fall in the same second |
| FileHelpers.RemainingStorage | backend/internal/handlers/file.go:72-76 | the remaining storage is never negative; it is positive exactly when usage is below quota, and then usage plus remaining is the quota |
| FileHelpers.UploadFolderParam | backend/internal/handlers/file.go:99-104 | the form's `folder_id` wins, and the query's is used when the form's is empty |
| FileHelpers.UploadFolderTarget | backend/internal/handlers/file.go:106 | "", "null" and "root" mean the root folder; any other value names a folder |
| FileHelpers.ListFolderFilter | backend/internal/handlers/file.go:459-478 | an empty filter lists everything, "root" or "null" lists the root only, anything else one folder |
| FileHelpers.SentinelsAgreeExceptEmpty | backend/internal/handlers/file.go:465-466 | upload and listing read "root" and "null" alike; they differ only on the empty value |
| FileHelpers.BlobPathInjective | backend/internal/handlers/file.go:339-342 | different digests are stored at different blob paths |
| FileHelpers.ServedPath | backend/internal/handlers/file.go:566-593 | the row's path is used when it exists, the legacy path named after the file id otherwise, and nothing when neither exists |
| Dedup.UploadedFile | backend/internal/handlers/file.go:374-386 | the new file row is live, is owned by the uploader, sits in the target folder, points at the given hash row, and has the upload's size, MIME type, original name and a unique stored name made from that name and the time |
| Dedup.UploadResult | backend/internal/handlers/file.go:396-421 | a duplicate saves its whole size; new content stores its whole size; saved plus stored is the size; the result reports the file row's id and stored name, the original name, the size, the MIME type, the hash and the upload's warning |
| Dedup.NewHashRow | backend/internal/handlers/file.go:353-359 | a new hash row has count 1, the content's size and hash, and path `storage/<hash>` |
| Dedup.CreateRecord | backend/internal/handlers/file.go:374-394 | the file row is created exactly when its id is free; on a clash the step fails, the files table is unchanged, and a hash row created by this step has its count taken back by one while other rows stay as they were |
| Dedup.StoreNewContent | backend/internal/handlers/file.go:334-364 | the write fails exactly when the blob path is unwritable, and then the disk is unchanged; otherwise the blob path holds the content, whatever happens after, and the content gets a fresh hash row plus the file row |
| Dedup.CountKnownContent | backend/internal/handlers/file.go:367-372 | known content raises its row's count by one and adds the file row; the disk is untouched |
| Dedup.ProcessFile | backend/internal/handlers/file.go:328-422 | one step never touches users or folders and never removes a hash row; on success it adds the file row, the duplicate flag says whether the content was known, and saved plus stored is the size |
| Dedup.ProcessFileReports | backend/internal/handlers/file.go:406-421 | a step reports the new id, the stored name made from the original name and the time, the original name, the size, the hash, the MIME type, the warning, and stored bytes of either 0 or the size |
| Dedup.RowKeyWithId | backend/internal/handlers/file.go:552 | the lookup by primary key finds a row exactly when some row has that id, and that row carries it |
| Dedup.RowKeyWithIdUnique | backend/internal/models/models.go:77 | with unique ids, looking up a row's id finds that row |
| Dedup.ProcessFileLinks | backend/internal/handlers/file.go:374-394 | after a step, the new live file points at the row of its content, sits in the target folder and keeps its name; earlier files and row ids are unchanged |
| Dedup.ProcessFileWrites | backend/internal/handlers/file.go:334-364 | a step writes at most the blob of its content; a successful step leaves a hash row for its content, and one with new content leaves its bytes at the blob path |
| Dedup.LiveRefsAdd | backend/internal/handlers/file.go:358 | a new live file adds one reference to its own row and none to any other |
| Dedup.LiveRefsRetire | backend/internal/handlers/file.go:632-653 | marking a file deleted takes one reference from its row and none from any other |
| Dedup.InsertNewContentKeepsValid | backend/internal/handlers/file.go:336-364 | inserting new content with its blob, its row at count 1, and one live file keeps the invariant |
| Dedup.AddReferenceKeepsValid | backend/internal/handlers/file.go:367-372 | raising a row's count with one new live file that points at it keeps the invariant |
| Dedup.StoreNewContentKeepsValid | backend/internal/handlers/file.go:334-364 | a successful new-content step keeps the invariant |
| Dedup.CountKnownContentKeepsValid | backend/internal/handlers/file.go:367-372 | a successful known-content step keeps the invariant |
| Dedup.ProcessFileKeepsValid | backend/internal/handlers/file.go:328-422 | a successful `processFileUpload` keeps the invariant |
| Dedup.RollbackKeepsValid | backend/internal/handlers/file.go:276 | restoring the tables after the disk grew keeps the invariant |
| Uploads.DeclaredType | backend/internal/handlers/file.go:205-208 | a missing `Content-Type` is replaced by `application/octet-stream`, and a declared one is kept |
| Uploads.CheckPart | backend/internal/handlers/file.go:192-242 | an oversized part fails with FileTooLarge; a part that passes is within the limit, valid and allowed, and carries its own bytes, size and digest, and the validator's MIME type and warning |
| Uploads.CheckParts | backend/internal/handlers/file.go:172-245 | the validation loop yields one upload per part |
| Uploads.CheckPartsStops | backend/internal/handlers/file.go:172-245 | once a prefix of the parts fails, the whole loop fails with that error |
| Uploads.CheckPartsOk | backend/internal/handlers/file.go:172-245 | a loop that gets through hands on, in order, what each part's check produced |
| Uploads.CheckPartsFirstError | backend/internal/handlers/file.go:172-245 | a loop that fails reports the error of the first failing part, and every part before it passed |
| Uploads.CheckPartsOkIff | backend/internal/handlers/file.go:172-245 | the loop gets through if and only if every part passes |
| Uploads.CheckedUploads | backend/internal/handlers/file.go:234-242 | each validated upload carries its part's name and bytes, their size, their digest, and the validator's MIME type and warning for the part |
| Uploads.Warnings | backend/internal/handlers/file.go:313-319 | at most one warning line per upload |
| Uploads.WarningsListed | backend/internal/handlers/file.go:313-319 | the lines are `<name>: <warning>` of exactly the uploads whose warning is not empty, one each, in upload order |
| Uploads.TotalsAppend | backend/internal/handlers/file.go:285-287 | the running saved and stored totals grow by the next result's figures |
| Uploads.TotalSizeNext | backend/internal/handlers/file.go:244 | the running total size grows by the next upload's size |
| Uploads.Advance | backend/internal/handlers/file.go:273-289 | a turn never touches users or folders; a turn without failure follows one without failure and adds one result |
| Uploads.AdvanceKeepsDisk | backend/internal/handlers/file.go:273-289 | a turn only adds hash rows, and the disk only grows, keeping earlier blobs |
| Uploads.AdvanceReports | backend/internal/handlers/file.go:285 | a turn that gets through keeps the earlier results and adds one for its own upload |
| Uploads.AdvanceKeepsValid | backend/internal/handlers/file.go:273-289 | a turn keeps the invariant |
| Uploads.AdvanceKeepsLinks | backend/internal/handlers/file.go:273-289 | a turn keeps the earlier uploads linked to their rows and links its own |
| Uploads.RunUploadsKeepsAccounts | backend/internal/handlers/file.go:273-289 | the processing loop changes no user and no folder |
| Uploads.RunUploadsKeepsDisk | backend/internal/handlers/file.go:273-289 | the processing loop removes no hash row, and it changes no blob a row had |
| Uploads.RunUploadsKeepsBlobs | backend/internal/handlers/file.go:273-289 | after the loop, every processed upload with new content has its hash row and its blob holding its bytes |
| Uploads.RunUploadsKeepsContents | backend/internal/handlers/file.go:273-289 | the loop writes no bytes other than the uploads' contents |
| Uploads.RunUploadsResults | backend/internal/handlers/file.go:273-289 | a loop that gets through reports one result per upload, in order, each with the upload's id, stored and original names, size, hash, MIME type and warning |
| Uploads.RunUploadsKeepsValid | backend/internal/handlers/file.go:273-289 | the processing loop keeps the invariant |
| Uploads.RunUploadsLinks | backend/internal/handlers/file.go:273-289 | after a loop that gets through, every upload has a live file linked to the row of its content |
| Uploads.TotalsSplit | backend/internal/handlers/file.go:285-288 | over a batch, bytes saved plus bytes newly stored equal the bytes uploaded |
| Uploads.TotalActualBounded | backend/internal/handlers/file.go:285-288 | the bytes newly stored lie between none and all of the bytes uploaded |
| Uploads.ChargeUser | backend/internal/handlers/file.go:425-442 | the charge fails exactly when the user row is missing; it changes only that user, and keeps the user's id and quota |
| Uploads.ChargeKeepsBalance | backend/internal/handlers/file.go:431-435 | a charge whose uploaded bytes split into stored plus saved keeps the ledger balanced and moves the quota counter with the physical one |
| Uploads.Transact | backend/internal/handlers/file.go:265-302 | a failed transaction restores the tables and fails only in a processing step or the statistics update; a committed one keeps the set of users and the folders |
| Uploads.UploadSpec | backend/internal/handlers/file.go:91-325 | every failed upload leaves the tables unchanged; a successful one keeps the set of users and the folders |
| Uploads.TransactRollsBack | backend/internal/handlers/file.go:275-283 | a failed transaction restores the tables, changes no blob a row had, and leaves on disk the blob of every new-content upload processed before the failure |
| Uploads.TransactLedger | backend/internal/handlers/file.go:291-296 | a committed transaction charges exactly: the logical total by the bytes uploaded, the physical and quota counters by the bytes stored, the saved counter by the bytes saved |
| Uploads.TransactReports | backend/internal/handlers/file.go:304-311 | a committed transaction reports one result per upload, in order, with the upload's id, stored and original names, size, hash, MIME type and warning |
| Uploads.TransactKeepsValid | backend/internal/handlers/file.go:265-302 | a transaction, committed or rolled back, keeps the invariant |
| Uploads.TransactLinks | backend/internal/handlers/file.go:265-302 | after a commit, every upload has a live file in the target folder, linked to the row of its content |
| Uploads.UploadErrorKeepsDisk | backend/internal/handlers/file.go:91-257 | an upload that fails before the transaction leaves the disk unchanged; one that fails inside it only added blobs |
| Uploads.UploadRejectsOversized | backend/internal/handlers/file.go:194-202 | one oversized part fails the whole upload with FileTooLarge, and nothing is written |
| Uploads.UploadCharges | backend/internal/handlers/file.go:247-296 | a successful upload fitted the quota on its logical size, reports the sum of its parts' sizes as its total, stays within quota afterwards, and moves every ledger counter by exactly what it reports |
| Uploads.UploadReports | backend/internal/handlers/file.go:304-311 | a successful upload reports one file per part, in order, with the given id, the stored name made from the part's name and the time, the part's name, size and digest, the validator's MIME type and warning, and a split into saved and stored bytes |
| Uploads.UploadKeepsValid | backend/internal/handlers/file.go:91-325 | an upload, whatever its outcome, keeps the invariant |
| Uploads.UploadSharesContent | backend/internal/handlers/file.go:328-372 | every part gets a live file of the uploader's in the target folder, and parts with the same digest point at the same hash row |
| Uploads.UploadOverQuota | backend/internal/handlers/file.go:247-257 | a valid batch is refused for quota exactly when storage used plus the sum of its parts' sizes exceeds the quota, and then the tables and the disk are unchanged |
| Uploads.UploadDiskContents | backend/internal/handlers/file.go:91-325 | an upload writes no bytes other than its parts' contents |
| Uploads.CheckedTotalSize | backend/internal/handlers/file.go:221-245 | the validated batch's total is the sum of its parts' sizes |
| Deletion.Retired | backend/internal/handlers/file.go:632-641 | the file is marked deleted at the given time and is otherwise the same file |
| Deletion.Release | backend/internal/handlers/file.go:651-667 | the row loses one reference, or is dropped when no reference would be left; no other row changes |
| Deletion.DeleteSpec | backend/internal/handlers/file.go:605-699 | a failed delete changes nothing; a delete keeps the folders and the set of users |
| Deletion.DeleteNotFound | backend/internal/handlers/file.go:614-622 | "not found" exactly when the file is not a live file of the caller's |
| Deletion.DeleteReleases | backend/internal/handlers/file.go:632-668 | a delete marks the file deleted and releases one reference from its row; it frees the file's size exactly when the row goes |
| Deletion.DeleteCharges | backend/internal/handlers/file.go:670-697 | storage used drops by the logical size and actual storage by the bytes freed; the other counters stay, and the two counters drift apart by the size not freed |
| Deletion.ReleaseKeepsRows | backend/internal/handlers/file.go:651-667 | after a release, every remaining row keeps its blob and ids stay unique |
| Deletion.ReleaseKeepsResolve | backend/internal/handlers/file.go:659-667 | a row is dropped only when no live file points at it, so every live file still resolves |
| Deletion.ReleaseKeepsCounts | backend/internal/handlers/file.go:651-667 | after a release, every remaining row counts exactly the live files |
| Deletion.DeleteKeepsValid | backend/internal/handlers/file.go:605-699 | a delete keeps the invariant with the disk untouched |
| Viewing.ViewSpec | backend/internal/handlers/file.go:518-601 | what is served is a file on disk with its bytes, for a live file of the caller's, with that file's MIME type and original name |
| Viewing.ViewErrors | backend/internal/handlers/file.go:533-562 | "not found" exactly when the file is not a live file of the caller's; a server error exactly when its hash row is missing |
| Viewing.ViewServesCanonical | backend/internal/handlers/file.go:566-601 | under the invariant, every live file is served from its row's canonical blob, whose digest and length are the row's |
| Viewing.UploadThenView | backend/internal/handlers/file.go:518-601 | after a successful upload, viewing part i's file serves bytes with part i's digest, under its name |
| Viewing.UploadThenViewExact | backend/internal/handlers/file.go:518-601 | when no other content on the disk or in the upload shares part i's digest, viewing part i's file serves exactly part i's bytes |
| Handlers.FileHandler.constructor | backend/internal/handlers/file.go:39-44 | the handler starts on the given tables, disk, configuration and oracles |
| Handlers.FileHandler.ProcessFileUpload | backend/internal/handlers/file.go:328-422 | the tables, disk and outcome after the method are those of `Dedup.ProcessFile` |
| Handlers.FileHandler.StoreNew | backend/internal/handlers/file.go:334-364 | the new-content branch computes `Dedup.StoreNewContent` |
| Handlers.FileHandler.CountKnown | backend/internal/handlers/file.go:367-372 | the known-content branch computes `Dedup.CountKnownContent` |
| Handlers.FileHandler.CreateFileRecord | backend/internal/handlers/file.go:374-394 | creating the file row computes `Dedup.CreateRecord` |
| Handlers.FileHandler.UpdateUserStorageStats | backend/internal/handlers/file.go:425-442 | succeeds exactly when the user exists, and then applies `Uploads.ChargeUser`; otherwise it changes nothing |
| Handlers.FileHandler.CheckOne | backend/internal/handlers/file.go:173-242 | one turn of the validation loop computes `Uploads.CheckPart` |
| Handlers.FileHandler.ValidateParts | backend/internal/handlers/file.go:168-245 | the loop computes `Uploads.CheckParts`, and its running total is the total size |
| Handlers.FileHandler.ProcessAll | backend/internal/handlers/file.go:259-289 | the loop leaves the state `Uploads.RunUploads` describes, with the running totals of its results |
| Handlers.FileHandler.CollectWarnings | backend/internal/handlers/file.go:313-319 | the loop builds `Uploads.Warnings` |
| Handlers.FileHandler.Transaction | backend/internal/handlers/file.go:265-302 | snapshot, batch, charge and commit or rollback give `Uploads.Transact` |
| Handlers.FileHandler.UploadFile | backend/internal/handlers/file.go:91-325 | the request leaves the state and answer of `Uploads.UploadSpec` |
| Handlers.FileHandler.DeleteFile | backend/internal/handlers/file.go:605-699 | the disk is untouched, and the tables and answer are those of `Deletion.DeleteSpec` |
| Handlers.FileHandler.ReleaseReference | backend/internal/handlers/file.go:651-668 | applies `Deletion.Release` to the row and frees the size exactly when the count falls to zero or below |
| Handlers.FileHandler.ViewFile | backend/internal/handlers/file.go:518-601 | the answer is `Viewing.ViewSpec` of the current tables and disk |
| RateLimit.FirstRecord | backend/internal/middleware/ratelimit.go:149-161 | a first request creates a row counted once, with a one-second window and a maximum of two |
| RateLimit.FirstRecordFromDefaults | backend/internal/models/models.go:214-221 | the row of a first request is the schema's default row with its count at one |
| RateLimit.Serve | backend/internal/middleware/ratelimit.go:168-195 | past the window, the request is let through and the row restarts at count 1 with the window starting now; inside the window the start is kept, a full row limits and saves nothing, and otherwise the count goes up by one; the window length, maximum and key never change |
| RateLimit.Limit | backend/internal/middleware/ratelimit.go:119-197 | `/health` and callers without an id pass with no row touched; a caller id that is not a UUID gets the server error with no row touched; any other caller is let through or limited and has a row for the path afterwards; at most that row is added or changed |
| RateLimit.LimitTable.DatabaseRateLimit | backend/internal/middleware/ratelimit.go:119-197 | the table and verdict after the method are those of `RateLimit.Limit` |
| RateLimit.LimitKeepsSane | backend/internal/middleware/ratelimit.go:168-195 | no request pushes a row's count past its maximum |
| RateLimit.AllowedIsCounted | backend/internal/middleware/ratelimit.go:145-195 | a request is limited exactly when its window is open and full; an admitted request is counted, one more than before within an open window, keeping the window's start; a request after the window is let through and opens a new window now, counted once |
| RateLimit.RetryAfterSuffices | backend/internal/middleware/ratelimit.go:179-189 | the retry delay is at least one second and exactly long enough: a retry after it is admitted, while one a second earlier is still in the window |
| RateLimit.AtMostMaxPerWindow | backend/internal/middleware/ratelimit.go:168-195 | requests inside one window are admitted at most as often as the row has room for |
| RateLimit.ResetAdmitsAtMostMax | backend/internal/middleware/ratelimit.go:168-177 | a request after the window is let through and opens a new window; with it, at most the row's maximum are admitted until that window closes |
| RateLimit.TwoPerSecond | backend/internal/middleware/ratelimit.go:149-195 | from a user's first request on an endpoint, at most two requests in the next second get through |
| RateLimit.Contains | backend/internal/middleware/ratelimit.go:277-289 | the loop returns true exactly when some substring occurs in the string |
| RateLimit.ContainsAnyEdges | backend/internal/middleware/ratelimit.go:277-289 | an empty list matches nothing, and the empty substring matches everything |
| RateLimit.QuotaGate | backend/internal/middleware/ratelimit.go:199-251 | a request passes the checks only with room left, and used plus remaining is the quota |
| RateLimit.QuotaGateAgreesWithStats | backend/internal/middleware/ratelimit.go:230-247 | for a checked upload, the gate refuses exactly when the quota is used up, and hands on the same remaining storage the statistics report |
| RateLimit.QuotaGateScope | backend/internal/middleware/ratelimit.go:202-206 | only POSTs whose path contains "/upload" or "/files" are checked |
| RateLimit.SizeGateBounds | backend/internal/middleware/ratelimit.go:258-275 | only POSTs with a content type are refused; a request within the limit passes; a larger limit refuses nothing the smaller one let through |

## Left out

- HTTP and Gin plumbing are not modelled: JSON bodies, status codes, headers, streaming the file in `ViewFile`, and the authentication middleware. The caller's identity is a parameter.
- Multipart parsing is not modelled, nor are open and read errors of a part or the merge of the `file` and `files` form fields. The parts arrive as a sequence.
- Database errors other than a missing row and a primary-key clash of a new id are not modelled, nor is a failed commit.
- Ids are compared as text; `uuid.Parse` and the database's uuid type are not modelled. So a valid UUID in a non-canonical spelling (upper case, braces, `urn:uuid:` prefix, no hyphens) is not normalised: as a folder id of an upload, or as a file id of `DeleteFile` or `ViewFile`, it finds no row, where the code finds the row. An id that is not a UUID at all is also treated as a missing row: the tables are unchanged, but the code answers with a different status.
- `updateUserStorageStats` re-reads the user row inside the transaction. The model charges the row as the transaction sees it.
- Concurrency is not modelled: each request is one atomic step on the tables and the disk.
- `filepath.Join` path cleaning is not modelled. A join is the root, a slash and the relative path.
- The token-bucket limiter in ratelimit.go lines 18-116 is not part of this model.
- Database errors in the database rate limiter are not modelled, and neither are the unchecked results of its `Create` and `Save`.
- `ViewFile` reads only the blob path and the legacy path of the current disk. The `os.Stat` errors other than "does not exist" are not modelled.
- Floating point is not modelled. This covers the storage-efficiency and savings percentages, and the float rounding of `Seconds()` in the retry delay; `RateLimit.RetryAfter` truncates the integer nanoseconds instead.
- The `GetUserStats`, `ListFiles` and other handlers' queries, and admin.go, are not part of this model. `FileHelpers.RemainingStorage` and `FileHelpers.ListFolderFilter` model the pure parts of `GetUserStats` and `ListFiles`.
- Integers are unbounded: 64-bit overflow of the counters and of `time.Duration` is not modelled.
- `RateLimit.Contains`: compares strings as sequences of characters, where Go compares bytes. The decoded `URL.Path` need not be ASCII, but the needles "/upload" and "/files" are, and UTF-8 never puts an ASCII byte inside the encoding of a non-ASCII character, so the two agree on whether a needle occurs.
- Viewing.UploadThenViewExact: needs that no other content on the disk or in the upload shares the part's SHA-256 digest (`Viewing.DigestUnique`); without it, `Viewing.UploadThenView` states what holds: the same digest.
