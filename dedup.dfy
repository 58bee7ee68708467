/**
 * The deduplication engine at the level of values: the tables of the
 * database, the blob store, and what one upload step, one upload batch and
 * one delete do to them. The handler class in `Handlers` is proved to
 * compute exactly these functions; the lemmas here say what they promise.
 */
module Dedup {

  import opened Wrappers
  import opened Text
  import opened Models
  import opened FileHelpers

  /** The tables the engine reads and writes. `hashes` is keyed by the unique `hash` column; `folders` maps a folder id to its owner. */
  datatype Db = Db(
    hashes: map<string, FileHash>,
    files: map<Uuid, File>,
    users: map<Uuid, User>,
    folders: map<Uuid, Uuid>)

  /** One validated upload (`FileUploadInfo`). */
  datatype UploadInfo = UploadInfo(
    filename: string,
    content: seq<byte>,
    size: int,
    hash: string,
    mimeType: string,
    warning: string)

  /** The UUIDs `uuid.New` hands out while one file is processed. */
  datatype NewIds = NewIds(fileId: Uuid, hashId: Uuid)

  /**
   * The per-file result of an upload, and the bytes it adds to actual
   * storage. An empty `warning` stands for a result without that key.
   */
  datatype FileResult = FileResult(
    fileId: Uuid,
    filename: string,
    originalName: string,
    size: int,
    mimeType: string,
    contentHash: string,
    isDuplicate: bool,
    savedBytes: int,
    actualStorageUsed: int,
    warning: string)

  datatype ProcessError = StorageWriteFailed | HashCreateFailed | RecordCreateFailed

  /** The tables and the disk after one step, and what the step returned. */
  datatype Step = Step(db: Db, disk: Disk, outcome: Result<FileResult, ProcessError>)

  /** An upload as the handler has validated it: size and hash describe the content. */
  predicate WellFormedInfo(info: UploadInfo, sha: seq<byte> -> Digest) {
    info.size == |info.content| && info.hash == ContentHash(sha(info.content))
  }

  /** Some hash row already carries this primary key. */
  predicate HashIdTaken(hashes: map<string, FileHash>, id: Uuid) {
    exists d :: d in hashes && hashes[d].id == id
  }

  /** The live files that point at the hash row with this id. */
  function LiveRefSet(files: map<Uuid, File>, hashId: Uuid): set<Uuid> {
    set k | k in files && !files[k].isDeleted && files[k].fileHashId == hashId
  }

  function LiveRefs(files: map<Uuid, File>, hashId: Uuid): nat {
    |LiveRefSet(files, hashId)|
  }

  /** A live file of the user's: what `ViewFile` and `DeleteFile` look up by id, owner and `is_deleted = false`. */
  predicate OwnedLive(db: Db, user: Uuid, fileId: Uuid) {
    fileId in db.files && db.files[fileId].ownerId == user && !db.files[fileId].isDeleted
  }

  // ---------------------------------------------------------------- the invariant

  /**
   * A hash row sits under its own hash and names its canonical blob, and
   * that blob holds `size` bytes whose digest is the hash.
   */
  ghost predicate RowStored(root: string, disk: Disk, sha: seq<byte> -> Digest, d: string, row: FileHash) {
    && row.hash == d
    && row.storagePath == BlobRelPath(d)
    && row.size >= 0
    && BlobPath(root, d) in disk
    && |disk[BlobPath(root, d)]| == row.size
    && ContentHash(sha(disk[BlobPath(root, d)])) == d
  }

  /** Every hash row's blob is on disk. */
  ghost predicate RowsStored(hashes: map<string, FileHash>, disk: Disk, root: string, sha: seq<byte> -> Digest) {
    forall d :: d in hashes ==> RowStored(root, disk, sha, d, hashes[d])
  }

  /** No two hash rows share a primary key. */
  ghost predicate RowIdsUnique(hashes: map<string, FileHash>) {
    forall d1, d2 :: d1 in hashes && d2 in hashes && hashes[d1].id == hashes[d2].id ==> d1 == d2
  }

  /** File rows sit under their own id and have a size. */
  ghost predicate FilesKeyed(files: map<Uuid, File>) {
    forall k :: k in files ==> files[k].id == k && files[k].size >= 0
  }

  /** Every live file points at an existing hash row. */
  ghost predicate LiveFilesResolve(files: map<Uuid, File>, hashes: map<string, FileHash>) {
    forall k :: k in files && !files[k].isDeleted ==> HashIdTaken(hashes, files[k].fileHashId)
  }

  /** Every hash row counts exactly the live files that point at it. */
  ghost predicate CountsExact(hashes: map<string, FileHash>, files: map<Uuid, File>) {
    forall d :: d in hashes ==> hashes[d].referenceCount == LiveRefs(files, hashes[d].id)
  }

  /**
   * The consistency the engine keeps between its index, its files and its
   * blob store: unique row ids, every live file resolving to a row, every
   * row's reference count equal to the number of live files pointing at it,
   * and every row's blob present on disk.
   */
  ghost predicate Valid(db: Db, disk: Disk, root: string, sha: seq<byte> -> Digest) {
    && RowsStored(db.hashes, disk, root, sha)
    && RowIdsUnique(db.hashes)
    && FilesKeyed(db.files)
    && LiveFilesResolve(db.files, db.hashes)
    && CountsExact(db.hashes, db.files)
  }

  /** Growing the disk from `disk` to `disk2` removed nothing and left the blobs of `hashes` as they were. */
  ghost predicate DiskKeeps(root: string, hashes: map<string, FileHash>, disk: Disk, disk2: Disk) {
    && disk.Keys <= disk2.Keys
    && forall d :: d in hashes && BlobPath(root, d) in disk ==> disk2[BlobPath(root, d)] == disk[BlobPath(root, d)]
  }

  // ---------------------------------------------------------------- one file

  /** The file row an upload creates, and the result it reports. */
  function UploadedFile(info: UploadInfo, owner: Uuid, folder: Option<Uuid>, ids: NewIds, now: Time, hashId: Uuid): (f: File)
    ensures !f.isDeleted && f.ownerId == owner && f.size == info.size && f.fileHashId == hashId && f.id == ids.fileId
    ensures f.originalFilename == info.filename && f.mimeType == info.mimeType && f.folderId == folder
    ensures f.filename == GenerateUniqueFilename(info.filename, now)
  {
    NewFile(ids.fileId, GenerateUniqueFilename(info.filename, now), info.filename, info.mimeType,
            info.size, hashId, owner, folder, now)
  }

  function UploadResult(info: UploadInfo, f: File, isNew: bool): (res: FileResult)
    ensures res.isDuplicate == !isNew && res.size == info.size && res.contentHash == info.hash && res.fileId == f.id
    ensures res.filename == f.filename && res.originalName == info.filename && res.mimeType == info.mimeType
    ensures res.warning == info.warning
    ensures res.savedBytes + res.actualStorageUsed == info.size
    ensures res.actualStorageUsed == (if isNew then info.size else 0)
  {
    var saved := if isNew then 0 else info.size;
    var actual := if isNew then info.size else 0;
    FileResult(f.id, f.filename, info.filename, info.size, info.mimeType, info.hash, !isNew, saved, actual, info.warning)
  }

  /** Persisting the file row; on a key clash the count a new row got is taken back. */
  function CreateRecord(db: Db, disk: Disk, info: UploadInfo, owner: Uuid, folder: Option<Uuid>,
                        ids: NewIds, now: Time, isNew: bool, hashId: Uuid): (r: Step)
    requires info.hash in db.hashes
    ensures r.disk == disk && r.db.users == db.users && r.db.folders == db.folders
    ensures db.hashes.Keys <= r.db.hashes.Keys
    ensures r.outcome.Ok? <==> ids.fileId !in db.files
    ensures r.outcome.Err? ==> r.outcome.error == RecordCreateFailed && r.db.files == db.files
    ensures r.outcome.Err? ==>
      r.db.hashes == if isNew then db.hashes[info.hash := db.hashes[info.hash].(referenceCount := db.hashes[info.hash].referenceCount - 1)]
                     else db.hashes
    ensures r.outcome.Ok? ==>
      var f := UploadedFile(info, owner, folder, ids, now, hashId);
      && r.db.hashes == db.hashes
      && r.db.files == db.files[ids.fileId := f]
      && r.outcome.value == UploadResult(info, f, isNew)
  {
    if ids.fileId in db.files then
      var hashes :=
        if isNew then db.hashes[info.hash := db.hashes[info.hash].(referenceCount := db.hashes[info.hash].referenceCount - 1)]
        else db.hashes;
      Step(db.(hashes := hashes), disk, Err(RecordCreateFailed))
    else
      var f := UploadedFile(info, owner, folder, ids, now, hashId);
      Step(db.(files := db.files[ids.fileId := f]), disk, Ok(UploadResult(info, f, isNew)))
  }

  /** The row a new content gets: count 1, its canonical relative path, the upload's size. */
  function NewHashRow(info: UploadInfo, hashId: Uuid, now: Time): (row: FileHash)
    ensures row.referenceCount == 1 && row.hash == info.hash && row.size == info.size
    ensures row.storagePath == "storage/" + info.hash && row.id == hashId
  {
    FileHash(hashId, info.hash, info.size, BlobRelPath(info.hash), 1, now)
  }

  /** New content: write the blob, insert the hash row, then the file row. */
  function StoreNewContent(db: Db, disk: Disk, root: string, info: UploadInfo, owner: Uuid, folder: Option<Uuid>,
                           ids: NewIds, now: Time, unwritable: set<string>): (r: Step)
    requires info.hash !in db.hashes
    ensures r.db.users == db.users && r.db.folders == db.folders
    ensures db.hashes.Keys <= r.db.hashes.Keys
    ensures DiskKeeps(root, db.hashes, disk, r.disk)
    ensures r.outcome == Err(StorageWriteFailed) <==> BlobPath(root, info.hash) in unwritable
    ensures r.outcome == Err(StorageWriteFailed) ==> r.disk == disk
    ensures r.outcome != Err(StorageWriteFailed) ==> r.disk == disk[BlobPath(root, info.hash) := info.content]
    ensures r.outcome.Ok? ==>
      && r.db.hashes == db.hashes[info.hash := NewHashRow(info, ids.hashId, now)]
      && r.disk == disk[BlobPath(root, info.hash) := info.content]
      && !HashIdTaken(db.hashes, ids.hashId)
      && r.db.files == db.files[ids.fileId := UploadedFile(info, owner, folder, ids, now, ids.hashId)]
      && r.outcome.value == UploadResult(info, UploadedFile(info, owner, folder, ids, now, ids.hashId), true)
  {
    var path := BlobPath(root, info.hash);
    if path in unwritable then Step(db, disk, Err(StorageWriteFailed))
    else
      var disk1 := disk[path := info.content];
      assert DiskKeeps(root, db.hashes, disk, disk1) by {
        forall d | d in db.hashes && BlobPath(root, d) in disk
          ensures disk1[BlobPath(root, d)] == disk[BlobPath(root, d)]
        {
          BlobPathInjective(root, d, info.hash);
        }
      }
      if HashIdTaken(db.hashes, ids.hashId) then Step(db, disk1, Err(HashCreateFailed))
      else
        CreateRecord(db.(hashes := db.hashes[info.hash := NewHashRow(info, ids.hashId, now)]), disk1,
                     info, owner, folder, ids, now, true, ids.hashId)
  }

  /** Known content: raise the row's count by one, then the file row; the disk is not touched. */
  function CountKnownContent(db: Db, disk: Disk, info: UploadInfo, owner: Uuid, folder: Option<Uuid>,
                             ids: NewIds, now: Time): (r: Step)
    requires info.hash in db.hashes
    ensures r.db.users == db.users && r.db.folders == db.folders
    ensures db.hashes.Keys <= r.db.hashes.Keys && r.disk == disk
    ensures r.outcome.Ok? ==>
      var row := db.hashes[info.hash];
      && r.db.hashes == db.hashes[info.hash := row.(referenceCount := row.referenceCount + 1)]
      && r.db.files == db.files[ids.fileId := UploadedFile(info, owner, folder, ids, now, row.id)]
      && r.outcome.value == UploadResult(info, UploadedFile(info, owner, folder, ids, now, row.id), false)
  {
    var row := db.hashes[info.hash];
    var db1 := db.(hashes := db.hashes[info.hash := row.(referenceCount := row.referenceCount + 1)]);
    CreateRecord(db1, disk, info, owner, folder, ids, now, false, row.id)
  }

  /**
   * `processFileUpload`: new content is written to its blob path and gets a
   * hash row with count 1; known content only has its count raised by one.
   * Either way a live file row for the owner is created, and the bytes
   * saved plus the bytes newly stored make up the upload's size.
   */
  function ProcessFile(db: Db, disk: Disk, root: string, info: UploadInfo, owner: Uuid, folder: Option<Uuid>,
                       ids: NewIds, now: Time, unwritable: set<string>): (r: Step)
    ensures r.db.users == db.users && r.db.folders == db.folders
    ensures db.hashes.Keys <= r.db.hashes.Keys
    ensures DiskKeeps(root, db.hashes, disk, r.disk)
    ensures r.outcome.Ok? ==>
      && ids.fileId !in db.files && ids.fileId in r.db.files
      && r.outcome.value.isDuplicate == (info.hash in db.hashes)
      && r.outcome.value.savedBytes + r.outcome.value.actualStorageUsed == info.size
  {
    if info.hash !in db.hashes then StoreNewContent(db, disk, root, info, owner, folder, ids, now, unwritable)
    else CountKnownContent(db, disk, info, owner, folder, ids, now)
  }

  /** What a successful step reports: the new file's id, the upload's size and hash, and bytes newly stored of 0 or the size. */
  lemma ProcessFileReports(db: Db, disk: Disk, root: string, info: UploadInfo, owner: Uuid, folder: Option<Uuid>,
                           ids: NewIds, now: Time, unwritable: set<string>)
    requires ProcessFile(db, disk, root, info, owner, folder, ids, now, unwritable).outcome.Ok?
    ensures var res := ProcessFile(db, disk, root, info, owner, folder, ids, now, unwritable).outcome.value;
            && res.fileId == ids.fileId && res.size == info.size && res.contentHash == info.hash
            && res.filename == GenerateUniqueFilename(info.filename, now) && res.originalName == info.filename
            && res.mimeType == info.mimeType && res.warning == info.warning
            && (res.actualStorageUsed == 0 || res.actualStorageUsed == info.size)
  {
  }

  /** Looking a hash row up by its primary key: the digest it is stored under, if any row carries the id. */
  ghost function RowKeyWithId(hashes: map<string, FileHash>, id: Uuid): (r: Option<string>)
    ensures r.Some? <==> HashIdTaken(hashes, id)
    ensures r.Some? ==> r.value in hashes && hashes[r.value].id == id
  {
    if HashIdTaken(hashes, id) then
      var d :| d in hashes && hashes[d].id == id;
      Some(d)
    else None
  }

  /** With unique ids, the row found by id is the only row with that id. */
  lemma RowKeyWithIdUnique(hashes: map<string, FileHash>, d: string)
    requires RowIdsUnique(hashes) && d in hashes
    ensures RowKeyWithId(hashes, hashes[d].id) == Some(d)
  {
  }

  /** Disk growth composes: what kept the blobs of a smaller table and then of a larger one kept the smaller one's. */
  lemma DiskKeepsTrans(root: string, hashes: map<string, FileHash>, hashes2: map<string, FileHash>, disk: Disk, disk2: Disk, disk3: Disk)
    requires hashes.Keys <= hashes2.Keys
    requires DiskKeeps(root, hashes, disk, disk2) && DiskKeeps(root, hashes2, disk2, disk3)
    ensures DiskKeeps(root, hashes, disk, disk3)
  {
  }

  /**
   * The file row `fileId` is a live file of `owner` in `folder`, named after
   * the upload, and points at the hash row of the upload's content.
   */
  predicate Links(db: Db, fileId: Uuid, info: UploadInfo, owner: Uuid, folder: Option<Uuid>) {
    && info.hash in db.hashes
    && OwnedLive(db, owner, fileId)
    && db.files[fileId].fileHashId == db.hashes[info.hash].id
    && db.files[fileId].originalFilename == info.filename
    && db.files[fileId].folderId == folder
  }

  /**
   * A step that gets through links its new file row to the row of the
   * upload's content, and leaves every file row it found and the key and
   * id of every hash row it found as they were.
   */
  lemma ProcessFileLinks(db: Db, disk: Disk, root: string, info: UploadInfo, owner: Uuid, folder: Option<Uuid>,
                         ids: NewIds, now: Time, unwritable: set<string>)
    requires ProcessFile(db, disk, root, info, owner, folder, ids, now, unwritable).outcome.Ok?
    ensures var r := ProcessFile(db, disk, root, info, owner, folder, ids, now, unwritable).db;
            && Links(r, ids.fileId, info, owner, folder)
            && (forall k :: k in db.files ==> k in r.files && r.files[k] == db.files[k])
            && (forall d :: d in db.hashes ==> d in r.hashes && r.hashes[d].id == db.hashes[d].id)
  {
    if info.hash !in db.hashes {
      StoreNewLinks(db, disk, root, info, owner, folder, ids, now, unwritable);
    } else {
      CountKnownLinks(db, disk, info, owner, folder, ids, now);
    }
  }

  /** `ProcessFileLinks` for new content. */
  lemma StoreNewLinks(db: Db, disk: Disk, root: string, info: UploadInfo, owner: Uuid, folder: Option<Uuid>,
                      ids: NewIds, now: Time, unwritable: set<string>)
    requires info.hash !in db.hashes
    requires StoreNewContent(db, disk, root, info, owner, folder, ids, now, unwritable).outcome.Ok?
    ensures var r := StoreNewContent(db, disk, root, info, owner, folder, ids, now, unwritable).db;
            && Links(r, ids.fileId, info, owner, folder)
            && (forall k :: k in db.files ==> k in r.files && r.files[k] == db.files[k])
            && (forall d :: d in db.hashes ==> d in r.hashes && r.hashes[d].id == db.hashes[d].id)
  {
    var r := StoreNewContent(db, disk, root, info, owner, folder, ids, now, unwritable).db;
    assert r.hashes == db.hashes[info.hash := NewHashRow(info, ids.hashId, now)];
    InsertedFileLinks(db, r, info, owner, folder, ids, now, ids.hashId);
  }

  /** `ProcessFileLinks` for known content. */
  lemma CountKnownLinks(db: Db, disk: Disk, info: UploadInfo, owner: Uuid, folder: Option<Uuid>,
                        ids: NewIds, now: Time)
    requires info.hash in db.hashes
    requires CountKnownContent(db, disk, info, owner, folder, ids, now).outcome.Ok?
    ensures var r := CountKnownContent(db, disk, info, owner, folder, ids, now).db;
            && Links(r, ids.fileId, info, owner, folder)
            && (forall k :: k in db.files ==> k in r.files && r.files[k] == db.files[k])
            && (forall d :: d in db.hashes ==> d in r.hashes && r.hashes[d].id == db.hashes[d].id)
  {
    var r := CountKnownContent(db, disk, info, owner, folder, ids, now).db;
    var row := db.hashes[info.hash];
    assert r.hashes == db.hashes[info.hash := row.(referenceCount := row.referenceCount + 1)];
    InsertedFileLinks(db, r, info, owner, folder, ids, now, row.id);
  }

  /** Adding the upload's file row under a free id links it, keeping every other file row. */
  lemma InsertedFileLinks(db: Db, r: Db, info: UploadInfo, owner: Uuid, folder: Option<Uuid>,
                          ids: NewIds, now: Time, hashId: Uuid)
    requires ids.fileId !in db.files
    requires r.files == db.files[ids.fileId := UploadedFile(info, owner, folder, ids, now, hashId)]
    requires info.hash in r.hashes && r.hashes[info.hash].id == hashId
    ensures Links(r, ids.fileId, info, owner, folder)
    ensures forall k :: k in db.files ==> k in r.files && r.files[k] == db.files[k]
  {
  }

  /**
   * The disk after a step: as it was, or with the upload's blob written. A
   * step that stores new content has written that blob.
   */
  lemma ProcessFileWrites(db: Db, disk: Disk, root: string, info: UploadInfo, owner: Uuid, folder: Option<Uuid>,
                          ids: NewIds, now: Time, unwritable: set<string>)
    ensures var r := ProcessFile(db, disk, root, info, owner, folder, ids, now, unwritable);
            && (r.disk == disk || r.disk == disk[BlobPath(root, info.hash) := info.content])
            && (r.outcome.Ok? ==> info.hash in r.db.hashes)
            && (r.outcome.Ok? && !r.outcome.value.isDuplicate ==> r.disk == disk[BlobPath(root, info.hash) := info.content])
  {
    if info.hash !in db.hashes {
      var step := StoreNewContent(db, disk, root, info, owner, folder, ids, now, unwritable);
      assert step.outcome.Ok? ==> step.outcome != Err(StorageWriteFailed);
    } else {
      var step := CountKnownContent(db, disk, info, owner, folder, ids, now);
      assert step.disk == disk;
    }
  }

  // ---------------------------------------------------------------- counting live references

  /** A new live file row adds one reference to the row it points at and none to any other. */
  lemma LiveRefsAdd(files: map<Uuid, File>, k: Uuid, f: File, hashId: Uuid)
    requires k !in files && !f.isDeleted
    ensures LiveRefs(files[k := f], hashId) == LiveRefs(files, hashId) + (if f.fileHashId == hashId then 1 else 0)
  {
    var before, after := LiveRefSet(files, hashId), LiveRefSet(files[k := f], hashId);
    if f.fileHashId == hashId {
      assert after == before + {k};
    } else {
      assert after == before;
    }
  }

  /** Marking a live file row deleted takes one reference from the row it points at and none from any other. */
  lemma LiveRefsRetire(files: map<Uuid, File>, k: Uuid, f: File, hashId: Uuid)
    requires k in files && !files[k].isDeleted && f.isDeleted && f.fileHashId == files[k].fileHashId
    ensures LiveRefs(files[k := f], hashId) == LiveRefs(files, hashId) - (if f.fileHashId == hashId then 1 else 0)
  {
    var before, after := LiveRefSet(files, hashId), LiveRefSet(files[k := f], hashId);
    if f.fileHashId == hashId {
      assert after == before - {k};
    } else {
      assert after == before;
    }
  }

  /** No live file points at an id that no hash row carries. */
  lemma NoLiveRefsToUnknownId(files: map<Uuid, File>, hashes: map<string, FileHash>, hashId: Uuid)
    requires LiveFilesResolve(files, hashes) && !HashIdTaken(hashes, hashId)
    ensures LiveRefs(files, hashId) == 0
  {
    forall k | k in files && !files[k].isDeleted ensures files[k].fileHashId != hashId {
      assert HashIdTaken(hashes, files[k].fileHashId);
    }
    assert LiveRefSet(files, hashId) == {};
  }

  // ---------------------------------------------------------------- the invariant under single changes

  /** A new row with its blob, on a path no other row uses, keeps every blob in place. */
  lemma RowsStoredAfterInsert(hashes: map<string, FileHash>, disk: Disk, root: string, sha: seq<byte> -> Digest,
                              h: string, row: FileHash, content: seq<byte>)
    requires RowsStored(hashes, disk, root, sha) && RowStored(root, disk[BlobPath(root, h) := content], sha, h, row)
    ensures RowsStored(hashes[h := row], disk[BlobPath(root, h) := content], root, sha)
  {
    var hashes2, disk2 := hashes[h := row], disk[BlobPath(root, h) := content];
    forall d | d in hashes2 ensures RowStored(root, disk2, sha, d, hashes2[d]) {
      if d != h {
        BlobPathInjective(root, d, h);
        assert RowStored(root, disk, sha, d, hashes[d]);
      }
    }
  }

  /** Adding a live file that points at an existing row keeps every live file resolving. */
  lemma ResolveAfterAdd(files: map<Uuid, File>, hashes: map<string, FileHash>, hashes2: map<string, FileHash>, k: Uuid, f: File)
    requires LiveFilesResolve(files, hashes) && HashIdTaken(hashes2, f.fileHashId)
    requires forall d :: d in hashes ==> d in hashes2 && hashes2[d].id == hashes[d].id
    ensures LiveFilesResolve(files[k := f], hashes2)
  {
    var files2 := files[k := f];
    forall j | j in files2 && !files2[j].isDeleted ensures HashIdTaken(hashes2, files2[j].fileHashId) {
      if j != k {
        var d :| d in hashes && hashes[d].id == files[j].fileHashId;
        assert hashes2[d].id == files2[j].fileHashId;
      }
    }
  }

  /** Adding a live file that points at row `h`, whose count rises by one, keeps every count exact. */
  lemma CountsAfterAdd(hashes: map<string, FileHash>, files: map<Uuid, File>, h: string, row: FileHash, k: Uuid, f: File)
    requires CountsExact(hashes, files) && RowIdsUnique(hashes[h := row])
    requires k !in files && !f.isDeleted && f.fileHashId == row.id
    requires row.referenceCount == LiveRefs(files, row.id) + 1
    ensures CountsExact(hashes[h := row], files[k := f])
  {
    var hashes2, files2 := hashes[h := row], files[k := f];
    forall d | d in hashes2 ensures hashes2[d].referenceCount == LiveRefs(files2, hashes2[d].id) {
      LiveRefsAdd(files, k, f, hashes2[d].id);
      if d != h {
        assert hashes2[d].id != hashes2[h].id;
      }
    }
  }

  /** Changing one row's count keeps every blob in place and every id unique. */
  lemma RecountKeepsRows(hashes: map<string, FileHash>, disk: Disk, root: string, sha: seq<byte> -> Digest, h: string, count: int)
    requires RowsStored(hashes, disk, root, sha) && RowIdsUnique(hashes) && h in hashes
    ensures var hashes2 := hashes[h := hashes[h].(referenceCount := count)];
            RowsStored(hashes2, disk, root, sha) && RowIdsUnique(hashes2)
  {
    var hashes2 := hashes[h := hashes[h].(referenceCount := count)];
    forall d | d in hashes2 ensures RowStored(root, disk, sha, d, hashes2[d]) {
      assert RowStored(root, disk, sha, d, hashes[d]);
    }
  }

  /** Inserting a row for new content, its blob, and one live file pointing at it. */
  lemma InsertNewContentKeepsValid(db: Db, disk: Disk, root: string, sha: seq<byte> -> Digest, h: string, row: FileHash,
                                   content: seq<byte>, k: Uuid, f: File)
    requires Valid(db, disk, root, sha)
    requires h !in db.hashes && !HashIdTaken(db.hashes, row.id)
    requires row.hash == h && h == ContentHash(sha(content)) && row.storagePath == BlobRelPath(h) && row.size == |content|
    requires row.referenceCount == 1
    requires k !in db.files && f.id == k && f.size >= 0 && !f.isDeleted && f.fileHashId == row.id
    ensures Valid(db.(hashes := db.hashes[h := row], files := db.files[k := f]), disk[BlobPath(root, h) := content], root, sha)
  {
    var hashes := db.hashes[h := row];
    RowsStoredAfterInsert(db.hashes, disk, root, sha, h, row, content);
    assert RowIdsUnique(hashes);
    assert HashIdTaken(hashes, row.id) by { assert hashes[h].id == row.id; }
    ResolveAfterAdd(db.files, db.hashes, hashes, k, f);
    NoLiveRefsToUnknownId(db.files, db.hashes, row.id);
    CountsAfterAdd(db.hashes, db.files, h, row, k, f);
  }

  /** Raising a row's count by one and adding one live file pointing at it. */
  lemma AddReferenceKeepsValid(db: Db, disk: Disk, root: string, sha: seq<byte> -> Digest, h: string, k: Uuid, f: File)
    requires Valid(db, disk, root, sha) && h in db.hashes
    requires k !in db.files && f.id == k && f.size >= 0 && !f.isDeleted && f.fileHashId == db.hashes[h].id
    ensures var row := db.hashes[h];
            Valid(db.(hashes := db.hashes[h := row.(referenceCount := row.referenceCount + 1)],
                      files := db.files[k := f]), disk, root, sha)
  {
    var row := db.hashes[h];
    var row2 := row.(referenceCount := row.referenceCount + 1);
    var hashes := db.hashes[h := row2];
    RecountKeepsRows(db.hashes, disk, root, sha, h, row.referenceCount + 1);
    assert HashIdTaken(hashes, f.fileHashId) by { assert hashes[h].id == f.fileHashId; }
    ResolveAfterAdd(db.files, db.hashes, hashes, k, f);
    CountsAfterAdd(db.hashes, db.files, h, row2, k, f);
  }

  lemma StoreNewContentKeepsValid(db: Db, disk: Disk, root: string, sha: seq<byte> -> Digest, info: UploadInfo, owner: Uuid,
                                   folder: Option<Uuid>, ids: NewIds, now: Time, unwritable: set<string>)
    requires Valid(db, disk, root, sha) && WellFormedInfo(info, sha) && info.hash !in db.hashes
    requires StoreNewContent(db, disk, root, info, owner, folder, ids, now, unwritable).outcome.Ok?
    ensures var r := StoreNewContent(db, disk, root, info, owner, folder, ids, now, unwritable);
            Valid(r.db, r.disk, root, sha)
  {
    var r := StoreNewContent(db, disk, root, info, owner, folder, ids, now, unwritable);
    var f := UploadedFile(info, owner, folder, ids, now, ids.hashId);
    var db2 := db.(hashes := db.hashes[info.hash := NewHashRow(info, ids.hashId, now)], files := db.files[ids.fileId := f]);
    assert r.db == db2;
    InsertNewContentKeepsValid(db, disk, root, sha, info.hash, NewHashRow(info, ids.hashId, now), info.content, ids.fileId, f);
  }

  lemma CountKnownContentKeepsValid(db: Db, disk: Disk, root: string, sha: seq<byte> -> Digest, info: UploadInfo, owner: Uuid,
                                    folder: Option<Uuid>, ids: NewIds, now: Time)
    requires Valid(db, disk, root, sha) && WellFormedInfo(info, sha) && info.hash in db.hashes
    requires CountKnownContent(db, disk, info, owner, folder, ids, now).outcome.Ok?
    ensures var r := CountKnownContent(db, disk, info, owner, folder, ids, now);
            Valid(r.db, r.disk, root, sha)
  {
    var r := CountKnownContent(db, disk, info, owner, folder, ids, now);
    var row := db.hashes[info.hash];
    var f := UploadedFile(info, owner, folder, ids, now, row.id);
    var db2 := db.(hashes := db.hashes[info.hash := row.(referenceCount := row.referenceCount + 1)],
                   files := db.files[ids.fileId := f]);
    assert r.db == db2;
    AddReferenceKeepsValid(db, disk, root, sha, info.hash, ids.fileId, f);
  }

  /** A successful `processFileUpload` keeps the engine consistent. */
  lemma ProcessFileKeepsValid(db: Db, disk: Disk, root: string, sha: seq<byte> -> Digest, info: UploadInfo, owner: Uuid,
                              folder: Option<Uuid>, ids: NewIds, now: Time, unwritable: set<string>)
    requires Valid(db, disk, root, sha) && WellFormedInfo(info, sha)
    requires ProcessFile(db, disk, root, info, owner, folder, ids, now, unwritable).outcome.Ok?
    ensures var r := ProcessFile(db, disk, root, info, owner, folder, ids, now, unwritable);
            Valid(r.db, r.disk, root, sha)
  {
    if info.hash in db.hashes {
      CountKnownContentKeepsValid(db, disk, root, sha, info, owner, folder, ids, now);
    } else {
      StoreNewContentKeepsValid(db, disk, root, sha, info, owner, folder, ids, now, unwritable);
    }
  }

  /** Restoring the tables of a snapshot after the disk grew keeps the snapshot consistent. */
  lemma RollbackKeepsValid(db: Db, disk: Disk, disk2: Disk, root: string, sha: seq<byte> -> Digest)
    requires Valid(db, disk, root, sha) && DiskKeeps(root, db.hashes, disk, disk2)
    ensures Valid(db, disk2, root, sha)
  {
    forall d | d in db.hashes ensures RowStored(root, disk2, sha, d, db.hashes[d]) {
      assert RowStored(root, disk, sha, d, db.hashes[d]);
    }
  }
}
