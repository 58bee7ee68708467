/**
 * `FileHandler`: the handler object the routes call, holding the database
 * and the blob store it changes in place. Each method does its work step by
 * step as the handler does, and is proved to compute the value-level
 * function of `Dedup`, `Uploads`, `Deletion` or `Viewing` that the
 * properties are stated about.
 */
module Handlers {

  import opened Wrappers
  import opened Text
  import opened Models
  import opened FileHelpers
  import opened Dedup
  import opened Uploads
  import opened Deletion
  import opened Viewing

  class FileHandler {
    /** The tables, as the transaction in progress sees them. */
    var db: Db
    /** The blob store under the storage root. */
    var disk: Disk
    const cfg: Config
    const orc: Oracles

    constructor (db0: Db, disk0: Disk, cfg0: Config, orc0: Oracles)
      ensures db == db0 && disk == disk0 && cfg == cfg0 && orc == orc0
    {
      db, disk, cfg, orc := db0, disk0, cfg0, orc0;
    }

    /**
     * `processFileUpload`: look the digest up; write the blob and insert a
     * row for new content, or raise the row's count for known content; then
     * insert the file row.
     */
    method ProcessFileUpload(info: UploadInfo, owner: Uuid, folder: Option<Uuid>, ids: NewIds, now: Time,
                             unwritable: set<string>) returns (outcome: Result<FileResult, ProcessError>)
      modifies this
      ensures Step(db, disk, outcome) == ProcessFile(old(db), old(disk), cfg.storageRoot, info, owner, folder, ids, now, unwritable)
    {
      if info.hash !in db.hashes {
        outcome := StoreNew(info, owner, folder, ids, now, unwritable);
      } else {
        outcome := CountKnown(info, owner, folder, ids, now);
      }
    }

    /** New content: the blob written to its canonical path, a row with count 1, then the file row. */
    method StoreNew(info: UploadInfo, owner: Uuid, folder: Option<Uuid>, ids: NewIds, now: Time,
                    unwritable: set<string>) returns (outcome: Result<FileResult, ProcessError>)
      requires info.hash !in db.hashes
      modifies this
      ensures Step(db, disk, outcome)
              == StoreNewContent(old(db), old(disk), cfg.storageRoot, info, owner, folder, ids, now, unwritable)
    {
      var fullStoragePath := BlobPath(cfg.storageRoot, info.hash);
      if fullStoragePath in unwritable {
        return Err(StorageWriteFailed);
      }
      disk := disk[fullStoragePath := info.content];
      if HashIdTaken(db.hashes, ids.hashId) {
        return Err(HashCreateFailed);
      }
      db := db.(hashes := db.hashes[info.hash := NewHashRow(info, ids.hashId, now)]);
      outcome := CreateFileRecord(info, owner, folder, ids, now, true, ids.hashId);
    }

    /** Known content: the row's count raised by one, then the file row. */
    method CountKnown(info: UploadInfo, owner: Uuid, folder: Option<Uuid>, ids: NewIds, now: Time)
        returns (outcome: Result<FileResult, ProcessError>)
      requires info.hash in db.hashes
      modifies this
      ensures Step(db, disk, outcome) == CountKnownContent(old(db), old(disk), info, owner, folder, ids, now)
    {
      var existing := db.hashes[info.hash];
      db := db.(hashes := db.hashes[info.hash := existing.(referenceCount := existing.referenceCount + 1)]);
      outcome := CreateFileRecord(info, owner, folder, ids, now, false, existing.id);
    }

    /** The file-row half of `processFileUpload`: insert the row, or on a clash take back the count a new row got. */
    method CreateFileRecord(info: UploadInfo, owner: Uuid, folder: Option<Uuid>, ids: NewIds, now: Time,
                            isNewContent: bool, hashId: Uuid) returns (outcome: Result<FileResult, ProcessError>)
      requires info.hash in db.hashes
      modifies this
      ensures Step(db, disk, outcome) == CreateRecord(old(db), old(disk), info, owner, folder, ids, now, isNewContent, hashId)
    {
      var fileRecord := UploadedFile(info, owner, folder, ids, now, hashId);
      if ids.fileId in db.files {
        if isNewContent {
          var row := db.hashes[info.hash];
          db := db.(hashes := db.hashes[info.hash := row.(referenceCount := row.referenceCount - 1)]);
        }
        return Err(RecordCreateFailed);
      }
      db := db.(files := db.files[ids.fileId := fileRecord]);
      var savedBytes, actualStorageUsed := 0, 0;
      if !isNewContent {
        savedBytes := info.size;
      } else {
        actualStorageUsed := info.size;
      }
      outcome := Ok(FileResult(fileRecord.id, fileRecord.filename, info.filename, info.size, info.mimeType,
                               info.hash, !isNewContent, savedBytes, actualStorageUsed, info.warning));
    }

    /** `updateUserStorageStats`: the uploader's four counters raised in place; a missing row is an error. */
    method UpdateUserStorageStats(user: Uuid, uploaded: int, actual: int, saved: int) returns (ok: bool)
      modifies this
      ensures disk == old(disk)
      ensures ok <==> user in old(db.users)
      ensures ok ==> db == old(db).(users := ChargeUser(old(db.users), user, uploaded, actual, saved).value)
      ensures !ok ==> db == old(db)
    {
      if user !in db.users {
        return false;
      }
      var account := db.users[user];
      account := account.(totalUploadedBytes := account.totalUploadedBytes + uploaded);
      account := account.(actualStorageBytes := account.actualStorageBytes + actual);
      account := account.(storageUsed := account.storageUsed + actual);
      account := account.(savedBytes := account.savedBytes + saved);
      db := db.(users := db.users[user := account]);
      ok := true;
    }

    /** One turn of the validation loop: the size limit, the MIME validator, then the allow-list when one is configured. */
    method CheckOne(part: Part) returns (r: Result<UploadInfo, UploadError>)
      ensures r == CheckPart(part, cfg, orc)
    {
      var fileSize := |part.content|;
      if fileSize > cfg.maxFileSize {
        return Err(FileTooLarge(part.filename));
      }
      var declaredMimeType := part.declaredType;
      if declaredMimeType == "" {
        declaredMimeType := DefaultMimeType;
      }
      var verdict := orc.validate(part.content, declaredMimeType, part.filename);
      if !verdict.isValid {
        return Err(InvalidFileType(part.filename));
      }
      if |cfg.allowedMimeTypes| > 0 && !orc.isAllowed(verdict.actualType, cfg.allowedMimeTypes) {
        return Err(FileTypeNotAllowed(part.filename));
      }
      r := Ok(UploadInfo(part.filename, part.content, fileSize, ContentHash(orc.sha(part.content)),
                         verdict.actualType, verdict.warning));
    }

    /**
     * The validation loop of `UploadFile`: every part checked in order,
     * stopping at the first failure, with the running total of the sizes.
     */
    method ValidateParts(parts: seq<Part>) returns (checked: Result<seq<UploadInfo>, UploadError>, totalSize: int)
      ensures checked == CheckParts(parts, cfg, orc)
      ensures checked.Ok? ==> totalSize == TotalSize(checked.value)
    {
      var uploadFiles: seq<UploadInfo> := [];
      totalSize := 0;
      for i := 0 to |parts|
        invariant CheckParts(parts[..i], cfg, orc) == Ok(uploadFiles)
        invariant totalSize == TotalSize(uploadFiles)
      {
        assert parts[..i + 1][..i] == parts[..i];
        var r := CheckOne(parts[i]);
        if r.Err? {
          assert CheckParts(parts[..i + 1], cfg, orc) == Err(r.error);
          CheckPartsStops(parts, cfg, orc, i + 1);
          return Err(r.error), totalSize;
        }
        assert (uploadFiles + [r.value])[..i] == uploadFiles;
        uploadFiles := uploadFiles + [r.value];
        totalSize := totalSize + r.value.size;
      }
      assert parts[..|parts|] == parts;
      checked := Ok(uploadFiles);
    }

    /**
     * The processing loop inside the transaction: one `processFileUpload`
     * per upload, in order, with the totals the handler keeps, stopping at
     * the first step that fails.
     */
    method ProcessAll(infos: seq<UploadInfo>, owner: Uuid, folder: Option<Uuid>, ids: seq<NewIds>, now: Time,
                      unwritable: set<string>)
        returns (results: seq<FileResult>, totalSaved: int, totalActual: int, totalUploaded: int, failure: Option<Failure>)
      requires |infos| == |ids|
      modifies this
      ensures Batch(db, disk, results, failure)
              == RunUploads(old(db), old(disk), cfg.storageRoot, infos, owner, folder, ids, now, unwritable)
      ensures failure.None? ==>
                totalSaved == TotalSaved(results) && totalActual == TotalActual(results) && totalUploaded == TotalSize(infos)
    {
      ghost var db0, disk0, root := db, disk, cfg.storageRoot;
      results, totalSaved, totalActual, totalUploaded, failure := [], 0, 0, 0, None;
      for i := 0 to |infos|
        invariant Batch(db, disk, results, None) == Processed(db0, disk0, root, infos, owner, folder, ids, now, unwritable, i)
        invariant totalSaved == TotalSaved(results) && totalActual == TotalActual(results)
        invariant totalUploaded == TotalSize(infos[..i])
      {
        var outcome := ProcessFileUpload(infos[i], owner, folder, ids[i], now, unwritable);
        ProcessedNext(db0, disk0, root, infos, owner, folder, ids, now, unwritable, i, Step(db, disk, outcome));
        if outcome.Err? {
          failure := Some(Failure(infos[i].filename, outcome.error));
          return;
        }
        TotalsAppend(results, outcome.value);
        TotalSizeNext(infos, i);
        results := results + [outcome.value];
        totalSaved := totalSaved + outcome.value.savedBytes;
        totalActual := totalActual + outcome.value.actualStorageUsed;
        totalUploaded := totalUploaded + infos[i].size;
      }
      assert infos[..|infos|] == infos;
    }

    /** The `"<name>: <warning>"` lines of the response, in upload order. */
    method CollectWarnings(infos: seq<UploadInfo>) returns (warnings: seq<string>)
      ensures warnings == Warnings(infos)
    {
      warnings := [];
      for i := 0 to |infos|
        invariant warnings == Warnings(infos[..i])
      {
        assert infos[..i + 1][..i] == infos[..i];
        if infos[i].warning != "" {
          warnings := warnings + [WarningLine(infos[i])];
        }
      }
      assert infos[..|infos|] == infos;
    }

    /**
     * The transaction of `UploadFile`: the processing loop and the charge,
     * the tables restored when either fails, and the response built on
     * commit.
     */
    method Transaction(user: Uuid, folder: Option<Uuid>, infos: seq<UploadInfo>, ids: seq<NewIds>, now: Time,
                       unwritable: set<string>) returns (result: Result<UploadResponse, UploadError>)
      requires |infos| == |ids|
      modifies this
      ensures Upload(db, disk, result) == Transact(old(db), old(disk), cfg.storageRoot, user, folder, infos, ids, now, unwritable)
    {
      var snapshot := db;
      var results, totalSaved, totalActual, totalUploaded, failure := ProcessAll(infos, user, folder, ids, now, unwritable);
      if failure.Some? {
        db := snapshot;
        return Err(ProcessFailed(failure.value.filename, failure.value.cause));
      }
      var ok := UpdateUserStorageStats(user, totalUploaded, totalActual, totalSaved);
      if !ok {
        db := snapshot;
        return Err(StatsUpdateFailed);
      }
      var warnings := CollectWarnings(infos);
      result := Ok(UploadResponse(results, totalUploaded, totalSaved, warnings));
    }

    /**
     * `UploadFile` from the folder parameter on: the target folder, the
     * parts, the uploader's row, the validation loop, the quota pre-check
     * on logical sizes, then the transaction.
     */
    method UploadFile(user: Uuid, folderParam: string, parts: seq<Part>, ids: seq<NewIds>, now: Time,
                      unwritable: set<string>) returns (result: Result<UploadResponse, UploadError>)
      requires |ids| == |parts|
      modifies this
      ensures Upload(db, disk, result)
              == UploadSpec(old(db), old(disk), cfg, orc, user, folderParam, parts, ids, now, unwritable)
    {
      var target := UploadFolderTarget(folderParam);
      if target.InFolder? && !(target.id in db.folders && db.folders[target.id] == user) {
        return Err(FolderNotFound);
      }
      if |parts| == 0 {
        return Err(NoFiles);
      }
      if user !in db.users {
        return Err(UserNotFound);
      }
      var account := db.users[user];
      var checked, totalSize := ValidateParts(parts);
      if checked.Err? {
        return Err(checked.error);
      }
      if account.storageUsed + totalSize > account.storageQuota {
        return Err(QuotaExceeded);
      }
      result := Transaction(user, FolderOf(target), checked.value, ids, now, unwritable);
    }

    /**
     * `DeleteFile`: find the caller's live file, then inside a transaction
     * mark it deleted, lower its hash row's count and drop the row when no
     * reference is left, and lower the caller's counters. A failure after
     * the file was found restores the tables. The hash row is found by its
     * primary key, which the schema keeps unique.
     */
    method DeleteFile(user: Uuid, fileId: Uuid, now: Time) returns (result: Result<Freed, DeleteError>)
      requires RowIdsUnique(db.hashes)
      modifies this
      ensures disk == old(disk)
      ensures Deletion(db, result) == DeleteSpec(old(db), user, fileId, now)
    {
      if !OwnedLive(db, user, fileId) {
        return Err(DeleteError.FileNotFound);
      }
      var file := db.files[fileId];
      var snapshot := db;
      db := db.(files := db.files[fileId := file.(isDeleted := true, deletedAt := Some(now), updatedAt := now)]);
      if !HashIdTaken(db.hashes, file.fileHashId) {
        db := snapshot;
        return Err(DeleteError.HashRowMissing);
      }
      var h :| h in db.hashes && db.hashes[h].id == file.fileHashId;
      RowKeyWithIdUnique(db.hashes, h);
      var actualStorageFreed := ReleaseReference(h, file.size);
      if user !in db.users {
        db := snapshot;
        return Err(AccountMissing);
      }
      var account := db.users[user];
      account := account.(storageUsed := account.storageUsed - file.size,
                          actualStorageBytes := account.actualStorageBytes - actualStorageFreed);
      db := db.(users := db.users[user := account]);
      result := Ok(Freed(actualStorageFreed, file.size));
    }

    /** One reference taken from the hash row `h`, the row dropped when none is left; the file's bytes count as freed then. */
    method ReleaseReference(h: string, size: int) returns (freed: int)
      requires h in db.hashes
      modifies this
      ensures disk == old(disk)
      ensures db == old(db).(hashes := Release(old(db.hashes), h))
      ensures freed == if old(db.hashes)[h].referenceCount - 1 <= 0 then size else 0
    {
      var fileHash := db.hashes[h];
      var newRefCount := fileHash.referenceCount - 1;
      db := db.(hashes := db.hashes[h := fileHash.(referenceCount := newRefCount)]);
      freed := 0;
      if newRefCount <= 0 {
        db := db.(hashes := db.hashes - {h});
        freed := size;
        assert db.hashes == old(db.hashes) - {h};
      }
    }

    /**
     * `ViewFile`: the caller's live file, its hash row by primary key, then
     * the canonical blob path or else the legacy path named after the file.
     */
    method ViewFile(user: Uuid, fileId: Uuid) returns (r: Result<Served, ViewError>)
      requires RowIdsUnique(db.hashes)
      ensures r == ViewSpec(db, disk, cfg.storageRoot, user, fileId)
    {
      if !OwnedLive(db, user, fileId) {
        return Err(ViewError.FileNotFound);
      }
      var file := db.files[fileId];
      if !HashIdTaken(db.hashes, file.fileHashId) {
        return Err(ViewError.HashRowMissing);
      }
      var h :| h in db.hashes && db.hashes[h].id == file.fileHashId;
      RowKeyWithIdUnique(db.hashes, h);
      var filePath := Join(cfg.storageRoot, db.hashes[h].storagePath);
      if filePath !in disk {
        var legacyFilePath := Join(cfg.storageRoot, file.id);
        if legacyFilePath !in disk {
          return Err(NotOnDisk);
        }
        filePath := legacyFilePath;
      }
      r := Ok(Served(filePath, disk[filePath], file.mimeType, file.originalFilename));
    }
  }
}
