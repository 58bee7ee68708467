/**
 * `DeleteFile`: a soft delete of the file row, one reference taken from its
 * hash row, the hash row dropped when no reference is left, and the
 * uploader's counters lowered. The blob is never removed from the disk.
 */
module Deletion {

  import opened Wrappers
  import opened Text
  import opened Models
  import opened FileHelpers
  import opened Dedup

  datatype DeleteError = FileNotFound | HashRowMissing | AccountMissing

  /** The body of a successful delete: bytes released from the blob store, and the file's logical size. */
  datatype Freed = Freed(actual: int, logical: int)

  /** The tables after a delete, and its answer. */
  datatype Deletion = Deletion(db: Db, result: Result<Freed, DeleteError>)

  /** The file row marked deleted at `now`. */
  function Retired(f: File, now: Time): (g: File)
    ensures g.isDeleted && g.deletedAt == Some(now)
    ensures g.id == f.id && g.size == f.size && g.fileHashId == f.fileHashId && g.ownerId == f.ownerId
  {
    f.(isDeleted := true, deletedAt := Some(now), updatedAt := now)
  }

  /** The hash row after losing one reference: its count lowered, or the row gone when no reference is left. */
  function Release(hashes: map<string, FileHash>, h: string): (r: map<string, FileHash>)
    requires h in hashes
    ensures r.Keys <= hashes.Keys && forall d :: d in hashes && d != h ==> d in r && r[d] == hashes[d]
    ensures h in r <==> hashes[h].referenceCount > 1
    ensures h in r ==> r[h] == hashes[h].(referenceCount := hashes[h].referenceCount - 1)
  {
    var newCount := hashes[h].referenceCount - 1;
    if newCount <= 0 then hashes - {h} else hashes[h := hashes[h].(referenceCount := newCount)]
  }

  /**
   * `DeleteFile` inside its transaction. The hash row is looked up by its
   * primary key; the uploader's quota counter drops by the file's logical
   * size, the physical counter by the bytes actually released.
   */
  ghost function DeleteSpec(db: Db, user: Uuid, fileId: Uuid, now: Time): (d: Deletion)
    ensures d.result.Err? ==> d.db == db
    ensures d.db.folders == db.folders && d.db.users.Keys == db.users.Keys
  {
    if !OwnedLive(db, user, fileId) then Deletion(db, Err(FileNotFound))
    else
      var f := db.files[fileId];
      match RowKeyWithId(db.hashes, f.fileHashId)
      case None => Deletion(db, Err(HashRowMissing))
      case Some(h) =>
        var freed := if db.hashes[h].referenceCount - 1 <= 0 then f.size else 0;
        if user !in db.users then Deletion(db, Err(AccountMissing))
        else
          var u := db.users[user];
          var account := u.(storageUsed := u.storageUsed - f.size, actualStorageBytes := u.actualStorageBytes - freed);
          Deletion(Db(Release(db.hashes, h), db.files[fileId := Retired(f, now)], db.users[user := account], db.folders),
                   Ok(Freed(freed, f.size)))
  }

  /** Only a live file of the caller's can be deleted; anything else is "not found" and changes nothing. */
  lemma DeleteNotFound(db: Db, user: Uuid, fileId: Uuid, now: Time)
    ensures var d := DeleteSpec(db, user, fileId, now);
            d.result == Err(FileNotFound) <==> !OwnedLive(db, user, fileId)
  {
  }

  /**
   * A delete that gets through marks the file deleted at `now`, takes one
   * reference from its hash row and drops the row when none is left, and
   * frees the file's bytes from the blob store exactly when the row goes.
   * No other file or hash row changes.
   */
  lemma DeleteReleases(db: Db, user: Uuid, fileId: Uuid, now: Time)
    requires RowIdsUnique(db.hashes)
    ensures var d := DeleteSpec(db, user, fileId, now);
            d.result.Ok? ==>
              var f := db.files[fileId];
              exists h :: h in db.hashes && db.hashes[h].id == f.fileHashId
                && d.db.files == db.files[fileId := Retired(f, now)]
                && d.db.hashes == Release(db.hashes, h)
                && d.result.value.logical == f.size
                && (h !in d.db.hashes <==> db.hashes[h].referenceCount <= 1)
                && d.result.value.actual == (if h in d.db.hashes then 0 else f.size)
  {
  }

  /**
   * A delete that gets through lowers the quota counter by the file's
   * logical size and the physical counter by the bytes freed; the two
   * counters therefore drift apart by the size of a file whose content
   * stays referenced.
   */
  lemma DeleteCharges(db: Db, user: Uuid, fileId: Uuid, now: Time)
    ensures var d := DeleteSpec(db, user, fileId, now);
            d.result.Ok? ==>
              var before, after, freed := db.users[user], d.db.users[user], d.result.value;
              && user in db.users
              && after.storageUsed == before.storageUsed - freed.logical
              && after.actualStorageBytes == before.actualStorageBytes - freed.actual
              && after.totalUploadedBytes == before.totalUploadedBytes
              && after.savedBytes == before.savedBytes
              && (after.storageUsed - after.actualStorageBytes)
                 == (before.storageUsed - before.actualStorageBytes) - (freed.logical - freed.actual)
  {
  }

  // ---------------------------------------------------------------- the invariant

  /** Releasing one reference keeps every remaining row's blob, key and id. */
  lemma ReleaseKeepsRows(hashes: map<string, FileHash>, disk: Disk, root: string, sha: seq<byte> -> Digest, h: string)
    requires h in hashes && RowsStored(hashes, disk, root, sha) && RowIdsUnique(hashes)
    ensures RowsStored(Release(hashes, h), disk, root, sha) && RowIdsUnique(Release(hashes, h))
  {
    var r := Release(hashes, h);
    forall d | d in r ensures RowStored(root, disk, sha, d, r[d]) {
      assert RowStored(root, disk, sha, d, hashes[d]);
    }
    forall d1, d2 | d1 in r && d2 in r && r[d1].id == r[d2].id ensures d1 == d2 {
      assert hashes[d1].id == hashes[d2].id;
    }
  }

  /** After the release, every live file still resolves: a dropped row had no live file left. */
  lemma ReleaseKeepsResolve(files: map<Uuid, File>, hashes: map<string, FileHash>, h: string)
    requires h in hashes && LiveFilesResolve(files, hashes) && RowIdsUnique(hashes)
    requires hashes[h].referenceCount <= 1 ==> LiveRefs(files, hashes[h].id) == 0
    ensures LiveFilesResolve(files, Release(hashes, h))
  {
    var r := Release(hashes, h);
    forall k | k in files && !files[k].isDeleted ensures HashIdTaken(r, files[k].fileHashId) {
      var id := files[k].fileHashId;
      var d :| d in hashes && hashes[d].id == id;
      assert k in LiveRefSet(files, id);
      assert d in r && r[d].id == id;
    }
  }

  /** After the release, each remaining row counts the live files of the new file table. */
  lemma ReleaseKeepsCounts(files: map<Uuid, File>, hashes: map<string, FileHash>, fileId: Uuid, g: File, h: string)
    requires h in hashes && RowIdsUnique(hashes) && CountsExact(hashes, files)
    requires fileId in files && !files[fileId].isDeleted && g.isDeleted
    requires g.fileHashId == files[fileId].fileHashId == hashes[h].id
    ensures CountsExact(Release(hashes, h), files[fileId := g])
  {
    var r := Release(hashes, h);
    forall d | d in r ensures r[d].referenceCount == LiveRefs(files[fileId := g], r[d].id) {
      LiveRefsRetire(files, fileId, g, r[d].id);
      if d != h {
        assert hashes[d].id != hashes[h].id;
      }
    }
  }

  /** A delete that gets through keeps the engine consistent, with the disk untouched. */
  lemma DeleteKeepsValid(db: Db, disk: Disk, root: string, sha: seq<byte> -> Digest, user: Uuid, fileId: Uuid, now: Time)
    requires Valid(db, disk, root, sha)
    ensures Valid(DeleteSpec(db, user, fileId, now).db, disk, root, sha)
  {
    var d := DeleteSpec(db, user, fileId, now);
    if d.result.Ok? {
      var f := db.files[fileId];
      var h := RowKeyWithId(db.hashes, f.fileHashId).value;
      var g := Retired(f, now);
      ReleaseKeepsRows(db.hashes, disk, root, sha, h);
      LiveRefsRetire(db.files, fileId, g, f.fileHashId);
      ReleaseKeepsResolve(db.files[fileId := g], db.hashes, h);
      ReleaseKeepsCounts(db.files, db.hashes, fileId, g, h);
      assert d.db.files == db.files[fileId := g];
    }
  }
}
