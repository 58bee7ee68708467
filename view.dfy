/**
 * `ViewFile`: the caller's live file is looked up, then its hash row by
 * primary key, then its bytes at the row's canonical path or, failing
 * that, at the legacy path named after the file id.
 */
module Viewing {

  import opened Wrappers
  import opened Text
  import opened Models
  import opened FileHelpers
  import opened Dedup
  import opened Uploads

  datatype ViewError = FileNotFound | HashRowMissing | NotOnDisk

  /** What the handler streams back: the file it read, and the headers it sets from the file row. */
  datatype Served = Served(path: string, content: seq<byte>, mimeType: string, filename: string)

  /** `ViewFile` on the tables and the disk. */
  ghost function ViewSpec(db: Db, disk: Disk, root: string, user: Uuid, fileId: Uuid): (r: Result<Served, ViewError>)
    ensures r.Ok? ==> r.value.path in disk && r.value.content == disk[r.value.path]
    ensures r.Ok? ==> OwnedLive(db, user, fileId) && r.value.mimeType == db.files[fileId].mimeType
                      && r.value.filename == db.files[fileId].originalFilename
  {
    if !OwnedLive(db, user, fileId) then Err(FileNotFound)
    else
      var f := db.files[fileId];
      match RowKeyWithId(db.hashes, f.fileHashId)
      case None => Err(HashRowMissing)
      case Some(h) =>
        match ServedPath(disk, root, db.hashes[h].storagePath, f.id)
        case None => Err(NotOnDisk)
        case Some(p) => Ok(Served(p, disk[p], f.mimeType, f.originalFilename))
  }

  /** Only a live file of the caller's is found; a hash row that is gone is a server error, a missing blob a 404. */
  lemma ViewErrors(db: Db, disk: Disk, root: string, user: Uuid, fileId: Uuid)
    ensures var r := ViewSpec(db, disk, root, user, fileId);
            && (r == Err(FileNotFound) <==> !OwnedLive(db, user, fileId))
            && (r == Err(HashRowMissing) <==>
                  OwnedLive(db, user, fileId) && !HashIdTaken(db.hashes, db.files[fileId].fileHashId))
  {
  }

  /**
   * In a consistent engine every live file is served, from the canonical
   * blob of the row it points at, and the bytes served are that row's
   * content: their digest is the row's hash and their length its size.
   */
  lemma ViewServesCanonical(db: Db, disk: Disk, root: string, sha: seq<byte> -> Digest, user: Uuid, fileId: Uuid)
    requires Valid(db, disk, root, sha) && OwnedLive(db, user, fileId)
    ensures var r := ViewSpec(db, disk, root, user, fileId);
            && r.Ok?
            && exists h :: h in db.hashes && db.hashes[h].id == db.files[fileId].fileHashId
                 && r.value.path == BlobPath(root, h)
                 && ContentHash(sha(r.value.content)) == h
                 && |r.value.content| == db.hashes[h].size
  {
    var f := db.files[fileId];
    assert HashIdTaken(db.hashes, f.fileHashId);
    var h := RowKeyWithId(db.hashes, f.fileHashId).value;
    assert RowStored(root, disk, sha, h, db.hashes[h]);
  }

  /**
   * The round trip of the service: after an upload gets through, viewing
   * the file made for part `i` serves bytes with the digest of that part's
   * bytes, under the part's file name, whether the part was stored or
   * deduplicated against content already on disk.
   */
  lemma UploadThenView(db: Db, disk: Disk, cfg: Config, orc: Oracles, user: Uuid, folderParam: string,
                       parts: seq<Part>, ids: seq<NewIds>, now: Time, unwritable: set<string>, i: nat)
    requires |ids| == |parts| && i < |parts| && Valid(db, disk, cfg.storageRoot, orc.sha)
    ensures var u := UploadSpec(db, disk, cfg, orc, user, folderParam, parts, ids, now, unwritable);
            u.result.Ok? ==>
              var r := ViewSpec(u.db, u.disk, cfg.storageRoot, user, ids[i].fileId);
              && r.Ok?
              && ContentHash(orc.sha(r.value.content)) == ContentHash(orc.sha(parts[i].content))
              && r.value.filename == parts[i].filename
  {
    var u := UploadSpec(db, disk, cfg, orc, user, folderParam, parts, ids, now, unwritable);
    if u.result.Ok? {
      var root := cfg.storageRoot;
      var target := UploadFolderTarget(folderParam);
      CheckedUploads(parts, cfg, orc);
      var infos := CheckParts(parts, cfg, orc).value;
      assert u == Transact(db, disk, root, user, FolderOf(target), infos, ids, now, unwritable);
      TransactLinks(db, disk, root, user, FolderOf(target), infos, ids, now, unwritable);
      UploadKeepsValid(db, disk, cfg, orc, user, folderParam, parts, ids, now, unwritable);
      assert Links(u.db, ids[i].fileId, infos[i], user, FolderOf(target));
      ViewServesCanonical(u.db, u.disk, root, orc.sha, user, ids[i].fileId);
      var h :| h in u.db.hashes && u.db.hashes[h].id == u.db.files[ids[i].fileId].fileHashId
               && ContentHash(orc.sha(ViewSpec(u.db, u.disk, root, user, ids[i].fileId).value.content)) == h;
      assert h == infos[i].hash;
    }
  }

  /** No content in `contents` other than `c` itself has the digest of `c`. */
  predicate DigestUnique(sha: seq<byte> -> Digest, contents: set<seq<byte>>, c: seq<byte>) {
    forall p :: p in contents && sha(p) == sha(c) ==> p == c
  }

  /**
   * The round trip is exact when no other content on the disk or in the
   * upload shares part `i`'s digest: part `i`'s own bytes are served.
   */
  lemma UploadThenViewExact(db: Db, disk: Disk, cfg: Config, orc: Oracles, user: Uuid, folderParam: string,
                            parts: seq<Part>, ids: seq<NewIds>, now: Time, unwritable: set<string>, i: nat)
    requires |ids| == |parts| && i < |parts| && Valid(db, disk, cfg.storageRoot, orc.sha)
    requires DigestUnique(orc.sha, disk.Values + PartContents(parts), parts[i].content)
    ensures var u := UploadSpec(db, disk, cfg, orc, user, folderParam, parts, ids, now, unwritable);
            u.result.Ok? ==> ViewSpec(u.db, u.disk, cfg.storageRoot, user, ids[i].fileId).Ok?
                             && ViewSpec(u.db, u.disk, cfg.storageRoot, user, ids[i].fileId).value.content == parts[i].content
  {
    var u := UploadSpec(db, disk, cfg, orc, user, folderParam, parts, ids, now, unwritable);
    UploadThenView(db, disk, cfg, orc, user, folderParam, parts, ids, now, unwritable, i);
    if u.result.Ok? {
      var r := ViewSpec(u.db, u.disk, cfg.storageRoot, user, ids[i].fileId).value;
      ContentHashInjective(orc.sha(r.content), orc.sha(parts[i].content));
      UploadDiskContents(db, disk, cfg, orc, user, folderParam, parts, ids, now, unwritable);
      assert r.content in u.disk.Values;
    }
  }
}
