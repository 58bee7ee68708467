/**
 * An upload request from start to end: where the files go, the checks every
 * part passes before anything is written, the quota pre-check, the batch of
 * `processFileUpload` steps inside one transaction, and the charge to the
 * uploader's counters.
 */
module Uploads {

  import opened Wrappers
  import opened Text
  import opened Models
  import opened FileHelpers
  import opened Dedup

  /** One part of the multipart form: its name, its bytes and the `Content-Type` it declared. */
  datatype Part = Part(filename: string, content: seq<byte>, declaredType: string)

  /** The bytes of the parts. */
  function PartContents(parts: seq<Part>): set<seq<byte>> {
    set j | 0 <= j < |parts| :: parts[j].content
  }

  /** What the MIME validator says about some bytes. */
  datatype MimeVerdict = MimeVerdict(isValid: bool, actualType: string, warning: string)

  /**
   * The code the engine calls but that is not part of this model: SHA-256,
   * the MIME validator and its allow-list test.
   */
  datatype Oracles = Oracles(
    sha: seq<byte> -> Digest,
    validate: (seq<byte>, string, string) -> MimeVerdict,
    isAllowed: (string, seq<string>) -> bool)

  /** The handler's configuration. */
  datatype Config = Config(storageRoot: string, maxFileSize: int, allowedMimeTypes: seq<string>)

  datatype UploadError =
    | FolderNotFound
    | NoFiles
    | UserNotFound
    | FileTooLarge(filename: string)
    | InvalidFileType(filename: string)
    | FileTypeNotAllowed(filename: string)
    | QuotaExceeded
    | ProcessFailed(filename: string, cause: ProcessError)
    | StatsUpdateFailed

  /** The body of a successful upload. */
  datatype UploadResponse = UploadResponse(
    files: seq<FileResult>,
    totalSize: int,
    totalSavedBytes: int,
    warnings: seq<string>)

  /** The tables and the disk after a request, and its answer. */
  datatype Upload = Upload(db: Db, disk: Disk, result: Result<UploadResponse, UploadError>)

  /** A failed step of a batch: the file it was processing and why. */
  datatype Failure = Failure(filename: string, cause: ProcessError)

  /** The state inside the transaction after some steps, the results so far, and the first failure if any. */
  datatype Batch = Batch(db: Db, disk: Disk, results: seq<FileResult>, failure: Option<Failure>)

  // ---------------------------------------------------------------- checking the parts

  const DefaultMimeType := "application/octet-stream"

  /** The declared type, or the generic binary type when none was declared. */
  function DeclaredType(p: Part): (t: string)
    ensures t != ""
    ensures p.declaredType != "" ==> t == p.declaredType
  {
    if p.declaredType == "" then DefaultMimeType else p.declaredType
  }

  /**
   * One part through the checks of the validation loop: size, then MIME
   * validity, then the allow-list when one is configured. A part that passes
   * becomes an upload carrying its size and the hex digest of its bytes.
   */
  function CheckPart(p: Part, cfg: Config, orc: Oracles): (r: Result<UploadInfo, UploadError>)
    ensures |p.content| > cfg.maxFileSize ==> r == Err(FileTooLarge(p.filename))
    ensures r.Ok? ==>
      && |p.content| <= cfg.maxFileSize
      && WellFormedInfo(r.value, orc.sha)
      && r.value.filename == p.filename && r.value.content == p.content
      && orc.validate(p.content, DeclaredType(p), p.filename).isValid
      && r.value.mimeType == orc.validate(p.content, DeclaredType(p), p.filename).actualType
      && r.value.warning == orc.validate(p.content, DeclaredType(p), p.filename).warning
      && (|cfg.allowedMimeTypes| > 0 ==> orc.isAllowed(r.value.mimeType, cfg.allowedMimeTypes))
    ensures r.Err? ==> r.error.FileTooLarge? || r.error.InvalidFileType? || r.error.FileTypeNotAllowed?
  {
    if |p.content| > cfg.maxFileSize then Err(FileTooLarge(p.filename))
    else
      var verdict := orc.validate(p.content, DeclaredType(p), p.filename);
      if !verdict.isValid then Err(InvalidFileType(p.filename))
      else if |cfg.allowedMimeTypes| > 0 && !orc.isAllowed(verdict.actualType, cfg.allowedMimeTypes) then
        Err(FileTypeNotAllowed(p.filename))
      else
        Ok(UploadInfo(p.filename, p.content, |p.content|, ContentHash(orc.sha(p.content)), verdict.actualType, verdict.warning))
  }

  /** The validation loop: the parts in order, stopping at the first that fails. */
  function CheckParts(parts: seq<Part>, cfg: Config, orc: Oracles): (r: Result<seq<UploadInfo>, UploadError>)
    ensures r.Ok? ==> |r.value| == |parts|
    decreases |parts|
  {
    if |parts| == 0 then Ok([])
    else
      var n := |parts| - 1;
      match CheckParts(parts[..n], cfg, orc)
      case Err(e) => Err(e)
      case Ok(infos) =>
        match CheckPart(parts[n], cfg, orc)
        case Err(e) => Err(e)
        case Ok(info) => Ok(infos + [info])
  }

  /** The validation loop stops at the first failing part: a failing prefix decides the answer. */
  lemma {:induction false} CheckPartsStops(parts: seq<Part>, cfg: Config, orc: Oracles, k: nat)
    requires k <= |parts| && CheckParts(parts[..k], cfg, orc).Err?
    ensures CheckParts(parts, cfg, orc) == CheckParts(parts[..k], cfg, orc)
    decreases |parts|
  {
    if k < |parts| {
      var n := |parts| - 1;
      assert parts[..n][..k] == parts[..k];
      CheckPartsStops(parts[..n], cfg, orc, k);
    } else {
      assert parts[..k] == parts;
    }
  }

  /** A validation loop that gets through hands on, in order, what each part's checks produced. */
  lemma {:induction false} CheckPartsOk(parts: seq<Part>, cfg: Config, orc: Oracles)
    requires CheckParts(parts, cfg, orc).Ok?
    ensures forall i :: 0 <= i < |parts| ==> CheckPart(parts[i], cfg, orc) == Ok(CheckParts(parts, cfg, orc).value[i])
    decreases |parts|
  {
    if |parts| > 0 {
      CheckPartsOk(parts[..|parts| - 1], cfg, orc);
    }
  }

  /** A validation loop that stops reports the error of the first part that fails. */
  lemma {:induction false} CheckPartsFirstError(parts: seq<Part>, cfg: Config, orc: Oracles)
    requires CheckParts(parts, cfg, orc).Err?
    ensures var e := CheckParts(parts, cfg, orc).error;
            exists i :: 0 <= i < |parts| && CheckPart(parts[i], cfg, orc) == Err(e)
                     && forall j :: 0 <= j < i ==> CheckPart(parts[j], cfg, orc).Ok?
    decreases |parts|
  {
    var n := |parts| - 1;
    var e := CheckParts(parts, cfg, orc).error;
    if CheckParts(parts[..n], cfg, orc).Err? {
      CheckPartsFirstError(parts[..n], cfg, orc);
      var i :| 0 <= i < n && CheckPart(parts[..n][i], cfg, orc) == Err(e)
               && forall j :: 0 <= j < i ==> CheckPart(parts[..n][j], cfg, orc).Ok?;
      assert parts[..n][i] == parts[i];
      assert forall j :: 0 <= j < i ==> parts[..n][j] == parts[j];
    } else {
      CheckPartsOk(parts[..n], cfg, orc);
      assert forall j :: 0 <= j < n ==> parts[..n][j] == parts[j];
    }
  }

  /** Every part passes its checks exactly when the validation loop does. */
  lemma CheckPartsOkIff(parts: seq<Part>, cfg: Config, orc: Oracles)
    ensures CheckParts(parts, cfg, orc).Ok? <==> forall i :: 0 <= i < |parts| ==> CheckPart(parts[i], cfg, orc).Ok?
  {
    if CheckParts(parts, cfg, orc).Ok? {
      CheckPartsOk(parts, cfg, orc);
    } else {
      CheckPartsFirstError(parts, cfg, orc);
    }
  }

  /** The sum of the sizes of the uploads. */
  function TotalSize(infos: seq<UploadInfo>): int
    decreases |infos|
  {
    if |infos| == 0 then 0 else TotalSize(infos[..|infos| - 1]) + infos[|infos| - 1].size
  }

  function TotalSaved(results: seq<FileResult>): int
    decreases |results|
  {
    if |results| == 0 then 0 else TotalSaved(results[..|results| - 1]) + results[|results| - 1].savedBytes
  }

  function TotalActual(results: seq<FileResult>): int
    decreases |results|
  {
    if |results| == 0 then 0 else TotalActual(results[..|results| - 1]) + results[|results| - 1].actualStorageUsed
  }

  /** The sum of the sizes of the parts' bytes. */
  function PartsSize(parts: seq<Part>): int
    decreases |parts|
  {
    if |parts| == 0 then 0 else PartsSize(parts[..|parts| - 1]) + |parts[|parts| - 1].content|
  }

  /** The total the validation loop adds up is the sum of the sizes of the parts' bytes. */
  lemma {:induction false} CheckedTotalSize(parts: seq<Part>, cfg: Config, orc: Oracles)
    requires CheckParts(parts, cfg, orc).Ok?
    ensures TotalSize(CheckParts(parts, cfg, orc).value) == PartsSize(parts)
    decreases |parts|
  {
    if |parts| > 0 {
      var n := |parts| - 1;
      var infos := CheckParts(parts[..n], cfg, orc).value;
      var info := CheckPart(parts[n], cfg, orc).value;
      CheckedTotalSize(parts[..n], cfg, orc);
      assert CheckParts(parts, cfg, orc).value == infos + [info];
      assert (infos + [info])[..|infos|] == infos;
    }
  }

  /** The running totals of the processing loop grow by the next result's figures. */
  lemma TotalsAppend(results: seq<FileResult>, res: FileResult)
    ensures TotalSaved(results + [res]) == TotalSaved(results) + res.savedBytes
    ensures TotalActual(results + [res]) == TotalActual(results) + res.actualStorageUsed
  {
    assert (results + [res])[..|results|] == results;
  }

  /** The running total of the sizes grows by the next upload's size. */
  lemma TotalSizeNext(infos: seq<UploadInfo>, i: nat)
    requires i < |infos|
    ensures TotalSize(infos[..i + 1]) == TotalSize(infos[..i]) + infos[i].size
  {
    assert infos[..i + 1][..i] == infos[..i];
  }

  /** The `"<name>: <warning>"` line of an upload. */
  function WarningLine(info: UploadInfo): string {
    info.filename + ": " + info.warning
  }

  /** The warning lines of the uploads whose validation left a warning. */
  function Warnings(infos: seq<UploadInfo>): (w: seq<string>)
    ensures |w| <= |infos|
    decreases |infos|
  {
    if |infos| == 0 then []
    else
      var last := infos[|infos| - 1];
      Warnings(infos[..|infos| - 1]) + (if last.warning != "" then [WarningLine(last)] else [])
  }

  /**
   * `origin` tells, for each line of `w`, which upload of `infos` it is the
   * warning line of: the lines are those of exactly the uploads with a
   * warning, in upload order.
   */
  ghost predicate ListedFrom(infos: seq<UploadInfo>, w: seq<string>, origin: seq<nat>) {
    && |origin| == |w|
    && (forall k :: 0 <= k < |origin| ==>
          origin[k] < |infos| && infos[origin[k]].warning != "" && w[k] == WarningLine(infos[origin[k]]))
    && (forall k, l :: 0 <= k < l < |origin| ==> origin[k] < origin[l])
    && (forall j :: 0 <= j < |infos| && infos[j].warning != "" ==> j in origin)
  }

  /** One more upload keeps the listing: its line, if any, comes last. */
  lemma ListedExtend(infos: seq<UploadInfo>, w: seq<string>, origin: seq<nat>, last: UploadInfo)
    requires ListedFrom(infos, w, origin)
    ensures last.warning != "" ==> ListedFrom(infos + [last], w + [WarningLine(last)], origin + [|infos|])
    ensures last.warning == "" ==> ListedFrom(infos + [last], w, origin)
  {
    var all := infos + [last];
    forall k | 0 <= k < |origin| ensures all[origin[k]] == infos[origin[k]] {
    }
    forall j | 0 <= j < |infos| ensures all[j] == infos[j] {
    }
  }

  /**
   * The warning lines are those of exactly the uploads with a warning, in
   * upload order: `origin` gives, for each line, the upload it comes from.
   */
  lemma {:induction false} WarningsListed(infos: seq<UploadInfo>) returns (origin: seq<nat>)
    ensures |origin| == |Warnings(infos)|
    ensures forall k :: 0 <= k < |origin| ==>
              origin[k] < |infos| && infos[origin[k]].warning != "" && Warnings(infos)[k] == WarningLine(infos[origin[k]])
    ensures forall k, l :: 0 <= k < l < |origin| ==> origin[k] < origin[l]
    ensures forall j :: 0 <= j < |infos| && infos[j].warning != "" ==> j in origin
    decreases |infos|
  {
    if |infos| == 0 {
      origin := [];
    } else {
      var n := |infos| - 1;
      var prefix := infos[..n];
      var o := WarningsListed(prefix);
      ListedExtend(prefix, Warnings(prefix), o, infos[n]);
      assert prefix + [infos[n]] == infos;
      origin := if infos[n].warning != "" then o + [n] else o;
      assert ListedFrom(infos, Warnings(infos), origin);
    }
  }

  // ---------------------------------------------------------------- the batch

  /** `k` turns of a loop: `step` applied to `start` for turns 0 to k - 1, in order. */
  function Turns<S>(start: S, step: (S, nat) -> S, k: nat): S
    decreases k
  {
    if k == 0 then start else step(Turns(start, step, k - 1), k - 1)
  }

  /** What holds at the start and is carried forward by every turn before `k` holds after `k` turns. */
  lemma {:induction false} TurnsInduction<S>(start: S, step: (S, nat) -> S, k: nat, inv: (S, nat) -> bool)
    requires inv(start, 0)
    requires forall s, i: nat :: i < k && inv(s, i) ==> inv(step(s, i), i + 1)
    ensures inv(Turns(start, step, k), k)
  {
    if k > 0 {
      TurnsInduction(start, step, k - 1, inv);
    }
  }

  /** A state no turn changes, once reached, is where the loop ends. */
  lemma {:induction false} TurnsStuck<S>(start: S, step: (S, nat) -> S, k: nat, n: nat, stuck: S -> bool)
    requires k <= n && stuck(Turns(start, step, k))
    requires forall s, i: nat :: stuck(s) ==> step(s, i) == s
    ensures Turns(start, step, n) == Turns(start, step, k)
    decreases n
  {
    if n > k {
      TurnsStuck(start, step, k, n - 1, stuck);
    }
  }

  /** One turn of the processing loop: nothing once a step has failed, else the next `processFileUpload`. */
  function Advance(prev: Batch, root: string, info: UploadInfo, owner: Uuid, folder: Option<Uuid>,
                   id: NewIds, now: Time, unwritable: set<string>): (b: Batch)
    ensures b.db.users == prev.db.users && b.db.folders == prev.db.folders
    ensures b.failure.None? ==> prev.failure.None? && |b.results| == |prev.results| + 1
  {
    if prev.failure.Some? then prev
    else
      var step := ProcessFile(prev.db, prev.disk, root, info, owner, folder, id, now, unwritable);
      match step.outcome
      case Err(e) => Batch(step.db, step.disk, prev.results, Some(Failure(info.filename, e)))
      case Ok(res) => Batch(step.db, step.disk, prev.results + [res], None)
  }

  /** Turn `i` of the processing loop handles upload `i` with the ids `ids[i]`. */
  function Turn(root: string, infos: seq<UploadInfo>, owner: Uuid, folder: Option<Uuid>, ids: seq<NewIds>,
                now: Time, unwritable: set<string>): (Batch, nat) -> Batch
  {
    (b: Batch, i: nat) =>
      if i < |infos| && i < |ids| then Advance(b, root, infos[i], owner, folder, ids[i], now, unwritable) else b
  }

  /** The batch as it starts, inside a fresh transaction. */
  function Begin(db: Db, disk: Disk): Batch {
    Batch(db, disk, [], None)
  }

  /**
   * The processing loop inside the transaction: each upload in order, up to
   * the first step that fails. Upload `i` takes its new ids from `ids[i]`.
   */
  function RunUploads(db: Db, disk: Disk, root: string, infos: seq<UploadInfo>, owner: Uuid, folder: Option<Uuid>,
                      ids: seq<NewIds>, now: Time, unwritable: set<string>): Batch
  {
    Turns(Begin(db, disk), Turn(root, infos, owner, folder, ids, now, unwritable), |infos|)
  }

  /** The batch after its first `k` turns. */
  function Processed(db: Db, disk: Disk, root: string, infos: seq<UploadInfo>, owner: Uuid, folder: Option<Uuid>,
                     ids: seq<NewIds>, now: Time, unwritable: set<string>, k: nat): Batch
  {
    Turns(Begin(db, disk), Turn(root, infos, owner, folder, ids, now, unwritable), k)
  }

  /** Turn `i` takes the batch after `i` turns to the batch after `i + 1`. */
  lemma ProcessedStep(db: Db, disk: Disk, root: string, infos: seq<UploadInfo>, owner: Uuid, folder: Option<Uuid>,
                      ids: seq<NewIds>, now: Time, unwritable: set<string>, i: nat)
    requires i < |infos| && i < |ids|
    ensures Processed(db, disk, root, infos, owner, folder, ids, now, unwritable, i + 1)
            == Advance(Processed(db, disk, root, infos, owner, folder, ids, now, unwritable, i),
                       root, infos[i], owner, folder, ids[i], now, unwritable)
  {
  }

  /** A batch that has failed after `k` turns is the batch the loop ends with. */
  lemma ProcessedStops(db: Db, disk: Disk, root: string, infos: seq<UploadInfo>, owner: Uuid, folder: Option<Uuid>,
                       ids: seq<NewIds>, now: Time, unwritable: set<string>, k: nat)
    requires k <= |infos| && Processed(db, disk, root, infos, owner, folder, ids, now, unwritable, k).failure.Some?
    ensures RunUploads(db, disk, root, infos, owner, folder, ids, now, unwritable)
            == Processed(db, disk, root, infos, owner, folder, ids, now, unwritable, k)
  {
    TurnsStuck(Begin(db, disk), Turn(root, infos, owner, folder, ids, now, unwritable), k, |infos|, (b: Batch) => b.failure.Some?);
  }

  /**
   * Turn `i` on a batch still going: a step that gets through appends its
   * result, and one that fails ends the loop with its error recorded.
   */
  lemma ProcessedNext(db: Db, disk: Disk, root: string, infos: seq<UploadInfo>, owner: Uuid, folder: Option<Uuid>,
                      ids: seq<NewIds>, now: Time, unwritable: set<string>, i: nat, step: Step)
    requires i < |infos| && i < |ids|
    requires Processed(db, disk, root, infos, owner, folder, ids, now, unwritable, i).failure.None?
    requires var prev := Processed(db, disk, root, infos, owner, folder, ids, now, unwritable, i);
             step == ProcessFile(prev.db, prev.disk, root, infos[i], owner, folder, ids[i], now, unwritable)
    ensures var prev := Processed(db, disk, root, infos, owner, folder, ids, now, unwritable, i);
            step.outcome.Ok? ==>
              Processed(db, disk, root, infos, owner, folder, ids, now, unwritable, i + 1)
              == Batch(step.db, step.disk, prev.results + [step.outcome.value], None)
    ensures var prev := Processed(db, disk, root, infos, owner, folder, ids, now, unwritable, i);
            step.outcome.Err? ==>
              RunUploads(db, disk, root, infos, owner, folder, ids, now, unwritable)
              == Batch(step.db, step.disk, prev.results, Some(Failure(infos[i].filename, step.outcome.error)))
  {
    ProcessedStep(db, disk, root, infos, owner, folder, ids, now, unwritable, i);
    if step.outcome.Err? {
      ProcessedStops(db, disk, root, infos, owner, folder, ids, now, unwritable, i + 1);
    }
  }

  /** The batch changes neither the users nor the folders. */
  lemma RunUploadsKeepsAccounts(db: Db, disk: Disk, root: string, infos: seq<UploadInfo>, owner: Uuid,
                                folder: Option<Uuid>, ids: seq<NewIds>, now: Time, unwritable: set<string>)
    ensures var b := RunUploads(db, disk, root, infos, owner, folder, ids, now, unwritable);
            b.db.users == db.users && b.db.folders == db.folders
  {
    var inv := (b: Batch, i: nat) => b.db.users == db.users && b.db.folders == db.folders;
    TurnsInduction(Begin(db, disk), Turn(root, infos, owner, folder, ids, now, unwritable), |infos|, inv);
  }

  /** A turn only adds hash rows, and the disk only grows, keeping the blobs of the rows some earlier state had. */
  lemma AdvanceKeepsDisk(hashes: map<string, FileHash>, disk: Disk, prev: Batch, root: string, info: UploadInfo,
                         owner: Uuid, folder: Option<Uuid>, id: NewIds, now: Time, unwritable: set<string>)
    requires hashes.Keys <= prev.db.hashes.Keys && DiskKeeps(root, hashes, disk, prev.disk)
    ensures var b := Advance(prev, root, info, owner, folder, id, now, unwritable);
            hashes.Keys <= b.db.hashes.Keys && DiskKeeps(root, hashes, disk, b.disk)
  {
    if prev.failure.None? {
      var step := ProcessFile(prev.db, prev.disk, root, info, owner, folder, id, now, unwritable);
      DiskKeepsTrans(root, hashes, prev.db.hashes, disk, prev.disk, step.disk);
    }
  }

  /** The batch only adds hash rows, and the disk only grows, keeping the blobs of the rows it started with. */
  lemma RunUploadsKeepsDisk(db: Db, disk: Disk, root: string, infos: seq<UploadInfo>, owner: Uuid,
                            folder: Option<Uuid>, ids: seq<NewIds>, now: Time, unwritable: set<string>)
    requires |infos| == |ids|
    ensures var b := RunUploads(db, disk, root, infos, owner, folder, ids, now, unwritable);
            db.hashes.Keys <= b.db.hashes.Keys && DiskKeeps(root, db.hashes, disk, b.disk)
  {
    var step := Turn(root, infos, owner, folder, ids, now, unwritable);
    var inv := (b: Batch, i: nat) => db.hashes.Keys <= b.db.hashes.Keys && DiskKeeps(root, db.hashes, disk, b.disk);
    forall b: Batch, i: nat | i < |infos| && inv(b, i) ensures inv(step(b, i), i + 1) {
      AdvanceKeepsDisk(db.hashes, disk, b, root, infos[i], owner, folder, ids[i], now, unwritable);
    }
    TurnsInduction(Begin(db, disk), step, |infos|, inv);
  }

  /** Result `i` of a batch matches upload `i`, the ids it took and the time of the request. */
  predicate ResultMatches(res: FileResult, info: UploadInfo, id: NewIds, now: Time) {
    && res.fileId == id.fileId
    && res.filename == GenerateUniqueFilename(info.filename, now)
    && res.originalName == info.filename
    && res.mimeType == info.mimeType
    && res.warning == info.warning
    && res.size == info.size
    && res.contentHash == info.hash
    && res.savedBytes + res.actualStorageUsed == info.size
    && (res.actualStorageUsed == 0 || res.actualStorageUsed == info.size)
  }

  /** The results line up with the first uploads, one for one. */
  predicate ResultsMatch(results: seq<FileResult>, infos: seq<UploadInfo>, ids: seq<NewIds>, now: Time) {
    && |results| <= |infos| && |results| <= |ids|
    && forall i :: 0 <= i < |results| ==> ResultMatches(results[i], infos[i], ids[i], now)
  }

  /** A turn that gets through keeps the earlier results and adds one that matches its upload. */
  lemma AdvanceReports(prev: Batch, root: string, info: UploadInfo, owner: Uuid, folder: Option<Uuid>,
                       id: NewIds, now: Time, unwritable: set<string>)
    requires Advance(prev, root, info, owner, folder, id, now, unwritable).failure.None?
    ensures var b := Advance(prev, root, info, owner, folder, id, now, unwritable);
            && |b.results| == |prev.results| + 1
            && (forall i :: 0 <= i < |prev.results| ==> b.results[i] == prev.results[i])
            && ResultMatches(b.results[|prev.results|], info, id, now)
  {
    ProcessFileReports(prev.db, prev.disk, root, info, owner, folder, id, now, unwritable);
  }

  /** A turn that gets through extends results that matched the uploads before it by one that matches its own. */
  lemma AdvanceKeepsMatching(prev: Batch, root: string, infos: seq<UploadInfo>, owner: Uuid, folder: Option<Uuid>,
                             ids: seq<NewIds>, i: nat, now: Time, unwritable: set<string>)
    requires i < |infos| == |ids|
    requires prev.failure.None? ==> |prev.results| == i && ResultsMatch(prev.results, infos, ids, now)
    ensures var b := Advance(prev, root, infos[i], owner, folder, ids[i], now, unwritable);
            b.failure.None? ==> |b.results| == i + 1 && ResultsMatch(b.results, infos, ids, now)
  {
    var b := Advance(prev, root, infos[i], owner, folder, ids[i], now, unwritable);
    if b.failure.None? {
      AdvanceReports(prev, root, infos[i], owner, folder, ids[i], now, unwritable);
      ResultsMatchExtend(prev.results, b.results, infos, ids, now);
    }
  }

  /** Results that matched the first uploads, extended by one that matches the next upload, still match. */
  lemma ResultsMatchExtend(before: seq<FileResult>, after: seq<FileResult>, infos: seq<UploadInfo>, ids: seq<NewIds>, now: Time)
    requires |before| < |infos| == |ids| && ResultsMatch(before, infos, ids, now)
    requires |after| == |before| + 1 && forall j :: 0 <= j < |before| ==> after[j] == before[j]
    requires ResultMatches(after[|before|], infos[|before|], ids[|before|], now)
    ensures ResultsMatch(after, infos, ids, now)
  {
    forall j | 0 <= j < |after| ensures ResultMatches(after[j], infos[j], ids[j], now) {
      if j < |before| {
        assert after[j] == before[j];
      }
    }
  }

  /** A batch that gets through reports one result per upload, in order, each splitting its size into saved and stored bytes. */
  lemma RunUploadsResults(db: Db, disk: Disk, root: string, infos: seq<UploadInfo>, owner: Uuid,
                          folder: Option<Uuid>, ids: seq<NewIds>, now: Time, unwritable: set<string>)
    requires |infos| == |ids|
    ensures var b := RunUploads(db, disk, root, infos, owner, folder, ids, now, unwritable);
            b.failure.None? ==> |b.results| == |infos| && ResultsMatch(b.results, infos, ids, now)
  {
    var step := Turn(root, infos, owner, folder, ids, now, unwritable);
    var inv := (b: Batch, i: nat) => b.failure.None? ==> |b.results| == i && ResultsMatch(b.results, infos, ids, now);
    forall b: Batch, i: nat | i < |infos| && inv(b, i) ensures inv(step(b, i), i + 1) {
      AdvanceKeepsMatching(b, root, infos, owner, folder, ids, i, now, unwritable);
    }
    assert ResultsMatch([], infos, ids, now);
    TurnsInduction(Begin(db, disk), step, |infos|, inv);
  }

  /** A turn that gets through keeps the engine consistent. */
  lemma AdvanceKeepsValid(prev: Batch, root: string, sha: seq<byte> -> Digest, info: UploadInfo, owner: Uuid,
                          folder: Option<Uuid>, id: NewIds, now: Time, unwritable: set<string>)
    requires prev.failure.None? ==> Valid(prev.db, prev.disk, root, sha)
    requires WellFormedInfo(info, sha)
    ensures var b := Advance(prev, root, info, owner, folder, id, now, unwritable);
            b.failure.None? ==> Valid(b.db, b.disk, root, sha)
  {
    if Advance(prev, root, info, owner, folder, id, now, unwritable).failure.None? {
      ProcessFileKeepsValid(prev.db, prev.disk, root, sha, info, owner, folder, id, now, unwritable);
    }
  }

  /** A batch that gets through leaves the engine consistent. */
  lemma RunUploadsKeepsValid(db: Db, disk: Disk, root: string, sha: seq<byte> -> Digest, infos: seq<UploadInfo>,
                             owner: Uuid, folder: Option<Uuid>, ids: seq<NewIds>, now: Time, unwritable: set<string>)
    requires |infos| == |ids| && Valid(db, disk, root, sha)
    requires forall i :: 0 <= i < |infos| ==> WellFormedInfo(infos[i], sha)
    ensures var b := RunUploads(db, disk, root, infos, owner, folder, ids, now, unwritable);
            b.failure.None? ==> Valid(b.db, b.disk, root, sha)
  {
    var step := Turn(root, infos, owner, folder, ids, now, unwritable);
    var inv := (b: Batch, i: nat) => b.failure.None? ==> Valid(b.db, b.disk, root, sha);
    forall b: Batch, i: nat | i < |infos| && inv(b, i) ensures inv(step(b, i), i + 1) {
      AdvanceKeepsValid(b, root, sha, infos[i], owner, folder, ids[i], now, unwritable);
    }
    TurnsInduction(Begin(db, disk), step, |infos|, inv);
  }

  /** The first `n` uploads of the batch each have their live file row in `folder`, linked to the row of their content. */
  predicate Linked(db: Db, infos: seq<UploadInfo>, ids: seq<NewIds>, owner: Uuid, folder: Option<Uuid>, n: nat) {
    n <= |infos| && n <= |ids| && forall j :: 0 <= j < n ==> Links(db, ids[j].fileId, infos[j], owner, folder)
  }

  /** A turn that gets through keeps the links of the earlier uploads and adds its own. */
  lemma AdvanceKeepsLinks(prev: Batch, root: string, infos: seq<UploadInfo>, owner: Uuid, folder: Option<Uuid>,
                          ids: seq<NewIds>, i: nat, now: Time, unwritable: set<string>)
    requires i < |infos| && i < |ids|
    requires prev.failure.None? ==> Linked(prev.db, infos, ids, owner, folder, i)
    ensures var b := Advance(prev, root, infos[i], owner, folder, ids[i], now, unwritable);
            b.failure.None? ==> Linked(b.db, infos, ids, owner, folder, i + 1)
  {
    var b := Advance(prev, root, infos[i], owner, folder, ids[i], now, unwritable);
    if b.failure.None? {
      ProcessFileLinks(prev.db, prev.disk, root, infos[i], owner, folder, ids[i], now, unwritable);
      forall j | 0 <= j < i + 1 ensures Links(b.db, ids[j].fileId, infos[j], owner, folder) {
        if j < i {
          assert Links(prev.db, ids[j].fileId, infos[j], owner, folder);
        }
      }
    }
  }

  /** A processing loop that gets through leaves every upload with its live file row, linked to the row of its content. */
  lemma RunUploadsLinks(db: Db, disk: Disk, root: string, infos: seq<UploadInfo>, owner: Uuid,
                        folder: Option<Uuid>, ids: seq<NewIds>, now: Time, unwritable: set<string>)
    requires |infos| == |ids|
    ensures var b := RunUploads(db, disk, root, infos, owner, folder, ids, now, unwritable);
            b.failure.None? ==> Linked(b.db, infos, ids, owner, folder, |infos|)
  {
    var step := Turn(root, infos, owner, folder, ids, now, unwritable);
    var inv := (b: Batch, i: nat) => b.failure.None? ==> Linked(b.db, infos, ids, owner, folder, i);
    forall b: Batch, i: nat | i < |infos| && inv(b, i) ensures inv(step(b, i), i + 1) {
      AdvanceKeepsLinks(b, root, infos, owner, folder, ids, i, now, unwritable);
    }
    TurnsInduction(Begin(db, disk), step, |infos|, inv);
  }

  /** Every upload among the first results that stored new content has its row, and its bytes at its blob path. */
  predicate BlobsWritten(root: string, infos: seq<UploadInfo>, results: seq<FileResult>, db: Db, disk: Disk) {
    forall j :: 0 <= j < |results| && j < |infos| && !results[j].isDuplicate ==>
      && infos[j].hash in db.hashes
      && BlobPath(root, infos[j].hash) in disk
      && disk[BlobPath(root, infos[j].hash)] == infos[j].content
  }

  /** Adding rows and blobs while keeping the blobs of the existing rows keeps the blobs written so far. */
  lemma BlobsWrittenGrow(root: string, infos: seq<UploadInfo>, results: seq<FileResult>, db: Db, disk: Disk, db2: Db, disk2: Disk)
    requires BlobsWritten(root, infos, results, db, disk)
    requires db.hashes.Keys <= db2.hashes.Keys && DiskKeeps(root, db.hashes, disk, disk2)
    ensures BlobsWritten(root, infos, results, db2, disk2)
  {
    forall j | 0 <= j < |results| && j < |infos| && !results[j].isDuplicate
      ensures BlobPath(root, infos[j].hash) in disk2 && disk2[BlobPath(root, infos[j].hash)] == disk[BlobPath(root, infos[j].hash)]
    {
    }
  }

  /** A next result whose upload, if it stored new content, has its row and blob extends the blobs written. */
  lemma BlobsWrittenAppend(root: string, infos: seq<UploadInfo>, results: seq<FileResult>, res: FileResult, db: Db, disk: Disk)
    requires BlobsWritten(root, infos, results, db, disk) && |results| < |infos|
    requires !res.isDuplicate ==>
               && infos[|results|].hash in db.hashes
               && BlobPath(root, infos[|results|].hash) in disk
               && disk[BlobPath(root, infos[|results|].hash)] == infos[|results|].content
    ensures BlobsWritten(root, infos, results + [res], db, disk)
  {
    var rs := results + [res];
    forall j | 0 <= j < |rs| && j < |infos| && !rs[j].isDuplicate
      ensures infos[j].hash in db.hashes && BlobPath(root, infos[j].hash) in disk && disk[BlobPath(root, infos[j].hash)] == infos[j].content
    {
      if j < |results| {
        assert rs[j] == results[j];
      }
    }
  }

  /** A turn keeps the blobs of the uploads before it, and a turn that stores new content adds its own. */
  lemma AdvanceKeepsBlobs(prev: Batch, root: string, infos: seq<UploadInfo>, owner: Uuid, folder: Option<Uuid>,
                          ids: seq<NewIds>, i: nat, now: Time, unwritable: set<string>)
    requires i < |infos| && i < |ids|
    requires prev.failure.None? ==> |prev.results| == i
    requires BlobsWritten(root, infos, prev.results, prev.db, prev.disk)
    ensures var b := Advance(prev, root, infos[i], owner, folder, ids[i], now, unwritable);
            (b.failure.None? ==> |b.results| == i + 1) && BlobsWritten(root, infos, b.results, b.db, b.disk)
  {
    if prev.failure.None? {
      var step := ProcessFile(prev.db, prev.disk, root, infos[i], owner, folder, ids[i], now, unwritable);
      ProcessFileWrites(prev.db, prev.disk, root, infos[i], owner, folder, ids[i], now, unwritable);
      BlobsWrittenGrow(root, infos, prev.results, prev.db, prev.disk, step.db, step.disk);
      if step.outcome.Ok? {
        BlobsWrittenAppend(root, infos, prev.results, step.outcome.value, step.db, step.disk);
      }
    }
  }

  /** Whether the loop gets through or stops, every upload it processed that stored new content has its blob on disk. */
  lemma RunUploadsKeepsBlobs(db: Db, disk: Disk, root: string, infos: seq<UploadInfo>, owner: Uuid,
                             folder: Option<Uuid>, ids: seq<NewIds>, now: Time, unwritable: set<string>)
    requires |infos| == |ids|
    ensures var b := RunUploads(db, disk, root, infos, owner, folder, ids, now, unwritable);
            BlobsWritten(root, infos, b.results, b.db, b.disk)
  {
    var step := Turn(root, infos, owner, folder, ids, now, unwritable);
    var inv := (b: Batch, i: nat) => (b.failure.None? ==> |b.results| == i) && BlobsWritten(root, infos, b.results, b.db, b.disk);
    forall b: Batch, i: nat | i < |infos| && inv(b, i) ensures inv(step(b, i), i + 1) {
      AdvanceKeepsBlobs(b, root, infos, owner, folder, ids, i, now, unwritable);
    }
    assert BlobsWritten(root, infos, [], db, disk);
    TurnsInduction(Begin(db, disk), step, |infos|, inv);
  }

  /** The bytes of the uploads. */
  function Contents(infos: seq<UploadInfo>): set<seq<byte>> {
    set j | 0 <= j < |infos| :: infos[j].content
  }

  /** Writing one blob adds at most that blob's bytes to what the disk holds. */
  lemma WriteAddsOneContent(disk: Disk, path: string, content: seq<byte>)
    ensures disk[path := content].Values <= disk.Values + {content}
  {
    forall v | v in disk[path := content].Values ensures v in disk.Values + {content} {
      var p :| p in disk[path := content] && disk[path := content][p] == v;
      if p != path {
        assert disk[p] == v;
      }
    }
  }

  /** A turn adds to the disk only the bytes of its own upload. */
  lemma AdvanceKeepsContents(prev: Batch, root: string, info: UploadInfo, owner: Uuid, folder: Option<Uuid>,
                             id: NewIds, now: Time, unwritable: set<string>, contents: set<seq<byte>>)
    requires prev.disk.Values <= contents && info.content in contents
    ensures Advance(prev, root, info, owner, folder, id, now, unwritable).disk.Values <= contents
  {
    if prev.failure.None? {
      ProcessFileWrites(prev.db, prev.disk, root, info, owner, folder, id, now, unwritable);
      WriteAddsOneContent(prev.disk, BlobPath(root, info.hash), info.content);
    }
  }

  /** The disk after the loop, however it ends, holds only bytes it held before and bytes of the uploads. */
  lemma RunUploadsKeepsContents(db: Db, disk: Disk, root: string, infos: seq<UploadInfo>, owner: Uuid,
                                folder: Option<Uuid>, ids: seq<NewIds>, now: Time, unwritable: set<string>)
    requires |infos| == |ids|
    ensures RunUploads(db, disk, root, infos, owner, folder, ids, now, unwritable).disk.Values <= disk.Values + Contents(infos)
  {
    var contents := disk.Values + Contents(infos);
    var step := Turn(root, infos, owner, folder, ids, now, unwritable);
    var inv := (b: Batch, i: nat) => b.disk.Values <= contents;
    forall b: Batch, i: nat | i < |infos| && inv(b, i) ensures inv(step(b, i), i + 1) {
      assert infos[i].content in Contents(infos);
      AdvanceKeepsContents(b, root, infos[i], owner, folder, ids[i], now, unwritable, contents);
    }
    TurnsInduction(Begin(db, disk), step, |infos|, inv);
  }

  /** Over turns that got through, bytes saved plus bytes newly stored make up the bytes uploaded. */
  lemma {:induction false} TotalsSplit(results: seq<FileResult>, infos: seq<UploadInfo>, ids: seq<NewIds>, now: Time)
    requires |results| == |infos| && ResultsMatch(results, infos, ids, now)
    ensures TotalSaved(results) + TotalActual(results) == TotalSize(infos)
    decreases |infos|
  {
    if |infos| > 0 {
      var n := |infos| - 1;
      assert ResultsMatch(results[..n], infos[..n], ids[..n], now);
      TotalsSplit(results[..n], infos[..n], ids[..n], now);
    }
  }

  /** The bytes newly stored over turns that got through lie between none and all of the bytes uploaded. */
  lemma {:induction false} TotalActualBounded(results: seq<FileResult>, infos: seq<UploadInfo>, ids: seq<NewIds>, now: Time)
    requires |results| == |infos| && ResultsMatch(results, infos, ids, now)
    requires forall i :: 0 <= i < |infos| ==> infos[i].size >= 0
    ensures 0 <= TotalActual(results) <= TotalSize(infos)
    decreases |infos|
  {
    if |infos| > 0 {
      var n := |infos| - 1;
      assert ResultsMatch(results[..n], infos[..n], ids[..n], now);
      TotalActualBounded(results[..n], infos[..n], ids[..n], now);
    }
  }

  // ---------------------------------------------------------------- the charge

  /**
   * `updateUserStorageStats`: the uploader's ledger after a batch. The
   * logical total grows by the bytes uploaded, the physical counter and the
   * quota counter by the bytes newly stored, the saved counter by the bytes
   * deduplicated. Nothing when the user row is missing.
   */
  function ChargeUser(users: map<Uuid, User>, id: Uuid, uploaded: int, actual: int, saved: int): (r: Option<map<Uuid, User>>)
    ensures r.None? <==> id !in users
    ensures r.Some? ==> r.value.Keys == users.Keys && forall u :: u in users && u != id ==> r.value[u] == users[u]
    ensures r.Some? ==> r.value[id].id == users[id].id && r.value[id].storageQuota == users[id].storageQuota
  {
    if id !in users then None
    else
      var u := users[id];
      Some(users[id := u.(totalUploadedBytes := u.totalUploadedBytes + uploaded,
                          actualStorageBytes := u.actualStorageBytes + actual,
                          storageUsed := u.storageUsed + actual,
                          savedBytes := u.savedBytes + saved)])
  }

  /** A ledger in balance: every byte uploaded was either stored or saved. */
  predicate LedgerBalanced(u: User) {
    u.totalUploadedBytes == u.actualStorageBytes + u.savedBytes
  }

  /** A charge whose uploaded bytes split into stored and saved bytes keeps the ledger in balance, and moves the quota counter with the physical one. */
  lemma ChargeKeepsBalance(users: map<Uuid, User>, id: Uuid, uploaded: int, actual: int, saved: int)
    requires id in users && uploaded == actual + saved
    ensures var r := ChargeUser(users, id, uploaded, actual, saved);
            && r.Some?
            && (LedgerBalanced(users[id]) <==> LedgerBalanced(r.value[id]))
            && r.value[id].storageUsed - r.value[id].actualStorageBytes == users[id].storageUsed - users[id].actualStorageBytes
  {
  }

  // ---------------------------------------------------------------- the request

  /** Where the files of an upload go: no folder for the sentinels, else the folder named. */
  function FolderOf(target: FolderTarget): Option<Uuid> {
    if target.InFolder? then Some(target.id) else None
  }

  /** Whether the upload may go where it asks: the root, or a folder the uploader owns. */
  predicate FolderAllowed(db: Db, user: Uuid, target: FolderTarget) {
    target.InFolder? ==> target.id in db.folders && db.folders[target.id] == user
  }

  /**
   * The transaction of an upload: the processing loop, then the charge, then
   * the commit. A failing step or charge rolls the tables back; the blobs
   * already written stay on disk.
   */
  function Transact(db: Db, disk: Disk, root: string, user: Uuid, folder: Option<Uuid>, infos: seq<UploadInfo>,
                    ids: seq<NewIds>, now: Time, unwritable: set<string>): (u: Upload)
    ensures u.result.Ok? ==> u.db.users.Keys == db.users.Keys && u.db.folders == db.folders
    ensures u.result.Err? ==> u.db == db && (u.result.error.ProcessFailed? || u.result.error.StatsUpdateFailed?)
  {
    var b := RunUploads(db, disk, root, infos, user, folder, ids, now, unwritable);
    RunUploadsKeepsAccounts(db, disk, root, infos, user, folder, ids, now, unwritable);
    match b.failure
    case Some(f) => Upload(db, b.disk, Err(ProcessFailed(f.filename, f.cause)))
    case None =>
      match ChargeUser(b.db.users, user, TotalSize(infos), TotalActual(b.results), TotalSaved(b.results))
      case None => Upload(db, b.disk, Err(StatsUpdateFailed))
      case Some(users) =>
        Upload(b.db.(users := users), b.disk, Ok(UploadResponse(b.results, TotalSize(infos), TotalSaved(b.results), Warnings(infos))))
  }

  /**
   * `UploadFile` from the `folder_id` parameter on: the folder check, the
   * parts, the uploader's row, the validation loop, the quota pre-check and
   * the transaction. Every error before the transaction leaves the tables
   * and the disk as they were.
   */
  function UploadSpec(db: Db, disk: Disk, cfg: Config, orc: Oracles, user: Uuid, folderParam: string,
                      parts: seq<Part>, ids: seq<NewIds>, now: Time, unwritable: set<string>): (u: Upload)
    requires |ids| == |parts|
    ensures u.result.Ok? ==> u.db.users.Keys == db.users.Keys && u.db.folders == db.folders
    ensures u.result.Err? ==> u.db == db
  {
    var target := UploadFolderTarget(folderParam);
    if !FolderAllowed(db, user, target) then Upload(db, disk, Err(FolderNotFound))
    else if |parts| == 0 then Upload(db, disk, Err(NoFiles))
    else if user !in db.users then Upload(db, disk, Err(UserNotFound))
    else
      match CheckParts(parts, cfg, orc)
      case Err(e) => Upload(db, disk, Err(e))
      case Ok(infos) =>
        if db.users[user].storageUsed + TotalSize(infos) > db.users[user].storageQuota then Upload(db, disk, Err(QuotaExceeded))
        else Transact(db, disk, cfg.storageRoot, user, FolderOf(target), infos, ids, now, unwritable)
  }

  // ---------------------------------------------------------------- properties of the transaction

  /** A transaction that fails restores the tables and only added blobs to the disk. */
  lemma TransactRollsBack(db: Db, disk: Disk, root: string, user: Uuid, folder: Option<Uuid>, infos: seq<UploadInfo>,
                          ids: seq<NewIds>, now: Time, unwritable: set<string>)
    requires |infos| == |ids|
    ensures var u := Transact(db, disk, root, user, folder, infos, ids, now, unwritable);
            var b := RunUploads(db, disk, root, infos, user, folder, ids, now, unwritable);
            u.result.Err? ==>
              && u.db == db
              && DiskKeeps(root, db.hashes, disk, u.disk)
              && forall j :: 0 <= j < |b.results| && j < |infos| && !b.results[j].isDuplicate ==>
                   BlobPath(root, infos[j].hash) in u.disk && u.disk[BlobPath(root, infos[j].hash)] == infos[j].content
  {
    RunUploadsKeepsDisk(db, disk, root, infos, user, folder, ids, now, unwritable);
    RunUploadsKeepsBlobs(db, disk, root, infos, user, folder, ids, now, unwritable);
  }

  /**
   * A transaction that commits charges the uploader exactly: the logical
   * total grows by the bytes uploaded, the physical and quota counters by
   * the bytes newly stored, the saved counter by the bytes deduplicated,
   * and stored plus saved bytes make up the bytes uploaded.
   */
  lemma TransactLedger(db: Db, disk: Disk, root: string, user: Uuid, folder: Option<Uuid>, infos: seq<UploadInfo>,
                       ids: seq<NewIds>, now: Time, unwritable: set<string>)
    requires |infos| == |ids|
    requires forall i :: 0 <= i < |infos| ==> infos[i].size >= 0
    ensures var u := Transact(db, disk, root, user, folder, infos, ids, now, unwritable);
            u.result.Ok? ==>
              var before, after, resp := db.users[user], u.db.users[user], u.result.value;
              && user in db.users
              && resp.totalSize == TotalSize(infos)
              && after.totalUploadedBytes - before.totalUploadedBytes == resp.totalSize
              && after.savedBytes - before.savedBytes == resp.totalSavedBytes
              && after.actualStorageBytes - before.actualStorageBytes == resp.totalSize - resp.totalSavedBytes
              && after.storageUsed - before.storageUsed == resp.totalSize - resp.totalSavedBytes
              && 0 <= resp.totalSize - resp.totalSavedBytes <= resp.totalSize
              && after.storageQuota == before.storageQuota
  {
    var u := Transact(db, disk, root, user, folder, infos, ids, now, unwritable);
    if u.result.Ok? {
      var b := RunUploads(db, disk, root, infos, user, folder, ids, now, unwritable);
      RunUploadsResults(db, disk, root, infos, user, folder, ids, now, unwritable);
      TotalsSplit(b.results, infos, ids, now);
      TotalActualBounded(b.results, infos, ids, now);
    }
  }

  /** A transaction that commits reports one result per upload, in order, matching the upload and the ids it took. */
  lemma TransactReports(db: Db, disk: Disk, root: string, user: Uuid, folder: Option<Uuid>, infos: seq<UploadInfo>,
                        ids: seq<NewIds>, now: Time, unwritable: set<string>)
    requires |infos| == |ids|
    ensures var u := Transact(db, disk, root, user, folder, infos, ids, now, unwritable);
            u.result.Ok? ==> |u.result.value.files| == |infos| && ResultsMatch(u.result.value.files, infos, ids, now)
  {
    RunUploadsResults(db, disk, root, infos, user, folder, ids, now, unwritable);
  }

  /** A transaction, committed or rolled back, keeps the engine consistent. */
  lemma TransactKeepsValid(db: Db, disk: Disk, root: string, sha: seq<byte> -> Digest, user: Uuid, folder: Option<Uuid>,
                           infos: seq<UploadInfo>, ids: seq<NewIds>, now: Time, unwritable: set<string>)
    requires |infos| == |ids| && Valid(db, disk, root, sha)
    requires forall i :: 0 <= i < |infos| ==> WellFormedInfo(infos[i], sha)
    ensures var u := Transact(db, disk, root, user, folder, infos, ids, now, unwritable);
            Valid(u.db, u.disk, root, sha)
  {
    var u := Transact(db, disk, root, user, folder, infos, ids, now, unwritable);
    RunUploadsKeepsValid(db, disk, root, sha, infos, user, folder, ids, now, unwritable);
    if u.result.Err? {
      RunUploadsKeepsDisk(db, disk, root, infos, user, folder, ids, now, unwritable);
      RollbackKeepsValid(db, disk, u.disk, root, sha);
    }
  }

  /** A committed transaction leaves every upload with its live file row in the folder, linked to the row of its content. */
  lemma TransactLinks(db: Db, disk: Disk, root: string, user: Uuid, folder: Option<Uuid>, infos: seq<UploadInfo>,
                      ids: seq<NewIds>, now: Time, unwritable: set<string>)
    requires |infos| == |ids|
    ensures var u := Transact(db, disk, root, user, folder, infos, ids, now, unwritable);
            u.result.Ok? ==> Linked(u.db, infos, ids, user, folder, |infos|)
  {
    var u := Transact(db, disk, root, user, folder, infos, ids, now, unwritable);
    var b := RunUploads(db, disk, root, infos, user, folder, ids, now, unwritable);
    RunUploadsLinks(db, disk, root, infos, user, folder, ids, now, unwritable);
    if u.result.Ok? {
      assert u.db.files == b.db.files && u.db.hashes == b.db.hashes;
      forall j | 0 <= j < |infos| ensures Links(u.db, ids[j].fileId, infos[j], user, folder) {
        assert Links(b.db, ids[j].fileId, infos[j], user, folder);
      }
    }
  }

  // ---------------------------------------------------------------- properties of the request

  /** What a validation loop that gets through hands on: per part, its name and bytes, their size and their digest. */
  lemma CheckedUploads(parts: seq<Part>, cfg: Config, orc: Oracles)
    requires CheckParts(parts, cfg, orc).Ok?
    ensures var infos := CheckParts(parts, cfg, orc).value;
            && |infos| == |parts|
            && forall i :: 0 <= i < |parts| ==>
                 && WellFormedInfo(infos[i], orc.sha) && infos[i].size >= 0
                 && infos[i].filename == parts[i].filename && infos[i].content == parts[i].content
                 && infos[i].mimeType == orc.validate(parts[i].content, DeclaredType(parts[i]), parts[i].filename).actualType
                 && infos[i].warning == orc.validate(parts[i].content, DeclaredType(parts[i]), parts[i].filename).warning
  {
    CheckPartsOk(parts, cfg, orc);
  }

  /** An upload that fails before the transaction leaves the disk as it was; one that fails inside it only added blobs. */
  lemma UploadErrorKeepsDisk(db: Db, disk: Disk, cfg: Config, orc: Oracles, user: Uuid, folderParam: string,
                             parts: seq<Part>, ids: seq<NewIds>, now: Time, unwritable: set<string>)
    requires |ids| == |parts|
    ensures var u := UploadSpec(db, disk, cfg, orc, user, folderParam, parts, ids, now, unwritable);
            && (u.result.Err? && !u.result.error.ProcessFailed? && !u.result.error.StatsUpdateFailed? ==> u.disk == disk)
            && (u.result.Err? ==> u.db == db && DiskKeeps(cfg.storageRoot, db.hashes, disk, u.disk))
  {
    var u := UploadSpec(db, disk, cfg, orc, user, folderParam, parts, ids, now, unwritable);
    var target := UploadFolderTarget(folderParam);
    if FolderAllowed(db, user, target) && |parts| > 0 && user in db.users && CheckParts(parts, cfg, orc).Ok? {
      var infos := CheckParts(parts, cfg, orc).value;
      if db.users[user].storageUsed + TotalSize(infos) <= db.users[user].storageQuota {
        var t := Transact(db, disk, cfg.storageRoot, user, FolderOf(target), infos, ids, now, unwritable);
        assert u == t;
        TransactRollsBack(db, disk, cfg.storageRoot, user, FolderOf(target), infos, ids, now, unwritable);
        assert t.result.Err? ==> t.result.error.ProcessFailed? || t.result.error.StatsUpdateFailed?;
      }
    }
  }

  /** Whatever its outcome, an upload leaves on disk only bytes that were there before and bytes of its parts. */
  lemma UploadDiskContents(db: Db, disk: Disk, cfg: Config, orc: Oracles, user: Uuid, folderParam: string,
                           parts: seq<Part>, ids: seq<NewIds>, now: Time, unwritable: set<string>)
    requires |ids| == |parts|
    ensures UploadSpec(db, disk, cfg, orc, user, folderParam, parts, ids, now, unwritable).disk.Values
            <= disk.Values + PartContents(parts)
  {
    var u := UploadSpec(db, disk, cfg, orc, user, folderParam, parts, ids, now, unwritable);
    var target := UploadFolderTarget(folderParam);
    if FolderAllowed(db, user, target) && |parts| > 0 && user in db.users && CheckParts(parts, cfg, orc).Ok? {
      var infos := CheckParts(parts, cfg, orc).value;
      if db.users[user].storageUsed + TotalSize(infos) <= db.users[user].storageQuota {
        var t := Transact(db, disk, cfg.storageRoot, user, FolderOf(target), infos, ids, now, unwritable);
        assert u == t;
        RunUploadsKeepsContents(db, disk, cfg.storageRoot, infos, user, FolderOf(target), ids, now, unwritable);
        CheckedContents(parts, cfg, orc);
      }
    }
  }

  /** The validated uploads carry the bytes of the parts. */
  lemma CheckedContents(parts: seq<Part>, cfg: Config, orc: Oracles)
    requires CheckParts(parts, cfg, orc).Ok?
    ensures Contents(CheckParts(parts, cfg, orc).value) == PartContents(parts)
  {
    var infos := CheckParts(parts, cfg, orc).value;
    CheckedUploads(parts, cfg, orc);
    forall c | c in Contents(infos) ensures c in PartContents(parts) {
      var j :| 0 <= j < |infos| && infos[j].content == c;
      assert parts[j].content == c;
    }
    forall c | c in PartContents(parts) ensures c in Contents(infos) {
      var j :| 0 <= j < |parts| && parts[j].content == c;
      assert infos[j].content == c;
    }
  }

  /** A part over the size limit fails the whole upload before anything is written. */
  lemma UploadRejectsOversized(db: Db, disk: Disk, cfg: Config, orc: Oracles, user: Uuid, folderParam: string,
                               parts: seq<Part>, ids: seq<NewIds>, now: Time, unwritable: set<string>, i: nat)
    requires |ids| == |parts| && i < |parts| && |parts[i].content| > cfg.maxFileSize
    ensures var u := UploadSpec(db, disk, cfg, orc, user, folderParam, parts, ids, now, unwritable);
            u.result.Err? && u.db == db && u.disk == disk
  {
    CheckPartsOkIff(parts, cfg, orc);
    assert CheckPart(parts[i], cfg, orc).Err?;
  }

  /**
   * An upload that gets through fit the quota on its logical size, stays
   * within the quota after the charge, and charges the uploader exactly:
   * the logical total grows by the bytes uploaded, the physical and quota
   * counters by the bytes newly stored, the saved counter by the bytes
   * deduplicated.
   */
  lemma UploadCharges(db: Db, disk: Disk, cfg: Config, orc: Oracles, user: Uuid, folderParam: string,
                      parts: seq<Part>, ids: seq<NewIds>, now: Time, unwritable: set<string>)
    requires |ids| == |parts|
    ensures var u := UploadSpec(db, disk, cfg, orc, user, folderParam, parts, ids, now, unwritable);
            u.result.Ok? ==>
              var before, after, resp := db.users[user], u.db.users[user], u.result.value;
              && user in db.users
              && resp.totalSize == PartsSize(parts)
              && before.storageUsed + resp.totalSize <= before.storageQuota
              && after.storageUsed <= after.storageQuota
              && after.totalUploadedBytes - before.totalUploadedBytes == resp.totalSize
              && after.savedBytes - before.savedBytes == resp.totalSavedBytes
              && after.actualStorageBytes - before.actualStorageBytes == resp.totalSize - resp.totalSavedBytes
              && after.storageUsed - before.storageUsed == resp.totalSize - resp.totalSavedBytes
  {
    var u := UploadSpec(db, disk, cfg, orc, user, folderParam, parts, ids, now, unwritable);
    if u.result.Ok? {
      var target := UploadFolderTarget(folderParam);
      CheckedUploads(parts, cfg, orc);
      var infos := CheckParts(parts, cfg, orc).value;
      var t := Transact(db, disk, cfg.storageRoot, user, FolderOf(target), infos, ids, now, unwritable);
      assert u == t;
      TransactLedger(db, disk, cfg.storageRoot, user, FolderOf(target), infos, ids, now, unwritable);
      CheckedTotalSize(parts, cfg, orc);
      assert db.users[user].storageUsed + TotalSize(infos) <= db.users[user].storageQuota;
    }
  }

  /**
   * The quota pre-check: once the folder, the parts, the uploader and every
   * part's checks have passed, the upload is refused with QuotaExceeded
   * exactly when the quota counter plus the sum of the parts' sizes exceeds
   * the quota, and the refusal leaves the tables and the disk as they were.
   */
  lemma UploadOverQuota(db: Db, disk: Disk, cfg: Config, orc: Oracles, user: Uuid, folderParam: string,
                        parts: seq<Part>, ids: seq<NewIds>, now: Time, unwritable: set<string>)
    requires |ids| == |parts|
    requires FolderAllowed(db, user, UploadFolderTarget(folderParam)) && |parts| > 0 && user in db.users
    requires CheckParts(parts, cfg, orc).Ok?
    ensures var u := UploadSpec(db, disk, cfg, orc, user, folderParam, parts, ids, now, unwritable);
            && (u.result == Err(QuotaExceeded) <==> db.users[user].storageUsed + PartsSize(parts) > db.users[user].storageQuota)
            && (u.result == Err(QuotaExceeded) ==> u.db == db && u.disk == disk)
  {
    CheckedTotalSize(parts, cfg, orc);
  }

  /**
   * An upload that gets through reports one file per part, in order: the
   * id it was given, the part's size and the digest of the part's bytes,
   * and a split of the size into saved and newly stored bytes.
   */
  lemma UploadReports(db: Db, disk: Disk, cfg: Config, orc: Oracles, user: Uuid, folderParam: string,
                      parts: seq<Part>, ids: seq<NewIds>, now: Time, unwritable: set<string>)
    requires |ids| == |parts|
    ensures var u := UploadSpec(db, disk, cfg, orc, user, folderParam, parts, ids, now, unwritable);
            u.result.Ok? ==>
              var files := u.result.value.files;
              && |files| == |parts|
              && forall i :: 0 <= i < |parts| ==>
                   && files[i].fileId == ids[i].fileId
                   && files[i].size == |parts[i].content|
                   && files[i].contentHash == ContentHash(orc.sha(parts[i].content))
                   && files[i].savedBytes + files[i].actualStorageUsed == files[i].size
                   && files[i].filename == GenerateUniqueFilename(parts[i].filename, now)
                   && files[i].originalName == parts[i].filename
                   && var verdict := orc.validate(parts[i].content, DeclaredType(parts[i]), parts[i].filename);
                      files[i].mimeType == verdict.actualType && files[i].warning == verdict.warning
  {
    var u := UploadSpec(db, disk, cfg, orc, user, folderParam, parts, ids, now, unwritable);
    if u.result.Ok? {
      var target := UploadFolderTarget(folderParam);
      var infos := CheckParts(parts, cfg, orc).value;
      var t := Transact(db, disk, cfg.storageRoot, user, FolderOf(target), infos, ids, now, unwritable);
      assert u == t;
      TransactReports(db, disk, cfg.storageRoot, user, FolderOf(target), infos, ids, now, unwritable);
      ResultsReportParts(t.result.value.files, infos, parts, ids, now, cfg, orc);
    }
  }

  /** Results that match the uploads checked from the parts report the parts, one for one. */
  lemma ResultsReportParts(files: seq<FileResult>, infos: seq<UploadInfo>, parts: seq<Part>, ids: seq<NewIds>,
                           now: Time, cfg: Config, orc: Oracles)
    requires CheckParts(parts, cfg, orc).Ok? && infos == CheckParts(parts, cfg, orc).value
    requires |files| == |infos| && ResultsMatch(files, infos, ids, now)
    ensures forall i :: 0 <= i < |parts| ==>
              && files[i].fileId == ids[i].fileId
              && files[i].size == |parts[i].content|
              && files[i].contentHash == ContentHash(orc.sha(parts[i].content))
              && files[i].savedBytes + files[i].actualStorageUsed == files[i].size
              && files[i].filename == GenerateUniqueFilename(parts[i].filename, now)
              && files[i].originalName == parts[i].filename
              && var verdict := orc.validate(parts[i].content, DeclaredType(parts[i]), parts[i].filename);
                 files[i].mimeType == verdict.actualType && files[i].warning == verdict.warning
  {
    CheckedUploads(parts, cfg, orc);
    forall i | 0 <= i < |parts|
      ensures files[i].size == |parts[i].content| && files[i].contentHash == ContentHash(orc.sha(parts[i].content))
      ensures files[i].filename == GenerateUniqueFilename(parts[i].filename, now)
      ensures files[i].originalName == parts[i].filename
      ensures var verdict := orc.validate(parts[i].content, DeclaredType(parts[i]), parts[i].filename);
              files[i].mimeType == verdict.actualType && files[i].warning == verdict.warning
    {
      PartReport(files[i], infos[i], parts[i], ids[i], now, orc);
    }
  }

  /** A result that matches the upload checked from a part reports that part. */
  lemma PartReport(res: FileResult, info: UploadInfo, p: Part, id: NewIds, now: Time, orc: Oracles)
    requires ResultMatches(res, info, id, now) && WellFormedInfo(info, orc.sha)
    requires info.filename == p.filename && info.content == p.content
    requires var verdict := orc.validate(p.content, DeclaredType(p), p.filename);
             info.mimeType == verdict.actualType && info.warning == verdict.warning
    ensures res.size == |p.content| && res.contentHash == ContentHash(orc.sha(p.content))
    ensures res.filename == GenerateUniqueFilename(p.filename, now) && res.originalName == p.filename
    ensures var verdict := orc.validate(p.content, DeclaredType(p), p.filename);
            res.mimeType == verdict.actualType && res.warning == verdict.warning
  {
  }

  /** An upload, whatever its outcome, keeps the engine consistent. */
  lemma UploadKeepsValid(db: Db, disk: Disk, cfg: Config, orc: Oracles, user: Uuid, folderParam: string,
                         parts: seq<Part>, ids: seq<NewIds>, now: Time, unwritable: set<string>)
    requires |ids| == |parts| && Valid(db, disk, cfg.storageRoot, orc.sha)
    ensures var u := UploadSpec(db, disk, cfg, orc, user, folderParam, parts, ids, now, unwritable);
            Valid(u.db, u.disk, cfg.storageRoot, orc.sha)
  {
    var target := UploadFolderTarget(folderParam);
    if FolderAllowed(db, user, target) && |parts| > 0 && user in db.users && CheckParts(parts, cfg, orc).Ok? {
      CheckedUploads(parts, cfg, orc);
      var infos := CheckParts(parts, cfg, orc).value;
      TransactKeepsValid(db, disk, cfg.storageRoot, orc.sha, user, FolderOf(target), infos, ids, now, unwritable);
    }
  }

  /**
   * Deduplication across one upload: every part gets a live file row of the
   * uploader's in the target folder, and parts whose bytes share a digest end
   * up pointing at the same hash row.
   */
  lemma UploadSharesContent(db: Db, disk: Disk, cfg: Config, orc: Oracles, user: Uuid, folderParam: string,
                            parts: seq<Part>, ids: seq<NewIds>, now: Time, unwritable: set<string>)
    requires |ids| == |parts|
    ensures var u := UploadSpec(db, disk, cfg, orc, user, folderParam, parts, ids, now, unwritable);
            u.result.Ok? ==>
              && (forall i :: 0 <= i < |parts| ==>
                    && OwnedLive(u.db, user, ids[i].fileId)
                    && u.db.files[ids[i].fileId].originalFilename == parts[i].filename
                    && u.db.files[ids[i].fileId].folderId == FolderOf(UploadFolderTarget(folderParam)))
              && (forall i, j :: 0 <= i < |parts| && 0 <= j < |parts|
                                 && ContentHash(orc.sha(parts[i].content)) == ContentHash(orc.sha(parts[j].content)) ==>
                                   u.db.files[ids[i].fileId].fileHashId == u.db.files[ids[j].fileId].fileHashId)
  {
    var u := UploadSpec(db, disk, cfg, orc, user, folderParam, parts, ids, now, unwritable);
    if u.result.Ok? {
      var target := UploadFolderTarget(folderParam);
      CheckedUploads(parts, cfg, orc);
      var infos := CheckParts(parts, cfg, orc).value;
      assert u == Transact(db, disk, cfg.storageRoot, user, FolderOf(target), infos, ids, now, unwritable);
      TransactLinks(db, disk, cfg.storageRoot, user, FolderOf(target), infos, ids, now, unwritable);
      forall i | 0 <= i < |parts| ensures Links(u.db, ids[i].fileId, infos[i], user, FolderOf(target)) {
      }
    }
  }
}
