/**
 * The pure helpers of the file handlers: the content-hash text, the stored
 * file name, the remaining-quota clamp, the folder-id sentinels and the
 * choice of the on-disk path a file is served from.
 */
module FileHelpers {

  import opened Wrappers
  import opened Text
  import opened Models

  /** The blob store: absolute path to the bytes stored there. */
  type Disk = map<string, seq<byte>>

  // ---------------------------------------------------------------- content hash

  /** The text form of a SHA-256 digest: 64 lowercase hex characters. */
  predicate IsDigestText(s: string) {
    |s| == HashColumnSize && IsLowerHex(s)
  }

  /** `calculateContentHash`, given the SHA-256 sum of the content. */
  function ContentHash(d: Digest): (h: string)
    ensures IsDigestText(h)
  {
    HexLower(d)
  }

  /** Distinct digests never share a `hash` key, and every key names exactly one digest. */
  lemma ContentHashInjective(d1: Digest, d2: Digest)
    ensures ContentHash(d1) == ContentHash(d2) <==> d1 == d2
  {
    if ContentHash(d1) == ContentHash(d2) {
      HexLowerInjective(d1, d2);
    }
  }

  lemma ContentHashOnto(h: string)
    requires IsDigestText(h)
    ensures |HexDecode(h)| == 32 && ContentHash(HexDecode(h)) == h
  {
    HexDecodeRoundTrip(h);
  }

  // ---------------------------------------------------------------- stored file name

  /** The Unix second of an instant (`time.Time.Unix`, which rounds towards minus infinity). */
  function UnixSeconds(now: Time): int {
    now / NanosPerSecond
  }

  /** `generateUniqueFilename`: the name without its extension, "_", the Unix second, the extension. */
  function GenerateUniqueFilename(originalFilename: string, now: Time): string {
    var ext := Ext(originalFilename);
    TrimSuffix(originalFilename, ext) + "_" + IntToDecimal(UnixSeconds(now)) + ext
  }

  /** The generated name splits back into the original stem, the timestamp and the original extension. */
  lemma {:induction false} UniqueFilenameParts(originalFilename: string, now: Time)
    ensures var g, ext := GenerateUniqueFilename(originalFilename, now), Ext(originalFilename);
            var stem := originalFilename[..|originalFilename| - |ext|];
            var stamp := IntToDecimal(UnixSeconds(now));
            && stem + ext == originalFilename
            && g == stem + "_" + stamp + ext
            && DecimalToInt(g[|stem| + 1..|g| - |ext|]) == UnixSeconds(now)
  {
    var g, ext := GenerateUniqueFilename(originalFilename, now), Ext(originalFilename);
    var stem := originalFilename[..|originalFilename| - |ext|];
    var stamp := IntToDecimal(UnixSeconds(now));
    assert stem + ext == originalFilename;
    assert TrimSuffix(originalFilename, ext) == stem;
    assert g[|stem| + 1..|g| - |ext|] == stamp;
    DecimalRoundTrip(UnixSeconds(now));
  }

  /** The separator and the timestamp contain no dot and no slash. */
  lemma StampHasNoDot(seconds: int)
    ensures NoDotOrSlash("_" + IntToDecimal(seconds))
  {
    var t := "_" + IntToDecimal(seconds);
    forall i | 0 <= i < |t| ensures t[i] != '.' && t[i] != '/' {
      if i > 0 { assert t[i] == IntToDecimal(seconds)[i - 1]; }
    }
  }

  /** The generated name keeps the extension `filepath.Ext` sees in the original. */
  lemma {:induction false} UniqueFilenameKeepsExtension(originalFilename: string, now: Time)
    ensures Ext(GenerateUniqueFilename(originalFilename, now)) == Ext(originalFilename)
  {
    UniqueFilenameParts(originalFilename, now);
    var ext := Ext(originalFilename);
    var stem := originalFilename[..|originalFilename| - |ext|];
    var stamp := IntToDecimal(UnixSeconds(now));
    var g := GenerateUniqueFilename(originalFilename, now);
    StampHasNoDot(UnixSeconds(now));
    match ExtStart(originalFilename)
    case None =>
      assert ext == [] && stem == originalFilename;
      assert g == originalFilename + ("_" + stamp);
      ExtStartSkips(originalFilename, "_" + stamp);
    case Some(i) =>
      var rest := ext[1..];
      assert ext == "." + rest;
      assert g == (stem + "_" + stamp) + "." + rest;
      ExtStartAtDot(stem + "_" + stamp, rest);
  }

  /** Two uploads of one name collide exactly when they fall in the same Unix second. */
  lemma UniqueFilenameDistinctSeconds(originalFilename: string, t1: Time, t2: Time)
    ensures GenerateUniqueFilename(originalFilename, t1) == GenerateUniqueFilename(originalFilename, t2)
            <==> UnixSeconds(t1) == UnixSeconds(t2)
  {
    UniqueFilenameParts(originalFilename, t1);
    UniqueFilenameParts(originalFilename, t2);
  }

  // ---------------------------------------------------------------- remaining quota

  /** `remaining_storage` of the statistics: the unused quota, never below zero. */
  function RemainingStorage(quota: int, used: int): (r: int)
    ensures r >= 0 && r >= quota - used
    ensures r > 0 <==> used < quota
    ensures r > 0 ==> used + r == quota
  {
    if quota - used < 0 then 0 else quota - used
  }

  // ---------------------------------------------------------------- folder ids

  /** Where an upload goes: the root (no folder) or the folder with this id text. */
  datatype FolderTarget = RootFolder | InFolder(id: Uuid)

  /** The `folder_id` parameter of an upload: the form field, else the query string. */
  function UploadFolderParam(formValue: string, queryValue: string): (s: string)
    ensures formValue != "" ==> s == formValue
    ensures formValue == "" ==> s == queryValue
  {
    if formValue == "" then queryValue else formValue
  }

  /** The sentinels an upload reads as "no folder". */
  predicate IsRootSentinel(s: string) {
    s == "" || s == "null" || s == "root"
  }

  function UploadFolderTarget(s: string): (t: FolderTarget)
    ensures t == RootFolder <==> IsRootSentinel(s)
    ensures t.InFolder? ==> t.id == s
  {
    if IsRootSentinel(s) then RootFolder else InFolder(s)
  }

  /** How a file listing filters on its `folder_id` query parameter. */
  datatype FolderFilter = AllFolders | RootOnly | OnlyFolder(id: Uuid)

  function ListFolderFilter(s: string): (f: FolderFilter)
    ensures f == AllFolders <==> s == ""
    ensures f == RootOnly <==> s == "root" || s == "null"
    ensures f.OnlyFolder? ==> f.id == s && !IsRootSentinel(s)
  {
    if s == "" then AllFolders
    else if s == "root" || s == "null" then RootOnly
    else OnlyFolder(s)
  }

  /** Upload and listing read the sentinels alike, except the empty text: root for one, every folder for the other. */
  lemma SentinelsAgreeExceptEmpty(s: string)
    ensures s != "" ==> (UploadFolderTarget(s) == RootFolder <==> ListFolderFilter(s) == RootOnly)
    ensures s == "" ==> UploadFolderTarget(s) == RootFolder && ListFolderFilter(s) == AllFolders
  {
  }

  // ---------------------------------------------------------------- blob paths

  /** The path of a blob relative to the storage root, derived from its hash. */
  function BlobRelPath(hash: string): string {
    "storage/" + hash
  }

  /** The absolute path of the blob for `hash`. */
  function BlobPath(root: string, hash: string): string {
    Join(root, BlobRelPath(hash))
  }

  /** Distinct hashes live at distinct paths. */
  lemma BlobPathInjective(root: string, h1: string, h2: string)
    ensures BlobPath(root, h1) == BlobPath(root, h2) <==> h1 == h2
  {
    if BlobPath(root, h1) == BlobPath(root, h2) {
      JoinInjective(root, BlobRelPath(h1), BlobRelPath(h2));
      assert h1 == BlobRelPath(h1)[8..];
    }
  }

  /**
   * The path a file is served from: the canonical path of its hash row when
   * it exists on disk, else the legacy path named by the file id, else none.
   */
  function ServedPath(disk: Disk, root: string, storagePath: string, fileId: Uuid): (r: Option<string>)
    ensures r.Some? ==> r.value in disk
    ensures r.Some? <==> Join(root, storagePath) in disk || Join(root, fileId) in disk
    ensures Join(root, storagePath) in disk ==> r == Some(Join(root, storagePath))
    ensures r.Some? && r.value != Join(root, storagePath) ==> r.value == Join(root, fileId)
  {
    var canonical := Join(root, storagePath);
    if canonical in disk then Some(canonical)
    else
      var legacy := Join(root, fileId);
      if legacy in disk then Some(legacy) else None
  }
}
