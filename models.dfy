/**
 * The rows of the relational schema that the deduplication engine and the
 * database rate limiter work on, restricted to the columns they read or
 * write, with the defaults the schema declares.
 */
module Models {

  import opened Wrappers
  import opened Text

  /** A UUID in its textual form. */
  type Uuid = string

  /** A wall-clock instant in nanoseconds since the Unix epoch. */
  type Time = int

  const NanosPerSecond: int := 1_000_000_000

  /** The 32 bytes of a SHA-256 sum. */
  type Digest = d: seq<byte> | |d| == 32 witness seq(32, _ => 0 as byte)

  /** Width of the `hash` column: the text of one SHA-256 digest. */
  const HashColumnSize: int := 64

  /** Default `storage_quota` of a user: 1 GiB. */
  const DefaultStorageQuota: int := 1073741824

  /** Defaults of a rate-limit row: a one-second window admitting two requests. */
  const DefaultWindowDuration: int := 1_000_000_000
  const DefaultMaxRequests: int := 2

  /** One stored, unique content, keyed by the unique `hash` column. */
  datatype FileHash = FileHash(
    id: Uuid,
    hash: string,
    size: int,
    storagePath: string,
    referenceCount: int,
    createdAt: Time)

  /** A user-visible file; it owns no bytes and points at one FileHash row. */
  datatype File = File(
    id: Uuid,
    filename: string,
    originalFilename: string,
    mimeType: string,
    size: int,
    fileHashId: Uuid,
    ownerId: Uuid,
    folderId: Option<Uuid>,
    isDeleted: bool,
    deletedAt: Option<Time>,
    createdAt: Time,
    updatedAt: Time)

  /** The storage ledger of a user. */
  datatype User = User(
    id: Uuid,
    storageQuota: int,
    storageUsed: int,
    totalUploadedBytes: int,
    actualStorageBytes: int,
    savedBytes: int)

  /** Per-(user, endpoint) fixed-window counter of the database rate limiter. */
  datatype APIRateLimit = APIRateLimit(
    userId: Uuid,
    endpoint: string,
    requestCount: int,
    windowStart: Time,
    windowDuration: int,
    maxRequests: int)

  /** A user row as the schema defaults create it: a full quota and an empty ledger. */
  function NewUser(id: Uuid): (u: User)
    ensures u.id == id
    ensures u.storageQuota - u.storageUsed == 1024 * 1024 * 1024
    ensures u.totalUploadedBytes == u.actualStorageBytes + u.savedBytes
    ensures u.storageUsed == u.totalUploadedBytes == u.actualStorageBytes == u.savedBytes == 0
  {
    User(id, DefaultStorageQuota, 0, 0, 0, 0)
  }

  /** A file row as first written: live, with no deletion time. */
  function NewFile(id: Uuid, filename: string, originalFilename: string, mimeType: string, size: int,
                   fileHashId: Uuid, ownerId: Uuid, folderId: Option<Uuid>, now: Time): (f: File)
    ensures !f.isDeleted && f.deletedAt.None?
    ensures f.id == id && f.fileHashId == fileHashId && f.ownerId == ownerId && f.size == size
  {
    File(id, filename, originalFilename, mimeType, size, fileHashId, ownerId, folderId, false, None, now, now)
  }

  /** A rate-limit row with every defaulted column at its schema default. */
  function DefaultRateLimit(userId: Uuid, endpoint: string, now: Time): (r: APIRateLimit)
    ensures r.requestCount == 0 && r.windowStart == now
    ensures r.windowDuration == NanosPerSecond && r.maxRequests == 2
  {
    APIRateLimit(userId, endpoint, 0, now, DefaultWindowDuration, DefaultMaxRequests)
  }
}
