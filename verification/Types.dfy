/** The values the catalog and the blob store share: digests, cache keys, what an entry
    names, and clock readings. */
module Types {

  datatype Option<+T> = None | Some(value: T)

  /** A sha256 digest as 64 lowercase hex characters. */
  type Digest = string

  predicate ValidDigest(d: Digest) {
    |d| == 64 && forall i :: 0 <= i < |d| ==> '0' <= d[i] <= '9' || 'a' <= d[i] <= 'f'
  }

  datatype Key = Key(project: string, eco: string, key: string)

  /** What a lookup must get right: the bytes, their size and how to label them. */
  datatype Content = Content(digest: Digest, size: int, mediaType: string)

  /** A clock reading in nanoseconds since 1970; the zero reading is 1 January of year 1. */
  type Time = int

  const SECOND: int := 1_000_000_000
  const ZERO_SECONDS: int := -62_135_596_800
  const ZERO_TIME: Time := ZERO_SECONDS * SECOND

  /** Seconds as the tables store them: the zero reading is stored as 0. */
  function Ts(t: Time): int {
    if t == ZERO_TIME then 0 else t / SECOND
  }

  function FromTs(seconds: int): Time {
    if seconds == 0 then ZERO_TIME else seconds * SECOND
  }

  function OrNow(t: Time, now: Time): Time {
    if t == ZERO_TIME then now else t
  }

  function Max(a: int, b: int): int {
    if a < b then b else a
  }

  /** A row of the cache as callers pass it around. */
  datatype Entry = Entry(
    key: Key, digest: Digest, size: int, mediaType: string, cachedAt: Time, lastAccess: Time, hits: int)
  {
    function Payload(): Content {
      Content(digest, size, mediaType)
    }
  }
}
