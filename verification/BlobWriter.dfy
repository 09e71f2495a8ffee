/** The writer of one blob and the store it commits to, call by call. */
module BlobWriter {
  import opened Types
  import opened BlobDisk

  datatype Error = Closed | ShortWrite | NotSynced | NotClosed | NotPrepared | NotLinked | NotPublished

  datatype Outcome = Committed(digest: Digest, size: nat) | Refused(error: Error)

  /** How each system call of a commit turns out. */
  datatype Calls = Calls(sync: bool, close: bool, prepare: bool, link: bool, publish: bool)

  class Store {
    var disk: Disk

    constructor ()
      ensures disk == EMPTY_DISK
    {
      disk := EMPTY_DISK;
    }
  }

  class Writer {
    const store: Store
    const ino: Ino
    const hash: Hash
    var hashed: Bytes
    var written: nat
    var closed: bool

    /** While it is open: the hash state and the count are those of the bytes in the staging
        file, which is not synced and so is nobody's blob. */
    ghost predicate Valid()
      reads this, store
    {
      && Sound(store.disk, hash)
      && ino in store.disk.files
      && store.disk.files[ino].bytes == hashed && written == |hashed|
      && (!closed ==> !store.disk.files[ino].synced && ino in store.disk.staging)
    }

    constructor (store: Store, hash: Hash)
      requires Sound(store.disk, hash)
      modifies store
      ensures Valid() && !closed && this.store == store && this.hash == hash && hashed == []
      ensures ino !in old(store.disk).files && store.disk == old(store.disk).Create()
    {
      CreateSound(store.disk, hash);
      this.store, this.hash, ino := store, hash, store.disk.next;
      hashed, written, closed := [], 0, false;
      new;
      store.disk := store.disk.Create();
    }

    /** The file takes n of the bytes. */
    method Write(p: Bytes, n: nat) returns (count: nat, error: Option<Error>)
      requires Valid() && n <= |p|
      modifies this, store
      ensures Valid() && closed == old(closed)
      ensures old(closed) ==>
        count == 0 && error == Some(Closed) && store.disk == old(store.disk) && hashed == old(hashed)
      ensures !old(closed) ==>
        && count == n && error == (if n < |p| then Some(ShortWrite) else None)
        && hashed == old(hashed) + p[..n]
        && store.disk == old(store.disk).Append(ino, p[..n])
    {
      if closed {
        return 0, Some(Closed);
      }
      AppendSound(store.disk, hash, ino, p[..n]);
      store.disk := store.disk.Append(ino, p[..n]);
      if n > 0 {
        hashed := hashed + p[..n];
        written := written + n;
      } else {
        assert p[..n] == [] && hashed + [] == hashed;
      }
      count, error := n, if n < |p| then Some(ShortWrite) else None;
    }

    method Abort()
      requires Valid()
      modifies this, store
      ensures Valid() && closed && hashed == old(hashed)
      ensures store.disk == if old(closed) then old(store.disk) else old(store.disk).Unstage(ino)
    {
      if closed {
        return;
      }
      closed := true;
      Unstage();
    }

    /** os.Remove(staging) */
    method Unstage()
      requires Valid() && closed
      modifies store
      ensures Valid() && store.disk == old(store.disk).Unstage(ino)
    {
      SameNames(store.disk, store.disk.Unstage(ino), hash);
      store.disk := store.disk.Unstage(ino);
    }

    method Commit(calls: Calls) returns (outcome: Outcome)
      requires Valid()
      modifies this, store
      ensures Valid() && closed && hashed == old(hashed)
      ensures old(closed) ==> outcome == Refused(Closed) && store.disk == old(store.disk)
      ensures !old(closed) ==> ino !in store.disk.staging && Published(old(store.disk), store.disk, calls, outcome)
    {
      if closed {
        return Refused(Closed);
      }
      closed := true;
      ghost var before := store.disk;
      if !calls.sync {
        Unstage();
        return Refused(NotSynced);
      }
      FsyncSound(store.disk, hash, ino);
      store.disk := store.disk.Fsync(ino);
      if !calls.close {
        Unstage();
        return Refused(NotClosed);
      }
      var d := hash(hashed);
      if !calls.prepare {
        Unstage();
        return Refused(NotPrepared);
      }
      if d !in store.disk.names {
        if !calls.link {
          Unstage();
          return Refused(NotLinked);
        }
        LinkSound(store.disk, hash, ino, d);
        store.disk := store.disk.Link(ino, d);
        if calls.publish {
          SyncDirSound(store.disk, hash, d);
          SyncDirIs(store.disk, d, d);
          store.disk := store.disk.SyncDir(d);
        }
      }
      Unstage();
      outcome := if calls.publish then Committed(d, written) else Refused(NotPublished);
    }

    /** What a commit may do to the store: success publishes the digest of exactly the bytes
        written, and a name that was there before keeps its inode, its bytes and its state on
        disk; a failure publishes nothing unless the name was linked and only the directory
        sync failed. No other name changes. */
    ghost predicate Published(before: Disk, after: Disk, calls: Calls, outcome: Outcome)
      reads this
    {
      var d := hash(hashed);
      && (outcome.Committed? <==>
            calls.sync && calls.close && calls.prepare && calls.publish && (d in before.names || calls.link))
      && (outcome.Committed? ==> outcome == Committed(d, |hashed|) && d in after.names)
      && (outcome.Committed? ==> Complete(after, hash, d, after.names[d]))
      && (forall k :: k in before.names ==> k in after.names && after.names[k] == before.names[k])
      && (forall k :: k in after.names && k !in before.names ==> k == d && after.names[k] == ino)
      && (d in after.names && d !in before.names && outcome.Refused? ==> outcome == Refused(NotPublished))
      && (outcome.Committed? && d !in before.names ==> Certain(after, d))
      && (forall k :: k in before.names ==> before.Possible(k) == after.Possible(k) || Certain(after, k))
      && (forall i :: i in before.files && i != ino ==> i in after.files && after.files[i] == before.files[i])
    }
  }
}
