/** Writers that commit to the blob store, any number at once, with deletions and power losses
    anywhere in between. */
module BlobCommit {
  import opened Types
  import opened BlobDisk

  type Tid = nat

  /** Where a writer stands. Linked and Existed hold the lifecycle lock; Finished is past the
      point where the outcome of Commit is settled. */
  datatype Pc = Writing | Synced | Ready | Linked | Existed | Finished(ok: bool)

  datatype Session = Session(ino: Ino, hashed: Bytes, written: nat, pc: Pc)

  datatype State = State(disk: Disk, sessions: map<Tid, Session>, holder: Option<Tid>)

  const INIT := State(EMPTY_DISK, map[], None)

  datatype Label =
    | Create(tid: Tid)
    | Write(tid: Tid, p: Bytes, n: nat)
    | Abort(tid: Tid)
    | Sync(tid: Tid, ok: bool)
    | Prepare(tid: Tid, ok: bool)
    | LinkName(tid: Tid, ok: bool)
    | Publish(tid: Tid, ok: bool)
    | Discard(tid: Tid)
    | Delete(digest: Digest)
    | Crash(after: Disk)
    | CleanStaging

  ghost predicate Step(hash: Hash, s: State, l: Label, s': State) {
    match l
    case Create(t) =>
      && t !in s.sessions
      && s' == s.(disk := s.disk.Create(), sessions := s.sessions[t := Session(s.disk.next, [], 0, Writing)])
    case Write(t, p, n) =>
      // a short write leaves n of the bytes in the file and the same n in the hash
      && At(s, t, Writing) && n <= |p|
      && var w := s.sessions[t];
         s' == s.(disk := s.disk.Append(w.ino, p[..n]),
                  sessions := s.sessions[t := w.(hashed := w.hashed + p[..n], written := w.written + n)])
    case Abort(t) =>
      && At(s, t, Writing)
      && s' == s.(disk := s.disk.Unstage(s.sessions[t].ino), sessions := s.sessions - {t})
    case Sync(t, ok) =>
      && At(s, t, Writing)
      && var w := s.sessions[t];
         s' == if ok then Moved(s.(disk := s.disk.Fsync(w.ino)), t, Synced) else Failed(s, t)
    case Prepare(t, ok) =>
      // close, make the shard directory, chmod
      && At(s, t, Synced)
      && s' == if ok then Moved(s, t, Ready) else Failed(s, t)
    case LinkName(t, ok) =>
      && At(s, t, Ready) && s.holder.None?
      && var w := s.sessions[t];
         var d := hash(w.hashed);
         s' ==
           if d in s.disk.names then Moved(s.(holder := Some(t)), t, Existed)
           else if ok then Moved(s.(disk := s.disk.Link(w.ino, d), holder := Some(t)), t, Linked)
           else Failed(s, t)
    case Publish(t, ok) =>
      // fsync the directory, or refresh the times of the blob that was there; then unlock
      && t in s.sessions && s.holder == Some(t)
      && var w := s.sessions[t];
         var disk := if w.pc == Linked && ok then s.disk.SyncDir(hash(w.hashed)) else s.disk;
         s' == Moved(s.(disk := disk, holder := None), t, Finished(ok))
    case Discard(t) =>
      && t in s.sessions && s.sessions[t].pc.Finished?
      && s' == s.(disk := s.disk.Unstage(s.sessions[t].ino))
    case Delete(d) =>
      && s.holder.None?
      && s' == if d in s.disk.names then s.(disk := s.disk.Unlink(d)) else s
    case Crash(after) =>
      && CrashTo(s.disk, after)
      && s' == State(after, map[], None)
    case CleanStaging =>
      && s.sessions == map[]
      && s' == s.(disk := s.disk.(staging := {}))
  }

  predicate At(s: State, t: Tid, pc: Pc) {
    t in s.sessions && s.sessions[t].pc == pc
  }

  function Moved(s: State, t: Tid, pc: Pc): State
    requires t in s.sessions
  {
    s.(sessions := s.sessions[t := s.sessions[t].(pc := pc)])
  }

  /** The error returns: the staging file is removed. */
  function Failed(s: State, t: Tid): State
    requires t in s.sessions
  {
    Moved(s.(disk := s.disk.Unstage(s.sessions[t].ino)), t, Finished(false))
  }

  // ---- the invariant ----------------------------------------------------------------------------

  /** The hash and the count have seen exactly what is in the file, and what may be linked is
      synced. */
  ghost predicate Faithful(disk: Disk, w: Session) {
    && w.ino in disk.files
    && disk.files[w.ino].bytes == w.hashed && w.written == |w.hashed|
    && (w.pc.Writing? ==> !disk.files[w.ino].synced)
    && (w.pc.Synced? || w.pc.Ready? || w.pc.Linked? || w.pc.Existed? ==> disk.files[w.ino].synced)
  }

  ghost predicate Inv(hash: Hash, s: State) {
    && Sound(s.disk, hash)
    && (forall t :: t in s.sessions ==> Faithful(s.disk, s.sessions[t]))
    && (forall t, u :: t in s.sessions && u in s.sessions && t != u ==> s.sessions[t].ino != s.sessions[u].ino)
    && (s.holder.Some? ==> s.holder.value in s.sessions)
    && (forall t :: t in s.sessions ==>
          ((s.sessions[t].pc.Linked? || s.sessions[t].pc.Existed?) <==> s.holder == Some(t)))
    && (forall t :: t in s.sessions && s.sessions[t].pc.Linked? ==>
          s.disk.Current(hash(s.sessions[t].hashed)) == Some(s.sessions[t].ino))
    && (forall t :: t in s.sessions && s.sessions[t].pc.Existed? ==> hash(s.sessions[t].hashed) in s.disk.names)
  }

  lemma UnstageInv(hash: Hash, s: State, ino: Ino)
    requires Inv(hash, s)
    ensures Inv(hash, s.(disk := s.disk.Unstage(ino)))
  {
    SameNames(s.disk, s.disk.Unstage(ino), hash);
  }

  lemma WriteInv(hash: Hash, s: State, t: Tid, p: Bytes, n: nat, s': State)
    requires Inv(hash, s) && Step(hash, s, Write(t, p, n), s')
    ensures Inv(hash, s')
  {
    AppendSound(s.disk, hash, s.sessions[t].ino, p[..n]);
  }

  lemma SyncInv(hash: Hash, s: State, t: Tid, ok: bool, s': State)
    requires Inv(hash, s) && Step(hash, s, Sync(t, ok), s')
    ensures Inv(hash, s')
  {
    FsyncSound(s.disk, hash, s.sessions[t].ino);
    if ok {
      var disk := s.disk.Fsync(s.sessions[t].ino);
      forall u | u in s.sessions && u != t ensures Faithful(disk, s.sessions[u]) {
      }
      assert Faithful(disk, s.sessions[t].(pc := Synced));
    } else {
      UnstageInv(hash, s, s.sessions[t].ino);
    }
  }

  lemma LinkInv(hash: Hash, s: State, t: Tid, ok: bool, s': State)
    requires Inv(hash, s) && Step(hash, s, LinkName(t, ok), s')
    ensures Inv(hash, s')
  {
    var w := s.sessions[t];
    var d := hash(w.hashed);
    if d in s.disk.names {
    } else if ok {
      LinkSound(s.disk, hash, w.ino, d);
    } else {
      UnstageInv(hash, s, w.ino);
    }
  }

  lemma PublishInv(hash: Hash, s: State, t: Tid, ok: bool, s': State)
    requires Inv(hash, s) && Step(hash, s, Publish(t, ok), s')
    ensures Inv(hash, s')
  {
    SyncDirSound(s.disk, hash, hash(s.sessions[t].hashed));
  }

  lemma CreateInv(hash: Hash, s: State, t: Tid, s': State)
    requires Inv(hash, s) && Step(hash, s, Create(t), s')
    ensures Inv(hash, s')
  {
    CreateSound(s.disk, hash);
    forall u | u in s.sessions ensures s.sessions[u].ino < s.disk.next {
      assert Faithful(s.disk, s.sessions[u]);
    }
    forall u | u in s'.sessions ensures Faithful(s'.disk, s'.sessions[u]) {
      if u != t {
        assert Faithful(s.disk, s.sessions[u]);
      }
    }
  }

  lemma DeleteInv(hash: Hash, s: State, d: Digest, s': State)
    requires Inv(hash, s) && Step(hash, s, Delete(d), s')
    ensures Inv(hash, s')
  {
    UnlinkSound(s.disk, hash, d);
    forall u | u in s.sessions ensures !s.sessions[u].pc.Linked? {
    }
  }

  lemma StepKeeps(hash: Hash, s: State, l: Label, s': State)
    requires Inv(hash, s) && Step(hash, s, l, s')
    ensures Inv(hash, s')
  {
    match l
    case Create(t) => CreateInv(hash, s, t, s');
    case Write(t, p, n) => WriteInv(hash, s, t, p, n, s');
    case Abort(t) => UnstageInv(hash, s, s.sessions[t].ino);
    case Sync(t, ok) => SyncInv(hash, s, t, ok, s');
    case Prepare(t, ok) => UnstageInv(hash, s, s.sessions[t].ino);
    case LinkName(t, ok) => LinkInv(hash, s, t, ok, s');
    case Publish(t, ok) => PublishInv(hash, s, t, ok, s');
    case Discard(t) => UnstageInv(hash, s, s.sessions[t].ino);
    case Delete(d) => DeleteInv(hash, s, d, s');
    case Crash(after) => CrashSound(s.disk, hash, after);
    case CleanStaging => SameNames(s.disk, s'.disk, hash);
  }

  // ---- whole runs -------------------------------------------------------------------------------

  ghost predicate Run(hash: Hash, states: seq<State>, labels: seq<Label>) {
    && |states| == |labels| + 1
    && forall i :: 0 <= i < |labels| ==> Step(hash, states[i], labels[i], states[i + 1])
  }

  lemma {:induction false} RunKeeps(hash: Hash, states: seq<State>, labels: seq<Label>, n: nat)
    requires Run(hash, states, labels) && Inv(hash, states[0]) && n < |states|
    ensures Inv(hash, states[n])
  {
    if n > 0 {
      RunKeeps(hash, states, labels, n - 1);
      StepKeeps(hash, states[n - 1], labels[n - 1], states[n]);
    }
  }

  /** At every point of every run, with any number of writers and crashes anywhere, a name
      under a digest, now or after a crash at this point, is a whole file with that hash. */
  lemma NamesAreComplete(hash: Hash, states: seq<State>, labels: seq<Label>, n: nat, d: Digest, after: Disk)
    requires Run(hash, states, labels) && states[0] == INIT && n < |states|
    requires after == states[n].disk || CrashTo(states[n].disk, after)
    requires d in after.names
    ensures Complete(after, hash, d, after.names[d])
  {
    assert forall d :: INIT.disk.Possible(d) == {None};
    RunKeeps(hash, states, labels, n);
    if after != states[n].disk {
      CrashSound(states[n].disk, hash, after);
    }
    assert after.Current(d) == Some(after.names[d]);
    assert after.Current(d) in after.Possible(d);
  }

  /** While a name exists its inode stays the same, and the bytes of a published inode never
      change at all, whoever commits the same content again. */
  lemma InodeStays(hash: Hash, s: State, l: Label, s': State, d: Digest)
    requires Inv(hash, s) && Step(hash, s, l, s')
    ensures !l.Crash? && d in s.disk.names && d in s'.disk.names ==> s'.disk.names[d] == s.disk.names[d]
    ensures forall i :: Some(i) in s.disk.Possible(d) ==>
      i in s.disk.files && i in s'.disk.files && s'.disk.files[i] == s.disk.files[i]
  {
    forall i | Some(i) in s.disk.Possible(d)
      ensures i in s.disk.files && i in s'.disk.files && s'.disk.files[i] == s.disk.files[i]
    {
      assert Complete(s.disk, hash, d, i);
      assert i != s.disk.next;
    }
  }

  // ---- durability -------------------------------------------------------------------------------

  /** A commit that linked its file and synced the directory has settled the name. */
  lemma LinkedCommitIsCertain(hash: Hash, s: State, t: Tid, s': State)
    requires Inv(hash, s) && Step(hash, s, Publish(t, true), s') && s.sessions[t].pc.Linked?
    ensures var d := hash(s.sessions[t].hashed);
      s'.disk.Current(d) == Some(s.sessions[t].ino) && Certain(s'.disk, d)
  {
    SyncDirIs(s.disk, hash(s.sessions[t].hashed), hash(s.sessions[t].hashed));
  }

  lemma CertainStays(hash: Hash, s: State, l: Label, s': State, d: Digest)
    requires Inv(hash, s) && Step(hash, s, l, s') && l != Delete(d)
    requires d in s.disk.names && Certain(s.disk, d)
    ensures s'.disk.Current(d) == s.disk.Current(d) && Certain(s'.disk, d)
  {
    if l.Publish? {
      SyncDirIs(s.disk, hash(s.sessions[l.tid].hashed), d);
    }
    if l.Crash? {
      assert l.after.Current(d) in s.disk.Possible(d);
    }
  }

  /** A blob whose commit linked it and returned success is there, complete and under the same
      inode, after any run from then on that does not delete it, power losses included. */
  lemma {:induction false} CommittedBlobSurvives(
    hash: Hash, states: seq<State>, labels: seq<Label>, t: Tid, d: Digest, n: nat)
    requires Run(hash, states, labels) && Inv(hash, states[0]) && 0 < n < |states|
    requires labels[0] == Publish(t, true) && t in states[0].sessions && states[0].sessions[t].pc.Linked?
    requires d == hash(states[0].sessions[t].hashed)
    requires forall i :: 0 <= i < |labels| ==> labels[i] != Delete(d)
    ensures Certain(states[n].disk, d) && states[n].disk.Current(d) == Some(states[0].sessions[t].ino)
    ensures Complete(states[n].disk, hash, d, states[0].sessions[t].ino)
  {
    if n == 1 {
      assert Step(hash, states[0], labels[0], states[1]);
      LinkedCommitIsCertain(hash, states[0], t, states[1]);
    } else {
      CommittedBlobSurvives(hash, states, labels, t, d, n - 1);
      RunKeeps(hash, states, labels, n - 1);
      CertainStays(hash, states[n - 1], labels[n - 1], states[n], d);
    }
    RunKeeps(hash, states, labels, n);
    assert Some(states[0].sessions[t].ino) in states[n].disk.Possible(d);
  }

  /** The crash that takes one name and leaves every other as it is. */
  function Losing(disk: Disk, d: Digest): Disk {
    var names := disk.names - {d};
    Disk(disk.files, {}, names,
         map k | k in disk.maybe.Keys + disk.names.Keys :: {if k in names then Some(names[k]) else None}, disk.next)
  }

  lemma LosingIsCrash(disk: Disk, hash: Hash, d: Digest)
    requires Sound(disk, hash) && None in disk.Possible(d)
    ensures CrashTo(disk, Losing(disk, d)) && d !in Losing(disk, d).names
  {
    var after := Losing(disk, d);
    forall k ensures after.Current(k) in disk.Possible(k) && after.Possible(k) == {after.Current(k)} {
      assert disk.Current(k) in disk.Possible(k);
    }
  }

  /** The step makes d's name: a link that finds no blob there. */
  predicate MakesName(hash: Hash, s: State, l: Label, d: Digest) {
    l.LinkName? && l.ok && l.tid in s.sessions && hash(s.sessions[l.tid].hashed) == d && d !in s.disk.names
  }

  /** The step leaves no doubt about the names in d's directory: the writer of a blob there has
      linked it and syncs the directory, or the power is lost. */
  predicate SettlesNames(hash: Hash, s: State, l: Label, d: Digest) {
    || l.Crash?
    || (l.Publish? && l.ok && l.tid in s.sessions && s.sessions[l.tid].pc.Linked?
        && Shard(hash(s.sessions[l.tid].hashed)) == Shard(d))
  }

  /** Step m settled d's directory, and no step since made d's name. */
  ghost predicate SettledAt(hash: Hash, states: seq<State>, labels: seq<Label>, n: nat, d: Digest, m: nat)
    requires |states| == |labels| + 1 && n < |states|
  {
    && m < n && SettlesNames(hash, states[m], labels[m], d)
    && forall i {:trigger labels[i]} :: m < i < n ==> !MakesName(hash, states[i], labels[i], d)
  }

  /** In the first n steps, the last one that made d's name has been followed by one that settled
      it. */
  ghost predicate SettledSinceMade(hash: Hash, states: seq<State>, labels: seq<Label>, n: nat, d: Digest)
    requires |states| == |labels| + 1 && n < |states|
  {
    exists m: nat :: SettledAt(hash, states, labels, n, d, m)
  }

  lemma SettledGrows(hash: Hash, states: seq<State>, labels: seq<Label>, n: nat, d: Digest)
    requires |states| == |labels| + 1 && n < |labels|
    ensures SettledSinceMade(hash, states, labels, n + 1, d) <==>
      (SettlesNames(hash, states[n], labels[n], d) ||
       (SettledSinceMade(hash, states, labels, n, d) && !MakesName(hash, states[n], labels[n], d)))
  {
    if SettlesNames(hash, states[n], labels[n], d) {
      assert SettledAt(hash, states, labels, n + 1, d, n);
    } else if SettledSinceMade(hash, states, labels, n, d) && !MakesName(hash, states[n], labels[n], d) {
      var m: nat :| SettledAt(hash, states, labels, n, d, m);
      assert SettledAt(hash, states, labels, n + 1, d, m);
    } else if SettledSinceMade(hash, states, labels, n + 1, d) {
      var m: nat :| SettledAt(hash, states, labels, n + 1, d, m);
      assert m < n && SettledAt(hash, states, labels, n, d, m);
    }
  }

  /** A name that may be missing after a crash stays so until its directory is settled. */
  lemma DoubtStays(hash: Hash, s: State, l: Label, s': State, d: Digest)
    requires Inv(hash, s) && Step(hash, s, l, s') && !SettlesNames(hash, s, l, d)
    requires None in s.disk.Possible(d)
    ensures None in s'.disk.Possible(d)
  {
    if l.Publish? {
      SyncDirIs(s.disk, hash(s.sessions[l.tid].hashed), d);
    }
  }

  /** Before it is made, a name may be missing after a crash. */
  lemma NewIsInDoubt(hash: Hash, s: State, l: Label, d: Digest)
    requires Inv(hash, s) && MakesName(hash, s, l, d)
    ensures None in s.disk.Possible(d)
  {
    assert s.disk.Current(d) in s.disk.Possible(d);
  }

  predicate Settled(disk: Disk, d: Digest) {
    d in disk.names ==> None !in disk.Possible(d)
  }

  lemma SettlingSettles(hash: Hash, s: State, l: Label, s': State, d: Digest)
    requires Inv(hash, s) && Step(hash, s, l, s') && SettlesNames(hash, s, l, d)
    ensures Settled(s'.disk, d)
  {
    if l.Publish? {
      SyncDirIs(s.disk, hash(s.sessions[l.tid].hashed), d);
    }
  }

  lemma SettledStays(hash: Hash, s: State, l: Label, s': State, d: Digest)
    requires Inv(hash, s) && Step(hash, s, l, s') && !MakesName(hash, s, l, d) && Settled(s.disk, d)
    ensures Settled(s'.disk, d)
  {
    if l.Publish? {
      SyncDirIs(s.disk, hash(s.sessions[l.tid].hashed), d);
    }
  }

  /** What the history says of the name holds of the disk. */
  ghost predicate Judged(disk: Disk, d: Digest, settled: bool) {
    (settled ==> Settled(disk, d)) && (!settled ==> None in disk.Possible(d))
  }

  lemma JudgedStep(hash: Hash, s: State, l: Label, s': State, d: Digest, settled: bool)
    requires Inv(hash, s) && Step(hash, s, l, s') && Judged(s.disk, d, settled)
    ensures Judged(s'.disk, d, SettlesNames(hash, s, l, d) || (settled && !MakesName(hash, s, l, d)))
  {
    if SettlesNames(hash, s, l, d) {
      SettlingSettles(hash, s, l, s', d);
    } else if MakesName(hash, s, l, d) {
      NewIsInDoubt(hash, s, l, d);
      DoubtStays(hash, s, l, s', d);
    } else if settled {
      SettledStays(hash, s, l, s', d);
    } else {
      DoubtStays(hash, s, l, s', d);
    }
  }

  /** At every point of every run, a name that is there is certain to outlive a crash just when
      it has been settled since it was made. */
  lemma {:induction false} HistoryDecides(hash: Hash, states: seq<State>, labels: seq<Label>, n: nat, d: Digest)
    requires Run(hash, states, labels) && states[0] == INIT && n < |states|
    ensures Inv(hash, states[n])
    ensures Judged(states[n].disk, d, SettledSinceMade(hash, states, labels, n, d))
  {
    assert forall k :: INIT.disk.Possible(k) == {None};
    RunKeeps(hash, states, labels, n);
    if n > 0 {
      HistoryDecides(hash, states, labels, n - 1, d);
      SettledGrows(hash, states, labels, n - 1, d);
      JudgedStep(hash, states[n - 1], labels[n - 1], states[n], d,
                 SettledSinceMade(hash, states, labels, n - 1, d));
    }
  }

  /** A continuation of s in which d is not deleted. */
  ghost predicate Keeping(hash: Hash, s: State, d: Digest, states: seq<State>, labels: seq<Label>) {
    Run(hash, states, labels) && states[0] == s && forall i :: 0 <= i < |labels| ==> labels[i] != Delete(d)
  }

  /** d's name is there after every run from s on that does not delete it, crashes included. */
  ghost predicate Durable(hash: Hash, s: State, d: Digest) {
    forall states: seq<State>, labels: seq<Label> :: Keeping(hash, s, d, states, labels) ==>
      d in states[|states| - 1].disk.names
  }

  lemma SettledNameStays(hash: Hash, s: State, l: Label, s': State, d: Digest)
    requires Inv(hash, s) && Step(hash, s, l, s') && l != Delete(d)
    requires d in s.disk.names && None !in s.disk.Possible(d)
    ensures d in s'.disk.names && None !in s'.disk.Possible(d)
  {
    if l.Publish? {
      SyncDirIs(s.disk, hash(s.sessions[l.tid].hashed), d);
    } else if l.Crash? {
      assert l.after.Current(d) in s.disk.Possible(d);
    }
  }

  lemma {:induction false} SettledLasts(hash: Hash, s: State, d: Digest, states: seq<State>, labels: seq<Label>, n: nat)
    requires Keeping(hash, s, d, states, labels) && n < |states|
    requires Inv(hash, s) && d in s.disk.names && None !in s.disk.Possible(d)
    ensures d in states[n].disk.names && None !in states[n].disk.Possible(d)
  {
    if n > 0 {
      SettledLasts(hash, s, d, states, labels, n - 1);
      RunKeeps(hash, states, labels, n - 1);
      SettledNameStays(hash, states[n - 1], labels[n - 1], states[n], d);
    }
  }

  lemma DurableIff(hash: Hash, s: State, d: Digest)
    requires Inv(hash, s) && d in s.disk.names
    ensures Durable(hash, s, d) <==> None !in s.disk.Possible(d)
  {
    if None in s.disk.Possible(d) {
      LosingIsCrash(s.disk, hash, d);
      var lost := State(Losing(s.disk, d), map[], None);
      assert Step(hash, s, Crash(lost.disk), lost);
      assert Keeping(hash, s, d, [s, lost], [Crash(lost.disk)]);
    } else {
      forall states: seq<State>, labels: seq<Label> | Keeping(hash, s, d, states, labels)
        ensures d in states[|states| - 1].disk.names {
        SettledLasts(hash, s, d, states, labels, |states| - 1);
      }
    }
  }

  /** A commit that found its content already there syncs nothing, and what it reports as stored
      outlives every later run without deletions, power losses included, if and only if, since
      the name was last made, a writer has synced the directory after linking a blob in it, or
      the power has been lost: its own success says nothing. */
  lemma ExistingCommitSurvivesIff(hash: Hash, states: seq<State>, labels: seq<Label>, n: nat, t: Tid)
    requires Run(hash, states, labels) && states[0] == INIT && n < |labels|
    requires labels[n] == Publish(t, true) && At(states[n], t, Existed)
    ensures var d := hash(states[n].sessions[t].hashed);
      Durable(hash, states[n + 1], d) <==> SettledSinceMade(hash, states, labels, n, d)
  {
    var d := hash(states[n].sessions[t].hashed);
    HistoryDecides(hash, states, labels, n, d);
    HistoryDecides(hash, states, labels, n + 1, d);
    assert Step(hash, states[n], labels[n], states[n + 1]);
    DurableIff(hash, states[n + 1], d);
  }

  // ---- a run in which a successful commit is lost -----------------------------------------------

  /** The state in which t has staged and synced p and is about to link it. */
  function ReadyToLink(s: State, t: Tid, p: Bytes): State {
    var ino := s.disk.next;
    State(s.disk.(files := s.disk.files[ino := File(p, true)], staging := s.disk.staging + {ino}, next := ino + 1),
          s.sessions[t := Session(ino, p, |p|, Ready)], s.holder)
  }

  lemma ToReady(hash: Hash, s: State, t: Tid, p: Bytes) returns (states: seq<State>, labels: seq<Label>)
    requires t !in s.sessions
    ensures Run(hash, states, labels) && states[0] == s && states[|states| - 1] == ReadyToLink(s, t, p)
    ensures forall i :: 0 <= i < |labels| ==> !labels[i].Delete?
  {
    var ino := s.disk.next;
    var s1 := s.(disk := s.disk.Create(), sessions := s.sessions[t := Session(ino, [], 0, Writing)]);
    var s2 := s1.(disk := s1.disk.Append(ino, p), sessions := s1.sessions[t := Session(ino, p, |p|, Writing)]);
    var s3 := Moved(s2.(disk := s2.disk.Fsync(ino)), t, Synced);
    var s4 := Moved(s3, t, Ready);
    assert p[..|p|] == p && [] + p == p;
    assert Step(hash, s, Create(t), s1);
    assert Step(hash, s1, Write(t, p, |p|), s2);
    assert Step(hash, s2, Sync(t, true), s3);
    assert Step(hash, s3, Prepare(t, true), s4);
    assert s4.disk.files == s.disk.files[ino := File(p, true)];
    assert s4.sessions == s.sessions[t := Session(ino, p, |p|, Ready)];
    states, labels := [s, s1, s2, s3, s4], [Create(t), Write(t, p, |p|), Sync(t, true), Prepare(t, true)];
  }

  lemma RunThen(hash: Hash, states: seq<State>, labels: seq<Label>, l: Label, s: State)
    requires Run(hash, states, labels) && Step(hash, states[|states| - 1], l, s)
    ensures Run(hash, states + [s], labels + [l])
  {
  }

  lemma RunOn(hash: Hash, states: seq<State>, labels: seq<Label>, states': seq<State>, labels': seq<Label>)
    requires Run(hash, states, labels) && Run(hash, states', labels') && states'[0] == states[|states| - 1]
    ensures Run(hash, states + states'[1..], labels + labels')
  {
    var all, ls := states + states'[1..], labels + labels';
    forall i | 0 <= i < |ls| ensures Step(hash, all[i], ls[i], all[i + 1]) {
      if i >= |labels| {
        var j := i - |labels|;
        assert all[i] == states'[j] && all[i + 1] == states'[j + 1] && ls[i] == labels'[j];
      }
    }
  }

  /** A writer links p and then fails to sync the directory: its commit fails, its name stays. */
  lemma FirstFails(hash: Hash, p: Bytes) returns (states: seq<State>, labels: seq<Label>)
    ensures Run(hash, states, labels) && states[0] == INIT
    ensures forall i :: 0 <= i < |labels| ==> !labels[i].Delete?
    ensures var s := states[|states| - 1];
      && s.holder.None? && s.sessions.Keys == {0} && s.sessions[0].pc == Finished(false)
      && s.disk.next == 1 && s.disk.names == map[hash(p) := 0] && s.disk.maybe == map[hash(p) := {None, Some(0)}]
  {
    states, labels := ToReady(hash, INIT, 0, p);
    var ready := states[|states| - 1];
    var linked := Moved(ready.(disk := ready.disk.Link(0, hash(p)), holder := Some(0)), 0, Linked);
    RunThen(hash, states, labels, LinkName(0, true), linked);
    states, labels := states + [linked], labels + [LinkName(0, true)];
    assert ready.disk.Possible(hash(p)) + {Some(0)} == {None, Some(0)};
    var failed := Moved(linked.(holder := None), 0, Finished(false));
    RunThen(hash, states, labels, Publish(0, false), failed);
    states, labels := states + [failed], labels + [Publish(0, false)];
  }

  /** Another writer of the same bytes then finds the name there and succeeds. */
  lemma SecondSucceeds(hash: Hash, p: Bytes, s: State) returns (states: seq<State>, labels: seq<Label>)
    requires s.holder.None? && s.sessions.Keys == {0} && hash(p) in s.disk.names && s.disk.next == 1
    ensures Run(hash, states, labels) && states[0] == s
    ensures forall i :: 0 <= i < |labels| ==> !labels[i].Delete?
    ensures var last := states[|states| - 1];
      && 1 in last.sessions && last.sessions[1] == Session(1, p, |p|, Finished(true))
      && last.disk.names == s.disk.names && last.disk.maybe == s.disk.maybe
  {
    states, labels := ToReady(hash, s, 1, p);
    var ready := states[|states| - 1];
    var found := Moved(ready.(holder := Some(1)), 1, Existed);
    RunThen(hash, states, labels, LinkName(1, true), found);
    states, labels := states + [found], labels + [LinkName(1, true)];
    var done := Moved(found.(holder := None), 1, Finished(true));
    RunThen(hash, states, labels, Publish(1, true), done);
    states, labels := states + [done], labels + [Publish(1, true)];
  }

  /** Two writers of the same bytes. The first links and fails to sync the directory; the
      second finds the name and returns success; then a power loss takes the blob, which
      nothing ever deleted. */
  lemma ExistingCommitLost(hash: Hash, p: Bytes) returns (states: seq<State>, labels: seq<Label>)
    ensures Run(hash, states, labels) && states[0] == INIT && |labels| > 0
    ensures forall i :: 0 <= i < |labels| ==> !labels[i].Delete?
    ensures var n := |states| - 1;
      && 1 in states[n - 1].sessions && states[n - 1].sessions[1] == Session(1, p, |p|, Finished(true))
      && hash(p) in states[n - 1].disk.names
      && labels[n - 1].Crash? && hash(p) !in states[n].disk.names
  {
    assert forall d :: INIT.disk.Possible(d) == {None};
    states, labels := FirstFails(hash, p);
    var states', labels' := SecondSucceeds(hash, p, states[|states| - 1]);
    RunOn(hash, states, labels, states', labels');
    states, labels := states + states'[1..], labels + labels';
    var s := states[|states| - 1];
    assert s == states'[|states'| - 1];
    RunKeeps(hash, states, labels, |states| - 1);
    LosingIsCrash(s.disk, hash, hash(p));
    var lost := State(Losing(s.disk, hash(p)), map[], None);
    RunThen(hash, states, labels, Crash(lost.disk), lost);
    states, labels := states + [lost], labels + [Crash(lost.disk)];
  }
}
