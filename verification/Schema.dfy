/** Schema migrations: an ordered list, one transaction each, resumable at every commit. */
module Schema {
  import opened Types

  // ---- statements -----------------------------------------------------------------------------

  datatype Statement =
    | CreateTable(name: string, columns: set<string>)
    | CreateIndex(name: string, table: string)
    | AddColumn(table: string, column: string)

  datatype Shape = Shape(tables: map<string, set<string>>, indexes: map<string, string>)

  const EMPTY := Shape(map[], map[])

  /** CREATE ... IF NOT EXISTS does nothing to what exists; an index needs its table; ALTER
      TABLE ADD COLUMN fails on a missing table and on a column that is already there. */
  function Exec(s: Shape, st: Statement): Option<Shape> {
    match st
    case CreateTable(name, columns) =>
      Some(if name in s.tables then s else s.(tables := s.tables[name := columns]))
    case CreateIndex(name, table) =>
      if table !in s.tables then None
      else Some(if name in s.indexes then s else s.(indexes := s.indexes[name := table]))
    case AddColumn(table, column) =>
      if table !in s.tables || column in s.tables[table] then None
      else Some(s.(tables := s.tables[table := s.tables[table] + {column}]))
  }

  function ExecAll(s: Shape, stmts: seq<Statement>): Option<Shape> {
    if stmts == [] then Some(s)
    else
      match ExecAll(s, stmts[..|stmts| - 1])
      case None => None
      case Some(t) => Exec(t, stmts[|stmts| - 1])
  }

  datatype Migration = Migration(version: int, stmts: seq<Statement>)

  /** The database: its shape, and schema_version once it exists. */
  datatype Db = Db(shape: Shape, versions: Option<seq<int>>)

  const FRESH := Db(EMPTY, None)

  /** One migration's transaction: its statements and its version row, or nothing. */
  function Step(db: Db, m: Migration): Option<Db> {
    match (ExecAll(db.shape, m.stmts), db.versions)
    case (Some(shape), Some(versions)) =>
      if m.version in versions then None else Some(Db(shape, Some(versions + [m.version])))
    case _ => None
  }

  /** COALESCE(MAX(version), 0) */
  function MaxVersion(versions: seq<int>): int {
    if versions == [] then 0
    else if |versions| == 1 then versions[0]
    else Max(MaxVersion(versions[..|versions| - 1]), versions[|versions| - 1])
  }

  datatype Outcome = Done | Stopped | Failed | TooNew

  /** The migrations from index i on, of which the first `commits` may commit. */
  function MigrateFrom(db: Db, ms: seq<Migration>, i: nat, current: int, commits: nat): (Db, Outcome)
    requires i <= |ms|
    decreases |ms| - i
  {
    if i == |ms| then (db, Done)
    else if ms[i].version <= current then MigrateFrom(db, ms, i + 1, current, commits)
    else if commits == 0 then (db, Stopped)
    else
      match Step(db, ms[i])
      case None => (db, Failed)
      case Some(next) => MigrateFrom(next, ms, i + 1, current, commits - 1)
  }

  function WithVersions(db: Db): Db {
    if db.versions.Some? then db else db.(versions := Some([]))
  }

  /** A whole call, stopped by an error or a crash after `writes` writes have committed. */
  function Migrated(db: Db, ms: seq<Migration>, writes: nat): (Db, Outcome)
    requires ms != []
  {
    if writes == 0 then (db, Stopped)
    else
      var ready := WithVersions(db);
      var current := MaxVersion(ready.versions.value);
      if current > ms[|ms| - 1].version then (ready, TooNew)
      else MigrateFrom(ready, ms, 0, current, writes - 1)
  }

  class Database {
    var db: Db

    constructor ()
      ensures db == FRESH
    {
      db := FRESH;
    }

    method Migrate(ms: seq<Migration>, writes: nat) returns (outcome: Outcome)
      requires ms != []
      modifies this
      ensures (db, outcome) == Migrated(old(db), ms, writes)
    {
      if writes == 0 {
        return Stopped;
      }
      if db.versions.None? {
        db := db.(versions := Some([]));
      }
      var current := ReadVersion(db.versions.value);
      if current > ms[|ms| - 1].version {
        return TooNew;
      }
      ghost var ready := db;
      var commits := writes - 1;
      for i := 0 to |ms|
        invariant 0 <= commits
        invariant MigrateFrom(db, ms, i, current, commits) == MigrateFrom(ready, ms, 0, current, writes - 1)
      {
        if ms[i].version <= current {
          continue;
        }
        if commits == 0 {
          return Stopped;
        }
        var tx := Transaction(ms[i]);
        if tx.None? {
          return Failed;
        }
        db, commits := tx.value, commits - 1;
      }
      outcome := Done;
    }

    /** Runs one migration's statements; the caller commits what it returns. */
    method Transaction(m: Migration) returns (tx: Option<Db>)
      ensures tx == Step(db, m)
    {
      var shape := db.shape;
      for i := 0 to |m.stmts|
        invariant ExecAll(db.shape, m.stmts[..i]) == Some(shape)
      {
        assert m.stmts[..i + 1][..i] == m.stmts[..i];
        var next := Exec(shape, m.stmts[i]);
        if next.None? {
          FailedPrefix(db.shape, m.stmts, i + 1);
          return None;
        }
        shape := next.value;
      }
      assert m.stmts[..|m.stmts|] == m.stmts;
      if db.versions.None? || m.version in db.versions.value {
        return None;
      }
      tx := Some(Db(shape, Some(db.versions.value + [m.version])));
    }

    static method ReadVersion(versions: seq<int>) returns (current: int)
      ensures current == MaxVersion(versions)
    {
      if versions == [] {
        return 0;
      }
      current := versions[0];
      for i := 1 to |versions|
        invariant current == MaxVersion(versions[..i])
      {
        assert versions[..i + 1][..i] == versions[..i];
        if versions[i] > current {
          current := versions[i];
        }
      }
      assert versions[..|versions|] == versions;
    }
  }

  /** A statement that fails fails the whole transaction. */
  lemma {:induction false} FailedPrefix(s: Shape, stmts: seq<Statement>, n: nat)
    requires n <= |stmts| && ExecAll(s, stmts[..n]).None?
    ensures ExecAll(s, stmts).None?
    decreases |stmts| - n
  {
    if n == |stmts| {
      assert stmts[..n] == stmts;
    } else {
      assert stmts[..n + 1][..n] == stmts[..n];
      FailedPrefix(s, stmts, n + 1);
    }
  }

  // ---- resumption -------------------------------------------------------------------------------

  /** The database the first p migrations produce, each applied once. */
  function Applied(ms: seq<Migration>, p: nat): Option<Db>
    requires p <= |ms|
  {
    if p == 0 then Some(Db(EMPTY, Some([])))
    else
      match Applied(ms, p - 1)
      case None => None
      case Some(db) => Step(db, ms[p - 1])
  }

  /** Versions are positive and increase, and the list runs through from nothing. */
  ghost predicate WellFormed(ms: seq<Migration>) {
    && ms != []
    && (forall i :: 0 <= i < |ms| ==> ms[i].version > 0)
    && (forall i, j :: 0 <= i < j < |ms| ==> ms[i].version < ms[j].version)
    && (forall p :: 0 <= p <= |ms| ==> Applied(ms, p).Some?)
  }

  lemma {:induction false} AppliedVersion(ms: seq<Migration>, p: nat)
    requires WellFormed(ms) && p <= |ms|
    ensures Applied(ms, p).Some? && Applied(ms, p).value.versions.Some?
    ensures |Applied(ms, p).value.versions.value| == p
    ensures MaxVersion(Applied(ms, p).value.versions.value) == if p == 0 then 0 else ms[p - 1].version
  {
    if p > 0 {
      AppliedVersion(ms, p - 1);
      var before, after := Applied(ms, p - 1).value.versions.value, Applied(ms, p).value.versions.value;
      assert after == before + [ms[p - 1].version];
      assert after[..|after| - 1] == before;
    }
  }

  /** With `known` migrations on record: the loop passes over those and applies the next one
      with each commit. */
  lemma {:induction false} MigrateAdvances(
    ms: seq<Migration>, known: nat, i: nat, current: int, commits: nat)
    requires WellFormed(ms) && known <= |ms| && i <= |ms|
    requires forall j :: 0 <= j < |ms| ==> (ms[j].version <= current <==> j < known)
    ensures var at := if i < known then known else i;
      var reach := if at + commits < |ms| then at + commits else |ms|;
      MigrateFrom(Applied(ms, at).value, ms, i, current, commits) ==
      (Applied(ms, reach).value, if reach == |ms| then Done else Stopped)
    decreases |ms| - i
  {
    if i < known {
      MigrateAdvances(ms, known, i + 1, current, commits);
    } else if i < |ms| && commits > 0 {
      assert Applied(ms, i + 1) == Step(Applied(ms, i).value, ms[i]);
      MigrateAdvances(ms, known, i + 1, current, commits - 1);
    }
  }

  /** How far a call gets from p migrations when its first `writes` writes commit; the first
      write is schema_version itself. */
  function Reach(ms: seq<Migration>, p: nat, writes: nat): nat {
    if writes == 0 then p else if p + (writes - 1) < |ms| then p + (writes - 1) else |ms|
  }

  /** From any prefix, a call applies the migrations that follow it, in order, one for each
      commit, until it is stopped or done. */
  lemma PrefixMigrates(ms: seq<Migration>, p: nat, writes: nat)
    requires WellFormed(ms) && p <= |ms|
    ensures var q := Reach(ms, p, writes);
      Migrated(Applied(ms, p).value, ms, writes) ==
      (Applied(ms, q).value, if writes > 0 && q == |ms| then Done else Stopped)
  {
    AppliedVersion(ms, p);
    if writes > 0 {
      var current := MaxVersion(Applied(ms, p).value.versions.value);
      assert p > 0 ==> ms[p - 1].version <= ms[|ms| - 1].version;
      forall j | 0 <= j < |ms| ensures ms[j].version <= current <==> j < p {
        assert p > 0 && j < p - 1 ==> ms[j].version < ms[p - 1].version;
        assert p > 0 && p - 1 < j ==> ms[p - 1].version < ms[j].version;
      }
      MigrateAdvances(ms, p, 0, current, writes - 1);
    }
  }

  lemma FreshMigrates(ms: seq<Migration>, writes: nat)
    requires WellFormed(ms)
    ensures writes > 0 ==> Migrated(FRESH, ms, writes) == Migrated(Applied(ms, 0).value, ms, writes)
    ensures writes == 0 ==> Migrated(FRESH, ms, writes).0 == FRESH
  {
  }

  /** A new file, or what some prefix of the list produced. */
  ghost predicate Known(db: Db, ms: seq<Migration>) {
    db == FRESH || exists p :: 0 <= p <= |ms| && Applied(ms, p) == Some(db)
  }

  /** One call after another, each stopped after so many writes. */
  function Attempts(db: Db, ms: seq<Migration>, tries: seq<nat>): Db
    requires ms != []
  {
    if tries == [] then db
    else Migrated(Attempts(db, ms, tries[..|tries| - 1]), ms, tries[|tries| - 1]).0
  }

  lemma {:induction false} AttemptsStayKnown(db: Db, ms: seq<Migration>, tries: seq<nat>)
    requires WellFormed(ms) && Known(db, ms)
    ensures Known(Attempts(db, ms, tries), ms)
  {
    if tries != [] {
      var before, writes := tries[..|tries| - 1], tries[|tries| - 1];
      AttemptsStayKnown(db, ms, before);
      var at := Attempts(db, ms, before);
      var p :| 0 <= p <= |ms| && (Applied(ms, p) == Some(at) || (at == FRESH && p == 0));
      FreshMigrates(ms, writes);
      PrefixMigrates(ms, p, writes);
      if at != FRESH || writes > 0 {
        assert Applied(ms, Reach(ms, p, writes)) == Some(Attempts(db, ms, tries));
      }
    }
  }

  /** From a new file or any prefix, through any number of interrupted calls, a call with room
      to finish reaches exactly the database that applying every migration once produces. */
  lemma ResumeReachesLatest(db: Db, ms: seq<Migration>, tries: seq<nat>, writes: nat)
    requires WellFormed(ms) && Known(db, ms) && writes > |ms|
    ensures Migrated(Attempts(db, ms, tries), ms, writes) == (Applied(ms, |ms|).value, Done)
  {
    AttemptsStayKnown(db, ms, tries);
    var at := Attempts(db, ms, tries);
    var p :| 0 <= p <= |ms| && (Applied(ms, p) == Some(at) || (at == FRESH && p == 0));
    FreshMigrates(ms, writes);
    PrefixMigrates(ms, p, writes);
  }

  lemma {:induction false} AppliedPrefix(ms: seq<Migration>, q: nat, p: nat)
    requires p <= q <= |ms|
    ensures Applied(ms[..q], p) == Applied(ms, p)
  {
    if p > 0 {
      AppliedPrefix(ms, q, p - 1);
    }
  }

  lemma WellFormedPrefix(ms: seq<Migration>, q: nat)
    requires WellFormed(ms) && 0 < q <= |ms|
    ensures WellFormed(ms[..q])
  {
    forall p | 0 <= p <= q ensures Applied(ms[..q], p).Some? {
      AppliedPrefix(ms, q, p);
    }
  }

  /** A binary that knows only the first q migrations, run on what more of them produced,
      refuses and changes nothing; on what exactly those produced, it is done and changes
      nothing; on less, it may leave any prefix that the newer binary then completes. */
  lemma OlderBinary(ms: seq<Migration>, q: nat, p: nat, writes: nat, later: nat)
    requires WellFormed(ms) && 0 < q <= |ms| && p <= |ms| && later > |ms|
    ensures var (db, outcome) := Migrated(Applied(ms, p).value, ms[..q], writes);
      && (p > q && writes > 0 ==> outcome == TooNew)
      && (p >= q ==> db == Applied(ms, p).value)
      && (p == q && writes > 0 ==> outcome == Done)
      && Migrated(db, ms, later) == (Applied(ms, |ms|).value, Done)
  {
    WellFormedPrefix(ms, q);
    AppliedVersion(ms, p);
    if p > q {
      assert ms[q - 1].version < ms[p - 1].version;
      PrefixMigrates(ms, p, later);
    } else {
      AppliedPrefix(ms, q, p);
      PrefixMigrates(ms[..q], p, writes);
      var at := Reach(ms[..q], p, writes);
      AppliedPrefix(ms, q, at);
      PrefixMigrates(ms, at, later);
    }
  }

  // ---- the released list ------------------------------------------------------------------------

  const VERSION_1 := Migration(1, [
    CreateTable("blobs", {"sha256", "size", "created_at", "last_access"}),
    CreateIndex("ix_blobs_access", "blobs"),
    CreateTable("entries",
      {"project", "eco", "key", "sha256", "size", "media_type", "cached_at", "last_access", "hits"}),
    CreateIndex("ix_entries_sha", "entries"),
    CreateIndex("ix_entries_access", "entries"),
    CreateTable("refs",
      {"project", "eco", "name", "target", "media_type", "etag", "last_modified", "fetched_at", "ttl_seconds"}),
    CreateTable("artifacts",
      {"project", "eco", "name", "version", "arch", "sha256", "size", "origin", "cached_at", "extra"}),
    CreateIndex("ix_artifacts_name", "artifacts"),
    CreateIndex("ix_artifacts_size", "artifacts"),
    CreateIndex("ix_artifacts_cached", "artifacts"),
    CreateTable("access_stats", {"project", "eco", "name", "count", "last_access"}),
    CreateTable("traffic_stats", {"project", "eco", "hit_count", "hit_bytes", "miss_count", "miss_bytes"}),
    CreateTable("snapshots",
      {"id", "project", "parent", "manifest_sha256", "entry_count", "total_bytes", "created_at", "subject", "author"}),
    CreateIndex("ix_snapshots_project", "snapshots"),
    CreateTable("heads", {"project", "snapshot_id"})])

  const VERSION_2 := Migration(2, [
    CreateTable("traffic_series", {"span", "bucket", "project", "eco", "outcome", "count", "bytes"}),
    CreateIndex("ix_traffic_series_project", "traffic_series"),
    CreateTable("storage_series",
      {"bucket", "blob_count", "blob_bytes", "entry_count", "entry_bytes", "fs_free", "fs_total"}),
    CreateTable("upstream_series",
      {"span", "bucket", "project", "upstream", "requests", "errors", "bytes", "ms_sum", "ms_max"})])

  const VERSION_3 := Migration(3, [AddColumn("refs", "source")])

  const MIGRATIONS: seq<Migration> := [VERSION_1, VERSION_2, VERSION_3]

  /** Statements that only create, each index after its table, cannot fail. */
  predicate OnlyCreates(stmts: seq<Statement>) {
    forall i :: 0 <= i < |stmts| ==>
      match stmts[i]
      case CreateTable(_, _) => true
      case CreateIndex(_, table) => exists j :: 0 <= j < i && IsTable(stmts[j], table)
      case AddColumn(_, _) => false
  }

  predicate IsTable(st: Statement, name: string) {
    st.CreateTable? && st.name == name
  }

  predicate Made(stmts: seq<Statement>, name: string) {
    exists j :: 0 <= j < |stmts| && IsTable(stmts[j], name)
  }

  predicate MadeAs(stmts: seq<Statement>, name: string, columns: set<string>) {
    exists j :: 0 <= j < |stmts| && IsTable(stmts[j], name) && stmts[j].columns == columns
  }

  lemma CreatesPrefix(stmts: seq<Statement>)
    requires OnlyCreates(stmts) && stmts != []
    ensures var n := |stmts| - 1;
      && OnlyCreates(stmts[..n])
      && (stmts[n].CreateIndex? ==> Made(stmts[..n], stmts[n].table))
      && forall t :: Made(stmts, t) ==> Made(stmts[..n], t) || IsTable(stmts[n], t)
  {
    var n := |stmts| - 1;
    var before := stmts[..n];
    forall i | 0 <= i < n && before[i].CreateIndex?
      ensures exists j :: 0 <= j < i && IsTable(before[j], before[i].table)
    {
      var j :| 0 <= j < i && IsTable(stmts[j], stmts[i].table);
      assert IsTable(before[j], before[i].table);
    }
    if stmts[n].CreateIndex? {
      var j :| 0 <= j < n && IsTable(stmts[j], stmts[n].table);
      assert IsTable(before[j], stmts[n].table);
    }
    forall t | Made(stmts, t) && !IsTable(stmts[n], t) ensures Made(before, t) {
      var j :| 0 <= j < |stmts| && IsTable(stmts[j], t);
      assert IsTable(before[j], t);
    }
  }

  lemma MadeAsSnoc(stmts: seq<Statement>, name: string, columns: set<string>)
    requires stmts != [] && MadeAs(stmts[..|stmts| - 1], name, columns)
    ensures MadeAs(stmts, name, columns)
  {
    var before := stmts[..|stmts| - 1];
    var j :| 0 <= j < |before| && IsTable(before[j], name) && before[j].columns == columns;
    assert IsTable(stmts[j], name) && stmts[j].columns == columns;
  }

  /** What creating statements leave: every old table as it was, and every table they name. */
  ghost predicate Creates(s: Shape, stmts: seq<Statement>, t: Shape) {
    && (forall n :: n in s.tables ==> n in t.tables && t.tables[n] == s.tables[n])
    && (forall n :: Made(stmts, n) ==> n in t.tables)
    && (forall n :: n in t.tables && n !in s.tables ==> MadeAs(stmts, n, t.tables[n]))
  }

  lemma CreatesOne(s: Shape, stmts: seq<Statement>, t: Shape)
    requires OnlyCreates(stmts) && stmts != [] && Creates(s, stmts[..|stmts| - 1], t)
    ensures var u := Exec(t, stmts[|stmts| - 1]); u.Some? && Creates(s, stmts, u.value)
  {
    var n := |stmts| - 1;
    CreatesPrefix(stmts);
    var u := Exec(t, stmts[n]).value;
    forall k | k in u.tables && k !in s.tables ensures MadeAs(stmts, k, u.tables[k]) {
      if k in t.tables {
        MadeAsSnoc(stmts, k, t.tables[k]);
      } else {
        assert IsTable(stmts[n], k);
      }
    }
  }

  lemma {:induction false} CreatesRun(s: Shape, stmts: seq<Statement>)
    requires OnlyCreates(stmts)
    ensures ExecAll(s, stmts).Some? && Creates(s, stmts, ExecAll(s, stmts).value)
  {
    if stmts != [] {
      CreatesPrefix(stmts);
      CreatesRun(s, stmts[..|stmts| - 1]);
      CreatesOne(s, stmts, ExecAll(s, stmts[..|stmts| - 1]).value);
    }
  }

  lemma ReleasedCreates()
    ensures OnlyCreates(VERSION_1.stmts) && OnlyCreates(VERSION_2.stmts)
    ensures Made(VERSION_1.stmts, "refs")
    ensures forall columns :: MadeAs(VERSION_1.stmts, "refs", columns) ==> "source" !in columns
  {
    var v1, v2 := VERSION_1.stmts, VERSION_2.stmts;
    assert IsTable(v1[0], "blobs") && IsTable(v1[2], "entries") && IsTable(v1[5], "refs");
    assert IsTable(v1[6], "artifacts") && IsTable(v1[12], "snapshots") && IsTable(v2[0], "traffic_series");
    forall j | 0 <= j < |v1| && IsTable(v1[j], "refs") ensures "source" !in v1[j].columns {
      assert v1[j].name == "refs";
    }
  }

  /** Two migrations that only create, and a third that adds refs.source. */
  ghost predicate LikeReleased(ms: seq<Migration>) {
    && |ms| == 3 && ms[0].version == 1 && ms[1].version == 2 && ms[2].version == 3
    && OnlyCreates(ms[0].stmts) && OnlyCreates(ms[1].stmts)
    && Made(ms[0].stmts, "refs")
    && (forall columns :: MadeAs(ms[0].stmts, "refs", columns) ==> "source" !in columns)
    && ms[2].stmts == [AddColumn("refs", "source")]
  }

  lemma LikeReleasedTwo(ms: seq<Migration>)
    requires LikeReleased(ms)
    ensures Applied(ms, 1).Some? && Applied(ms, 2).Some?
    ensures var two := Applied(ms, 2).value;
      && two.versions == Some([1, 2])
      && "refs" in two.shape.tables && "source" !in two.shape.tables["refs"]
  {
    CreatesRun(EMPTY, ms[0].stmts);
    var one := ExecAll(EMPTY, ms[0].stmts).value;
    CreatesRun(one, ms[1].stmts);
    assert [] + [1] == [1] && [1] + [2] == [1, 2];
    assert Applied(ms, 0) == Some(Db(EMPTY, Some([])));
    assert Applied(ms, 1) == Some(Db(one, Some([1])));
    assert MadeAs(ms[0].stmts, "refs", one.tables["refs"]);
  }

  lemma LikeReleasedRuns(ms: seq<Migration>)
    requires LikeReleased(ms)
    ensures WellFormed(ms)
    ensures var done := Applied(ms, 3).value;
      && done.versions == Some([1, 2, 3])
      && "refs" in done.shape.tables && "source" in done.shape.tables["refs"]
  {
    LikeReleasedTwo(ms);
    var two := Applied(ms, 2).value;
    assert [1, 2] + [3] == [1, 2, 3];
    assert ms[2].stmts[..0] == [];
    assert ExecAll(two.shape, ms[2].stmts) == Exec(two.shape, AddColumn("refs", "source"));
    assert Applied(ms, 3).Some?;
  }

  /** The released migrations run through from nothing, so everything above holds of them. */
  lemma ReleasedWellFormed()
    ensures LikeReleased(MIGRATIONS) && WellFormed(MIGRATIONS)
  {
    ReleasedCreates();
    LikeReleasedRuns(MIGRATIONS);
  }

  /** The version row must commit with the statements: version 3 run again on what it made
      fails, so a database left with its column but not its row could never be opened. */
  lemma ColumnWithoutRow(ms: seq<Migration>, writes: nat)
    requires LikeReleased(ms) && writes > 0
    ensures WellFormed(ms)
    ensures var torn := Applied(ms, 3).value.(versions := Some([1, 2]));
      Migrated(torn, ms, writes) == (torn, if writes == 1 then Stopped else Failed)
  {
    LikeReleasedRuns(ms);
    var torn := Applied(ms, 3).value.(versions := Some([1, 2]));
    assert ms[2].stmts[..0] == [];
    assert ExecAll(torn.shape, ms[2].stmts) == Exec(torn.shape, AddColumn("refs", "source"));
    assert [1, 2][..1] == [1];
    assert MaxVersion([1, 2]) == 2;
    assert MigrateFrom(torn, ms, 1, 2, writes - 1) == MigrateFrom(torn, ms, 2, 2, writes - 1);
  }
}
