/** Project quotas: the figures CommitEntry checks are the figures its transaction leaves, so
    a project filled only by commits never exceeds its quota. */
module Quotas {
  import opened Types
  import opened Catalog

  // ---- sums over rows -----------------------------------------------------------------

  lemma {:induction false} SumRemove(entries: map<Key, Row>, k: Key)
    requires k in entries
    ensures SumSizes(entries) == entries[k].size + SumSizes(entries - {k})
    decreases |entries|
  {
    var j :| j in entries && SumSizes(entries) == entries[j].size + SumSizes(entries - {j});
    if j != k {
      var rest := entries - {j};
      assert |rest.Keys| < |entries.Keys| by {
        assert rest.Keys == entries.Keys - {j};
      }
      SumRemove(rest, k);
      SumRemove2(entries, j, k);
    }
  }

  lemma {:induction false} SumRemove2(entries: map<Key, Row>, j: Key, k: Key)
    requires j in entries && k in entries && j != k
    ensures SumSizes(entries - {k}) == entries[j].size + SumSizes(entries - {j} - {k})
    decreases |entries|, 0
  {
    var rest := entries - {k};
    assert rest.Keys == entries.Keys - {k};
    SumRemove(rest, j);
    assert rest - {j} == entries - {j} - {k};
  }

  lemma SumUpsert(entries: map<Key, Row>, k: Key, r: Row)
    ensures SumSizes(entries[k := r]) ==
      SumSizes(entries) - (if k in entries then entries[k].size else 0) + r.size
  {
    SumRemove(entries[k := r], k);
    assert entries[k := r] - {k} == entries - {k};
    if k in entries {
      SumRemove(entries, k);
    } else {
      assert entries - {k} == entries;
    }
  }

  lemma {:induction false} SumNonNegative(entries: map<Key, Row>)
    requires forall k :: k in entries ==> entries[k].size >= 0
    ensures SumSizes(entries) >= 0
    decreases |entries|
  {
    if entries != map[] {
      var k :| k in entries;
      SumRemove(entries, k);
      assert (entries - {k}).Keys == entries.Keys - {k};
      SumNonNegative(entries - {k});
    }
  }

  // ---- the projected figures are the figures afterwards ----------------------------------

  lemma OfProjectUpsert(entries: map<Key, Row>, k: Key, r: Row, project: string)
    ensures OfProject(entries[k := r], project) ==
      if k.project == project then OfProject(entries, project)[k := r] else OfProject(entries, project)
  {
  }

  /** SUM(size) - old size + new size is what the project sums to after the commit, and no
      other project's sum moves. */
  lemma ProjectedBytesExact(
    t: Tables, e: Entry, artifact: Option<Artifact>, replaceName: bool, now: Time, project: string)
    ensures Usage(Publish(t, e, artifact, replaceName, now), project) ==
      if project == e.key.project then ProjectedBytes(t, e) else Usage(t, project)
  {
    var r := MergeRow(Find(t.entries, e.key), e);
    assert Publish(t, e, artifact, replaceName, now).entries == t.entries[e.key := r];
    OfProjectUpsert(t.entries, e.key, r, project);
    SumUpsert(OfProject(t.entries, project), e.key, r);
  }

  lemma ReplacedNameCount(all: set<ArtifactKey>, named: set<ArtifactKey>, key: ArtifactKey)
    requires named <= all && (key in all ==> key in named)
    ensures |(all - named) + {key}| == |all| - |named| + 1
  {
    assert all == (all - named) + named;
    assert |all| == |all - named| + |named|;
  }

  /** The artifact count the commit checks is the count it leaves: with and without the
      replacement of every version of the name, for a new row and an updated one. */
  lemma ProjectedArtifactsExact(t: Tables, e: Entry, a: Artifact, replaceName: bool, now: Time)
    ensures |ArtifactsOf(Publish(t, e, Some(a), replaceName, now), e.key.project)| ==
      ProjectedArtifacts(t, e, a, replaceName)
  {
    var p, key := e.key.project, KeyOfArtifact(e, a);
    var all, named := ArtifactsOf(t, p), ArtifactsNamed(t, p, e.key.eco, a.name);
    PublishedArtifacts(t, e, a, replaceName, now);
    if replaceName {
      ReplacedNameCount(all, named, key);
    } else {
      assert key in all <==> key in t.artifacts;
      assert key in all ==> all + {key} == all;
    }
  }

  lemma PublishedArtifacts(t: Tables, e: Entry, a: Artifact, replaceName: bool, now: Time)
    ensures var p := e.key.project;
      ArtifactsOf(Publish(t, e, Some(a), replaceName, now), p) ==
        (if replaceName then ArtifactsOf(t, p) - ArtifactsNamed(t, p, e.key.eco, a.name) else ArtifactsOf(t, p))
        + {KeyOfArtifact(e, a)}
  {
    var t' := Publish(t, e, Some(a), replaceName, now);
    var gone := if replaceName then ArtifactsNamed(t, e.key.project, e.key.eco, a.name) else {};
    forall k ensures k in t'.artifacts <==> (k in t.artifacts && k !in gone) || k == KeyOfArtifact(e, a) {
      assert t'.artifacts.Keys == (t.artifacts.Keys - gone) + {KeyOfArtifact(e, a)};
    }
  }

  lemma NoArtifactNoChange(t: Tables, e: Entry, replaceName: bool, now: Time, project: string)
    ensures ArtifactsOf(Publish(t, e, None, replaceName, now), project) == ArtifactsOf(t, project)
  {
  }

  // ---- whole runs -------------------------------------------------------------------------

  /** A project stays inside its quota; a limit of zero or less is no limit. */
  ghost predicate Within(t: Tables, project: string, q: Quota) {
    && (q.bytes > 0 ==> Usage(t, project) <= q.bytes)
    && (q.artifacts > 0 ==> |ArtifactsOf(t, project)| <= q.artifacts)
  }

  ghost predicate SizesNonNegative(t: Tables, project: string) {
    forall k :: k in t.entries && k.project == project ==> t.entries[k].size >= 0
  }

  /** What can happen to the tables while `project` is filled only by commits. */
  datatype Op =
    | Commit(entry: Entry, artifact: Option<Artifact>, replaceName: bool, now: Time)
    | Evict(key: Key)
    | Delete(key: Key)
    | Drop(project: string)
    | Touch(touch: Catalog.Touch)
    | Elsewhere(tables: Tables)     // anything at all that leaves the project alone

  ghost predicate Allowed(t: Tables, op: Op, project: string) {
    match op
    case Commit(e, _, _, _) => e.key.project == project
    case Evict(k) => k in t.entries
    case Elsewhere(t') =>
      && OfProject(t'.entries, project) == OfProject(t.entries, project)
      && ArtifactsOf(t', project) == ArtifactsOf(t, project)
    case _ => true
  }

  ghost function Step(t: Tables, op: Op, q: Quota): Tables
    requires op.Evict? ==> op.key in t.entries
  {
    match op
    case Commit(e, a, replaceName, now) =>
      var r := CommitTx(t, e, a, q, replaceName, now);
      if r.Ok? then r.value else t
    case Evict(k) => EvictTx(t, k)
    case Delete(k) => t.(entries := t.entries - {k})
    case Drop(p) => DropProjectTx(t, p)
    case Touch(touch) => TouchTx(t, touch)
    case Elsewhere(t') => t'
  }

  /** A commit keeps the project within its quota, whatever the sizes of its entries. */
  lemma CommitStays(t: Tables, e: Entry, a: Option<Artifact>, q: Quota, replaceName: bool, now: Time)
    requires Within(t, e.key.project, q)
    ensures Within(Step(t, Commit(e, a, replaceName, now), q), e.key.project, q)
  {
    ProjectedBytesExact(t, e, a, replaceName, now, e.key.project);
    if a.Some? {
      ProjectedArtifactsExact(t, e, a.value, replaceName, now);
    } else {
      NoArtifactNoChange(t, e, replaceName, now, e.key.project);
    }
  }

  lemma RemoveStays(t: Tables, t': Tables, project: string, k: Key, q: Quota)
    requires Within(t, project, q) && SizesNonNegative(t, project)
    requires t'.entries == t.entries - {k} && ArtifactsOf(t', project) <= ArtifactsOf(t, project)
    ensures Within(t', project, q) && SizesNonNegative(t', project)
  {
    var rows := OfProject(t.entries, project);
    assert OfProject(t'.entries, project) == rows - {k};
    if k in rows {
      SumRemove(rows, k);
    } else {
      assert rows - {k} == rows;
    }
    assert ArtifactsOf(t, project) == ArtifactsOf(t', project) + (ArtifactsOf(t, project) - ArtifactsOf(t', project));
  }

  lemma TouchStays(t: Tables, touch: Catalog.Touch, project: string)
    ensures Usage(TouchTx(t, touch), project) == Usage(t, project)
    ensures ArtifactsOf(TouchTx(t, touch), project) == ArtifactsOf(t, project)
    ensures SizesNonNegative(t, project) ==> SizesNonNegative(TouchTx(t, touch), project)
  {
    if touch.key in t.entries {
      var r := TouchTx(t, touch).entries[touch.key];
      assert r.size == t.entries[touch.key].size;
      assert TouchTx(t, touch).entries == t.entries[touch.key := r];
      SameSizeStays(t.entries, touch.key, r, project);
    } else {
      assert TouchTx(t, touch).entries == t.entries;
    }
  }

  lemma SameSizeStays(entries: map<Key, Row>, k: Key, r: Row, project: string)
    requires k in entries && r.size == entries[k].size
    ensures SumSizes(OfProject(entries[k := r], project)) == SumSizes(OfProject(entries, project))
  {
    OfProjectUpsert(entries, k, r, project);
    SumUpsert(OfProject(entries, project), k, r);
  }

  lemma TouchWithin(t: Tables, touch: Catalog.Touch, project: string, q: Quota)
    requires Within(t, project, q) && SizesNonNegative(t, project)
    ensures Within(TouchTx(t, touch), project, q) && SizesNonNegative(TouchTx(t, touch), project)
  {
    TouchStays(t, touch, project);
  }

  lemma DropStays(t: Tables, p: string, project: string, q: Quota)
    requires Within(t, project, q) && SizesNonNegative(t, project)
    ensures Within(DropProjectTx(t, p), project, q) && SizesNonNegative(DropProjectTx(t, p), project)
  {
    var t' := DropProjectTx(t, p);
    if p == project {
      assert OfProject(t'.entries, project) == map[] && ArtifactsOf(t', project) == {};
    } else {
      assert OfProject(t'.entries, project) == OfProject(t.entries, project);
      assert ArtifactsOf(t', project) == ArtifactsOf(t, project);
    }
  }

  lemma EvictStays(t: Tables, k: Key, project: string, q: Quota)
    requires Within(t, project, q) && SizesNonNegative(t, project) && k in t.entries
    ensures Within(Step(t, Evict(k), q), project, q) && SizesNonNegative(Step(t, Evict(k), q), project)
  {
    RemoveStays(t, EvictTx(t, k), project, k, q);
  }

  lemma DeleteStays(t: Tables, k: Key, project: string, q: Quota)
    requires Within(t, project, q) && SizesNonNegative(t, project)
    ensures Within(Step(t, Delete(k), q), project, q) && SizesNonNegative(Step(t, Delete(k), q), project)
  {
    RemoveStays(t, t.(entries := t.entries - {k}), project, k, q);
  }

  lemma CommitSizes(t: Tables, e: Entry, a: Option<Artifact>, q: Quota, replaceName: bool, now: Time)
    requires SizesNonNegative(t, e.key.project) && e.size >= 0
    ensures SizesNonNegative(Step(t, Commit(e, a, replaceName, now), q), e.key.project)
  {
  }

  lemma StepStays(t: Tables, op: Op, project: string, q: Quota)
    requires Within(t, project, q) && SizesNonNegative(t, project) && Allowed(t, op, project)
    requires op.Commit? ==> op.entry.size >= 0
    ensures Within(Step(t, op, q), project, q) && SizesNonNegative(Step(t, op, q), project)
  {
    match op
    case Commit(e, a, replaceName, now) =>
      CommitStays(t, e, a, q, replaceName, now);
      CommitSizes(t, e, a, q, replaceName, now);
    case Evict(k) => EvictStays(t, k, project, q);
    case Delete(k) => DeleteStays(t, k, project, q);
    case Drop(p) => DropStays(t, p, project, q);
    case Touch(touch) => TouchWithin(t, touch, project, q);
    case Elsewhere(t') => ElsewhereStays(t, t', project, q);
  }

  lemma ElsewhereStays(t: Tables, t': Tables, project: string, q: Quota)
    requires Within(t, project, q) && SizesNonNegative(t, project) && Allowed(t, Elsewhere(t'), project)
    ensures Within(t', project, q) && SizesNonNegative(t', project)
  {
    forall k | k in t'.entries && k.project == project ensures t'.entries[k].size >= 0 {
      assert OfProject(t'.entries, project)[k] == OfProject(t.entries, project)[k];
    }
  }

  ghost predicate Run(states: seq<Tables>, ops: seq<Op>, project: string, q: Quota) {
    && |states| == |ops| + 1
    && forall i {:trigger ops[i]} :: 0 <= i < |ops| ==>
         && Allowed(states[i], ops[i], project)
         && states[i + 1] == Step(states[i], ops[i], q)
  }

  /** Quota safety: a project filled only by commits under one quota never exceeds it,
      through any run that also evicts, deletes, touches, drops projects and fills others. */
  lemma {:induction false} QuotaNeverExceeded(
    states: seq<Tables>, ops: seq<Op>, project: string, q: Quota, i: nat)
    requires Run(states, ops, project, q) && i < |states|
    requires Within(states[0], project, q) && SizesNonNegative(states[0], project)
    requires forall j :: 0 <= j < |ops| && ops[j].Commit? ==> ops[j].entry.size >= 0
    ensures Within(states[i], project, q) && SizesNonNegative(states[i], project)
  {
    if i > 0 {
      QuotaNeverExceeded(states, ops, project, q, i - 1);
      assert Allowed(states[i - 1], ops[i - 1], project);
      StepStays(states[i - 1], ops[i - 1], project, q);
    }
  }

  /** Commits alone need no assumption on sizes. */
  lemma {:induction false} CommitsNeverExceed(
    states: seq<Tables>, ops: seq<Op>, project: string, q: Quota, i: nat)
    requires Run(states, ops, project, q) && i < |states|
    requires Within(states[0], project, q)
    requires forall j :: 0 <= j < |ops| ==> ops[j].Commit?
    ensures Within(states[i], project, q)
  {
    if i > 0 {
      CommitsNeverExceed(states, ops, project, q, i - 1);
      assert Allowed(states[i - 1], ops[i - 1], project);
      var op := ops[i - 1];
      CommitStays(states[i - 1], op.entry, op.artifact, q, op.replaceName, op.now);
    }
  }

  /** Evicting an entry keeps every project that was exactly at its limit within it if and
      only if the entry's size is not negative: CommitEntry does not refuse one that is. */
  lemma EvictionNeedsSizes(t: Tables, k: Key, artifacts: int)
    requires k in t.entries && Usage(t, k.project) > 0 && artifacts <= 0
    ensures Within(t, k.project, Quota(Usage(t, k.project), artifacts))
    ensures Within(EvictTx(t, k), k.project, Quota(Usage(t, k.project), artifacts)) <==> t.entries[k].size >= 0
  {
    var rows := OfProject(t.entries, k.project);
    SumRemove(rows, k);
    assert OfProject(EvictTx(t, k).entries, k.project) == rows - {k};
  }
}
