/** Carrying sibling dimensions of a native-variant store across a package replacement
    (scripts/preserve_native_variants.py). */
module NativePreserve {
  import opened Results
  import opened NativeVariants
  import opened NativeSigning

  function Dimensions(rows: seq<Row>): set<int> {
    set row | row in rows :: row.dimension
  }

  /** Of the first k snapshotted rows, those that are not installed, in order. */
  function Missing(snapshotted: seq<Row>, k: nat, installed: set<int>): seq<Row>
    requires k <= |snapshotted|
    decreases k
  {
    if k == 0 then []
    else Missing(snapshotted, k - 1, installed)
         + if snapshotted[k - 1].dimension in installed then [] else [snapshotted[k - 1]]
  }

  lemma MissingSkip(snapshotted: seq<Row>, k: nat, installed: set<int>)
    requires k < |snapshotted| && snapshotted[k].dimension in installed
    ensures Missing(snapshotted, k + 1, installed) == Missing(snapshotted, k, installed)
  {}

  lemma {:induction false} MissingMembers(snapshotted: seq<Row>, k: nat, installed: set<int>)
    requires k <= |snapshotted|
    ensures forall row :: row in Missing(snapshotted, k, installed) <==>
                          row in snapshotted[..k] && row.dimension !in installed
    decreases k
  {
    if k != 0 {
      MissingMembers(snapshotted, k - 1, installed);
      assert snapshotted[..k] == snapshotted[..k - 1] + [snapshotted[k - 1]];
    }
  }

  lemma {:induction false} MissingSorted(snapshotted: seq<Row>, k: nat, installed: set<int>)
    requires k <= |snapshotted| && SortedUnique(snapshotted)
    ensures SortedUnique(Missing(snapshotted, k, installed))
    decreases k
  {
    if k != 0 {
      MissingSorted(snapshotted, k - 1, installed);
      MissingMembers(snapshotted, k - 1, installed);
      var m := Missing(snapshotted, k - 1, installed);
      forall i | 0 <= i < |m|
        ensures m[i].dimension < snapshotted[k - 1].dimension
      {
        assert m[i] in m;
      }
    }
  }

  function Unrestored(snapshotted: seq<Row>, rows: seq<Row>): seq<Row> {
    Missing(snapshotted, |snapshotted|, Dimensions(rows))
  }

  lemma UnrestoredRows(snapshotted: seq<Row>, rows: seq<Row>)
    ensures forall row :: row in Unrestored(snapshotted, rows) <==>
                          row in snapshotted && row.dimension !in Dimensions(rows)
    ensures SortedUnique(snapshotted) ==> SortedUnique(Unrestored(snapshotted, rows))
  {
    MissingMembers(snapshotted, |snapshotted|, Dimensions(rows));
    assert snapshotted[..|snapshotted|] == snapshotted;
    if SortedUnique(snapshotted) {
      MissingSorted(snapshotted, |snapshotted|, Dimensions(rows));
    }
  }

  /** `leaves` with the leaves of `rows` copied over from `source`. */
  function Overlay(leaves: map<string, Bytes>, source: map<string, Bytes>, rows: seq<Row>): map<string, Bytes>
  {
    map p | p in leaves.Keys + Paths(rows) * source.Keys ::
      if p in Paths(rows) && p in source then source[p] else leaves[p]
  }

  lemma OverlayStep(leaves: map<string, Bytes>, source: map<string, Bytes>, rows: seq<Row>, row: Row)
    requires row.path in source
    ensures Overlay(leaves, source, rows + [row]) == Overlay(leaves, source, rows)[row.path := source[row.path]]
  {
    assert Paths(rows + [row]) == Paths(rows) + {row.path};
  }

  lemma OverlayNothing(leaves: map<string, Bytes>, source: map<string, Bytes>)
    ensures Overlay(leaves, source, []) == leaves
  {}

  // ---- Snapshot ----

  /** The snapshot directory after an authenticated manifest and its leaves were copied into it. */
  function Copied(store: Disk, dest: Disk): Disk
    requires store.manifest.Some?
  {
    Disk(store.manifest, Overlay(dest.leaves, store.leaves, store.manifest.value))
  }

  lemma CopyIsAuthenticated(platform: Platform, store: Disk, dest: Disk)
    requires Authenticated(platform, store)
    ensures Authenticated(platform, Copied(store, dest))
  {
    forall row | row in store.manifest.value
      ensures Authentic(platform, Copied(store, dest).leaves, row)
    {
      assert row.path in Paths(store.manifest.value);
    }
  }

  /** snapshot: copies nothing unless the whole installed store is authentic. A copy of a directory onto itself is
      refused by the copying tool. */
  method Snapshot(store: Store, dest: Store) returns (e: Option<StoreError>)
    requires dest.platform == store.platform
    modifies dest
    ensures old(store.manifest).None? ==> e.None? && dest.OnDisk() == old(dest.OnDisk())
    ensures old(store.manifest).Some? ==>
              (e.None? <==> Authenticated(store.platform, old(store.OnDisk())) && dest != store)
    ensures e.Some? ==> dest.OnDisk() == old(dest.OnDisk())
    ensures e.None? && old(store.manifest).Some? ==>
              && dest.OnDisk() == Copied(store.OnDisk(), old(dest.OnDisk()))
              && Authenticated(store.platform, dest.OnDisk())
  {
    if store.manifest.None? {
      return None;
    }
    var loaded := Load(store.platform, store.OnDisk(), true, true);
    if loaded.Err? {
      return Some(loaded.error);
    }
    if dest == store {
      return Some(SameFile);
    }
    var rows := loaded.value;
    ghost var before := dest.leaves;
    dest.manifest := store.manifest;
    OverlayNothing(before, store.leaves);
    for k := 0 to |rows|
      invariant dest.manifest == store.manifest == Some(rows)
      invariant Authenticated(store.platform, store.OnDisk())
      invariant dest.leaves == Overlay(before, store.leaves, rows[..k])
    {
      assert rows[k] in rows;
      assert rows[..k + 1] == rows[..k] + [rows[k]];
      OverlayStep(before, store.leaves, rows[..k], rows[k]);
      dest.leaves := dest.leaves[rows[k].path := store.leaves[rows[k].path]];
    }
    assert rows[..|rows|] == rows;
    CopyIsAuthenticated(store.platform, store.OnDisk(), old(dest.OnDisk()));
    return None;
  }

  // ---- Restore ----

  function SnapshotRows(source: Disk): seq<Row> {
    if source.manifest.Some? then source.manifest.value else []
  }

  /** The freshly installed store: every row authentic, but for the just-built leaf on Darwin. */
  ghost predicate InstalledReady(platform: Platform, disk: Disk, expectDim: int) {
    && Load(platform, disk, true, false).Ok?
    && expectDim in Dimensions(disk.manifest.value)
    && forall row :: row in disk.manifest.value ==>
         (platform.darwin && row.dimension == expectDim) || Authentic(platform, disk.leaves, row)
  }

  ghost predicate SnapshotReady(platform: Platform, source: Disk) {
    source.manifest.Some? ==> Authenticated(platform, source)
  }

  /** The installed store with the missing dimensions merged in. */
  function Combined(installed: Disk, source: Disk): Disk
    requires installed.manifest.Some?
  {
    var rows := installed.manifest.value;
    var missing := Unrestored(SnapshotRows(source), rows);
    Disk(if missing == [] then Some(rows) else Some(Arranged(rows + missing)),
         Overlay(installed.leaves, source.leaves, missing))
  }

  /** A file write of restore: the leaf of a dimension that is not installed never belongs to an installed row. */
  lemma RestoreWriteKeeps(platform: Platform, leaves: map<string, Bytes>, installed: Row, restored: Row, bytes: Bytes)
    requires ValidRow(platform, installed) && ValidRow(platform, restored)
    requires installed.dimension != restored.dimension
    requires Authentic(platform, leaves, installed)
    ensures Authentic(platform, leaves[restored.path := bytes], installed)
  {
    if installed.path == restored.path {
      PathsFollowDimensions(platform, installed, restored);
    }
  }

  /** Every row that was authentic still is. */
  ghost predicate StillAuthentic(platform: Platform, rows: seq<Row>, before: map<string, Bytes>, after: map<string, Bytes>) {
    forall row :: row in rows && Authentic(platform, before, row) ==> Authentic(platform, after, row)
  }

  /** `rows` are the installed rows and the rows of `source` for the other dimensions. */
  ghost predicate Merged(installed: seq<Row>, source: seq<Row>, rows: seq<Row>) {
    forall row :: row in rows <==> row in installed || (row in source && row.dimension !in Dimensions(installed))
  }

  lemma MergeIsOneEach(rows: seq<Row>, missing: seq<Row>)
    requires SortedUnique(rows) && SortedUnique(missing)
    requires forall row :: row in missing ==> row.dimension !in Dimensions(rows)
    ensures OneEach(rows + missing)
  {
    var all := rows + missing;
    forall i, j | 0 <= i < j < |all|
      ensures all[i].dimension != all[j].dimension
    {
      if i < |rows| && |rows| <= j {
        assert rows[i] in rows && missing[j - |rows|] in missing;
      }
    }
  }

  /** Merging never clashes: the manifest is the installed rows and the snapshotted rows of the other dimensions. */
  lemma MergeAccepted(platform: Platform, rows: seq<Row>, snapshotted: seq<Row>)
    requires ValidPayload(platform, rows)
    requires snapshotted == [] || ValidPayload(platform, snapshotted)
    ensures var all := rows + Unrestored(snapshotted, rows);
            && Payload(platform, all) == Ok(Arranged(all))
            && Merged(rows, snapshotted, Arranged(all))
  {
    UnrestoredRows(snapshotted, rows);
    MergeIsOneEach(rows, Unrestored(snapshotted, rows));
    PayloadAccepts(platform, rows + Unrestored(snapshotted, rows));
  }

  /** A restored row is authentic in the combined store. */
  lemma RestoredRowsAuthentic(platform: Platform, leaves: map<string, Bytes>, source: map<string, Bytes>, rows: seq<Row>)
    requires forall row :: row in rows ==> Authentic(platform, source, row)
    ensures var overlaid := Overlay(leaves, source, rows);
            forall row :: row in rows ==> Authentic(platform, overlaid, row)
  {
    var overlaid := Overlay(leaves, source, rows);
    forall row | row in rows
      ensures Authentic(platform, overlaid, row)
    {
      assert row.path in Paths(rows);
    }
  }

  /** No restored leaf belongs to an installed row. */
  lemma CombinedKeeps(platform: Platform, installed: Disk, source: Disk)
    requires installed.manifest.Some? && ValidPayload(platform, installed.manifest.value)
    requires SnapshotReady(platform, source)
    ensures StillAuthentic(platform, installed.manifest.value, installed.leaves, Combined(installed, source).leaves)
  {
    var rows := installed.manifest.value;
    var missing := Unrestored(SnapshotRows(source), rows);
    UnrestoredRows(SnapshotRows(source), rows);
    forall row, other | row in rows && other in missing
      ensures row.path != other.path
    {
      if row.path == other.path {
        PathsFollowDimensions(platform, row, other);
      }
    }
  }

  /** Union with the installed row winning, every row but the just-built one authenticated. */
  lemma CombinedIsUnion(platform: Platform, installed: Disk, source: Disk, expectDim: int)
    requires InstalledReady(platform, installed, expectDim) && SnapshotReady(platform, source)
    ensures var combined := Combined(installed, source);
            && ValidPayload(platform, combined.manifest.value)
            && Merged(installed.manifest.value, SnapshotRows(source), combined.manifest.value)
            && (forall row :: row in combined.manifest.value ==>
                  (platform.darwin && row.dimension == expectDim) || Authentic(platform, combined.leaves, row))
  {
    var rows := installed.manifest.value;
    CombinedKeeps(platform, installed, source);
    MergeAccepted(platform, rows, SnapshotRows(source));
    UnrestoredRows(SnapshotRows(source), rows);
    RestoredRowsAuthentic(platform, installed.leaves, source.leaves, Unrestored(SnapshotRows(source), rows));
  }

  /** The store after a restore that succeeded. */
  ghost predicate RestoredFrom(platform: Platform, installed: Disk, source: Disk, after: Disk, expectDim: int) {
    && InstalledReady(platform, installed, expectDim) && SnapshotReady(platform, source)
    && (if platform.darwin then SignedFrom(platform, Combined(installed, source), after, [expectDim])
        else after == Combined(installed, source))
    && Authenticated(platform, after)
  }

  ghost predicate Restorable(platform: Platform, installed: Disk, source: Disk, expectDim: int) {
    && InstalledReady(platform, installed, expectDim) && SnapshotReady(platform, source)
    && (platform.darwin ==> Signable(platform, Combined(installed, source), [expectDim]))
  }

  /** Success or failure, an installed row that was authentic and is not to be signed again still is. */
  ghost predicate InstalledKept(platform: Platform, before: Disk, after: Disk, expectDim: int) {
    Load(platform, before, false, false).Ok? ==>
      forall row :: row in before.manifest.value && (platform.darwin ==> row.dimension != expectDim) ==>
        (Authentic(platform, before.leaves, row) ==> Authentic(platform, after.leaves, row))
  }

  lemma WriteKeepsAll(platform: Platform, leaves: map<string, Bytes>, rows: seq<Row>, restored: Row, bytes: Bytes)
    requires forall row :: row in rows ==> ValidRow(platform, row)
    requires ValidRow(platform, restored) && restored.dimension !in Dimensions(rows)
    ensures StillAuthentic(platform, rows, leaves, leaves[restored.path := bytes])
  {
    forall row | row in rows && Authentic(platform, leaves, row)
      ensures Authentic(platform, leaves[restored.path := bytes], row)
    {
      RestoreWriteKeeps(platform, leaves, row, restored, bytes);
    }
  }

  /** Copying one missing leaf: what the store then holds, with every authentic row still authentic. */
  lemma CopyStep(platform: Platform, rows: seq<Row>, source: Disk, before: map<string, Bytes>, k: nat)
    requires ValidPayload(platform, rows) && SnapshotReady(platform, source) && k < |SnapshotRows(source)|
    requires SnapshotRows(source)[k].dimension !in Dimensions(rows)
    requires StillAuthentic(platform, rows, before,
                            Overlay(before, source.leaves, Missing(SnapshotRows(source), k, Dimensions(rows))))
    ensures var row := SnapshotRows(source)[k];
            var m := Missing(SnapshotRows(source), k, Dimensions(rows));
            && Authentic(platform, source.leaves, row)
            && Missing(SnapshotRows(source), k + 1, Dimensions(rows)) == m + [row]
            && Overlay(before, source.leaves, Missing(SnapshotRows(source), k + 1, Dimensions(rows)))
               == Overlay(before, source.leaves, m)[row.path := source.leaves[row.path]]
            && StillAuthentic(platform, rows, before,
                              Overlay(before, source.leaves, m)[row.path := source.leaves[row.path]])
  {
    var row := SnapshotRows(source)[k];
    var m := Missing(SnapshotRows(source), k, Dimensions(rows));
    assert row in SnapshotRows(source);
    WriteKeepsAll(platform, Overlay(before, source.leaves, m), rows, row, source.leaves[row.path]);
    OverlayStep(before, source.leaves, m, row);
  }

  /** Copies the missing dimensions one leaf at a time; each write leaves the authentic rows authentic. */
  method CopyMissing(store: Store, source: Disk, rows: seq<Row>) returns (merged: seq<Row>)
    requires ValidPayload(store.platform, rows) && SnapshotReady(store.platform, source)
    modifies store`leaves
    ensures merged == rows + Unrestored(SnapshotRows(source), rows)
    ensures store.leaves == Overlay(old(store.leaves), source.leaves, Unrestored(SnapshotRows(source), rows))
    ensures StillAuthentic(store.platform, rows, old(store.leaves), store.leaves)
  {
    var installed := Dimensions(rows);
    ghost var before := store.leaves;
    merged := rows;
    OverlayNothing(before, source.leaves);
    for k := 0 to |SnapshotRows(source)|
      invariant merged == rows + Missing(SnapshotRows(source), k, installed)
      invariant store.leaves == Overlay(before, source.leaves, Missing(SnapshotRows(source), k, installed))
      invariant StillAuthentic(store.platform, rows, before, store.leaves)
    {
      var row := SnapshotRows(source)[k];
      if row.dimension in installed {
        MissingSkip(SnapshotRows(source), k, installed);
      } else {
        CopyStep(store.platform, rows, source, before, k);
        store.leaves := store.leaves[row.path := source.leaves[row.path]];
        merged := merged + [row];
      }
    }
  }

  /** The merged manifest is published once every leaf is in place, if anything was restored. */
  method MergeMissing(store: Store, source: Disk)
    requires store.manifest.Some? && ValidPayload(store.platform, store.manifest.value)
    requires SnapshotReady(store.platform, source)
    modifies store
    ensures store.OnDisk() == Combined(old(store.OnDisk()), source)
    ensures StillAuthentic(store.platform, old(store.manifest).value, old(store.leaves), store.leaves)
  {
    var rows := store.manifest.value;
    var merged := CopyMissing(store, source, rows);
    MergeAccepted(store.platform, rows, SnapshotRows(source));
    if merged != rows {
      var e := store.WriteManifest(merged);
    }
  }

  /** The signing step touches no leaf of another installed dimension. */
  lemma SigningKeeps(platform: Platform, before: Disk, combined: Disk, after: Disk, expectDim: int)
    requires Load(platform, before, false, false).Ok?
    requires StillAuthentic(platform, before.manifest.value, before.leaves, combined.leaves)
    requires combined.manifest.Some? && ValidPayload(platform, combined.manifest.value)
    requires forall row :: row in before.manifest.value ==> row in combined.manifest.value
    requires OnlyRequestedTouched(combined, after, [expectDim])
    requires !platform.darwin ==> after == combined
    ensures InstalledKept(platform, before, after, expectDim)
  {
    forall row | row in before.manifest.value && (platform.darwin ==> row.dimension != expectDim)
      ensures Authentic(platform, before.leaves, row) ==> Authentic(platform, after.leaves, row)
    {
      if platform.darwin {
        SiblingElsewhere(platform, combined.manifest.value, [expectDim], row);
      }
    }
  }

  /** The checks of restore before it changes anything. */
  method CheckRestore(src: Store, store: Store, expectDim: int) returns (e: Option<StoreError>)
    requires src.platform == store.platform
    ensures e.None? <==> InstalledReady(store.platform, store.OnDisk(), expectDim)
                         && SnapshotReady(store.platform, src.OnDisk())
  {
    var loaded := Load(store.platform, store.OnDisk(), true, false);
    if loaded.Err? {
      return Some(loaded.error);
    }
    var rows := loaded.value;
    if exists row :: row in rows && !(store.platform.darwin && row.dimension == expectDim)
                     && !Authentic(store.platform, store.leaves, row) {
      return Some(DigestMismatch);
    }
    if expectDim !in Dimensions(rows) {
      return Some(NotInstalled);
    }
    if src.manifest.Some? {
      var kept := Load(store.platform, src.OnDisk(), true, true);
      if kept.Err? {
        return Some(kept.error);
      }
    }
    return None;
  }

  /** restore. */
  method Restore(src: Store, store: Store, expectDim: int) returns (e: Option<StoreError>)
    requires src.platform == store.platform && Hashes(store.platform)
    modifies store
    ensures e.None? <==> Restorable(store.platform, old(store.OnDisk()), old(src.OnDisk()), expectDim)
    ensures e.None? ==> RestoredFrom(store.platform, old(store.OnDisk()), old(src.OnDisk()), store.OnDisk(), expectDim)
    ensures InstalledKept(store.platform, old(store.OnDisk()), store.OnDisk(), expectDim)
  {
    var installed, source := store.OnDisk(), src.OnDisk();
    e := CheckRestore(src, store, expectDim);
    if e.Some? {
      return;
    }
    MergeMissing(store, source);
    CombinedIsUnion(store.platform, installed, source, expectDim);
    ghost var combined := store.OnDisk();
    assert ExactDimensions([expectDim]);
    e := CodesignImportedExtensions(store, [expectDim]);
    SigningKeeps(store.platform, installed, combined, store.OnDisk(), expectDim);
  }

  // ---- Snapshot, replacement, restore ----

  lemma RefreshedMembers(platform: Platform, leaves: map<string, Bytes>, rows: seq<Row>, dims: seq<int>, row: Row)
    requires forall r :: r in rows ==> r.path in leaves
    ensures row.dimension !in dims ==> (row in Refreshed(platform, leaves, rows, dims) <==> row in rows)
    ensures row in rows ==> Refresh(platform, leaves, row, dims) in Refreshed(platform, leaves, rows, dims)
  {
    var refreshed := Refreshed(platform, leaves, rows, dims);
    if row in rows {
      var i :| 0 <= i < |rows| && rows[i] == row;
      assert refreshed[i] == Refresh(platform, leaves, row, dims);
    }
    if row in refreshed && row.dimension !in dims {
      var i :| 0 <= i < |refreshed| && refreshed[i] == row;
      assert rows[i] == row;
    }
  }

  /** The rows of `installed` and, for the dimensions it lacks, those of `source`; the just-built row may differ from
      the installed one by its digest. */
  ghost predicate IsUnion(platform: Platform, installed: seq<Row>, source: seq<Row>, after: seq<Row>, expectDim: int) {
    && (forall row: Row :: (platform.darwin ==> row.dimension != expectDim) ==>
          (row in after <==> row in installed || (row in source && row.dimension !in Dimensions(installed))))
    && (forall row :: row in installed && row.dimension == expectDim ==>
          exists digest: Digest :: row.(sha256 := digest) in after)
  }

  lemma RefreshedUnion(platform: Platform, leaves: map<string, Bytes>, installed: seq<Row>, source: seq<Row>,
                       rows: seq<Row>, expectDim: int)
    requires platform.darwin && Merged(installed, source, rows)
    requires forall r :: r in rows ==> r.path in leaves
    ensures IsUnion(platform, installed, source, Refreshed(platform, leaves, rows, [expectDim]), expectDim)
  {
    var refreshed := Refreshed(platform, leaves, rows, [expectDim]);
    forall row: Row | row.dimension != expectDim
      ensures row in refreshed <==> row in installed || (row in source && row.dimension !in Dimensions(installed))
    {
      RefreshedMembers(platform, leaves, rows, [expectDim], row);
    }
    forall row | row in installed && row.dimension == expectDim
      ensures exists digest: Digest :: row.(sha256 := digest) in refreshed
    {
      RefreshedMembers(platform, leaves, rows, [expectDim], row);
      var digest := platform.hash(leaves[row.path]);
      assert row.(sha256 := digest) in refreshed;
    }
  }

  lemma SameUnion(platform: Platform, installed: seq<Row>, source: seq<Row>, rows: seq<Row>, expectDim: int)
    requires Merged(installed, source, rows)
    ensures IsUnion(platform, installed, source, rows, expectDim)
  {
    forall row | row in installed && row.dimension == expectDim
      ensures exists digest: Digest :: row.(sha256 := digest) in rows
    {
      assert row == row.(sha256 := row.sha256);
    }
  }

  /** A restore that succeeds publishes the union of the dimensions, the installed row winning. */
  lemma RestoredIsUnion(platform: Platform, installed: Disk, source: Disk, after: Disk, expectDim: int)
    requires RestoredFrom(platform, installed, source, after, expectDim)
    ensures IsUnion(platform, installed.manifest.value, SnapshotRows(source), after.manifest.value, expectDim)
  {
    CombinedIsUnion(platform, installed, source, expectDim);
    var rows := Combined(installed, source).manifest.value;
    if platform.darwin {
      RefreshedUnion(platform, after.leaves, installed.manifest.value, SnapshotRows(source), rows, expectDim);
    } else {
      SameUnion(platform, installed.manifest.value, SnapshotRows(source), rows, expectDim);
    }
  }

  /** What a snapshot into a fresh directory holds. */
  function SnapshotOf(store: Disk): Disk {
    if store.manifest.None? then Disk(None, map[]) else Copied(store, Disk(None, map[]))
  }

  /** What a package replacement keeps: every dimension the new wheel lacks. */
  ghost predicate Reinstalled(platform: Platform, before: Disk, wheel: Disk, after: Disk, expectDim: int) {
    && wheel.manifest.Some? && Authenticated(platform, after)
    && IsUnion(platform, wheel.manifest.value, SnapshotRows(before), after.manifest.value, expectDim)
  }

  /** The build script around the replacement of the package: snapshot into a fresh directory, let the installer
      replace the whole store by the wheel's, restore. A refused snapshot stops it before anything is replaced. */
  method Reinstall(store: Store, wheel: Disk, expectDim: int) returns (e: Option<StoreError>)
    requires Hashes(store.platform)
    modifies store
    ensures e.None? <==>
              && SnapshotReady(store.platform, old(store.OnDisk()))
              && Restorable(store.platform, wheel, SnapshotOf(old(store.OnDisk())), expectDim)
    ensures e.None? ==> Reinstalled(store.platform, old(store.OnDisk()), wheel, store.OnDisk(), expectDim)
    ensures !SnapshotReady(store.platform, old(store.OnDisk())) ==> store.OnDisk() == old(store.OnDisk())
  {
    var dest := new Store(store.platform, Disk(None, map[]));
    e := Snapshot(store, dest);
    if e.Some? {
      return;
    }
    assert dest.OnDisk() == SnapshotOf(old(store.OnDisk()));
    store.manifest, store.leaves := wheel.manifest, wheel.leaves;
    e := Restore(dest, store, expectDim);
    if e.None? {
      RestoredIsUnion(store.platform, wheel, dest.OnDisk(), store.OnDisk(), expectDim);
    }
  }
}
