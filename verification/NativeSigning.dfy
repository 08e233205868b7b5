/** Signing requested leaves of an installed native-variant store
    (scripts/codesign_pops_extensions.py). */
module NativeSigning {
  import opened Markers
  import opened Results
  import opened NativeVariants

  predicate ExactDimensions(dims: seq<int>) {
    && dims != []
    && (forall d :: d in dims ==> 1 <= d <= 3)
    && forall i, j :: 0 <= i < j < |dims| ==> dims[i] != dims[j]
  }

  function Selected(rows: seq<Row>, dims: seq<int>): (r: seq<Row>)
    ensures forall row :: row in r <==> row in rows && row.dimension in dims
    ensures SortedUnique(rows) ==> SortedUnique(r)
  {
    if rows == [] then []
    else if rows[0].dimension in dims then [rows[0]] + Selected(rows[1..], dims)
    else Selected(rows[1..], dims)
  }

  function Paths(rows: seq<Row>): set<string> {
    set row | row in rows :: row.path
  }

  /** locate_installed_pops_variants: nothing is signed unless every requested dimension is installed, every leaf is
      declared and every leaf that is not requested is authentic. */
  function Locate(platform: Platform, disk: Disk, dims: seq<int>): (r: Result<seq<Row>, StoreError>)
    ensures r.Ok? ==>
              && Load(platform, disk, true, false).Ok? && r.value == Selected(disk.manifest.value, dims)
              && disk.leaves.Keys <= Paths(disk.manifest.value)
              && forall row :: row in disk.manifest.value && row.dimension !in dims ==>
                   Authentic(platform, disk.leaves, row)
  {
    var loaded := Load(platform, disk, true, false);
    if loaded.Err? then Err(loaded.error) else Checked(platform, disk.leaves, loaded.value, dims)
  }

  function Checked(platform: Platform, leaves: map<string, Bytes>, rows: seq<Row>, dims: seq<int>)
    : (r: Result<seq<Row>, StoreError>)
    ensures r.Ok? ==> r.value == Selected(rows, dims) && leaves.Keys <= Paths(rows)
                      && forall row :: row in rows && row.dimension !in dims ==> Authentic(platform, leaves, row)
  {
    if exists d :: d in dims && forall row :: row in rows ==> row.dimension != d then Err(NotInstalled)
    else if exists p :: p in leaves && p !in Paths(rows) then Err(Unmanifested)
    else if exists row :: row in rows && row.dimension !in dims && !Authentic(platform, leaves, row) then Err(StaleRow)
    else Ok(Selected(rows, dims))
  }

  ghost predicate Installs(rows: seq<Row>, d: int) {
    exists row :: row in rows && row.dimension == d
  }

  ghost predicate Declares(rows: seq<Row>, path: string) {
    exists row :: row in rows && row.path == path
  }

  /** Nothing else stops it: the manifest loads with its leaves, the requested dimensions are installed, every leaf has a
      row, and the rows that are not requested are authentic. */
  lemma LocateExactly(platform: Platform, disk: Disk, dims: seq<int>)
    ensures Locate(platform, disk, dims).Ok? <==>
              && Load(platform, disk, true, false).Ok?
              && (forall d :: d in dims ==> Installs(disk.manifest.value, d))
              && (forall path :: path in disk.leaves ==> Declares(disk.manifest.value, path))
              && forall row :: row in disk.manifest.value && row.dimension !in dims ==>
                   Authentic(platform, disk.leaves, row)
  {
    var loaded := Load(platform, disk, true, false);
    if loaded.Ok? {
      var rows := loaded.value;
      forall path
        ensures path in Paths(rows) <==> Declares(rows, path)
      {
      }
      forall d
        ensures Installs(rows, d) <==> !forall row :: row in rows ==> row.dimension != d
      {
      }
      CheckedExactly(platform, disk.leaves, rows, dims);
    }
  }

  lemma CheckedExactly(platform: Platform, leaves: map<string, Bytes>, rows: seq<Row>, dims: seq<int>)
    ensures Checked(platform, leaves, rows, dims).Ok? <==>
              && (forall d :: d in dims ==> !forall row :: row in rows ==> row.dimension != d)
              && (forall path :: path in leaves ==> path in Paths(rows))
              && forall row :: row in rows && row.dimension !in dims ==> Authentic(platform, leaves, row)
  {}

  /** The bytes of a leaf once signed; a leaf with a valid signature is left alone. */
  function Sealed(platform: Platform, b: Bytes): Bytes {
    if platform.signed(b) then b else platform.sign(b).0
  }

  predicate Sealable(platform: Platform, b: Bytes) {
    platform.signed(b) || platform.sign(b).1
  }

  /** Signing succeeds exactly on these disks. */
  ghost predicate Signable(platform: Platform, disk: Disk, dims: seq<int>) {
    var located := Locate(platform, disk, dims);
    && located.Ok? && platform.signer
    && forall row :: row in located.value ==> Sealable(platform, disk.leaves[row.path])
  }

  /** The leaves of `paths` signed, the others untouched. */
  ghost predicate SealedAt(platform: Platform, before: map<string, Bytes>, after: map<string, Bytes>, paths: set<string>) {
    && after.Keys == before.Keys
    && forall p :: p in before ==> after[p] == if p in paths then Sealed(platform, before[p]) else before[p]
  }

  /** No leaf outside `paths` differs. */
  ghost predicate Elsewhere(before: map<string, Bytes>, after: map<string, Bytes>, paths: set<string>) {
    after.Keys == before.Keys && forall p :: p in before && p !in paths ==> after[p] == before[p]
  }

  function Refresh(platform: Platform, leaves: map<string, Bytes>, row: Row, dims: seq<int>): Row
    requires row.path in leaves
  {
    if row.dimension in dims then row.(sha256 := platform.hash(leaves[row.path])) else row
  }

  /** The rows with the digests of the requested leaves brought up to date. */
  function Refreshed(platform: Platform, leaves: map<string, Bytes>, rows: seq<Row>, dims: seq<int>): (r: seq<Row>)
    requires forall row :: row in rows ==> row.path in leaves
    ensures |r| == |rows|
    ensures forall i :: 0 <= i < |r| ==> r[i] == Refresh(platform, leaves, rows[i], dims)
  {
    if rows == [] then []
    else [Refresh(platform, leaves, rows[0], dims)] + Refreshed(platform, leaves, rows[1..], dims)
  }

  /** A valid payload is its own payload: writing it back never sorts or refuses anything. */
  lemma ValidIsOwnPayload(platform: Platform, rows: seq<Row>)
    requires ValidPayload(platform, rows)
    ensures Payload(platform, rows) == Ok(rows)
  {
    SortedIsOneEach(rows);
    PayloadAccepts(platform, rows);
    SortedRowsUnique(Arranged(rows), rows);
  }

  lemma RefreshedIsValid(platform: Platform, leaves: map<string, Bytes>, rows: seq<Row>, dims: seq<int>)
    requires Hashes(platform) && ValidPayload(platform, rows) && forall row :: row in rows ==> row.path in leaves
    ensures ValidPayload(platform, Refreshed(platform, leaves, rows, dims))
  {
    var r := Refreshed(platform, leaves, rows, dims);
    forall x | x in r
      ensures ValidRow(platform, x)
    {
      var i :| 0 <= i < |r| && r[i] == x;
      assert rows[i] in rows;
      RefreshIsValid(platform, leaves, rows[i], dims);
    }
  }

  lemma RefreshIsValid(platform: Platform, leaves: map<string, Bytes>, row: Row, dims: seq<int>)
    requires Hashes(platform) && ValidRow(platform, row) && row.path in leaves
    ensures ValidRow(platform, Refresh(platform, leaves, row, dims))
  {}

  /** The leaf of a row that is not requested is not one of the requested leaves. */
  lemma SiblingElsewhere(platform: Platform, rows: seq<Row>, dims: seq<int>, row: Row)
    requires forall r :: r in rows ==> ValidRow(platform, r)
    requires row in rows && row.dimension !in dims
    ensures row.path !in Paths(Selected(rows, dims))
  {
    forall other | other in Selected(rows, dims)
      ensures other.path != row.path
    {
      if other.path == row.path {
        PathsFollowDimensions(platform, other, row);
      }
    }
  }

  /** After signing, every row of the refreshed manifest matches its leaf: the requested ones by the new digest, the
      others because no signed leaf is theirs. */
  lemma RefreshedIsAuthentic(platform: Platform, rows: seq<Row>, before: map<string, Bytes>, after: map<string, Bytes>,
                             dims: seq<int>)
    requires forall row :: row in rows ==> row.path in before
    requires forall row :: row in rows && row.dimension !in dims ==> row.path !in Paths(Selected(rows, dims))
    requires Elsewhere(before, after, Paths(Selected(rows, dims)))
    requires forall row :: row in rows && row.dimension !in dims ==> Authentic(platform, before, row)
    ensures forall row :: row in Refreshed(platform, after, rows, dims) ==> Authentic(platform, after, row)
  {
    var r := Refreshed(platform, after, rows, dims);
    forall x | x in r
      ensures Authentic(platform, after, x)
    {
      var i :| 0 <= i < |r| && r[i] == x;
      var row := rows[i];
      assert row in rows && x == Refresh(platform, after, row, dims);
      assert row.dimension !in dims ==> after[row.path] == before[row.path];
    }
  }

  /** The manifest that signing publishes is the refreshed one, and it is authenticated. */
  lemma SignedManifest(platform: Platform, disk: Disk, after: map<string, Bytes>, dims: seq<int>)
    requires Hashes(platform) && Locate(platform, disk, dims).Ok?
    requires Elsewhere(disk.leaves, after, Paths(Selected(disk.manifest.value, dims)))
    ensures var final := Refreshed(platform, after, disk.manifest.value, dims);
            Payload(platform, final) == Ok(final) && Authenticated(platform, Disk(Some(final), after))
  {
    var rows := disk.manifest.value;
    forall row | row in rows && row.dimension !in dims
      ensures row.path !in Paths(Selected(rows, dims))
    {
      SiblingElsewhere(platform, rows, dims, row);
    }
    RefreshedIsAuthentic(platform, rows, disk.leaves, after, dims);
    RefreshedIsValid(platform, after, rows, dims);
    ValidIsOwnPayload(platform, Refreshed(platform, after, rows, dims));
  }

  ghost predicate DistinctPaths(rows: seq<Row>) {
    forall i, j :: 0 <= i < j < |rows| ==> rows[i].path != rows[j].path
  }

  lemma NewPath(rows: seq<Row>, k: nat)
    requires DistinctPaths(rows) && k < |rows|
    ensures rows[k].path !in Paths(rows[..k])
    ensures Paths(rows[..k + 1]) == Paths(rows[..k]) + {rows[k].path}
  {
    assert rows[..k + 1] == rows[..k] + [rows[k]];
  }

  /** No two requested leaves share a path. */
  lemma SelectedPathsDiffer(platform: Platform, rows: seq<Row>, dims: seq<int>)
    requires ValidPayload(platform, rows)
    ensures DistinctPaths(Selected(rows, dims))
  {
    var v := Selected(rows, dims);
    forall i, j | 0 <= i < j < |v|
      ensures v[i].path != v[j].path
    {
      assert v[i] in v && v[j] in v;
      if v[i].path == v[j].path {
        PathsFollowDimensions(platform, v[i], v[j]);
      }
    }
  }

  /** The leaves of the first k rows are signed, and all of those could be. */
  ghost predicate Sealing(platform: Platform, before: map<string, Bytes>, now: map<string, Bytes>, rows: seq<Row>, k: nat)
  {
    forall mark: int {:trigger Opened(mark)} :: Opened(mark) ==>
      && k <= |rows| && DistinctPaths(rows) && (forall row :: row in rows ==> row.path in before)
      && SealedAt(platform, before, now, Paths(rows[..k]))
      && forall i :: 0 <= i < k ==> Sealable(platform, before[rows[i].path])
  }

  lemma SealingStart(platform: Platform, before: map<string, Bytes>, rows: seq<Row>)
    requires DistinctPaths(rows) && forall row :: row in rows ==> row.path in before
    ensures Sealing(platform, before, before, rows, 0)
  {}

  /** Signing the next leaf: from its old bytes, with success exactly when it can be sealed, and no other leaf
      touched. */
  lemma SealingStep(platform: Platform, before: map<string, Bytes>, now: map<string, Bytes>, rows: seq<Row>, k: nat)
    requires k < |rows| && Sealing(platform, before, now, rows, k)
    ensures var path := rows[k].path;
            && path in now && path in before && now[path] == before[path]
            && (platform.signed(now[path]) ==> Sealing(platform, before, now, rows, k + 1))
            && (!platform.signed(now[path]) ==>
                  var next := now[path := platform.sign(now[path]).0];
                  && Elsewhere(before, next, Paths(rows))
                  && (platform.sign(now[path]).1 ==> Sealing(platform, before, next, rows, k + 1)))
    ensures rows[k] in rows
  {
    assert Opened(0);
    var row := rows[k];
    assert row in rows;
    NewPath(rows, k);
    assert Paths(rows[..k]) <= Paths(rows);
  }

  lemma SealingEnd(platform: Platform, before: map<string, Bytes>, now: map<string, Bytes>, rows: seq<Row>)
    requires Sealing(platform, before, now, rows, |rows|)
    ensures SealedAt(platform, before, now, Paths(rows)) && Elsewhere(before, now, Paths(rows))
    ensures forall row :: row in rows ==> row.path in before && Sealable(platform, before[row.path])
  {
    assert Opened(0);
    assert rows[..|rows|] == rows;
  }

  /** Signs the leaves of `rows` one after the other; the first failure stops, after the tool has touched that leaf. */
  method SignLeaves(store: Store, rows: seq<Row>) returns (passed: bool)
    requires forall row :: row in rows ==> row.path in store.leaves
    requires DistinctPaths(rows)
    modifies store`leaves
    ensures passed <==> forall row :: row in rows ==> Sealable(store.platform, old(store.leaves)[row.path])
    ensures passed ==> SealedAt(store.platform, old(store.leaves), store.leaves, Paths(rows))
    ensures Elsewhere(old(store.leaves), store.leaves, Paths(rows))
  {
    ghost var before := store.leaves;
    SealingStart(store.platform, before, rows);
    for k := 0 to |rows|
      invariant Sealing(store.platform, before, store.leaves, rows, k)
    {
      SealingStep(store.platform, before, store.leaves, rows, k);
      var row := rows[k];
      if !store.platform.signed(store.leaves[row.path]) {
        var (bytes, ok) := store.platform.sign(store.leaves[row.path]);
        store.leaves := store.leaves[row.path := bytes];
        if !ok {
          return false;
        }
      }
    }
    SealingEnd(store.platform, before, store.leaves, rows);
    return true;
  }

  /** A success publishes the final digests of the signed leaves, authenticates the manifest and changes nothing
      else. */
  ghost predicate SignedFrom(platform: Platform, before: Disk, after: Disk, dims: seq<int>) {
    && Locate(platform, before, dims).Ok?
    && SealedAt(platform, before.leaves, after.leaves, Paths(Selected(before.manifest.value, dims)))
    && after.manifest == Some(Refreshed(platform, after.leaves, before.manifest.value, dims))
    && Authenticated(platform, after)
  }

  /** Success or failure, no leaf but the requested ones differs. */
  ghost predicate OnlyRequestedTouched(before: Disk, after: Disk, dims: seq<int>) {
    if before.manifest.Some? then
      Elsewhere(before.leaves, after.leaves, Paths(Selected(before.manifest.value, dims)))
    else
      after == before
  }

  /** The final digests of the signed leaves replace the old ones in the manifest. */
  method PublishFinalDigests(store: Store, dims: seq<int>, ghost before: map<string, Bytes>)
    requires Hashes(store.platform)
    requires Locate(store.platform, Disk(store.manifest, before), dims).Ok?
    requires Elsewhere(before, store.leaves, Paths(Selected(store.manifest.value, dims)))
    modifies store`manifest
    ensures store.manifest == Some(Refreshed(store.platform, store.leaves, old(store.manifest).value, dims))
    ensures Authenticated(store.platform, store.OnDisk())
  {
    SignedManifest(store.platform, Disk(store.manifest, before), store.leaves, dims);
    var e := store.WriteManifest(Refreshed(store.platform, store.leaves, store.manifest.value, dims));
  }

  /** Exact dimensions are distinct, among 1, 2 and 3, and at least one. */
  lemma DimensionsExactly(dims: seq<int>)
    ensures ExactDimensions(dims)
            <==> (forall d :: d in dims ==> d in {1, 2, 3}) && 0 < |dims| == |set d | d in dims|
  {
    var members := set d | d in dims;
    if ExactDimensions(dims) {
      DistinctSize(dims);
    } else if dims != [] && forall d :: d in dims ==> d in {1, 2, 3} {
      var i, j :| 0 <= i < j < |dims| && dims[i] == dims[j];
      RepeatedSize(dims, i, j);
    }
  }

  lemma {:induction false} DistinctSize(dims: seq<int>)
    requires forall i, j :: 0 <= i < j < |dims| ==> dims[i] != dims[j]
    ensures |set d | d in dims| == |dims|
  {
    if dims != [] {
      DistinctSize(dims[1..]);
      assert (set d | d in dims) == (set d | d in dims[1..]) + {dims[0]};
    }
  }

  lemma {:induction false} AtMostSize(dims: seq<int>)
    ensures |set d | d in dims| <= |dims|
  {
    if dims != [] {
      AtMostSize(dims[1..]);
      assert (set d | d in dims) == (set d | d in dims[1..]) + {dims[0]};
    }
  }

  lemma RepeatedSize(dims: seq<int>, i: nat, j: nat)
    requires i < j < |dims| && dims[i] == dims[j]
    ensures |set d | d in dims| < |dims|
  {
    var rest := dims[..j] + dims[j + 1..];
    AtMostSize(rest);
    assert rest[i] == dims[j];
    assert (set d | d in dims) == set d | d in rest;
  }

  /** codesign_imported_extensions. */
  method CodesignImportedExtensions(store: Store, dims: seq<int>) returns (e: Option<StoreError>)
    requires Hashes(store.platform)
    modifies store
    ensures !ExactDimensions(dims) ==> e == Some(BadArguments)
    ensures ExactDimensions(dims) ==>
              (e.None? <==> !store.platform.darwin || Signable(store.platform, old(store.OnDisk()), dims))
    // Elsewhere than on Darwin nothing is touched.
    ensures !store.platform.darwin ==> store.OnDisk() == old(store.OnDisk())
    ensures e.None? && store.platform.darwin ==> SignedFrom(store.platform, old(store.OnDisk()), store.OnDisk(), dims)
    ensures OnlyRequestedTouched(old(store.OnDisk()), store.OnDisk(), dims)
    ensures e.Some? ==> store.manifest == old(store.manifest)
  {
    if !ExactDimensions(dims) {
      return Some(BadArguments);
    }
    if !store.platform.darwin {
      return None;
    }
    var located := Locate(store.platform, store.OnDisk(), dims);
    if located.Err? {
      return Some(located.error);
    }
    if !store.platform.signer {
      return Some(SigningFailed);
    }
    var rows := store.manifest.value;
    SelectedPathsDiffer(store.platform, rows, dims);
    var passed := SignLeaves(store, located.value);
    if !passed {
      return Some(SigningFailed);
    }
    PublishFinalDigests(store, dims, old(store.leaves));
    return None;
  }
}
