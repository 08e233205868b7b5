/** The native-variant store: a manifest of authenticated extension leaves
    (scripts/write_native_variant_manifest.py). */
module NativeVariants {
  import opened Results

  type Bytes = seq<nat>

  type Digest = string

  datatype Row = Row(dimension: int, path: string, sha256: Digest, version: string, abiKey: string,
                     hasMpi: bool, hasKokkos: bool)

  /** What loading an extension reveals about its bytes. */
  datatype LeafFacts = LeafFacts(dimension: int, version: string, abiKey: string, hasMpi: bool, hasKokkos: bool)

  datatype StoreError =
    | ManifestMissing
    | ManifestInvalid
    | LeafMissing
    | DigestMismatch
    | BadArguments
    | FactsDisagree
    | StaleRow
    | NotInstalled
    | Unmanifested
    | SigningFailed
    | SameFile

  /** A directory with its manifest and its regular extension files. */
  datatype Disk = Disk(manifest: Option<seq<Row>>, leaves: map<string, Bytes>)

  /** The hash, the loader, the signature probe, the signing tool (the bytes it leaves, and whether signing and its
      checks passed; installed or not) and the extension suffixes of the platform. */
  datatype Platform = Platform(
    hash: Bytes -> Digest,
    probe: Bytes -> LeafFacts,
    signed: Bytes -> bool,
    sign: Bytes -> (Bytes, bool),
    signer: bool,
    suffixes: seq<string>,
    darwin: bool)

  // ---- Validation ----

  predicate HexDigit(c: char) {
    '0' <= c <= '9' || 'a' <= c <= 'f'
  }

  predicate WellFormedDigest(d: Digest) {
    |d| == 64 && forall i :: 0 <= i < |d| ==> HexDigit(d[i])
  }

  /** The hash produces digests of the manifest's form. */
  ghost predicate Hashes(platform: Platform) {
    forall b :: WellFormedDigest(platform.hash(b))
  }

  function DimensionName(dimension: int): string {
    if dimension == 1 then "dim1/_pops" else if dimension == 2 then "dim2/_pops" else "dim3/_pops"
  }

  /** dimN/_pops<EXT_SUFFIX> for the row's own dimension. */
  predicate CanonicalPath(platform: Platform, dimension: int, path: string) {
    exists s :: s in platform.suffixes && path == DimensionName(dimension) + s
  }

  predicate ValidRow(platform: Platform, row: Row) {
    && 1 <= row.dimension <= 3
    && CanonicalPath(platform, row.dimension, row.path)
    && WellFormedDigest(row.sha256)
    && row.version != "" && row.abiKey != ""
  }

  predicate SortedUnique(rows: seq<Row>) {
    forall i, j :: 0 <= i < j < |rows| ==> rows[i].dimension < rows[j].dimension
  }

  predicate ValidPayload(platform: Platform, rows: seq<Row>) {
    rows != [] && (forall r :: r in rows ==> ValidRow(platform, r)) && SortedUnique(rows)
  }

  /** Different dimensions never share a path, so unique dimensions make unique paths. */
  lemma PathsFollowDimensions(platform: Platform, a: Row, b: Row)
    requires ValidRow(platform, a) && ValidRow(platform, b) && a.path == b.path
    ensures a.dimension == b.dimension
  {
    assert a.path[3] == DimensionName(a.dimension)[3];
    assert b.path[3] == DimensionName(b.dimension)[3];
  }

  // ---- Reading ----

  predicate Authentic(platform: Platform, leaves: map<string, Bytes>, row: Row) {
    row.path in leaves && platform.hash(leaves[row.path]) == row.sha256
  }

  function CheckRows(platform: Platform, leaves: map<string, Bytes>, rows: seq<Row>, hashes: bool): (r: Option<StoreError>)
    ensures r.None? <==> forall row :: row in rows ==>
                      row.path in leaves && (hashes ==> Authentic(platform, leaves, row))
  {
    if rows == [] then None
    else if rows[0].path !in leaves then Some(LeafMissing)
    else if hashes && platform.hash(leaves[rows[0].path]) != rows[0].sha256 then Some(DigestMismatch)
    else CheckRows(platform, leaves, rows[1..], hashes)
  }

  function Load(platform: Platform, disk: Disk, files: bool, hashes: bool): (r: Result<seq<Row>, StoreError>)
    ensures r.Ok? <==>
              && disk.manifest.Some? && ValidPayload(platform, disk.manifest.value)
              && (files ==> forall row :: row in disk.manifest.value ==>
                    row.path in disk.leaves && (hashes ==> Authentic(platform, disk.leaves, row)))
    ensures r.Ok? ==> r.value == disk.manifest.value
  {
    if disk.manifest.None? then Err(ManifestMissing)
    else if !ValidPayload(platform, disk.manifest.value) then Err(ManifestInvalid)
    else if !files then Ok(disk.manifest.value)
    else match CheckRows(platform, disk.leaves, disk.manifest.value, hashes)
         case Some(e) => Err(e)
         case None => Ok(disk.manifest.value)
  }

  /** The state every successful operation ends in. */
  ghost predicate Authenticated(platform: Platform, disk: Disk) {
    && disk.manifest.Some? && ValidPayload(platform, disk.manifest.value)
    && forall row :: row in disk.manifest.value ==> Authentic(platform, disk.leaves, row)
  }

  // ---- Writing ----

  function OfDimension(rows: seq<Row>, d: int): (r: seq<Row>)
    ensures forall row :: row in r <==> row in rows && row.dimension == d
  {
    if rows == [] then []
    else (if rows[0].dimension == d then [rows[0]] else []) + OfDimension(rows[1..], d)
  }

  function Except(rows: seq<Row>, d: int): (r: seq<Row>)
    ensures forall row :: row in r <==> row in rows && row.dimension != d
  {
    if rows == [] then []
    else (if rows[0].dimension != d then [rows[0]] else []) + Except(rows[1..], d)
  }

  /** Stable sort by dimension of rows whose dimensions are 1, 2 or 3. */
  function Arranged(rows: seq<Row>): (r: seq<Row>)
    ensures (forall row :: row in rows ==> 1 <= row.dimension <= 3) ==> forall row :: row in r <==> row in rows
  {
    OfDimension(rows, 1) + OfDimension(rows, 2) + OfDimension(rows, 3)
  }

  function Payload(platform: Platform, rows: seq<Row>): (r: Result<seq<Row>, StoreError>)
    ensures r.Ok? ==> ValidPayload(platform, r.value) && forall row :: row in r.value <==> row in rows
  {
    if !(forall row :: row in rows ==> ValidRow(platform, row)) then Err(ManifestInvalid)
    else if !ValidPayload(platform, Arranged(rows)) then Err(ManifestInvalid)
    else Ok(Arranged(rows))
  }

  /** No two rows share a dimension. */
  ghost predicate OneEach(rows: seq<Row>) {
    forall i, j :: 0 <= i < j < |rows| ==> rows[i].dimension != rows[j].dimension
  }

  lemma {:induction false} OfDimensionAtMostOne(rows: seq<Row>, d: int)
    requires OneEach(rows)
    ensures |OfDimension(rows, d)| <= 1
  {
    if rows != [] {
      OfDimensionAtMostOne(rows[1..], d);
      forall row | row in rows[1..]
        ensures row.dimension != rows[0].dimension
      {
        var k :| 0 <= k < |rows[1..]| && rows[1..][k] == row;
        assert rows[k + 1] == row;
      }
      var rest := OfDimension(rows[1..], d);
      assert rest == [] || rest[0] in rest;
    }
  }

  /** Rows of distinct dimensions always have a payload. */
  lemma PayloadAccepts(platform: Platform, rows: seq<Row>)
    requires rows != [] && OneEach(rows) && forall row :: row in rows ==> ValidRow(platform, row)
    ensures Payload(platform, rows) == Ok(Arranged(rows))
  {
    OfDimensionAtMostOne(rows, 1);
    OfDimensionAtMostOne(rows, 2);
    OfDimensionAtMostOne(rows, 3);
    ThreeSorted(OfDimension(rows, 1), OfDimension(rows, 2), OfDimension(rows, 3));
    assert rows[0] in Arranged(rows);
  }

  lemma ThreeSorted(one: seq<Row>, two: seq<Row>, three: seq<Row>)
    requires |one| <= 1 && |two| <= 1 && |three| <= 1
    requires forall r :: r in one ==> r.dimension == 1
    requires forall r :: r in two ==> r.dimension == 2
    requires forall r :: r in three ==> r.dimension == 3
    ensures SortedUnique(one + two + three)
  {
    assert one == [] || one[0] in one;
    assert two == [] || two[0] in two;
    assert three == [] || three[0] in three;
  }

  /** A sorted payload is determined by its set of rows. */
  lemma {:induction false} SortedRowsUnique(a: seq<Row>, b: seq<Row>)
    requires SortedUnique(a) && SortedUnique(b) && forall row :: row in a <==> row in b
    ensures a == b
  {
    assert b == [] || b[0] in b;
    if a != [] {
      assert a[0] in b && b != [];
      assert b[0] in a;
      var j :| 0 <= j < |b| && b[j] == a[0];
      var i :| 0 <= i < |a| && a[i] == b[0];
      assert i == 0 && j == 0;
      forall row
        ensures row in a[1..] <==> row in b[1..]
      {
        TailMembers(a, row);
        TailMembers(b, row);
      }
      SortedRowsUnique(a[1..], b[1..]);
      assert a == [a[0]] + a[1..] && b == [b[0]] + b[1..];
    }
  }

  lemma TailMembers(s: seq<Row>, row: Row)
    requires s != [] && SortedUnique(s)
    ensures row in s[1..] <==> row in s && row != s[0]
  {
    if row in s && row != s[0] {
      var k :| 0 <= k < |s| && s[k] == row;
      assert s[1..][k - 1] == row;
    }
  }

  lemma SortedIsOneEach(rows: seq<Row>)
    requires SortedUnique(rows)
    ensures OneEach(rows)
  {}

  // ---- Updating one dimension ----

  /** native_variant_row: the facts of the leaf must be the ones asked for. */
  function NativeRow(platform: Platform, leaves: map<string, Bytes>, path: string, dimension: int, version: string)
    : (r: Result<Row, StoreError>)
    ensures r.Ok? ==> r.value.dimension == dimension && Authentic(platform, leaves, r.value)
    ensures r.Ok? <==>
              && dimension in {1, 2, 3} && version != "" && path in leaves
              && (exists s :: s in platform.suffixes && path == DimensionName(dimension) + s)
              && platform.probe(leaves[path]).dimension == dimension && platform.probe(leaves[path]).version == version
              && platform.probe(leaves[path]).abiKey != ""
    ensures r.Ok? ==> r.value.path == path && Reveals(platform.probe(leaves[path]), r.value)
  {
    if !(1 <= dimension <= 3) || version == "" || !CanonicalPath(platform, dimension, path) then Err(BadArguments)
    else if path !in leaves then Err(LeafMissing)
    else
      var facts := platform.probe(leaves[path]);
      if facts.dimension != dimension || facts.version != version || facts.abiKey == "" then Err(FactsDisagree)
      else Ok(Row(dimension, path, platform.hash(leaves[path]), version, facts.abiKey, facts.hasMpi, facts.hasKokkos))
  }

  /** The row repeats what the leaf says of itself. */
  ghost predicate Reveals(facts: LeafFacts, row: Row) {
    && row.dimension == facts.dimension && row.version == facts.version && row.abiKey == facts.abiKey
    && row.hasMpi == facts.hasMpi && row.hasKokkos == facts.hasKokkos
  }

  /** dim1/, dim2/ or dim3/, and _pops with one of the suffixes. */
  lemma PathsExactly(platform: Platform, dimension: int, path: string)
    requires 1 <= dimension <= 3
    ensures CanonicalPath(platform, dimension, path)
            <==> exists s :: s in platform.suffixes && path == "dim" + ["123"[dimension - 1]] + "/_pops" + s
  {
    assert DimensionName(dimension) == "dim" + ["123"[dimension - 1]] + "/_pops";
  }

  /** The loader accepts exactly the rows that the writer can write for some leaf. */
  lemma RowsReadAreRowsWritten(platform: Platform, row: Row)
    ensures ValidRow(platform, row) <==> Writable(platform, row)
  {
    if ValidRow(platform, row) {
      ValidIsWritable(platform, row);
    }
    if hash, probe, leaves :| WritableBy(platform, hash, probe, leaves, row) {
      WrittenIsValid(platform, hash, probe, leaves, row);
    }
  }

  lemma ValidIsWritable(platform: Platform, row: Row)
    requires ValidRow(platform, row)
    ensures Writable(platform, row)
  {
    var hash, probe := (b: Bytes) => row.sha256,
                       (b: Bytes) => LeafFacts(row.dimension, row.version, row.abiKey, row.hasMpi, row.hasKokkos);
    DigestExactly(row.sha256);
    assert WritableBy(platform, hash, probe, map[row.path := []], row);
  }

  lemma WrittenIsValid(platform: Platform, hash: Bytes -> Digest, probe: Bytes -> LeafFacts, leaves: map<string, Bytes>,
                       row: Row)
    requires WritableBy(platform, hash, probe, leaves, row)
    ensures ValidRow(platform, row)
  {
    var other := platform.(hash := hash, probe := probe);
    assert NativeRow(other, leaves, row.path, row.dimension, row.version) == Ok(row);
    DigestExactly(row.sha256);
  }

  /** Some leaf under some hash and loader makes the writer write the row. */
  ghost predicate Writable(platform: Platform, row: Row) {
    exists hash, probe, leaves :: WritableBy(platform, hash, probe, leaves, row)
  }

  ghost predicate WritableBy(platform: Platform, hash: Bytes -> Digest, probe: Bytes -> LeafFacts,
                             leaves: map<string, Bytes>, row: Row) {
    && (forall b :: |hash(b)| == 64 && forall c :: c in hash(b) ==> c in "0123456789abcdef")
    && NativeRow(platform.(hash := hash, probe := probe), leaves, row.path, row.dimension, row.version) == Ok(row)
  }

  /** A digest is 64 lower-case hexadecimal digits. */
  lemma DigestExactly(d: Digest)
    ensures WellFormedDigest(d) <==> |d| == 64 && forall c :: c in d ==> c in "0123456789abcdef"
  {
    forall c: char
      ensures c in "0123456789abcdef" <==> HexDigit(c)
    {
      HexDigitExactly(c);
    }
  }

  lemma HexDigitExactly(c: char)
    ensures c in "0123456789abcdef" <==> HexDigit(c)
  {}

  function Current(platform: Platform, disk: Disk): Result<seq<Row>, StoreError> {
    if disk.manifest.None? then Ok([]) else Load(platform, disk, false, false)
  }

  /** The manifest after update_manifest; a failure leaves the old one in place. */
  function Updated(platform: Platform, disk: Disk, path: string, dimension: int, version: string)
    : Result<seq<Row>, StoreError>
  {
    var current := Current(platform, disk);
    if current.Err? then Err(current.error)
    else
      var row := NativeRow(platform, disk.leaves, path, dimension, version);
      if row.Err? then Err(row.error)
      else
        var retained := Except(current.value, dimension);
        if CheckRows(platform, disk.leaves, retained, true).Some? then Err(StaleRow)
        else Payload(platform, retained + [row.value])
  }

  /** Rows of dimensions other than d are fresh. */
  ghost predicate OthersFresh(platform: Platform, disk: Disk, d: int) {
    disk.manifest.Some? ==>
      forall row :: row in disk.manifest.value && row.dimension != d ==> Authentic(platform, disk.leaves, row)
  }

  /** A manifest that is absent or valid. */
  ghost predicate Legible(platform: Platform, disk: Disk) {
    disk.manifest.Some? ==> ValidPayload(platform, disk.manifest.value)
  }

  lemma RetainedWithRow(platform: Platform, rows: seq<Row>, row: Row)
    requires OneEach(rows) && (forall r :: r in rows ==> ValidRow(platform, r)) && ValidRow(platform, row)
    ensures var next := Except(rows, row.dimension) + [row];
            && next != [] && OneEach(next) && (forall r :: r in next ==> ValidRow(platform, r))
            && forall r :: r in next <==> r == row || (r in rows && r.dimension != row.dimension)
  {
    ExceptOneEach(rows, row.dimension);
    var kept := Except(rows, row.dimension);
    forall i | 0 <= i < |kept|
      ensures kept[i].dimension != row.dimension
    {
      assert kept[i] in kept;
    }
  }

  lemma {:induction false} ExceptOneEach(rows: seq<Row>, d: int)
    requires OneEach(rows)
    ensures OneEach(Except(rows, d))
  {
    if rows != [] {
      ExceptOneEach(rows[1..], d);
      var rest := Except(rows[1..], d);
      forall i | 0 <= i < |rest|
        ensures rest[i].dimension != rows[0].dimension
      {
        assert rest[i] in rest;
        var k :| 0 <= k < |rows[1..]| && rows[1..][k] == rest[i];
        assert rows[k + 1] == rest[i];
      }
    }
  }

  /** The rows an update publishes always have a payload: the new row and the rows of other dimensions. */
  lemma NextPayload(platform: Platform, rows: seq<Row>, row: Row)
    requires SortedUnique(rows) && (forall r :: r in rows ==> ValidRow(platform, r)) && ValidRow(platform, row)
    ensures var next := Payload(platform, Except(rows, row.dimension) + [row]);
            next.Ok? && forall x :: x in next.value <==> x == row || (x in rows && x.dimension != row.dimension)
  {
    SortedIsOneEach(rows);
    RetainedWithRow(platform, rows, row);
    PayloadAccepts(platform, Except(rows, row.dimension) + [row]);
  }

  /** When an update succeeds, and what it then leaves: the new row, every other row, sorted and authenticated. */
  lemma UpdateExact(platform: Platform, disk: Disk, path: string, dimension: int, version: string)
    requires Hashes(platform)
    ensures var r := Updated(platform, disk, path, dimension, version);
            var row := NativeRow(platform, disk.leaves, path, dimension, version);
            && (r.Ok? <==> Legible(platform, disk) && row.Ok? && OthersFresh(platform, disk, dimension))
            && (r.Ok? ==>
                  && Authenticated(platform, Disk(Some(r.value), disk.leaves))
                  && forall x :: x in r.value <==>
                       x == row.value || (disk.manifest.Some? && x in disk.manifest.value && x.dimension != dimension))
  {
    var current := Current(platform, disk);
    var row := NativeRow(platform, disk.leaves, path, dimension, version);
    if current.Ok? && row.Ok? {
      NextPayload(platform, current.value, row.value);
      var retained := Except(current.value, dimension);
      assert CheckRows(platform, disk.leaves, retained, true).None? <==> OthersFresh(platform, disk, dimension);
    }
  }

  class Store {
    const platform: Platform
    var manifest: Option<seq<Row>>
    var leaves: map<string, Bytes>

    constructor (platform: Platform, disk: Disk)
      ensures this.platform == platform && manifest == disk.manifest && leaves == disk.leaves
    {
      this.platform := platform;
      manifest, leaves := disk.manifest, disk.leaves;
    }

    function OnDisk(): Disk
      reads this
    {
      Disk(manifest, leaves)
    }

    /** Atomic replacement: all of the rows or none of them. */
    method WriteManifest(rows: seq<Row>) returns (e: Option<StoreError>)
      modifies this`manifest
      ensures match Payload(platform, rows)
              case Ok(payload) => e.None? && manifest == Some(payload)
              case Err(error) => e == Some(error) && manifest == old(manifest)
    {
      var payload := Payload(platform, rows);
      if payload.Err? {
        return Some(payload.error);
      }
      manifest := Some(payload.value);
      return None;
    }

    method UpdateManifest(path: string, dimension: int, version: string) returns (r: Result<seq<Row>, StoreError>)
      requires Hashes(platform)
      modifies this`manifest
      ensures r == Updated(platform, old(OnDisk()), path, dimension, version)
      ensures manifest == if r.Ok? then Some(r.value) else old(manifest)
    {
      UpdateExact(platform, OnDisk(), path, dimension, version);
      var current: seq<Row> := [];
      if manifest.Some? {
        var loaded := Load(platform, OnDisk(), false, false);
        if loaded.Err? {
          return Err(loaded.error);
        }
        current := loaded.value;
      }
      var row := NativeRow(platform, leaves, path, dimension, version);
      if row.Err? {
        return Err(row.error);
      }
      var retained := Except(current, dimension);
      if CheckRows(platform, leaves, retained, true).Some? {
        return Err(StaleRow);
      }
      var e := WriteManifest(retained + [row.value]);
      assert e.None?;  // retained rows and the new row never clash
      r := Load(platform, OnDisk(), true, true);
    }
  }

  // ---- Updates of two dimensions ----

  function After(disk: Disk, r: Result<seq<Row>, StoreError>): Disk {
    if r.Ok? then disk.(manifest := Some(r.value)) else disk
  }

  /** Row of one dimension, when present, is fresh. */
  ghost predicate Fresh(platform: Platform, disk: Disk, d: int) {
    disk.manifest.Some? ==>
      forall row :: row in disk.manifest.value && row.dimension == d ==> Authentic(platform, disk.leaves, row)
  }

  /** What both orders of two updates need alike. */
  ghost predicate BothPossible(platform: Platform, disk: Disk, p: string, d: int, v: string, q: string, e: int, u: string) {
    && Legible(platform, disk)
    && NativeRow(platform, disk.leaves, p, d, v).Ok? && NativeRow(platform, disk.leaves, q, e, u).Ok?
    && (disk.manifest.Some? ==>
          forall row :: row in disk.manifest.value && row.dimension != d && row.dimension != e ==>
            Authentic(platform, disk.leaves, row))
  }

  /** Updating d and then e succeeds exactly when the present row of e is fresh: the first update refuses to
      keep a stale one, which the second would have replaced. */
  lemma UpdateTwice(platform: Platform, disk: Disk, p: string, d: int, v: string, q: string, e: int, u: string)
    requires Hashes(platform) && d != e
    ensures var first := Updated(platform, disk, p, d, v);
            var second := Updated(platform, After(disk, first), q, e, u);
            && (first.Ok? && second.Ok? <==> BothPossible(platform, disk, p, d, v, q, e, u) && Fresh(platform, disk, e))
            && (first.Ok? && second.Ok? ==> forall x :: x in second.value <==>
                  || x == NativeRow(platform, disk.leaves, p, d, v).value
                  || x == NativeRow(platform, disk.leaves, q, e, u).value
                  || (disk.manifest.Some? && x in disk.manifest.value && x.dimension != d && x.dimension != e))
  {
    UpdateExact(platform, disk, p, d, v);
    var first := Updated(platform, disk, p, d, v);
    UpdateExact(platform, After(disk, first), q, e, u);
  }

  /** When both orders succeed they publish the same manifest. */
  lemma UpdatesCommute(platform: Platform, disk: Disk, p: string, d: int, v: string, q: string, e: int, u: string)
    requires Hashes(platform) && d != e
    ensures var first := Updated(platform, disk, p, d, v);
            var second := Updated(platform, After(disk, first), q, e, u);
            var other := Updated(platform, disk, q, e, u);
            var last := Updated(platform, After(disk, other), p, d, v);
            && (first.Ok? && second.Ok? && other.Ok? && last.Ok? ==> second.value == last.value)
            && (BothPossible(platform, disk, p, d, v, q, e, u) ==>
                  ((first.Ok? && second.Ok?) == (other.Ok? && last.Ok?)
                   <==> Fresh(platform, disk, d) == Fresh(platform, disk, e)))
  {
    UpdateTwice(platform, disk, p, d, v, q, e, u);
    UpdateTwice(platform, disk, q, e, u, p, d, v);
    var first := Updated(platform, disk, p, d, v);
    var second := Updated(platform, After(disk, first), q, e, u);
    var other := Updated(platform, disk, q, e, u);
    var last := Updated(platform, After(disk, other), p, d, v);
    if first.Ok? && second.Ok? && other.Ok? && last.Ok? {
      UpdateExact(platform, After(disk, first), q, e, u);
      UpdateExact(platform, After(disk, other), p, d, v);
      SortedRowsUnique(second.value, last.value);
    }
  }

  // ---- What two updates leave, failures included ----

  /** The disk after an update of d and then one of e; a refused update changes nothing. */
  function AfterBoth(platform: Platform, disk: Disk, p: string, d: int, v: string, q: string, e: int, u: string): Disk {
    var first := After(disk, Updated(platform, disk, p, d, v));
    After(first, Updated(platform, first, q, e, u))
  }

  /** What an update of d needs: a legible manifest, a leaf with the facts asked for, and no stale row beside d. */
  ghost predicate Accepts(platform: Platform, disk: Disk, p: string, d: int, v: string) {
    Legible(platform, disk) && NativeRow(platform, disk.leaves, p, d, v).Ok? && OthersFresh(platform, disk, d)
  }

  /** The leaf cannot be recorded, or its row stands in the manifest already. */
  predicate NothingNew(platform: Platform, disk: Disk, p: string, d: int, v: string) {
    var row := NativeRow(platform, disk.leaves, p, d, v);
    row.Err? || (disk.manifest.Some? && row.value in disk.manifest.value)
  }

  /** After one update the other one is refused only for its leaf. */
  lemma SecondUpdate(platform: Platform, disk: Disk, p: string, d: int, v: string, q: string, e: int, u: string)
    requires Hashes(platform) && d != e && Accepts(platform, disk, p, d, v)
    ensures var first := Updated(platform, disk, p, d, v);
            && first.Ok? && Accepts(platform, After(disk, first), q, e, u) == NativeRow(platform, disk.leaves, q, e, u).Ok?
  {
    UpdateExact(platform, disk, p, d, v);
  }

  /** One order is refused nothing and the other loses its first update: the results differ exactly by the row that the
      refused update would have published. */
  lemma OneOrderOnly(platform: Platform, disk: Disk, p: string, d: int, v: string, q: string, e: int, u: string)
    requires Hashes(platform) && d != e
    requires Accepts(platform, disk, p, d, v) && !Accepts(platform, disk, q, e, u)
    ensures AfterBoth(platform, disk, p, d, v, q, e, u) == AfterBoth(platform, disk, q, e, u, p, d, v)
            <==> NothingNew(platform, disk, q, e, u)
  {
    SecondUpdate(platform, disk, p, d, v, q, e, u);
    UpdateExact(platform, disk, p, d, v);
    UpdateExact(platform, disk, q, e, u);
    var first := Updated(platform, disk, p, d, v);
    UpdateExact(platform, After(disk, first), q, e, u);
    var second := Updated(platform, After(disk, first), q, e, u);
    var row := NativeRow(platform, disk.leaves, q, e, u);
    if row.Ok? {
      assert row.value in second.value;
      if NothingNew(platform, disk, q, e, u) {
        OnlyRowOf(platform, disk.manifest.value, row.value);
        SortedRowsUnique(first.value, second.value);
      }
    }
  }

  lemma OnlyRowOf(platform: Platform, rows: seq<Row>, row: Row)
    requires ValidPayload(platform, rows) && row in rows
    ensures forall x :: x in rows && x.dimension == row.dimension ==> x == row
  {}

  /** The two orders leave the same disk exactly when both updates are accepted as the first one, or neither is, or the
      one that is refused has nothing new to publish. */
  lemma OrdersLeaveSameDisk(platform: Platform, disk: Disk, p: string, d: int, v: string, q: string, e: int, u: string)
    requires Hashes(platform) && d != e
    ensures var a := Accepts(platform, disk, p, d, v);
            var b := Accepts(platform, disk, q, e, u);
            AfterBoth(platform, disk, p, d, v, q, e, u) == AfterBoth(platform, disk, q, e, u, p, d, v)
            <==> a == b || (a && NothingNew(platform, disk, q, e, u)) || (b && NothingNew(platform, disk, p, d, v))
  {
    UpdateExact(platform, disk, p, d, v);
    UpdateExact(platform, disk, q, e, u);
    var a, b := Accepts(platform, disk, p, d, v), Accepts(platform, disk, q, e, u);
    if a && b {
      SecondUpdate(platform, disk, p, d, v, q, e, u);
      SecondUpdate(platform, disk, q, e, u, p, d, v);
      UpdateExact(platform, After(disk, Updated(platform, disk, p, d, v)), q, e, u);
      UpdateExact(platform, After(disk, Updated(platform, disk, q, e, u)), p, d, v);
      UpdatesCommute(platform, disk, p, d, v, q, e, u);
    } else if a {
      OneOrderOnly(platform, disk, p, d, v, q, e, u);
    } else if b {
      OneOrderOnly(platform, disk, q, e, u, p, d, v);
    }
  }

  // ---- An instance: dimension 2 recorded, then both dimensions built ----

  function Repeated(c: char): Digest {
    seq(64, _ => c)
  }

  /** Leaves hash by their first byte, and reveal their length as their dimension and version "1". */
  function PlainHash(b: Bytes): Digest {
    Repeated(if b != [] && b[0] % 2 == 1 then '1' else '0')
  }

  function PlainPlatform(): Platform {
    Platform(PlainHash, (b: Bytes) => LeafFacts(|b|, "1", "abi", false, false), _ => true,
             (b: Bytes) => (b, true), false, [".so"], false)
  }

  function PlainPath(d: int): string {
    DimensionName(d) + ".so"
  }

  function PlainRow(d: int, b: Bytes): Row {
    Row(d, PlainPath(d), PlainHash(b), "1", "abi", false, false)
  }

  /** Dimension 2 as it was recorded. */
  function RecordedDisk(): Disk {
    Disk(Some([PlainRow(2, [6, 6])]), map[PlainPath(2) := [6, 6]])
  }

  /** The same manifest after a build that added a leaf for dimension 1 and replaced that of dimension 2. */
  function RebuiltDisk(): Disk {
    RecordedDisk().(leaves := map[PlainPath(1) := [7], PlainPath(2) := [7, 7]])
  }

  lemma PlainRows(d: int, leaves: map<string, Bytes>)
    requires 1 <= d <= 2 && PlainPath(d) in leaves && |leaves[PlainPath(d)]| == d
    ensures ValidRow(PlainPlatform(), PlainRow(d, leaves[PlainPath(d)]))
    ensures NativeRow(PlainPlatform(), leaves, PlainPath(d), d, "1") == Ok(PlainRow(d, leaves[PlainPath(d)]))
  {
    assert ".so" in PlainPlatform().suffixes;
  }

  lemma PathsApart()
    ensures PlainPath(1) != PlainPath(2)
  {
    assert PlainPath(1)[3] == '1' && PlainPath(2)[3] == '2';
  }

  /** The manifest is what updating dimension 2 published for the leaf of that time. */
  lemma RecordedIsAuthentic()
    ensures Authenticated(PlainPlatform(), RecordedDisk())
    ensures NativeRow(PlainPlatform(), RecordedDisk().leaves, PlainPath(2), 2, "1") == Ok(RecordedDisk().manifest.value[0])
  {
    PlainRows(2, RecordedDisk().leaves);
    assert forall row :: row in RecordedDisk().manifest.value ==> row == RecordedDisk().manifest.value[0];
  }

  lemma RebuiltRows()
    ensures Hashes(PlainPlatform()) && Legible(PlainPlatform(), RebuiltDisk())
    ensures OthersFresh(PlainPlatform(), RebuiltDisk(), 2) && !OthersFresh(PlainPlatform(), RebuiltDisk(), 1)
    ensures PlainRow(1, [7]) !in RebuiltDisk().manifest.value
  {
    PathsApart();
    RecordedIsAuthentic();
    var rows := RebuiltDisk().manifest.value;
    assert forall row :: row in rows ==> row == rows[0];
    assert rows[0] in rows;
    assert PlainHash([7, 7])[0] == '1' && PlainHash([6, 6])[0] == '0';
  }

  /** Updating dimension 1 first is refused for the stale row of dimension 2, which an update of dimension 2 would have
      replaced; the other way round both succeed. The two orders leave different disks. */
  lemma UpdatesNeedNotCommute()
    ensures var platform, disk := PlainPlatform(), RebuiltDisk();
            var after := After(disk, Updated(platform, disk, PlainPath(2), 2, "1"));
            && Hashes(platform) && Authenticated(platform, RecordedDisk()) && disk.manifest == RecordedDisk().manifest
            && Updated(platform, disk, PlainPath(1), 1, "1").Err?
            && Updated(platform, disk, PlainPath(2), 2, "1").Ok? && Updated(platform, after, PlainPath(1), 1, "1").Ok?
            && AfterBoth(platform, disk, PlainPath(1), 1, "1", PlainPath(2), 2, "1")
               != AfterBoth(platform, disk, PlainPath(2), 2, "1", PlainPath(1), 1, "1")
  {
    var platform, disk := PlainPlatform(), RebuiltDisk();
    RecordedIsAuthentic();
    RebuiltRows();
    PathsApart();
    PlainRows(1, disk.leaves);
    PlainRows(2, disk.leaves);
    UpdateExact(platform, disk, PlainPath(1), 1, "1");
    SecondUpdate(platform, disk, PlainPath(2), 2, "1", PlainPath(1), 1, "1");
    UpdateExact(platform, After(disk, Updated(platform, disk, PlainPath(2), 2, "1")), PlainPath(1), 1, "1");
    OneOrderOnly(platform, disk, PlainPath(2), 2, "1", PlainPath(1), 1, "1");
  }
}
