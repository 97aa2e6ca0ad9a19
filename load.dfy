/** The data-lake layout and upload keys of the ETL pipeline (`pipeline/load.py`): hourly
    partitions of the transactions, the fixed places of the two dimension tables, and the object
    key each local file is uploaded under. Writing files and calling S3 are not modelled; the
    methods return what they would write or upload. */
module Load {
  import opened Wrappers
  import opened Seqs
  import opened Text
  import opened Calendar
  import opened Cells

  /** A path as its segments, as `pathlib` joins them with `/`. */
  type Path = seq<string>

  /** A transaction on its way to the lake: its timestamp column and its other columns. */
  datatype Record = Record(at: Cell, rest: seq<Cell>)

  /** A Parquet file the pipeline writes: where, and which rows. */
  datatype Written = Written(path: Path, rows: seq<Record>)

  // ---------------------------------------------------------------- Partition keys

  /** The four partition columns of a timestamp: the year in decimal, month, day and hour
      zero-padded to two digits. */
  datatype Partition = Partition(year: string, month: string, day: string, hour: string)

  function PartitionOf(t: DateTime): Partition {
    Partition(NatToString(t.date.year), ZeroPad(t.date.month, 2), ZeroPad(t.date.day, 2), ZeroPad(t.hour, 2))
  }

  /** The Hive-style directories of a partition, below the partition root. */
  function PartitionDirs(p: Partition): (r: Path)
    ensures |r| == 4
  {
    ["year=" + p.year, "month=" + p.month, "day=" + p.day, "hour=" + p.hour]
  }

  /** The year is written in plain decimal, and month, day and hour as exactly two digits whose
      value is the field. */
  lemma PartitionOfSpec(t: DateTime)
    requires ValidDateTime(t)
    ensures IsDigits(PartitionOf(t).year) && DigitsValue(PartitionOf(t).year) == t.date.year
    ensures PartitionOf(t).year[0] != '0'
    ensures |PartitionOf(t).month| == 2 && IsDigits(PartitionOf(t).month) && DigitsValue(PartitionOf(t).month) == t.date.month
    ensures |PartitionOf(t).day| == 2 && IsDigits(PartitionOf(t).day) && DigitsValue(PartitionOf(t).day) == t.date.day
    ensures |PartitionOf(t).hour| == 2 && IsDigits(PartitionOf(t).hour) && DigitsValue(PartitionOf(t).hour) == t.hour
  {
    NatToStringSpec(t.date.year);
    ZeroPadSpec(t.date.month, 2);
    ZeroPadSpec(t.date.day, 2);
    ZeroPadSpec(t.hour, 2);
  }

  /** Two timestamps share a partition exactly when they fall in the same hour of the same day. */
  lemma PartitionOfSameHour(a: DateTime, b: DateTime)
    requires ValidDateTime(a) && ValidDateTime(b)
    ensures PartitionOf(a) == PartitionOf(b) <==> a.date == b.date && a.hour == b.hour
  {
    PartitionOfSpec(a);
    PartitionOfSpec(b);
  }

  /** Different partitions live in different directories. */
  lemma PartitionDirsInjective(p: Partition, q: Partition)
    requires PartitionDirs(p) == PartitionDirs(q)
    ensures p == q
  {
    assert PartitionDirs(p)[0] == PartitionDirs(q)[0] && PartitionDirs(p)[1] == PartitionDirs(q)[1];
    assert PartitionDirs(p)[2] == PartitionDirs(q)[2] && PartitionDirs(p)[3] == PartitionDirs(q)[3];
    assert p.year == PartitionDirs(p)[0][5..] && q.year == PartitionDirs(q)[0][5..];
    assert p.month == PartitionDirs(p)[1][6..] && q.month == PartitionDirs(q)[1][6..];
    assert p.day == PartitionDirs(p)[2][4..] && q.day == PartitionDirs(q)[2][4..];
    assert p.hour == PartitionDirs(p)[3][5..] && q.hour == PartitionDirs(q)[3][5..];
  }

  /** 2024-03-05 14:30 goes to `year=2024/month=03/day=05/hour=14`. */
  lemma PartitionExample()
    ensures PartitionDirs(PartitionOf(DateTime(Date(2024, 3, 5), 14, 30, 0)))
      == ["year=2024", "month=03", "day=05", "hour=14"]
  {
    assert NatToString(2) == "2";
    assert NatToString(20) == "20";
    assert NatToString(202) == "202";
    assert NatToString(2024) == "2024";
    assert NatToString(14) == "14";
    assert ZeroPad(3, 2) == "03" by { assert Zeros(1) == "0"; }
    assert ZeroPad(5, 2) == "05" by { assert Zeros(1) == "0"; }
    assert "year=" + "2024" == "year=2024";
    assert "month=" + "03" == "month=03";
    assert "day=" + "05" == "day=05";
    assert "hour=" + "14" == "hour=14";
  }

  // ---------------------------------------------------------------- Hourly partitions

  /** `pd.to_datetime(df[timestamp_col], errors="coerce")` on one row. */
  function Stamped(r: Record): Record {
    r.(at := ToDateTime(r.at))
  }

  predicate Timestamped(r: Record) {
    r.at.Stamp?
  }

  /** The rows that are partitioned: timestamps parsed, rows without one dropped. */
  function Ready(transactions: seq<Record>): seq<Record> {
    Filter(Map(transactions, Stamped), Timestamped)
  }

  /** The group key of a row (`year`, `month`, `day`, `hour`); only timestamped rows are grouped. */
  function RecordPartition(r: Record): Partition {
    match r.at
    case Stamp(t) => PartitionOf(t)
    case _ => Partition("", "", "", "")
  }

  /** The file written for the group with key `p`. The helper columns the source adds for
      grouping are dropped again before writing, so a chunk holds the rows as they were. */
  function ChunkFile(root: Path, filename: string, ready: seq<Record>, p: Partition): Written {
    Written(root + PartitionDirs(p) + [filename], Filter(ready, KeyIs(RecordPartition, p)))
  }

  function ChunkFileFn(root: Path, filename: string, ready: seq<Record>): Partition -> Written {
    p => ChunkFile(root, filename, ready, p)
  }

  /** What `write_time_partitioned_transactions` writes: one file per partition, in order of
      first appearance (`groupby(..., sort=False)`). */
  function PartitionedFiles(transactions: seq<Record>, root: Path, filename: string): seq<Written> {
    var ready := Ready(transactions);
    Map(KeysInOrder(ready, RecordPartition), ChunkFileFn(root, filename, ready))
  }

  /** `write_time_partitioned_transactions`: parses the timestamps, drops rows without one, and
      writes each hourly group under its partition directory. */
  method WriteTimePartitioned(transactions: seq<Record>, root: Path, filename: string)
    returns (files: seq<Written>)
    ensures files == PartitionedFiles(transactions, root, filename)
  {
    var df := Map(transactions, Stamped);
    df := Filter(df, Timestamped);
    var keys := KeysInOrder(df, RecordPartition);
    files := [];
    for i := 0 to |keys|
      invariant |files| == i
      invariant forall j :: 0 <= j < i ==> files[j] == ChunkFile(root, filename, df, keys[j])
    {
      var chunk := Filter(df, KeyIs(RecordPartition, keys[i]));
      files := files + [Written(root + PartitionDirs(keys[i]) + [filename], chunk)];
    }
  }

  /** Number of rows over all files. */
  function RowsWritten(files: seq<Written>): nat {
    if files == [] then 0 else |files[0].rows| + RowsWritten(files[1..])
  }

  lemma {:induction false} RowsWrittenCount(ready: seq<Record>, root: Path, filename: string, ks: seq<Partition>)
    ensures RowsWritten(Map(ks, ChunkFileFn(root, filename, ready))) == CountOverKeys(ready, RecordPartition, ks)
  {
    if ks != [] {
      assert Map(ks, ChunkFileFn(root, filename, ready))[1..] == Map(ks[1..], ChunkFileFn(root, filename, ready));
      RowsWrittenCount(ready, root, filename, ks[1..]);
    }
  }

  /** A row ready for partitioning has a timestamp and is an input row with `at` parsed. */
  lemma ReadyRow(transactions: seq<Record>, r: Record)
    requires r in Ready(transactions)
    ensures r.at.Stamp?
    ensures exists x :: x in transactions && r == x.(at := ToDateTime(x.at))
  {
    var m := Map(transactions, Stamped);
    var k :| 0 <= k < |m| && m[k] == r;
    assert transactions[k] in transactions;
  }

  /** Every row of a written file has a timestamp, comes from an input row with its other
      columns unchanged, and lies in the directory of its own hour. */
  lemma PartitionedRowsPlaced(transactions: seq<Record>, root: Path, filename: string)
    ensures var files := PartitionedFiles(transactions, root, filename);
      forall i, r :: 0 <= i < |files| && r in files[i].rows ==>
        && r.at.Stamp?
        && files[i].path == root + PartitionDirs(PartitionOf(r.at.t)) + [filename]
        && exists x :: x in transactions && r == x.(at := ToDateTime(x.at))
  {
    var ready := Ready(transactions);
    var ks := KeysInOrder(ready, RecordPartition);
    var files := PartitionedFiles(transactions, root, filename);
    forall i, r | 0 <= i < |files| && r in files[i].rows
      ensures r.at.Stamp?
      ensures files[i].path == root + PartitionDirs(PartitionOf(r.at.t)) + [filename]
      ensures exists x :: x in transactions && r == x.(at := ToDateTime(x.at))
    {
      assert files[i] == ChunkFile(root, filename, ready, ks[i]);
      assert r in ready && RecordPartition(r) == ks[i];
      ReadyRow(transactions, r);
    }
  }

  /** No two written files share a path. */
  lemma PartitionedPathsDistinct(transactions: seq<Record>, root: Path, filename: string)
    ensures var files := PartitionedFiles(transactions, root, filename);
      forall i, j :: 0 <= i < j < |files| ==> files[i].path != files[j].path
  {
    var ready := Ready(transactions);
    var ks := KeysInOrder(ready, RecordPartition);
    var files := PartitionedFiles(transactions, root, filename);
    KeysInOrderSpec(ready, RecordPartition);
    forall i, j | 0 <= i < j < |files| ensures files[i].path != files[j].path {
      var di := PartitionDirs(ks[i]);
      var dj := PartitionDirs(ks[j]);
      assert files[i].path[|root|..|root| + 4] == di;
      assert files[j].path[|root|..|root| + 4] == dj;
      if di == dj {
        PartitionDirsInjective(ks[i], ks[j]);
      }
    }
  }

  /** Every timestamped row is written, and the files hold exactly as many rows as have a
      timestamp, so no row is written twice. */
  lemma PartitionedRowsCovered(transactions: seq<Record>, root: Path, filename: string)
    ensures var files := PartitionedFiles(transactions, root, filename);
      && (forall r :: r in Ready(transactions) ==> exists i :: 0 <= i < |files| && r in files[i].rows)
      && RowsWritten(files) == |Ready(transactions)|
  {
    var ready := Ready(transactions);
    var ks := KeysInOrder(ready, RecordPartition);
    var files := PartitionedFiles(transactions, root, filename);
    forall r | r in ready ensures exists i :: 0 <= i < |files| && r in files[i].rows {
      var i := ReadyRowWritten(transactions, root, filename, r);
    }
    PartitionedRowCount(transactions, root, filename);
  }

  lemma PartitionedRowCount(transactions: seq<Record>, root: Path, filename: string)
    ensures RowsWritten(PartitionedFiles(transactions, root, filename)) == |Ready(transactions)|
  {
    var ready := Ready(transactions);
    var ks := KeysInOrder(ready, RecordPartition);
    KeysInOrderSpec(ready, RecordPartition);
    RowsWrittenCount(ready, root, filename, ks);
    CountOverKeysTotal(ready, RecordPartition, ks);
  }

  /** The file of a ready row's own hour holds that row. */
  lemma ReadyRowWritten(transactions: seq<Record>, root: Path, filename: string, r: Record) returns (i: nat)
    requires r in Ready(transactions)
    ensures i < |PartitionedFiles(transactions, root, filename)|
    ensures r in PartitionedFiles(transactions, root, filename)[i].rows
  {
    var ready := Ready(transactions);
    var ks := KeysInOrder(ready, RecordPartition);
    KeysInOrderSpec(ready, RecordPartition);
    i :| 0 <= i < |ks| && ks[i] == RecordPartition(r);
    FilterKeeps(ready, KeyIs(RecordPartition, ks[i]), r);
    assert PartitionedFiles(transactions, root, filename)[i] == ChunkFile(root, filename, ready, ks[i]);
  }

  // ---------------------------------------------------------------- Lake layout

  /** `write_data_lake_structure`: the truck table, the payment-method table, then the
      partitioned transactions, all below `base`, which is returned. Only the paths are
      modelled for the two tables. */
  method WriteDataLakeStructure(base: Path, transactions: seq<Record>) returns (paths: seq<Path>, root: Path)
    ensures root == base
    ensures paths == LakePaths(base, transactions)
  {
    var truckPath := base + ["truck", "truck.parquet"];
    var paymentMethodPath := base + ["payment_method", "payment_method.parquet"];
    var files := WriteTimePartitioned(transactions, base + ["transaction"], "transaction.parquet");
    paths := [truckPath, paymentMethodPath] + Map(files, PathOf);
    root := base;
  }

  function PathOf(w: Written): Path {
    w.path
  }

  /** Every file the lake layout writes under `base`. */
  function LakePaths(base: Path, transactions: seq<Record>): seq<Path> {
    [base + ["truck", "truck.parquet"], base + ["payment_method", "payment_method.parquet"]]
      + Map(PartitionedFiles(transactions, base + ["transaction"], "transaction.parquet"), PathOf)
  }

  /** The layout is fixed: the two tables at their places, every transaction file at
      `transaction/year=…/month=…/day=…/hour=…/transaction.parquet`, all below `base` and no two
      at the same path. */
  lemma LakeLayout(base: Path, transactions: seq<Record>)
    ensures var paths := LakePaths(base, transactions);
      && |paths| >= 2
      && paths[0] == base + ["truck", "truck.parquet"]
      && paths[1] == base + ["payment_method", "payment_method.parquet"]
      && (forall i :: 2 <= i < |paths| ==>
            exists p: Partition :: paths[i] == base + ["transaction"] + PartitionDirs(p) + ["transaction.parquet"])
      && (forall i, j :: 0 <= i < j < |paths| ==> paths[i] != paths[j])
  {
    var paths := LakePaths(base, transactions);
    forall i | 2 <= i < |paths|
      ensures exists p: Partition :: paths[i] == base + ["transaction"] + PartitionDirs(p) + ["transaction.parquet"]
    {
      var p := TransactionPathAt(base, transactions, i);
    }
    forall i, j | 0 <= i < j < |paths| ensures paths[i] != paths[j] {
      LakePathsDiffer(base, transactions, i, j);
    }
  }

  lemma LakePathsDiffer(base: Path, transactions: seq<Record>, i: nat, j: nat)
    requires i < j < |LakePaths(base, transactions)|
    ensures LakePaths(base, transactions)[i] != LakePaths(base, transactions)[j]
  {
    if j < 2 {
      LakeTablesDiffer(base, transactions);
    } else if i < 2 {
      var pj := TransactionPathAt(base, transactions, j);
      LakeTableDir(base, transactions, i);
    } else {
      LakeTransactionsDiffer(base, transactions, i, j);
    }
  }

  lemma LakeTablesDiffer(base: Path, transactions: seq<Record>)
    ensures LakePaths(base, transactions)[0] != LakePaths(base, transactions)[1]
  {
    var paths := LakePaths(base, transactions);
    assert paths[0][|base|] == "truck" && paths[1][|base|] == "payment_method";
  }

  lemma LakeTableDir(base: Path, transactions: seq<Record>, i: nat)
    requires i < 2
    ensures var path := LakePaths(base, transactions)[i];
      |path| > |base| && path[|base|] != "transaction"
  {
    var paths := LakePaths(base, transactions);
    assert paths[i][|base|] == (if i == 0 then "truck" else "payment_method");
  }

  lemma LakeTransactionsDiffer(base: Path, transactions: seq<Record>, i: nat, j: nat)
    requires 2 <= i < j < |LakePaths(base, transactions)|
    ensures LakePaths(base, transactions)[i] != LakePaths(base, transactions)[j]
  {
    LakePathIsFile(base, transactions, i);
    LakePathIsFile(base, transactions, j);
    PartitionedPathsDistinct(transactions, base + ["transaction"], "transaction.parquet");
  }

  lemma LakePathIsFile(base: Path, transactions: seq<Record>, i: nat)
    requires 2 <= i < |LakePaths(base, transactions)|
    ensures var files := PartitionedFiles(transactions, base + ["transaction"], "transaction.parquet");
      i - 2 < |files| && LakePaths(base, transactions)[i] == files[i - 2].path
  {
  }

  /** Past the two table files, the lake's paths are the transaction partition files. */
  lemma TransactionPathAt(base: Path, transactions: seq<Record>, i: nat) returns (p: Partition)
    requires 2 <= i < |LakePaths(base, transactions)|
    ensures var path := LakePaths(base, transactions)[i];
      && path == base + ["transaction"] + PartitionDirs(p) + ["transaction.parquet"]
      && |path| > |base| && path[|base|] == "transaction"
  {
    var root := base + ["transaction"];
    var files := PartitionedFiles(transactions, root, "transaction.parquet");
    var ks := KeysInOrder(Ready(transactions), RecordPartition);
    p := ks[i - 2];
    var path := LakePaths(base, transactions)[i];
    assert path == files[i - 2].path == root + PartitionDirs(p) + ["transaction.parquet"];
    assert path[|base|] == root[|base|];
  }

  // ---------------------------------------------------------------- Upload

  /** An entry `rglob("*")` yields: its path relative to the local directory, and whether it is
      a regular file. The directory walk itself is not modelled. */
  datatype Entry = Entry(relative: Path, isFile: bool)

  /** An `upload_file` call: the bucket and the object key. */
  datatype Upload = Upload(bucket: string, key: string)

  predicate IsFileEntry(e: Entry) {
    e.isFile
  }

  /** `f"{prefix}/{relative.as_posix()}"`. */
  function ObjectKey(prefix: string, relative: Path): string {
    prefix + "/" + Join(relative, '/')
  }

  function UploadOf(bucket: string, prefix: string, e: Entry): Upload {
    Upload(bucket, ObjectKey(prefix, e.relative))
  }

  function UploadFn(bucket: string, prefix: string): Entry -> Upload {
    e => UploadOf(bucket, prefix, e)
  }

  /** `upload_directory_to_s3`: one upload per regular file, in walk order. */
  method UploadDirectory(entries: seq<Entry>, bucket: string, prefix: string) returns (uploads: seq<Upload>)
    ensures uploads == Map(Filter(entries, IsFileEntry), UploadFn(bucket, prefix))
  {
    uploads := [];
    for i := 0 to |entries|
      invariant uploads == Map(Filter(entries[..i], IsFileEntry), UploadFn(bucket, prefix))
    {
      var e := entries[i];
      UploadStep(entries, i, bucket, prefix);
      if e.isFile {
        uploads := uploads + [Upload(bucket, ObjectKey(prefix, e.relative))];
      }
    }
    assert entries[..|entries|] == entries;
  }

  lemma UploadStep(entries: seq<Entry>, i: nat, bucket: string, prefix: string)
    requires i < |entries|
    ensures Map(Filter(entries[..i + 1], IsFileEntry), UploadFn(bucket, prefix))
      == Map(Filter(entries[..i], IsFileEntry), UploadFn(bucket, prefix))
         + (if entries[i].isFile then [Upload(bucket, ObjectKey(prefix, entries[i].relative))] else [])
  {
    var e := entries[i];
    FilterAppend(entries[..i], [e], IsFileEntry);
    assert entries[..i + 1] == entries[..i] + [e];
    MapAppend(Filter(entries[..i], IsFileEntry), Filter([e], IsFileEntry), UploadFn(bucket, prefix));
  }

  /** A relative path whose segments are non-empty and free of `/`, as `pathlib` produces. */
  predicate PlainPath(p: Path) {
    p != [] && forall k :: 0 <= k < |p| ==> p[k] != [] && '/' !in p[k]
  }

  /** The key is the prefix, a `/`, and the relative path, which splits back into its segments. */
  lemma ObjectKeyRoundTrip(prefix: string, relative: Path)
    requires PlainPath(relative)
    ensures ObjectKey(prefix, relative)[..|prefix|] == prefix
    ensures ObjectKey(prefix, relative)[|prefix|] == '/'
    ensures Split(ObjectKey(prefix, relative)[|prefix| + 1..], '/') == relative
  {
    assert ObjectKey(prefix, relative)[|prefix| + 1..] == Join(relative, '/');
    SplitJoin(relative, '/');
  }

  /** Every regular file is uploaded once, nothing else is, and different files get different
      keys under the bucket given. */
  lemma UploadsSpec(entries: seq<Entry>, bucket: string, prefix: string)
    requires forall e :: e in entries ==> PlainPath(e.relative)
    ensures var uploads := Map(Filter(entries, IsFileEntry), UploadFn(bucket, prefix));
      && (forall u :: u in uploads ==> u.bucket == bucket)
      && (forall e :: e in entries && e.isFile ==> Upload(bucket, ObjectKey(prefix, e.relative)) in uploads)
      && (forall u :: u in uploads ==> exists e :: e in entries && e.isFile && u.key == ObjectKey(prefix, e.relative))
      && (Distinct(Map(Filter(entries, IsFileEntry), RelativeOf)) ==> Distinct(Map(uploads, KeyOf)))
  {
    var files := Filter(entries, IsFileEntry);
    var uploads := Map(files, UploadFn(bucket, prefix));
    forall e | e in entries && e.isFile ensures Upload(bucket, ObjectKey(prefix, e.relative)) in uploads {
      FileUploaded(entries, bucket, prefix, e);
    }
    forall u | u in uploads
      ensures u.bucket == bucket
      ensures exists e :: e in entries && e.isFile && u.key == ObjectKey(prefix, e.relative)
    {
      UploadFromFile(entries, bucket, prefix, u);
    }
    if Distinct(Map(files, RelativeOf)) {
      UploadKeysDistinct(entries, bucket, prefix);
    }
  }

  lemma FileUploaded(entries: seq<Entry>, bucket: string, prefix: string, e: Entry)
    requires e in entries && e.isFile
    ensures Upload(bucket, ObjectKey(prefix, e.relative)) in Map(Filter(entries, IsFileEntry), UploadFn(bucket, prefix))
  {
    var files := Filter(entries, IsFileEntry);
    FilterKeeps(entries, IsFileEntry, e);
    var i :| 0 <= i < |files| && files[i] == e;
    assert Map(files, UploadFn(bucket, prefix))[i] == Upload(bucket, ObjectKey(prefix, e.relative));
  }

  lemma UploadFromFile(entries: seq<Entry>, bucket: string, prefix: string, u: Upload)
    requires u in Map(Filter(entries, IsFileEntry), UploadFn(bucket, prefix))
    ensures u.bucket == bucket
    ensures exists e :: e in entries && e.isFile && u.key == ObjectKey(prefix, e.relative)
  {
    var files := Filter(entries, IsFileEntry);
    var uploads := Map(files, UploadFn(bucket, prefix));
    var i :| 0 <= i < |uploads| && uploads[i] == u;
    assert files[i] in files;
  }

  /** Files at different relative paths get different object keys. */
  lemma UploadKeysDistinct(entries: seq<Entry>, bucket: string, prefix: string)
    requires forall e :: e in entries ==> PlainPath(e.relative)
    requires Distinct(Map(Filter(entries, IsFileEntry), RelativeOf))
    ensures Distinct(Map(Map(Filter(entries, IsFileEntry), UploadFn(bucket, prefix)), KeyOf))
  {
    var files := Filter(entries, IsFileEntry);
    var uploads := Map(files, UploadFn(bucket, prefix));
    forall i, j | 0 <= i < j < |uploads| ensures Map(uploads, KeyOf)[i] != Map(uploads, KeyOf)[j] {
      assert files[i] in files && files[j] in files;
      assert Map(files, RelativeOf)[i] != Map(files, RelativeOf)[j];
      if uploads[i].key == uploads[j].key {
        ObjectKeyRoundTrip(prefix, files[i].relative);
        ObjectKeyRoundTrip(prefix, files[j].relative);
        assert false;
      }
    }
  }

  function RelativeOf(e: Entry): Path {
    e.relative
  }

  function KeyOf(u: Upload): string {
    u.key
  }
}
