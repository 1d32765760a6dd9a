/**
 * One run of the generator: every table entry becomes a package directory
 * holding its six files, then the root manifest is rewritten with the
 * overrides. All writes go through `compareAndWriteFile`, so a second run on
 * the same table writes nothing.
 */
module Generator {
  import opened Wrappers
  import opened Json
  import opened JsObject
  import opened Registry
  import opened Render
  import opened RootManifest
  import opened Files

  const RootManifestPath := "package.json"

  /** `path.join('packages', packageName, file)`, relative to the repository root. */
  function PackageFilePath(packageName: string, file: string): string
  {
    "packages/" + packageName + "/" + file
  }

  /**
   * File names without a separator make package paths unambiguous: the file
   * is what follows the last `/`, the package what lies between it and `packages/`.
   */
  lemma PackageFilePathInjective(name1: string, file1: string, name2: string, file2: string)
    requires '/' !in file1 && '/' !in file2
    ensures PackageFilePath(name1, file1) == PackageFilePath(name2, file2) ==> name1 == name2 && file1 == file2
  {
    if PackageFilePath(name1, file1) == PackageFilePath(name2, file2) {
      PathParts(name1, file1, name2, file2);
    }
  }

  /** Equal package paths: a file without a separator cannot be the longer one. */
  lemma FileNotLonger(name1: string, file1: string, name2: string, file2: string)
    requires '/' !in file2
    requires PackageFilePath(name1, file1) == PackageFilePath(name2, file2)
    ensures |file2| <= |file1|
  {
    var p := PackageFilePath(name1, file1);
    var head1, head2 := "packages/" + name1 + "/", "packages/" + name2 + "/";
    assert p == head1 + file1 == head2 + file2;
    var separator := |head1| - 1;
    assert p[separator] == '/';
    assert forall j :: |head2| <= j < |p| ==> p[j] == file2[j - |head2|];
  }

  lemma PathParts(name1: string, file1: string, name2: string, file2: string)
    requires '/' !in file1 && '/' !in file2
    requires PackageFilePath(name1, file1) == PackageFilePath(name2, file2)
    ensures name1 == name2 && file1 == file2
  {
    FileNotLonger(name1, file1, name2, file2);
    FileNotLonger(name2, file2, name1, file1);
    var p := PackageFilePath(name1, file1);
    var head1, head2 := "packages/" + name1 + "/", "packages/" + name2 + "/";
    assert p == head1 + file1 == head2 + file2;
    assert file1 == p[|head1|..] == file2;
    assert head1[9..|head1| - 1] == name1;
    assert head2[9..|head2| - 1] == name2;
  }

  /** The root manifest is not a file of any package. */
  lemma RootPathNotPackageFile(packageName: string, file: string)
    ensures PackageFilePath(packageName, file) != RootManifestPath
  {
    assert PackageFilePath(packageName, file)[7] == 's';
    assert RootManifestPath[7] == '.';
  }

  /** The writes of `createPackage`: its six files, each under `packages/<name>/`. */
  function PackageBatch(packageName: string, impl: string, isStatic: bool, minimumNodeVersion: Option<string>, version: Option<Json>)
    : (b: Batch)
    ensures |b| == 6
    ensures forall i :: 0 <= i < 6 ==> b[i].0 == PackageFilePath(packageName, FileNames[i])
  {
    var files := PackageFiles(packageName, impl, isStatic, minimumNodeVersion, version);
    seq(6, i requires 0 <= i < 6 => (PackageFilePath(packageName, files[i].0), files[i].1))
  }

  /** The table's entries are generated with the default minimum Node.js version. */
  function EntryBatch(e: Entry, version: Option<Json>): Batch
  {
    PackageBatch(e.name, e.implementation, e.isStatic, None, version)
  }

  /** The writes of each entry of the table. */
  function EntryBatches(table: seq<Entry>, version: Option<Json>): (bs: seq<Batch>)
    ensures |bs| == |table| && forall i :: 0 <= i < |table| ==> bs[i] == EntryBatch(table[i], version)
  {
    seq(|table|, i requires 0 <= i < |table| => EntryBatch(table[i], version))
  }

  /** The writes for the whole table, entry after entry. */
  function TableBatch(table: seq<Entry>, version: Option<Json>): Batch
  {
    Flatten(EntryBatches(table, version))
  }

  /** The new root manifest's file content. */
  function RootText(current: seq<(string, Json)>, names: seq<string>): string
  {
    Serialize(JObject(NewRootManifest(current, names))) + "\n"
  }

  /** Every write of one run, given the root manifest read at start-up. */
  function RunBatch(table: seq<Entry>, current: seq<(string, Json)>): Batch
  {
    TableBatch(table, Lookup(current, "version")) + [(RootManifestPath, RootText(current, Names(table)))]
  }

  /** `require('./package.json')`: the root manifest's members, if it exists and is a JSON object. */
  function ReadRoot(files: map<string, string>): Option<seq<(string, Json)>>
  {
    if RootManifestPath !in files then None
    else
      match ParseFile(files[RootManifestPath])
      case Some(JObject(members)) => Some(members)
      case _ => None
  }

  /**
   * `createPackage`: the six files of one package are written, each holding
   * its rendered content; no other file changes.
   */
  method CreatePackage(fs: FileSystem, packageName: string, impl: string, isStatic: bool,
                       minimumNodeVersion: Option<string>, version: Option<Json>)
    modifies fs
    ensures var batch := PackageBatch(packageName, impl, isStatic, minimumNodeVersion, version);
      && fs.files == ApplyAll(old(fs.files), batch)
      && fs.writes == old(fs.writes) + WritesOf(old(fs.files), batch)
      && UpToDate(fs.files, batch)
  {
    var batch := PackageBatch(packageName, impl, isStatic, minimumNodeVersion, version);
    PackageBatchDistinct(packageName, impl, isStatic, minimumNodeVersion, version);
    ApplyAllUpToDate(fs.files, batch);
    fs.WriteAll(batch);
  }

  lemma PackageBatchDistinct(packageName: string, impl: string, isStatic: bool, minimumNodeVersion: Option<string>, version: Option<Json>)
    ensures DistinctKeys(PackageBatch(packageName, impl, isStatic, minimumNodeVersion, version))
  {
    FileNamesDistinct();
    var b := PackageBatch(packageName, impl, isStatic, minimumNodeVersion, version);
    forall i, j | 0 <= i < j < 6 ensures b[i].0 != b[j].0 {
      PackageFilePathInjective(packageName, FileNames[i], packageName, FileNames[j]);
    }
  }

  /** The root manifest with its overrides, written through `compareAndWriteFile`. */
  method WriteRootManifest(fs: FileSystem, current: seq<(string, Json)>, names: seq<string>)
    modifies fs
    ensures fs.files == ApplyAll(old(fs.files), [(RootManifestPath, RootText(current, names))])
    ensures fs.writes == old(fs.writes) + WritesOf(old(fs.files), [(RootManifestPath, RootText(current, names))])
  {
    var overrides := BuildOverrides(names);
    var root := Put(current, "pnpm", JObject([("overrides", JObject(overrides))]));
    fs.CompareAndWriteFile(RootManifestPath, Serialize(JObject(root)) + "\n");
    assert [(RootManifestPath, RootText(current, names))][..0] == [];
  }

  /**
   * The generator's top level: read the root manifest, create every package
   * of the table, then write the root manifest with its overrides. When the
   * root manifest cannot be read, nothing is written.
   *
   * `EntryBatch(e, version)` is by definition the batch that
   * `CreatePackage(fs, e.name, e.implementation, e.isStatic, None, version)`
   * writes. The entries' batches go through `WriteBatches` one after the
   * other, in table order, where the program runs its `createPackage` calls
   * concurrently.
   */
  method Generate(fs: FileSystem, table: seq<Entry>) returns (ok: bool)
    modifies fs
    ensures ok <==> ReadRoot(old(fs.files)).Some?
    ensures ok ==> var batch := RunBatch(table, ReadRoot(old(fs.files)).value);
      && fs.files == ApplyAll(old(fs.files), batch)
      && fs.writes == old(fs.writes) + WritesOf(old(fs.files), batch)
    ensures !ok ==> fs.files == old(fs.files) && fs.writes == old(fs.writes)
  {
    var current := ReadRoot(fs.files);
    if current.None? {
      return false;
    }
    var version := Lookup(current.value, "version");
    var rootWrite := [(RootManifestPath, RootText(current.value, Names(table)))];
    ApplyAllAppend(fs.files, TableBatch(table, version), rootWrite);
    fs.WriteBatches(EntryBatches(table, version));
    WriteRootManifest(fs, current.value, Names(table));
    ok := true;
  }

  /** Joined batches of six writes each: write `k` is write `k % 6` of batch `k / 6`. */
  lemma {:induction false} FlattenSixAt(bs: seq<Batch>, k: nat)
    requires forall i :: 0 <= i < |bs| ==> |bs[i]| == 6
    ensures |Flatten(bs)| == 6 * |bs|
    ensures k < 6 * |bs| ==> Flatten(bs)[k] == bs[k / 6][k % 6]
  {
    if bs != [] {
      var init := bs[..|bs| - 1];
      FlattenSixAt(init, k);
      if k < 6 * |init| {
        assert init[k / 6] == bs[k / 6];
      } else if k < 6 * |bs| {
        assert k / 6 == |init|;
        assert k % 6 == k - 6 * |init|;
      }
    }
  }

  /** The `k`-th write of the table is file `k % 6` of entry `k / 6`. */
  lemma TableBatchAt(table: seq<Entry>, version: Option<Json>, k: nat)
    ensures |TableBatch(table, version)| == 6 * |table|
    ensures k < 6 * |table| ==> TableBatch(table, version)[k] == EntryBatch(table[k / 6], version)[k % 6]
  {
    FlattenSixAt(EntryBatches(table, version), k);
  }

  /** A table without repeated names writes every path at most once in a run. */
  lemma RunBatchDistinct(table: seq<Entry>, current: seq<(string, Json)>)
    requires Distinct(Names(table))
    ensures DistinctKeys(RunBatch(table, current))
  {
    var version := Lookup(current, "version");
    var tb := TableBatch(table, version);
    var b := RunBatch(table, current);
    FileNamesDistinct();
    TableBatchAt(table, version, 0);
    forall i, j | 0 <= i < j < |b| ensures b[i].0 != b[j].0 {
      TableBatchAt(table, version, i);
      TableBatchAt(table, version, j);
      if j == |tb| {
        assert b[i] == tb[i];
        RootPathNotPackageFile(table[i / 6].name, FileNames[i % 6]);
      } else {
        assert b[i] == tb[i] && b[j] == tb[j];
        PackageFilePathInjective(table[i / 6].name, FileNames[i % 6], table[j / 6].name, FileNames[j % 6]);
        if i / 6 < j / 6 {
          assert Names(table)[i / 6] != Names(table)[j / 6];
        } else {
          assert i / 6 == j / 6 && i % 6 < j % 6;
          assert FileNames[i % 6] != FileNames[j % 6];
        }
      }
    }
  }

  /**
   * After one run, the root manifest reads back as the rebuilt manifest, which
   * leaves the version and the overrides as they were; so a second run on the
   * same table renders the same files and writes nothing.
   */
  lemma RerunWritesNothing(files: map<string, string>, table: seq<Entry>, current: seq<(string, Json)>)
    requires Distinct(Names(table))
    requires ReadRoot(files) == Some(current) && DistinctKeys(current)
    ensures var after := ApplyAll(files, RunBatch(table, current));
      && ReadRoot(after) == Some(NewRootManifest(current, Names(table)))
      && RunBatch(table, ReadRoot(after).value) == RunBatch(table, current)
      && WritesOf(after, RunBatch(table, ReadRoot(after).value)) == []
      && ApplyAll(after, RunBatch(table, ReadRoot(after).value)) == after
  {
    var names := Names(table);
    var b := RunBatch(table, current);
    var after := ApplyAll(files, b);
    var rebuilt := NewRootManifest(current, names);
    assert b[..|b| - 1] == TableBatch(table, Lookup(current, "version"));
    assert after[RootManifestPath] == RootText(current, names);
    ParseFileRoundTrip(JObject(rebuilt));
    assert ReadRoot(after) == Some(rebuilt);
    NewRootManifestFields(current, names, "version");
    NewRootManifestIdempotent(current, names);
    RunBatchDistinct(table, current);
    RepeatWritesNothing(files, b);
  }

  /** The embedded table: a second run over the files the first run left writes nothing. */
  lemma PackagesListRerunWritesNothing(files: map<string, string>)
    requires ReadRoot(files).Some? && DistinctKeys(ReadRoot(files).value)
    ensures var after := ApplyAll(files, RunBatch(PackagesList, ReadRoot(files).value));
      && ReadRoot(after).Some?
      && WritesOf(after, RunBatch(PackagesList, ReadRoot(after).value)) == []
  {
    PackagesListAscending();
    RerunWritesNothing(files, PackagesList, ReadRoot(files).value);
  }
}
