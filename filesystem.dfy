/**
 * The file system the generator writes into, as a map from path to content,
 * with the list of paths actually written, in order. `compareAndWriteFile`
 * only writes a file that is missing or holds other content, so a run over
 * files that are already up to date writes nothing.
 */
module Files {
  import opened JsObject

  /** A batch of writes: (path, content) pairs, carried out in order. */
  type Batch = seq<(string, string)>

  /** `compareAndWriteFile` writes exactly when the file is missing or its content differs. */
  predicate NeedsWrite(files: map<string, string>, path: string, content: string)
  {
    path !in files || files[path] != content
  }

  /** The file system after a batch of `compareAndWriteFile` calls. */
  function ApplyAll(files: map<string, string>, batch: Batch): map<string, string>
  {
    if batch == [] then files
    else
      var last := batch[|batch| - 1];
      ApplyAll(files, batch[..|batch| - 1])[last.0 := last.1]
  }

  /** The paths a batch of `compareAndWriteFile` calls actually writes, in order. */
  function WritesOf(files: map<string, string>, batch: Batch): seq<string>
  {
    if batch == [] then []
    else
      var init, last := batch[..|batch| - 1], batch[|batch| - 1];
      WritesOf(files, init) + (if NeedsWrite(ApplyAll(files, init), last.0, last.1) then [last.0] else [])
  }

  /** The file system object: current contents and the log of writes performed. */
  class FileSystem {
    var files: map<string, string>
    var writes: seq<string>

    constructor (initial: map<string, string>)
      ensures files == initial && writes == []
    {
      files := initial;
      writes := [];
    }

    /**
     * `compareAndWriteFile`: afterwards `path` holds `content` and no other
     * path changes; a write is performed only if the file was missing or its
     * content differed.
     */
    method CompareAndWriteFile(path: string, content: string)
      modifies this
      ensures files == old(files)[path := content]
      ensures writes == old(writes) + (if NeedsWrite(old(files), path, content) then [path] else [])
    {
      if path in files {
        var existing := files[path];
        if existing != content {
          files := files[path := content];
          writes := writes + [path];
        } else {
          assert files == files[path := content];
        }
      } else {
        files := files[path := content];
        writes := writes + [path];
      }
    }

    /** The writes of one package (or of the root manifest), one after the other. */
    method WriteAll(batch: Batch)
      modifies this
      ensures files == ApplyAll(old(files), batch)
      ensures writes == old(writes) + WritesOf(old(files), batch)
    {
      for i := 0 to |batch|
        invariant files == ApplyAll(old(files), batch[..i])
        invariant writes == old(writes) + WritesOf(old(files), batch[..i])
      {
        assert batch[..i + 1][..i] == batch[..i];
        CompareAndWriteFile(batch[i].0, batch[i].1);
      }
      assert batch[..|batch|] == batch;
    }

    /** Several batches, one after the other: the packages of a table, each with its own files. */
    method WriteBatches(batches: seq<Batch>)
      modifies this
      ensures files == ApplyAll(old(files), Flatten(batches))
      ensures writes == old(writes) + WritesOf(old(files), Flatten(batches))
    {
      for i := 0 to |batches|
        invariant files == ApplyAll(old(files), Flatten(batches[..i]))
        invariant writes == old(writes) + WritesOf(old(files), Flatten(batches[..i]))
      {
        ghost var before := files;
        FlattenStep(batches, i);
        ApplyAllAppend(old(files), Flatten(batches[..i]), batches[i]);
        WriteAll(batches[i]);
        AppendAssoc(old(writes), WritesOf(old(files), Flatten(batches[..i])), WritesOf(before, batches[i]));
      }
      assert batches[..|batches|] == batches;
    }
  }

  /** Several batches, one after the other. */
  function Flatten(batches: seq<Batch>): Batch
  {
    if batches == [] then [] else Flatten(batches[..|batches| - 1]) + batches[|batches| - 1]
  }

  lemma AppendAssoc(a: seq<string>, b: seq<string>, c: seq<string>)
    ensures a + b + c == a + (b + c)
  {
  }

  lemma FlattenStep(batches: seq<Batch>, i: nat)
    requires i < |batches|
    ensures Flatten(batches[..i + 1]) == Flatten(batches[..i]) + batches[i]
  {
    assert batches[..i + 1][..i] == batches[..i];
  }

  /** Every file of the batch already holds the batch's content for it. */
  predicate UpToDate(files: map<string, string>, batch: Batch)
  {
    forall i :: 0 <= i < |batch| ==> batch[i].0 in files && files[batch[i].0] == batch[i].1
  }

  /** Two batches in a row act as their concatenation. */
  lemma {:induction false} ApplyAllAppend(files: map<string, string>, a: Batch, b: Batch)
    ensures ApplyAll(files, a + b) == ApplyAll(ApplyAll(files, a), b)
    ensures WritesOf(files, a + b) == WritesOf(files, a) + WritesOf(ApplyAll(files, a), b)
    decreases |b|
  {
    if b == [] {
      assert a + b == a;
    } else {
      var init, last := b[..|b| - 1], b[|b| - 1];
      assert (a + b)[..|a + b| - 1] == a + init;
      assert (a + b)[|a + b| - 1] == last;
      ApplyAllAppend(files, a, init);
    }
  }

  /** A batch changes only its own paths; every path it writes ends with the last content written there. */
  lemma {:induction false} ApplyAllAt(files: map<string, string>, batch: Batch, path: string)
    ensures path !in Keys(batch) ==> (path in ApplyAll(files, batch) <==> path in files)
    ensures path !in Keys(batch) && path in files ==> ApplyAll(files, batch)[path] == files[path]
    ensures path in Keys(batch) ==> path in ApplyAll(files, batch)
  {
    if batch != [] {
      var init := batch[..|batch| - 1];
      assert Keys(batch) == Keys(init) + [batch[|batch| - 1].0];
      ApplyAllAt(files, init, path);
    }
  }

  /** A batch that writes no path twice leaves every one of its files up to date. */
  lemma {:induction false} ApplyAllUpToDate(files: map<string, string>, batch: Batch)
    requires DistinctKeys(batch)
    ensures UpToDate(ApplyAll(files, batch), batch)
  {
    if batch != [] {
      var init, last := batch[..|batch| - 1], batch[|batch| - 1];
      ApplyAllUpToDate(files, init);
      forall i | 0 <= i < |batch|
        ensures batch[i].0 in ApplyAll(files, batch) && ApplyAll(files, batch)[batch[i].0] == batch[i].1
      {
        if i < |init| {
          assert init[i] == batch[i];
        }
      }
    }
  }

  /** A batch over files that are already up to date writes nothing and changes nothing. */
  lemma {:induction false} UpToDateWritesNothing(files: map<string, string>, batch: Batch)
    requires UpToDate(files, batch)
    ensures WritesOf(files, batch) == []
    ensures ApplyAll(files, batch) == files
  {
    if batch != [] {
      var init, last := batch[..|batch| - 1], batch[|batch| - 1];
      assert UpToDate(files, init) by {
        forall i | 0 <= i < |init| ensures init[i].0 in files && files[init[i].0] == init[i].1 {
          assert init[i] == batch[i];
        }
      }
      UpToDateWritesNothing(files, init);
      assert files[last.0 := last.1] == files;
    }
  }

  /** Running the same batch a second time performs no write and changes nothing. */
  lemma RepeatWritesNothing(files: map<string, string>, batch: Batch)
    requires DistinctKeys(batch)
    ensures WritesOf(ApplyAll(files, batch), batch) == []
    ensures ApplyAll(ApplyAll(files, batch), batch) == ApplyAll(files, batch)
  {
    ApplyAllUpToDate(files, batch);
    UpToDateWritesNothing(ApplyAll(files, batch), batch);
  }

  /** A single write repeated: the second `compareAndWriteFile` performs no write. */
  lemma WriteTwice(files: map<string, string>, path: string, content: string)
    ensures WritesOf(files, [(path, content)] + [(path, content)]) == if NeedsWrite(files, path, content) then [path] else []
    ensures ApplyAll(files, [(path, content)] + [(path, content)]) == files[path := content]
  {
    var one := [(path, content)];
    assert one[..0] == [];
    assert ApplyAll(files, one) == files[path := content];
    assert WritesOf(files, one) == if NeedsWrite(files, path, content) then [path] else [];
    assert (one + one)[..1] == one;
    assert !NeedsWrite(ApplyAll(files, one), path, content);
  }
}
