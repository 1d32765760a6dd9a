/**
 * The embedded package table: one entry per generated package, giving the
 * package name, the implementation expression copied verbatim into the
 * generated files, and whether the implementation is a static function
 * (exported as is) or a prototype method (wrapped by `uncurryThis`).
 */
module Registry {
  import opened JsObject

  datatype Entry = Entry(name: string, implementation: string, isStatic: bool)

  const PackagesList: seq<Entry> := [
    Entry("array-includes", "Array.prototype.includes", false),
    Entry("array.prototype.findlastindex", "Array.prototype.findLastIndex", false),
    Entry("array.prototype.flat", "Array.prototype.flat", false),
    Entry("array.prototype.flatmap", "Array.prototype.flatMap", false),
    Entry("arraybuffer.prorotype.slice", "ArrayBuffer.prototype.slice", false),
    Entry("function.prototype.name", "Function.prototype.name", false),
    Entry("has", "Object.prototype.hasOwnProperty", false),
    Entry("object-keys", "Object.keys", true),
    Entry("object.assign", "Object.assign", true),
    Entry("object.entries", "Object.entries", true),
    Entry("object.fromentries", "Object.fromEntries", true),
    Entry("object.hasown", "Object.prototype.hasOwnProperty", false),
    Entry("object.values", "Object.values", true),
    Entry("string.prototype.trim", "String.prototype.trim", false),
    Entry("string.prototype.trimend", "String.prototype.trimEnd", false),
    Entry("string.prototype.trimstart", "String.prototype.trimStart", false)
  ]

  /** The names of a table, in table order. */
  function Names(table: seq<Entry>): (names: seq<string>)
    ensures |names| == |table| && forall i :: 0 <= i < |table| ==> names[i] == table[i].name
  {
    seq(|table|, i requires 0 <= i < |table| => table[i].name)
  }

  /**
   * Character-wise string order: the two agree up to some index `i` where `a`
   * either ends or has the smaller character. On names made of characters of
   * the Basic Multilingual Plane, such as the table's ASCII names, this is
   * JavaScript's `<` on strings.
   */
  ghost predicate Less(a: string, b: string)
  {
    exists i :: 0 <= i <= |a| && i < |b| && a[..i] == b[..i] && (i < |a| ==> a[i] < b[i])
  }

  lemma LessIrreflexive(a: string)
    ensures !Less(a, a)
  {
  }

  lemma LessTransitive(a: string, b: string, c: string)
    requires Less(a, b) && Less(b, c)
    ensures Less(a, c)
  {
    var i :| 0 <= i <= |a| && i < |b| && a[..i] == b[..i] && (i < |a| ==> a[i] < b[i]);
    var j :| 0 <= j <= |b| && j < |c| && b[..j] == c[..j] && (j < |b| ==> b[j] < c[j]);
    if i <= j {
      assert a[..i] == c[..i] by { assert b[..j][..i] == b[..i] && c[..j][..i] == c[..i]; }
      if i < |a| && i < j { assert b[i] == b[..j][i] == c[..j][i]; }
    } else {
      assert a[..j] == c[..j] by { assert a[..i][..j] == a[..j] && b[..i][..j] == b[..j]; }
      assert a[j] == a[..i][j] == b[..i][j] == b[j];
    }
  }

  /** `a` sorts before `b` when they agree up to index `i` and `a` is smaller there or ends there. */
  lemma LessAt(a: string, b: string, i: nat)
    requires i < |b| && i <= |a| && a[..i] == b[..i]
    requires i < |a| ==> a[i] < b[i]
    ensures Less(a, b)
  {
  }

  /** Each name sorts strictly after the one before it. */
  ghost predicate Ascending(names: seq<string>)
  {
    forall i :: 0 < i < |names| ==> Less(names[i - 1], names[i])
  }

  /** A strictly ascending list is ordered pairwise, so it has no duplicates. */
  lemma {:induction false} AscendingOrdered(names: seq<string>)
    requires Ascending(names)
    ensures forall i, j :: 0 <= i < j < |names| ==> Less(names[i], names[j])
    ensures Distinct(names)
  {
    forall i, j | 0 <= i < j < |names| ensures Less(names[i], names[j]) {
      var k := i + 1;
      while k < j
        invariant i < k <= j && Less(names[i], names[k])
      {
        LessTransitive(names[i], names[k], names[k + 1]);
        k := k + 1;
      }
    }
    forall i, j | 0 <= i < j < |names| ensures names[i] != names[j] {
      LessIrreflexive(names[i]);
    }
  }

  lemma AdjacentOrderedLow(k: nat)
    requires 1 <= k < 6
    ensures Less(PackagesList[k - 1].name, PackagesList[k].name)
  {
    if k == 1 {
      assert PackagesList[0].name == "array-includes" && PackagesList[1].name == "array.prototype.findlastindex";
      LessAt("array-includes", "array.prototype.findlastindex", 5);
    } else if k == 2 {
      assert PackagesList[1].name == "array.prototype.findlastindex" && PackagesList[2].name == "array.prototype.flat";
      LessAt("array.prototype.findlastindex", "array.prototype.flat", 17);
    } else if k == 3 {
      assert PackagesList[2].name == "array.prototype.flat" && PackagesList[3].name == "array.prototype.flatmap";
      LessAt("array.prototype.flat", "array.prototype.flatmap", 20);
    } else if k == 4 {
      assert PackagesList[3].name == "array.prototype.flatmap" && PackagesList[4].name == "arraybuffer.prorotype.slice";
      LessAt("array.prototype.flatmap", "arraybuffer.prorotype.slice", 5);
    } else if k == 5 {
      assert PackagesList[4].name == "arraybuffer.prorotype.slice" && PackagesList[5].name == "function.prototype.name";
      LessAt("arraybuffer.prorotype.slice", "function.prototype.name", 0);
    }
  }

  lemma AdjacentOrderedMiddle(k: nat)
    requires 6 <= k < 11
    ensures Less(PackagesList[k - 1].name, PackagesList[k].name)
  {
    if k == 6 {
      assert PackagesList[5].name == "function.prototype.name" && PackagesList[6].name == "has";
      LessAt("function.prototype.name", "has", 0);
    } else if k == 7 {
      assert PackagesList[6].name == "has" && PackagesList[7].name == "object-keys";
      LessAt("has", "object-keys", 0);
    } else if k == 8 {
      assert PackagesList[7].name == "object-keys" && PackagesList[8].name == "object.assign";
      LessAt("object-keys", "object.assign", 6);
    } else if k == 9 {
      assert PackagesList[8].name == "object.assign" && PackagesList[9].name == "object.entries";
      LessAt("object.assign", "object.entries", 7);
    } else if k == 10 {
      assert PackagesList[9].name == "object.entries" && PackagesList[10].name == "object.fromentries";
      LessAt("object.entries", "object.fromentries", 7);
    }
  }

  lemma AdjacentOrderedHigh(k: nat)
    requires 11 <= k < 16
    ensures Less(PackagesList[k - 1].name, PackagesList[k].name)
  {
    if k == 11 {
      assert PackagesList[10].name == "object.fromentries" && PackagesList[11].name == "object.hasown";
      LessAt("object.fromentries", "object.hasown", 7);
    } else if k == 12 {
      assert PackagesList[11].name == "object.hasown" && PackagesList[12].name == "object.values";
      LessAt("object.hasown", "object.values", 7);
    } else if k == 13 {
      assert PackagesList[12].name == "object.values" && PackagesList[13].name == "string.prototype.trim";
      LessAt("object.values", "string.prototype.trim", 0);
    } else if k == 14 {
      assert PackagesList[13].name == "string.prototype.trim" && PackagesList[14].name == "string.prototype.trimend";
      LessAt("string.prototype.trim", "string.prototype.trimend", 21);
    } else if k == 15 {
      assert PackagesList[14].name == "string.prototype.trimend" && PackagesList[15].name == "string.prototype.trimstart";
      LessAt("string.prototype.trimend", "string.prototype.trimstart", 21);
    }
  }

  /** The embedded table is sorted strictly ascending by name, hence duplicate-free. */
  lemma PackagesListAscending()
    ensures Ascending(Names(PackagesList))
    ensures Distinct(Names(PackagesList))
  {
    var n := Names(PackagesList);
    forall k | 0 < k < |n| ensures Less(n[k - 1], n[k]) {
      if k < 6 {
        AdjacentOrderedLow(k);
      } else if k < 11 {
        AdjacentOrderedMiddle(k);
      } else {
        AdjacentOrderedHigh(k);
      }
    }
    AscendingOrdered(n);
  }
}
