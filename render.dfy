/**
 * The per-package templates of the generator: five script files built by
 * string concatenation around the implementation expression, and the
 * package manifest, built as a record and serialized as JSON.
 */
module Render {
  import opened Wrappers
  import opened Json
  import opened JsObject

  const UseStrict := "'use strict';\n"

  /** `implementation.js`: the expression itself is the module's export. */
  function ImplementationJs(impl: string): string
  {
    UseStrict + "module.exports = " + impl + ";\n"
  }

  /** `polyfill.js`: a factory returning the expression. */
  function PolyfillJs(impl: string): string
  {
    UseStrict + "module.exports = () => " + impl + ";\n"
  }

  /** `shim.js`: written from its own template, with the same text as `polyfill.js`. */
  function ShimJs(impl: string): string
  {
    UseStrict + "module.exports = () => " + impl + ";\n"
  }

  /** `auto.js`: a side-effect-free module, whatever the package. */
  const AutoJs := UseStrict + "/* noop */\n"

  /** The lines of `index.js`, in template order. */
  const RequireUncurryThis := "const { uncurryThis } = " + RequireShared + ";\n"

  function DeclareImpl(impl: string): string
  {
    "const impl = " + impl + ";\n"
  }

  const ExportImpl := "module.exports = impl;\n"
  const ExportUncurried := "module.exports = uncurryThis(impl);\n"

  /** The lines every `index.js` ends with. */
  const IndexTrailer :=
    "module.exports.implementation = impl;\n" +
    "module.exports.getPolyfill = () => impl;\n" +
    "module.exports.shim = () => impl;\n"

  const RequireShared := "require('@nolyfill/shared')"

  /** `index.js`: a static implementation is exported as is; a prototype method goes through `uncurryThis`. */
  function IndexJs(impl: string, isStatic: bool): string
  {
    (if isStatic
     then UseStrict + DeclareImpl(impl) + ExportImpl
     else UseStrict + RequireUncurryThis + DeclareImpl(impl) + ExportUncurried)
    + IndexTrailer
  }

  /** The text strictly between a known prefix and a known suffix, if `content` has both. */
  function Between(content: string, prefix: string, suffix: string): (r: Option<string>)
    ensures r.Some? ==> prefix + r.value + suffix == content
  {
    if |content| >= |prefix| + |suffix|
       && content[..|prefix|] == prefix
       && content[|content| - |suffix|..] == suffix
    then
      var r := content[|prefix|..|content| - |suffix|];
      assert prefix + r + suffix == content[..|prefix|] + r + content[|content| - |suffix|..];
      Some(r)
    else None
  }

  lemma BetweenConcat(prefix: string, x: string, suffix: string)
    ensures Between(prefix + x + suffix, prefix, suffix) == Some(x)
  {
    var c := prefix + x + suffix;
    assert c[..|prefix|] == prefix;
    assert c[|c| - |suffix|..] == suffix;
    assert c[|prefix|..|c| - |suffix|] == x;
  }

  /** The expression `implementation.js` exports, read back from its text. */
  function ExportedExpression(content: string): Option<string>
  {
    Between(content, UseStrict + "module.exports = ", ";\n")
  }

  /** The expression the factory of `polyfill.js` or `shim.js` returns, read back from its text. */
  function FactoryExpression(content: string): Option<string>
  {
    Between(content, UseStrict + "module.exports = () => ", ";\n")
  }

  /** `implementation.js` embeds the expression verbatim: reading it back gives the expression. */
  lemma ImplementationJsEmbeds(impl: string)
    ensures ExportedExpression(ImplementationJs(impl)) == Some(impl)
  {
    BetweenConcat(UseStrict + "module.exports = ", impl, ";\n");
  }

  /** `polyfill.js` and `shim.js` have the same text, a factory returning the expression verbatim. */
  lemma FactoriesEmbed(impl: string)
    ensures PolyfillJs(impl) == ShimJs(impl)
    ensures FactoryExpression(PolyfillJs(impl)) == Some(impl)
  {
    BetweenConcat(UseStrict + "module.exports = () => ", impl, ";\n");
  }

  /** Distinct expressions give distinct script files. */
  lemma ScriptsInjective(a: string, b: string)
    ensures ImplementationJs(a) == ImplementationJs(b) ==> a == b
    ensures PolyfillJs(a) == PolyfillJs(b) ==> a == b
  {
    ImplementationJsEmbeds(a);
    ImplementationJsEmbeds(b);
    FactoriesEmbed(a);
    FactoriesEmbed(b);
  }

  /** `p` occurs in `s` starting at index `i`. */
  predicate OccursAt(s: string, p: string, i: int)
  {
    0 <= i <= |s| - |p| && s[i..i + |p|] == p
  }

  /** `p` occurs in `s` as a contiguous substring. */
  ghost predicate Contains(s: string, p: string)
  {
    exists i :: OccursAt(s, p, i)
  }

  /** A text lacking some character of `p` cannot contain `p`. */
  lemma NotContainsMissingChar(s: string, p: string, c: char)
    requires c in p && c !in s
    ensures !Contains(s, p)
  {
    var k :| 0 <= k < |p| && p[k] == c;
    forall i | 0 <= i <= |s| - |p| ensures !OccursAt(s, p, i) {
      assert s[i..i + |p|][k] == s[i + k] != c;
    }
  }

  /** `p` occurs in any text that has it between two parts. */
  lemma ContainsMiddle(a: string, p: string, b: string)
    ensures Contains(a + p + b, p)
  {
    assert (a + p + b)[|a|..|a| + |p|] == p;
    assert OccursAt(a + p + b, p, |a|);
  }

  /** An occurrence stays one when text is added after it... */
  lemma ContainsAppend(s: string, b: string, p: string)
    requires Contains(s, p)
    ensures Contains(s + b, p)
  {
    var i :| OccursAt(s, p, i);
    assert (s + b)[i..i + |p|] == s[i..i + |p|];
    assert OccursAt(s + b, p, i);
  }

  /** ...or before it. */
  lemma ContainsPrepend(a: string, s: string, p: string)
    requires Contains(s, p)
    ensures Contains(a + s, p)
  {
    var i :| OccursAt(s, p, i);
    assert (a + s)[|a| + i..|a| + i + |p|] == s[i..i + |p|];
    assert OccursAt(a + s, p, |a| + i);
  }

  /**
   * An occurrence of `p` in `a + b` lies within `a`, within `b`, or across the
   * seam, and then it covers the last character of `a` and the first of `b`.
   */
  lemma NotContainsJoin(a: string, b: string, p: string)
    requires p != [] && !Contains(a, p) && !Contains(b, p)
    requires (a != [] && a[|a| - 1] !in p) || (b != [] && b[0] !in p)
    ensures !Contains(a + b, p)
  {
    var s := a + b;
    forall i | 0 <= i <= |s| - |p| ensures !OccursAt(s, p, i) {
      var w := s[i..i + |p|];
      if i + |p| <= |a| {
        assert w == a[i..i + |p|];
        assert !OccursAt(a, p, i);
      } else if i >= |a| {
        assert w == b[i - |a|..i - |a| + |p|];
        assert !OccursAt(b, p, i - |a|);
      } else if a[|a| - 1] !in p {
        assert w[|a| - 1 - i] == a[|a| - 1] != p[|a| - 1 - i];
      } else {
        assert w[|a| - i] == b[0] != p[|a| - i];
      }
    }
  }

  /**
   * A static `index.js` exports `impl` itself with `module.exports = impl;`,
   * and never loads `@nolyfill/shared` nor wraps the implementation in
   * `uncurryThis`, unless the expression itself does.
   */
  lemma StaticIndexExportsDirectly(impl: string)
    requires !Contains(impl, RequireShared) && !Contains(impl, "uncurryThis")
    ensures Contains(IndexJs(impl, true), ExportImpl)
    ensures !Contains(IndexJs(impl, true), RequireShared)
    ensures !Contains(IndexJs(impl, true), "uncurryThis")
  {
    ContainsMiddle(UseStrict + DeclareImpl(impl), ExportImpl, IndexTrailer);
    PatternCharacters();
    StaticLinesLack('q');
    StaticIndexAvoids(impl, RequireShared, 'q');
    StaticLinesLack('T');
    StaticIndexAvoids(impl, "uncurryThis", 'T');
  }

  /** The two patterns hold neither a space, a semicolon nor a line break, and each has a letter the static template lacks. */
  lemma PatternCharacters()
    ensures ' ' !in RequireShared && ';' !in RequireShared && '\n' !in RequireShared && 'q' in RequireShared
    ensures ' ' !in "uncurryThis" && ';' !in "uncurryThis" && '\n' !in "uncurryThis" && 'T' in "uncurryThis"
  {
    assert RequireShared[2] == 'q';
    assert "uncurryThis"[7] == 'T';
  }

  lemma StaticLinesLack(c: char)
    requires c == 'q' || c == 'T'
    ensures c !in UseStrict && c !in "const impl = " && c !in ";\n" && c !in ExportImpl
    ensures c !in IndexTrailer
  {
    TrailerLacks(c);
  }

  lemma TrailerLacks(c: char)
    requires c == 'q' || c == 'T'
    ensures c !in IndexTrailer
  {
    assert c !in "module.exports.implementation = impl;\n";
    assert c !in "module.exports.getPolyfill = () => impl;\n";
    assert c !in "module.exports.shim = () => impl;\n";
  }

  lemma StaticIndexAvoids(impl: string, p: string, c: char)
    requires ' ' !in p && ';' !in p && '\n' !in p && c in p
    requires c !in UseStrict && c !in "const impl = " && c !in ";\n" && c !in ExportImpl && c !in IndexTrailer
    requires !Contains(impl, p)
    ensures !Contains(IndexJs(impl, true), p)
  {
    NotContainsMissingChar("const impl = ", p, c);
    NotContainsJoin("const impl = ", impl, p);
    NotContainsMissingChar(";\n", p, c);
    NotContainsJoin("const impl = " + impl, ";\n", p);
    NotContainsMissingChar(UseStrict, p, c);
    NotContainsJoin(UseStrict, DeclareImpl(impl), p);
    NotContainsMissingChar(ExportImpl, p, c);
    NotContainsJoin(UseStrict + DeclareImpl(impl), ExportImpl, p);
    NotContainsMissingChar(IndexTrailer, p, c);
    NotContainsJoin(UseStrict + DeclareImpl(impl) + ExportImpl, IndexTrailer, p);
  }

  /** A non-static `index.js` loads `uncurryThis` from `@nolyfill/shared` and exports the wrapped implementation. */
  lemma NonStaticIndexWraps(impl: string)
    ensures Contains(IndexJs(impl, false), RequireShared)
    ensures Contains(IndexJs(impl, false), ExportUncurried)
  {
    ContainsMiddle("const { uncurryThis } = ", RequireShared, ";\n");
    ContainsPrepend(UseStrict, RequireUncurryThis, RequireShared);
    ContainsAppend(UseStrict + RequireUncurryThis, DeclareImpl(impl), RequireShared);
    ContainsAppend(UseStrict + RequireUncurryThis + DeclareImpl(impl), ExportUncurried, RequireShared);
    ContainsAppend(UseStrict + RequireUncurryThis + DeclareImpl(impl) + ExportUncurried, IndexTrailer, RequireShared);
    ContainsMiddle(UseStrict + RequireUncurryThis + DeclareImpl(impl), ExportUncurried, IndexTrailer);
  }

  /** Both variants of `index.js` end with the same trailer and declare `impl` as the expression. */
  lemma IndexShape(impl: string, isStatic: bool)
    ensures var s := IndexJs(impl, isStatic);
      |s| >= |IndexTrailer| && s[|s| - |IndexTrailer|..] == IndexTrailer
    ensures Contains(IndexJs(impl, isStatic), DeclareImpl(impl))
  {
    var head := if isStatic then UseStrict else UseStrict + RequireUncurryThis;
    var exportLine := if isStatic then ExportImpl else ExportUncurried;
    ContainsMiddle(head, DeclareImpl(impl), exportLine);
    ContainsAppend(head + DeclareImpl(impl) + exportLine, IndexTrailer, DeclareImpl(impl));
    var s := IndexJs(impl, isStatic);
    assert s == head + DeclareImpl(impl) + exportLine + IndexTrailer;
    assert s[|s| - |IndexTrailer|..] == IndexTrailer;
  }

  /** The generated `index.js` of the ArrayBuffer slice package, as committed, line by line. */
  const ArrayBufferSliceIndex :=
    "'use strict';\n" +
    "const { uncurryThis } = require('@nolyfill/shared');\n" +
    "const impl = ArrayBuffer.prototype.slice;\n" +
    "module.exports = uncurryThis(impl);\n" +
    "module.exports.implementation = impl;\n" +
    "module.exports.getPolyfill = () => impl;\n" +
    "module.exports.shim = () => impl;\n"

  /** The generated `index.js` of the trimEnd package, as committed, line by line. */
  const TrimEndIndex :=
    "'use strict';\n" +
    "const { uncurryThis } = require('@nolyfill/shared');\n" +
    "const impl = String.prototype.trimEnd;\n" +
    "module.exports = uncurryThis(impl);\n" +
    "module.exports.implementation = impl;\n" +
    "module.exports.getPolyfill = () => impl;\n" +
    "module.exports.shim = () => impl;\n"

  lemma RequireLine()
    ensures RequireUncurryThis == "const { uncurryThis } = require('@nolyfill/shared');\n"
  {
  }

  /** A non-static `index.js` is its seven lines, in order. */
  lemma NonStaticIndexLines(impl: string)
    ensures IndexJs(impl, false) ==
      "'use strict';\n" +
      "const { uncurryThis } = require('@nolyfill/shared');\n" +
      DeclareImpl(impl) +
      "module.exports = uncurryThis(impl);\n" +
      "module.exports.implementation = impl;\n" +
      "module.exports.getPolyfill = () => impl;\n" +
      "module.exports.shim = () => impl;\n"
  {
    RequireLine();
    JoinLines(UseStrict, RequireUncurryThis, DeclareImpl(impl), ExportUncurried,
      "module.exports.implementation = impl;\n",
      "module.exports.getPolyfill = () => impl;\n",
      "module.exports.shim = () => impl;\n");
  }

  /** A static `index.js` is its six lines, in order. */
  lemma StaticIndexLines(impl: string)
    ensures IndexJs(impl, true) ==
      "'use strict';\n" +
      DeclareImpl(impl) +
      "module.exports = impl;\n" +
      "module.exports.implementation = impl;\n" +
      "module.exports.getPolyfill = () => impl;\n" +
      "module.exports.shim = () => impl;\n"
  {
    JoinStaticLines(UseStrict, DeclareImpl(impl), ExportImpl,
      "module.exports.implementation = impl;\n",
      "module.exports.getPolyfill = () => impl;\n",
      "module.exports.shim = () => impl;\n");
  }

  lemma JoinStaticLines(l1: string, l2: string, l3: string, l4: string, l5: string, l6: string)
    ensures (l1 + l2 + l3) + (l4 + l5 + l6) == l1 + l2 + l3 + l4 + l5 + l6
  {
  }

  lemma JoinLines(l1: string, l2: string, l3: string, l4: string, l5: string, l6: string, l7: string)
    ensures (l1 + l2 + l3 + l4) + (l5 + l6 + l7) == l1 + l2 + l3 + l4 + l5 + l6 + l7
  {
  }

  /** The template reproduces the committed `index.js` of the ArrayBuffer slice package. */
  lemma ArrayBufferSliceIndexMatches()
    ensures IndexJs("ArrayBuffer.prototype.slice", false) == ArrayBufferSliceIndex
  {
    NonStaticIndexLines("ArrayBuffer.prototype.slice");
    assert DeclareImpl("ArrayBuffer.prototype.slice") == "const impl = ArrayBuffer.prototype.slice;\n";
  }

  /** The template reproduces the committed `index.js` of the trimEnd package. */
  lemma TrimEndIndexMatches()
    ensures IndexJs("String.prototype.trimEnd", false) == TrimEndIndex
  {
    NonStaticIndexLines("String.prototype.trimEnd");
    assert DeclareImpl("String.prototype.trimEnd") == "const impl = String.prototype.trimEnd;\n";
  }

  /** The fields of a generated `package.json`, in the order they are written. */
  datatype PackageManifest = PackageManifest(
    name: string,
    version: Option<Json>,
    main: string,
    license: string,
    files: seq<string>,
    scripts: seq<(string, string)>,
    dependencies: seq<(string, string)>,
    engines: seq<(string, string)>)

  const Scope := "@nolyfill/"
  const SharedDependency := ("@nolyfill/shared", "workspace:*")
  const DefaultMinimumNodeVersion := ">=12.4.0"

  /**
   * The manifest of one package. `version` is the root manifest's `version`
   * property (`None` when it has none); an omitted minimum Node.js version
   * takes the default.
   */
  function Manifest(packageName: string, version: Option<Json>, isStatic: bool, minimumNodeVersion: Option<string>): PackageManifest
  {
    PackageManifest(
      Scope + packageName,
      version,
      "./index.js",
      "MIT",
      ["*.js"],
      [("lint", "eslint .")],
      if isStatic then [] else [SharedDependency],
      [("node", if minimumNodeVersion.Some? then minimumNodeVersion.value else DefaultMinimumNodeVersion)])
  }

  function StringMembers(ms: seq<(string, string)>): (r: seq<(string, Json)>)
    ensures |r| == |ms| && forall i :: 0 <= i < |ms| ==> r[i] == (ms[i].0, JString(ms[i].1))
  {
    seq(|ms|, i requires 0 <= i < |ms| => (ms[i].0, JString(ms[i].1)))
  }

  /** The leading `name` and `version` members; an undefined `version` is left out, as `JSON.stringify` does. */
  function ManifestHead(m: PackageManifest): seq<(string, Json)>
  {
    [("name", JString(m.name))] + (if m.version.Some? then [("version", m.version.value)] else [])
  }

  function ManifestTail(m: PackageManifest): seq<(string, Json)>
  {
    [("main", JString(m.main)),
     ("license", JString(m.license)),
     ("files", JArray(seq(|m.files|, i requires 0 <= i < |m.files| => JString(m.files[i])))),
     ("scripts", JObject(StringMembers(m.scripts))),
     ("dependencies", JObject(StringMembers(m.dependencies))),
     ("engines", JObject(StringMembers(m.engines)))]
  }

  lemma StringMembersShort(ms: seq<(string, string)>)
    requires |ms| <= 1
    ensures StringMembers(ms) == if ms == [] then [] else [(ms[0].0, JString(ms[0].1))]
  {
  }

  /** The manifest as a JSON object. */
  function ManifestJson(m: PackageManifest): Json
  {
    JObject(ManifestHead(m) + ManifestTail(m))
  }

  /** `package.json`: the serialized manifest and a final line break. */
  function PackageJson(m: PackageManifest): string
  {
    Serialize(ManifestJson(m)) + "\n"
  }

  /** A top-level property of a JSON file, read back from its text. */
  function ReadField(text: string, key: string): Option<Json>
  {
    match ParseFile(text)
    case Some(JObject(members)) => Lookup(members, key)
    case _ => None
  }

  /** Reading a property back from `package.json` finds the manifest's member of that name. */
  lemma ReadManifestField(m: PackageManifest, key: string)
    ensures ReadField(PackageJson(m), key) == Lookup(ManifestHead(m) + ManifestTail(m), key)
  {
    ParseFileRoundTrip(ManifestJson(m));
  }

  lemma TailKeysDistinct(m: PackageManifest)
    ensures DistinctKeys(ManifestTail(m))
  {
    assert Keys(ManifestTail(m)) == ["main", "license", "files", "scripts", "dependencies", "engines"];
  }

  /** The members after `version` are found among the trailing members. */
  lemma ReadTailField(m: PackageManifest, key: string)
    requires key != "name" && key != "version"
    ensures ReadField(PackageJson(m), key) == Lookup(ManifestTail(m), key)
  {
    ReadManifestField(m, key);
    LookupAppend(ManifestHead(m), ManifestTail(m), key);
  }

  /** Reading the written `package.json` back gives the package name under the `@nolyfill/` scope. */
  lemma PackageJsonName(packageName: string, version: Option<Json>, isStatic: bool, minimumNodeVersion: Option<string>)
    ensures ReadField(PackageJson(Manifest(packageName, version, isStatic, minimumNodeVersion)), "name")
         == Some(JString("@nolyfill/" + packageName))
  {
    ReadManifestField(Manifest(packageName, version, isStatic, minimumNodeVersion), "name");
  }

  /** The version is the root manifest's, and absent when the root manifest has none. */
  lemma PackageJsonVersion(packageName: string, version: Option<Json>, isStatic: bool, minimumNodeVersion: Option<string>)
    ensures ReadField(PackageJson(Manifest(packageName, version, isStatic, minimumNodeVersion)), "version") == version
  {
    var m := Manifest(packageName, version, isStatic, minimumNodeVersion);
    ReadManifestField(m, "version");
    ManifestVersion(m);
  }

  /** Among the manifest's members, `version` is found exactly when the manifest has one. */
  lemma ManifestVersion(m: PackageManifest)
    ensures Lookup(ManifestHead(m) + ManifestTail(m), "version") == m.version
  {
    TailLacksVersion(m);
    LookupAppend(ManifestHead(m), ManifestTail(m), "version");
    if m.version.Some? {
      assert ManifestHead(m) == [("name", JString(m.name)), ("version", m.version.value)];
    } else {
      assert ManifestHead(m) == [("name", JString(m.name))];
    }
  }

  lemma TailLacksVersion(m: PackageManifest)
    ensures "version" !in Keys(ManifestTail(m))
  {
    assert Keys(ManifestTail(m)) == ["main", "license", "files", "scripts", "dependencies", "engines"];
  }

  /** The entry point is `./index.js` and the licence MIT. */
  lemma PackageJsonEntry(packageName: string, version: Option<Json>, isStatic: bool, minimumNodeVersion: Option<string>)
    ensures var text := PackageJson(Manifest(packageName, version, isStatic, minimumNodeVersion));
      && ReadField(text, "main") == Some(JString("./index.js"))
      && ReadField(text, "license") == Some(JString("MIT"))
  {
    var m := Manifest(packageName, version, isStatic, minimumNodeVersion);
    ReadTailField(m, "main");
    ReadTailField(m, "license");
  }

  /** The shared helper is the only dependency exactly when the package is not static. */
  lemma PackageJsonDependencies(packageName: string, version: Option<Json>, isStatic: bool, minimumNodeVersion: Option<string>)
    ensures ReadField(PackageJson(Manifest(packageName, version, isStatic, minimumNodeVersion)), "dependencies")
         == Some(JObject(if isStatic then [] else [("@nolyfill/shared", JString("workspace:*"))]))
  {
    var m := Manifest(packageName, version, isStatic, minimumNodeVersion);
    ReadTailField(m, "dependencies");
    TailKeysDistinct(m);
    LookupAt(ManifestTail(m), 4);
    StringMembersShort(m.dependencies);
  }

  /** The `engines.node` constraint is the given minimum version, or `>=12.4.0` when none is given. */
  lemma PackageJsonEngines(packageName: string, version: Option<Json>, isStatic: bool, minimumNodeVersion: Option<string>)
    ensures ReadField(PackageJson(Manifest(packageName, version, isStatic, minimumNodeVersion)), "engines")
         == Some(JObject([("node", JString(if minimumNodeVersion.None? then ">=12.4.0" else minimumNodeVersion.value))]))
  {
    var m := Manifest(packageName, version, isStatic, minimumNodeVersion);
    ReadTailField(m, "engines");
    TailKeysDistinct(m);
    LookupAt(ManifestTail(m), 5);
    StringMembersShort(m.engines);
  }

  /** Each package has exactly these six files, written in this order. */
  const FileNames := ["implementation.js", "polyfill.js", "shim.js", "auto.js", "index.js", "package.json"]

  /** The six files of one package, as (file name, content) pairs. */
  function PackageFiles(packageName: string, impl: string, isStatic: bool, minimumNodeVersion: Option<string>, version: Option<Json>)
    : (files: seq<(string, string)>)
    ensures Keys(files) == FileNames
  {
    [("implementation.js", ImplementationJs(impl)),
     ("polyfill.js", PolyfillJs(impl)),
     ("shim.js", ShimJs(impl)),
     ("auto.js", AutoJs),
     ("index.js", IndexJs(impl, isStatic)),
     ("package.json", PackageJson(Manifest(packageName, version, isStatic, minimumNodeVersion)))]
  }

  /** The six file names are distinct and none of them holds a path separator. */
  lemma FileNamesDistinct()
    ensures |FileNames| == 6 && Distinct(FileNames)
    ensures forall i :: 0 <= i < |FileNames| ==> '/' !in FileNames[i]
  {
  }

  /** `auto.js` has the same content in every package. */
  lemma AutoJsFixed(name1: string, impl1: string, static1: bool, min1: Option<string>, v1: Option<Json>,
                    name2: string, impl2: string, static2: bool, min2: Option<string>, v2: Option<Json>)
    ensures Lookup(PackageFiles(name1, impl1, static1, min1, v1), "auto.js")
         == Lookup(PackageFiles(name2, impl2, static2, min2, v2), "auto.js")
         == Some(AutoJs)
  {
    FileNamesDistinct();
    LookupAt(PackageFiles(name1, impl1, static1, min1, v1), 3);
    LookupAt(PackageFiles(name2, impl2, static2, min2, v2), 3);
  }
}
