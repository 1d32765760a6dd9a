# nolyfill package generator, modelled in Dafny

nolyfill replaces the many small ECMAScript polyfill packages with stubs that
re-export the native built-in. The generator script `create.cjs` holds a
table of packages. Each entry gives the package name, the implementation
expression, and whether it is a static function. For every entry the
script writes six files under `packages/<name>/`:

- `implementation.js`
- `polyfill.js`
- `shim.js`
- `auto.js`
- `index.js`
- `package.json`

It then rewrites the repository's own `package.json` so that `pnpm.overrides`
points every package name at its workspace copy. Every write goes through
`compareAndWriteFile`, which writes only when the file is missing or holds
other content.

Two small runtime helpers are modelled as well:

- the fallback body of `String.prototype.at`;
- `set` from `es-set-tostringtag`, which defines an object's own `Symbol.toStringTag`.

The model, module by module:

- `Json` — JSON values and their serializer, with a parser that reads the
  text back. The manifests are records serialized through it. The
  serializer is proved injective: parsing its text gives back the value.
- `JsObject` — plain objects as ordered member lists.
  - `Lookup` is property read.
  - `Put` is property assignment. It keeps an existing key in place and
    appends a new one, which is the order `JSON.stringify` writes.
- `Registry` — the package table `PackagesList`, entry for entry. Its names
  are proved strictly ascending in character-wise string order, which is
  JavaScript's order on these ASCII names, hence distinct.
- `Render` — the six file templates of `createPackage` and the package
  manifest record.
- `RootManifest` — the overrides `reduce` and the rebuilt root manifest
  `{ ...current, pnpm: { overrides } }`.
- `Files` — the file system.
  - The class `FileSystem` has a path→content map and a log of the writes
    actually performed.
  - `CompareAndWriteFile` models `compareAndWriteFile`.
  - `ApplyAll` and `WritesOf` specify a batch of such calls.
- `Generator` — `createPackage` and the script's top level.
  - `Generate` reads the root manifest, writes every package, then writes
    the root manifest.
  - `RerunWritesNothing` proves that a second run over the files the first
    run left behind writes nothing. This holds from any starting tree whose
    root `package.json` the model can read (see `Generator.ReadRoot` under
    "Left out"), including a tree left half-written.
- `StringAt` — the `at(n)` fallback, over JavaScript numbers (finite, NaN, ±Infinity).
- `SetToStringTag` — `set` as a method of a `PlainObject` class. The class
  has an own-property map and an extensibility flag. The TypeError of
  `Object.defineProperty` is reported as an outcome.

Two properties of the code that the model keeps as they are:

- The code never checks for duplicate package names. A repeated name gets
  one override key, because the second assignment overwrites the first. The
  no-write rerun is proved for tables without repeated names, and the
  embedded table is proved to be one.
- The code writes a single `pnpm.overrides` in table order. For the
  embedded table that order is ascending, as `PackagesListAscending` shows.

## Model

| member | source | states |
|---|---|---|
| Json.Serialize | create.cjs:115-132 | `JSON.stringify` as a compact serializer; its text starts with the first character of a JSON value, and `ParseSerialize` and `SerializeInjective` state that it is read back exactly |
| Json.ParseSerialize | create.cjs:115-132 | parsing the serializer's text of any JSON value gives back that value |
| Json.SerializeInjective | create.cjs:115-132 | distinct JSON values serialize to distinct texts |
| Json.ParseFileRoundTrip | create.cjs:47 | a JSON file written as the serialized value plus a final line break reads back as that value |
| Json.ParseValueRoundTrip | create.cjs:115-132 | a value's text followed by any rest parses to the value and leaves the rest untouched |
| Json.ParseStringRoundTrip | create.cjs:116 | an escaped string followed by its closing quote parses back to the original string |
| JsObject.Lookup | create.cjs:117 | property read: `undefined` exactly when the key is absent, otherwise a value stored under the key |
| JsObject.Put | create.cjs:39 | property assignment keeps an existing key in place and appends a new key at the end |
| JsObject.PutLookup | create.cjs:39 | after `o[k] = v`, `k` reads `v` and every other key reads what it read before |
| JsObject.PutDistinct | create.cjs:39 | assignment never creates a second member with the same key |
| JsObject.PutExisting | create.cjs:35-43 | assigning a property the value it already has leaves the object unchanged |
| JsObject.LookupAppend | create.cjs:115-132 | reading a field of the written `package.json` back: a key of the manifest's head members (`name`, `version`) is found there, any other key among the trailing members |
| JsObject.LookupAt | create.cjs:115-132 | with distinct keys, reading any member's key gives that member's value |
| Registry.LessTransitive | create.cjs:11-28 | character-wise string order, used for the table's names, is transitive |
| Registry.AscendingOrdered | create.cjs:11-28 | a list whose each name sorts after the previous one has every earlier name before every later one, hence no duplicates |
| Registry.PackagesListAscending | create.cjs:11-28 | the embedded table's names are strictly ascending, hence duplicate-free |
| Render.ImplementationJs | create.cjs:90-93 | the `implementation.js` template; `ImplementationJsEmbeds` and `ScriptsInjective` state its properties |
| Render.PolyfillJs | create.cjs:94-97 | the `polyfill.js` template; `FactoriesEmbed` and `ScriptsInjective` state its properties |
| Render.ShimJs | create.cjs:98-101 | the `shim.js` template, written separately; `FactoriesEmbed` states it has the text of `polyfill.js` |
| Render.IndexJs | create.cjs:106-111 | the two `index.js` templates; `StaticIndexExportsDirectly`, `StaticIndexLines`, `NonStaticIndexWraps`, `NonStaticIndexLines` and `IndexShape` state their properties |
| Render.ImplementationJsEmbeds | create.cjs:90-93 | `implementation.js` exports the implementation expression verbatim, read back from its text |
| Render.FactoriesEmbed | create.cjs:94-101 | `polyfill.js` and `shim.js` are identical and their factory returns the expression verbatim |
| Render.ScriptsInjective | create.cjs:90-101 | distinct implementation expressions give distinct script files |
| Render.AutoJsFixed | create.cjs:102-105 | `auto.js` (the constant `AutoJs`) is the `/* noop */` module in every package, whatever the inputs |
| Render.StaticIndexExportsDirectly | create.cjs:108-109 | a static `index.js` contains `module.exports = impl;`, and never loads `@nolyfill/shared` nor mentions `uncurryThis`, unless the expression itself does |
| Render.StaticIndexLines | create.cjs:108-111 | a static `index.js` is exactly its six lines in order |
| Render.NonStaticIndexWraps | create.cjs:110 | a non-static `index.js` loads `@nolyfill/shared` and exports `uncurryThis(impl)` |
| Render.IndexShape | create.cjs:106-111 | both `index.js` variants end with the same implementation/getPolyfill/shim trailer and declare `impl` as the expression |
| Render.NonStaticIndexLines | create.cjs:110-111 | a non-static `index.js` is exactly its seven lines in order |
| Render.ArrayBufferSliceIndexMatches | packages/arraybuffer.prorotype.slice/index.js:1-7 | the template for the ArrayBuffer slice entry reproduces the committed `index.js` |
| Render.TrimEndIndexMatches | packages/string.prototype.trimend/index.js:1-7 | the template for the trimEnd entry reproduces the committed `index.js` |
| Render.Manifest | create.cjs:115-132 | the object passed to `JSON.stringify`, as a record; the `PackageJson*` lemmas state each field |
| Render.PackageJson | create.cjs:113-133 | the text of `package.json`, the serialized manifest and a line break; `ReadManifestField` and the `PackageJson*` lemmas read each field back from it |
| Render.ReadManifestField | create.cjs:115-132 | any property read back from the written `package.json` is the manifest's member of that name |
| Render.PackageJsonName | create.cjs:116 | the written `package.json` reads back `name` as `@nolyfill/` followed by the package name |
| Render.PackageJsonVersion | create.cjs:117 | `version` reads back as the root manifest's version, and is absent when the root has none |
| Render.PackageJsonEntry | create.cjs:118-119 | `main` reads back as `./index.js` and `license` as `MIT` |
| Render.PackageJsonDependencies | create.cjs:124-128 | `dependencies` is empty exactly when the package is static, and otherwise only `@nolyfill/shared: workspace:*` |
| Render.PackageJsonEngines | create.cjs:129-131 | `engines.node` is the given minimum version, or `>=12.4.0` when none is given (the default of line 81) |
| Render.PackageFiles | create.cjs:89-134 | a package's files are exactly the six names, in the order written |
| Render.FileNamesDistinct | create.cjs:91-114 | the six file names are distinct and none holds a path separator |
| RootManifest.Overrides | create.cjs:38-41 | the `reduce` as a left fold of property assignments; `OverridesKeys`, `OverridesValues` and `OverridesInOrder` state its keys, values and order |
| RootManifest.NewRootManifest | create.cjs:35-43 | `{ ...current, pnpm: { overrides } }`; `NewRootManifestFields` and `NewRootManifestIdempotent` state its properties |
| RootManifest.OverrideValueInjective | create.cjs:39 | distinct package names get distinct `workspace:@nolyfill/<name>@*` targets |
| RootManifest.BuildOverrides | create.cjs:38-41 | the accumulating `reduce` yields the specified overrides: distinct keys, exactly the table's names |
| RootManifest.OverridesKeys | create.cjs:38-41 | the overrides have no repeated key, and a key exactly when it is a table name |
| RootManifest.OverridesValues | create.cjs:38-41 | every table name is mapped to its `workspace:@nolyfill/<name>@*` target |
| RootManifest.OverridesInOrder | create.cjs:38-41 | for a table without repeated names, the keys are the table's names in table order |
| RootManifest.NewRootManifestFields | create.cjs:35-43 | every root property other than `pnpm` keeps its value and place; `pnpm` holds only the overrides and is appended if it was absent |
| RootManifest.NewRootManifestIdempotent | create.cjs:35-43 | rebuilding an already rebuilt root manifest changes nothing |
| Files.ApplyAll | create.cjs:64-73 | the files after a batch of `compareAndWriteFile` calls; `ApplyAllAt`, `ApplyAllUpToDate` and `ApplyAllAppend` state its properties |
| Files.WritesOf | create.cjs:64-73 | the writes a batch of `compareAndWriteFile` calls performs; `UpToDateWritesNothing`, `RepeatWritesNothing`, `WriteTwice` and `ApplyAllAppend` state its properties |
| Files.FileSystem.CompareAndWriteFile | create.cjs:64-73 | afterwards the path holds the content and no other path changes; a write is logged only if the file was missing or differed |
| Files.FileSystem.WriteAll | create.cjs:89-134 | a package's writes, one after the other, act as the batch specification |
| Files.FileSystem.WriteBatches | create.cjs:31-33 | the writes of all packages, one package after another, act as their concatenated batch |
| Files.ApplyAllAppend | create.cjs:30-48 | two batches in a row act, and log writes, as their concatenation |
| Files.ApplyAllAt | create.cjs:64-73 | a batch changes only its own paths, and every path it writes exists afterwards |
| Files.ApplyAllUpToDate | create.cjs:64-73 | after a batch without repeated paths, every file of the batch holds its content |
| Files.UpToDateWritesNothing | create.cjs:65-69 | a batch over files that already hold its contents writes nothing and changes nothing |
| Files.RepeatWritesNothing | create.cjs:64-73 | running the same batch twice: the second run performs no write and changes nothing |
| Files.WriteTwice | create.cjs:64-73 | two identical `compareAndWriteFile` calls: only the first can write |
| Generator.ReadRoot | create.cjs:9 | `require('./package.json')`: the root manifest's members when it reads as a JSON object; `RerunWritesNothing` states it reads back the rebuilt root after a run |
| Generator.RunBatch | create.cjs:30-48 | every write of one run, package after package, then the root; `RunBatchDistinct`, `TableBatchAt` and `RerunWritesNothing` state its properties |
| Generator.PackageFilePathInjective | create.cjs:82-91 | package paths determine the package and the file, given file names without a separator |
| Generator.RootPathNotPackageFile | create.cjs:46 | the root `package.json` is not a file of any package |
| Generator.PackageBatch | create.cjs:82-114 | `createPackage` writes six paths, `packages/<name>/` followed by each file name in order |
| Generator.PackageBatchDistinct | create.cjs:89-134 | one package never writes the same path twice |
| Generator.CreatePackage | create.cjs:81-137 | `createPackage` performs its six writes, after which each of its files holds its rendered content |
| Generator.WriteRootManifest | create.cjs:35-48 | the rebuilt root manifest is written through `compareAndWriteFile` |
| Generator.Generate | create.cjs:30-48 | a run performs every package's writes and then the root manifest's; nothing is written when the root manifest cannot be read |
| Generator.TableBatchAt | create.cjs:31-33 | write `k` of the table is file `k % 6` of entry `k / 6` |
| Generator.RunBatchDistinct | create.cjs:30-48 | a table without repeated names writes every path at most once in a run |
| Generator.RerunWritesNothing | create.cjs:30-48 | after one run the root reads back as the rebuilt manifest with the same version and overrides, so a second run writes nothing and changes nothing |
| Generator.PackagesListRerunWritesNothing | create.cjs:11-48 | for the embedded table, a second run over the files the first run left writes nothing |
| StringAt.Trunc | packages/generated/string.prototype.at/entry.js:13 | `Math.trunc` on a finite number drops the fraction towards zero |
| StringAt.At | packages/generated/string.prototype.at/entry.js:12-17 | index in `[0, len)` gives that character; index in `[-len, 0)` the character at `len + n`; outside, or infinite, `undefined`; NaN the first character |
| StringAt.AtDefined | packages/generated/string.prototype.at/entry.js:15 | the result is defined exactly when the truncated index lies in `[-len, len)`, or it is NaN on a non-empty string |
| StringAt.AtFromEnd | packages/generated/string.prototype.at/entry.js:14-16 | for `0 <= k < len`, `at(k)` and `at(k - len)` are the same character |
| StringAt.AtTruncatesTowardZero | packages/generated/string.prototype.at/entry.js:13 | any `n` strictly between -1 and 1 reads like NaN, as index 0 |
| SetToStringTag.Throws | packages/data/single-file/src/es-set-tostringtag.ts:6-12 | `set` throws exactly when its guard holds and `Object.defineProperty` rejects; `UnforcedKeepsExisting`, `SetDefinesTag`, `SecondDefaultCallKeepsFirst` and `ForceOverwrites` state when it does not |
| SetToStringTag.AfterSet | packages/data/single-file/src/es-set-tostringtag.ts:6-12 | the own properties after `set`; `SetDefinesTag`, `UnforcedKeepsExisting`, `SecondDefaultCallKeepsFirst` and `ForceOverwrites` state their properties |
| SetToStringTag.PlainObject.Set | packages/data/single-file/src/es-set-tostringtag.ts:5-14 | the own properties after `set` and whether it threw, exactly as specified by the guard and `Object.defineProperty`'s rules; a throw changes nothing |
| SetToStringTag.UnforcedKeepsExisting | packages/data/single-file/src/es-set-tostringtag.ts:6 | without `force`, an object that already has its own tag is unchanged and nothing is thrown |
| SetToStringTag.SetDefinesTag | packages/data/single-file/src/es-set-tostringtag.ts:6-12 | when `set` applies and does not throw, the tag holds the value, configurable, non-enumerable and read-only; all other properties are kept |
| SetToStringTag.SecondDefaultCallKeepsFirst | packages/data/single-file/src/es-set-tostringtag.ts:5-6 | with default options, a second call neither throws nor changes anything, so the first value stays |
| SetToStringTag.ForceOverwrites | packages/data/single-file/src/es-set-tostringtag.ts:6-12 | with `force`, a configurable tag is redefined with the new value |

## Left out

- `JSON.stringify(..., null, 2)` formatting is not modelled byte for byte. `Json.Serialize` writes compact JSON with no line break; `Render.PackageJson` and `Generator.RootText` add the final line break, as the templates do. Strings escape only `"` and `\`. JSON numbers and other escapes are not modelled, so the results are about an injective serializer rather than exact bytes.
- `Json.ParseMembers` keeps repeated keys, where `JSON.parse` keeps the last value. `Generator.RerunWritesNothing` therefore requires a root manifest without repeated keys.
- Generator.ReadRoot: reads only text in the model serializer's own compact form: JSON objects, arrays, strings escaping only `"` and `\`, `true`, `false` and `null`, with no whitespace between tokens and one final line break. Any other valid JSON, such as the indented text `JSON.stringify(..., null, 2)` writes, numbers or other escapes, reads as unreadable, and `Generate` then writes nothing where the program would write every package. A root that is not a JSON object is unreadable too; in JavaScript, spreading an array or a string would still produce an object. So `RerunWritesNothing` holds only for a starting tree whose root `package.json` is in that form.
- The `pnpm i` install step (create.cjs:50) is an external process and is not modelled.
- The progress output (create.cjs:136) is not modelled.
- Generator.Generate: does not call `CreatePackage` once per entry. It writes each entry's `EntryBatch`, which is by definition `CreatePackage`'s batch for that entry, through `FileSystem.WriteBatches`.
- `Promise.all` concurrency (create.cjs:31-33, 89-134) is run sequentially in table order. The units write disjoint paths, which `RunBatchDistinct` proves.
- `mkdir { recursive: true }` (create.cjs:84-87) is not modelled: a directory exists as a prefix of the paths written.
- File-system failures and `utf-8` encoding are not modelled: writes never fail, and contents are strings.
- `path.join` and `__dirname` are modelled as `/`-separated paths relative to the repository root, with no normalisation.
- Generator.PackageFilePathInjective, Generator.RootPathNotPackageFile, Generator.RunBatchDistinct, Generator.RerunWritesNothing: they rest on `PackageFilePath`, which does not normalise as `path.join` does. In JavaScript they hold only for package names that `path.join` leaves unchanged: non-empty, with no `.` or `..` segment and no leading, trailing or doubled `/`. A package named `..` would write the root `package.json`, and the distinct names `a` and `./a` would write the same six files. The embedded table's names all meet this condition.
- JavaScript objects put integer-like keys before other keys. The embedded table's names are not integer-like, so there `Put` appends a new key as JavaScript does.
- JsObject.Put: treats every key as an ordinary own property, including integer-like keys and `__proto__`. In JavaScript, `acc["__proto__"] = value` goes to the inherited `__proto__` setter, which ignores a string and adds no member, so `RootManifest.OverridesKeys` would not hold for a table holding that name. The embedded table has no such name.
- `StringAt.At`: the native `String.prototype.at` that the fallback only replaces when it is missing (entry.js:12) is not modelled, and neither is `defineEsShim` (entry.js:18).
- `StringAt.At`: `ToNumber` on non-number arguments and `ToString` on `this` are not modelled. The argument is already a number (`undefined` is NaN). Negative zero is treated as zero.
- StringAt.At: `this` is a sequence of Unicode scalar values, not of UTF-16 code units. A character outside the Basic Multilingual Plane has length 1 here and 2 in JavaScript, and a lone surrogate, which `at` can return, is not representable. Such characters are not modelled.
- Registry.Less: compares strings by code point, not by UTF-16 code unit. The two orders agree on strings of Basic Multilingual Plane characters, so they agree on the table's ASCII names.
- `SetToStringTag.PlainObject.Set`: `object` is always an ordinary object with data properties. Primitives, accessor properties and proxies are not modelled, and `force` is a boolean or absent.
