/**
 * The repository's own `package.json` after a generator run: every property
 * of the manifest read at start-up, with `pnpm` replaced by an object whose
 * `overrides` redirect each generated package name to its workspace copy.
 */
module RootManifest {
  import opened Wrappers
  import opened Json
  import opened JsObject

  /** The override target of one package: its workspace copy under the `@nolyfill/` scope. */
  function OverrideValue(packageName: string): string
  {
    "workspace:@nolyfill/" + packageName + "@*"
  }

  /** Distinct packages are redirected to distinct targets. */
  lemma OverrideValueInjective(a: string, b: string)
    requires OverrideValue(a) == OverrideValue(b)
    ensures a == b
  {
    var prefix := "workspace:@nolyfill/";
    assert OverrideValue(a)[|prefix|..|prefix| + |a|] == a;
    assert OverrideValue(b)[|prefix|..|prefix| + |b|] == b;
  }

  /**
   * The overrides object the `reduce` builds: starting from `{}`, each table
   * name in turn is assigned its override target.
   */
  function Overrides(names: seq<string>): seq<(string, Json)>
  {
    if names == [] then []
    else
      var last := names[|names| - 1];
      Put(Overrides(names[..|names| - 1]), last, JString(OverrideValue(last)))
  }

  /** The `reduce` itself, assigning into one accumulator object. */
  method BuildOverrides(names: seq<string>) returns (acc: seq<(string, Json)>)
    ensures acc == Overrides(names)
    ensures DistinctKeys(acc)
    ensures forall k :: k in Keys(acc) <==> k in names
  {
    acc := [];
    for i := 0 to |names|
      invariant acc == Overrides(names[..i])
    {
      assert names[..i + 1][..i] == names[..i];
      acc := Put(acc, names[i], JString(OverrideValue(names[i])));
    }
    assert names[..|names|] == names;
    OverridesKeys(names);
  }

  /** The overrides have one key per distinct table name and no other. */
  lemma {:induction false} OverridesKeys(names: seq<string>)
    ensures DistinctKeys(Overrides(names))
    ensures forall k :: k in Keys(Overrides(names)) <==> k in names
  {
    if names != [] {
      var init, last := names[..|names| - 1], names[|names| - 1];
      assert names == init + [last];
      OverridesKeys(init);
      PutDistinct(Overrides(init), last, JString(OverrideValue(last)));
    }
  }

  /** Every table name is mapped to its override target. */
  lemma {:induction false} OverridesValues(names: seq<string>, k: string)
    requires k in names
    ensures Lookup(Overrides(names), k) == Some(JString(OverrideValue(k)))
  {
    var init, last := names[..|names| - 1], names[|names| - 1];
    assert names == init + [last];
    PutLookup(Overrides(init), last, JString(OverrideValue(last)), k);
    if k != last {
      OverridesValues(init, k);
    }
  }

  /** For a table without repeated names, the keys are the table's names in table order. */
  lemma {:induction false} OverridesInOrder(names: seq<string>)
    requires Distinct(names)
    ensures Keys(Overrides(names)) == names
  {
    if names != [] {
      var init, last := names[..|names| - 1], names[|names| - 1];
      assert names == init + [last];
      assert Distinct(init) by {
        forall i, j | 0 <= i < j < |init| ensures init[i] != init[j] {
          assert init[i] == names[i] && init[j] == names[j];
        }
      }
      assert last !in init by {
        forall i | 0 <= i < |init| ensures init[i] != last {
          assert init[i] == names[i];
        }
      }
      OverridesInOrder(init);
    }
  }

  /** The `pnpm` value of the new root manifest. */
  function PnpmSettings(names: seq<string>): Json
  {
    JObject([("overrides", JObject(Overrides(names)))])
  }

  /** `{ ...current, pnpm: { overrides } }`: the root manifest with `pnpm` assigned. */
  function NewRootManifest(current: seq<(string, Json)>, names: seq<string>): seq<(string, Json)>
  {
    Put(current, "pnpm", PnpmSettings(names))
  }

  /**
   * Every property of the current root manifest other than `pnpm` keeps its
   * value and its place; `pnpm` holds only the overrides, and is appended when
   * the current manifest had none.
   */
  lemma NewRootManifestFields(current: seq<(string, Json)>, names: seq<string>, key: string)
    ensures Lookup(NewRootManifest(current, names), key)
         == if key == "pnpm" then Some(PnpmSettings(names)) else Lookup(current, key)
    ensures Keys(NewRootManifest(current, names))
         == if "pnpm" in Keys(current) then Keys(current) else Keys(current) + ["pnpm"]
  {
    PutLookup(current, "pnpm", PnpmSettings(names), key);
  }

  /** Rebuilding the root manifest from an already rebuilt one changes nothing. */
  lemma NewRootManifestIdempotent(current: seq<(string, Json)>, names: seq<string>)
    requires DistinctKeys(current)
    ensures NewRootManifest(NewRootManifest(current, names), names) == NewRootManifest(current, names)
  {
    var once := NewRootManifest(current, names);
    PutDistinct(current, "pnpm", PnpmSettings(names));
    PutLookup(current, "pnpm", PnpmSettings(names), "pnpm");
    PutExisting(once, "pnpm", PnpmSettings(names));
  }
}
