/**
 * The output of `scripts/list_package_versions.py`: every version of every
 * recipe, either as GitHub Actions matrix entries (packages ascending, each
 * package's versions descending) or as one plain line per package (versions
 * ascending).
 *
 * The map from package name to its `(version, folder)` list, read from the
 * recipes' `config.yml` files, is an input.
 */
module PackageVersions {
  import opened Strings
  import opened Seqs
  import opened PackageReferences

  /** One entry of the `--github` output. */
  datatype Entry = Entry(packageReference: string, package: string, version: string, conanfile: string)

  /** The recipe folders of every package, by package name. */
  type Recipes = map<string, seq<VersionFolder>>

  // ---------------------------------------------------------------------------
  // sorted(package_infos.keys())
  // ---------------------------------------------------------------------------

  /** `k` is the smallest of `keys`. */
  predicate IsLeast(k: string, keys: set<string>)
  {
    k in keys && forall j :: j in keys ==> LessEq(k, j)
  }

  lemma {:induction false} LeastExists(keys: set<string>)
    requires keys != {}
    ensures exists k :: IsLeast(k, keys)
    decreases keys
  {
    var x :| x in keys;
    var rest := keys - {x};
    if rest == {} {
      assert keys == {x};
      assert IsLeast(x, keys);
    } else {
      LeastExists(rest);
      var m :| IsLeast(m, rest);
      LessEqTotal(x, m);
      if LessEq(x, m) {
        forall j | j in keys
          ensures LessEq(x, j)
        {
          if j != x {
            LessEqTransitive(x, m, j);
          }
        }
        assert IsLeast(x, keys);
      } else {
        assert IsLeast(m, keys);
      }
    }
  }

  lemma LeastUnique(keys: set<string>)
    ensures forall a, b :: IsLeast(a, keys) && IsLeast(b, keys) ==> a == b
  {
    forall a, b | IsLeast(a, keys) && IsLeast(b, keys)
      ensures a == b
    {
      LessEqAntisymmetric(a, b);
    }
  }

  /** Python's `sorted(keys)`: each key once, in strictly ascending order. */
  function SortedKeys(keys: set<string>): (r: seq<string>)
    ensures |r| == |keys|
    ensures forall i :: 0 <= i < |r| ==> r[i] in keys
    ensures forall k :: k in keys ==> k in r
    ensures forall i, j :: 0 <= i < j < |r| ==> Less(r[i], r[j])
    decreases keys
  {
    if keys == {} then []
    else
      LeastExists(keys);
      LeastUnique(keys);
      var k :| IsLeast(k, keys);
      [k] + SortedKeys(keys - {k})
  }

  // ---------------------------------------------------------------------------
  // The --github output
  // ---------------------------------------------------------------------------

  function VersionOf(v: VersionFolder): (r: string) { v.version }

  /** The version strings of a `(version, folder)` list. */
  function Versions(versions: seq<VersionFolder>): (r: seq<string>)
  {
    MapSeq(versions, VersionOf)
  }

  /** The entry for one version of `package`: its reference and the path of its recipe file. */
  function MakeEntry(package: string, v: VersionFolder): (r: Entry)
  {
    Entry(package + "/" + v.version, package, v.version, RecipesRoot + "/" + package + "/" + v.folder + "/conanfile.py")
  }

  /** The entries of one package, versions descending. */
  function PackageEntries(package: string, versions: seq<VersionFolder>): (r: seq<Entry>)
    ensures |r| == |versions|
  {
    var sorted := SortBy(versions, VersionOf, true);
    assert |multiset(sorted)| == |multiset(versions)|;
    seq(|sorted|, i requires 0 <= i < |sorted| => MakeEntry(package, sorted[i]))
  }

  /** Every entry of a package's group names that package. */
  lemma PackageEntriesPackage(package: string, versions: seq<VersionFolder>)
    ensures forall i :: 0 <= i < |PackageEntries(package, versions)| ==>
      ForPackage(package)(PackageEntries(package, versions)[i])
  {
  }

  /** The entries of the packages `keys`, package by package. */
  function EntriesFor(keys: seq<string>, recipes: Recipes): (r: seq<Entry>)
    requires forall i :: 0 <= i < |keys| ==> keys[i] in recipes
  {
    if keys == [] then []
    else PackageEntries(keys[0], recipes[keys[0]]) + EntriesFor(keys[1..], recipes)
  }

  /**
   * The `--github` result: packages ascending, each package's versions
   * descending. Every entry is built from one `(version, folder)` pair of its
   * package.
   */
  function GithubEntries(recipes: Recipes): (r: seq<Entry>)
    ensures forall e :: e in r ==>
      e.package in recipes && exists v :: v in recipes[e.package] && e == MakeEntry(e.package, v)
  {
    var keys := SortedKeys(recipes.Keys);
    assert forall e :: e in EntriesFor(keys, recipes) ==>
      e.package in recipes && exists v :: v in recipes[e.package] && e == MakeEntry(e.package, v) by {
      forall e | e in EntriesFor(keys, recipes)
        ensures e.package in recipes && exists v :: v in recipes[e.package] && e == MakeEntry(e.package, v)
      {
        EntriesForFields(keys, recipes, e);
      }
    }
    EntriesFor(keys, recipes)
  }

  /** Package ascending, and within a package version descending. */
  predicate EntryOrder(a: Entry, b: Entry)
  {
    Less(a.package, b.package) || (a.package == b.package && LessEq(b.version, a.version))
  }

  predicate WellFormedEntry(e: Entry)
  {
    e.packageReference == e.package + "/" + e.version
  }

  function ForPackage(package: string): (r: Entry -> bool)
  {
    (e: Entry) => e.package == package
  }

  lemma PackageEntriesShape(package: string, versions: seq<VersionFolder>)
    ensures forall i :: 0 <= i < |PackageEntries(package, versions)| ==>
      var e := PackageEntries(package, versions)[i];
      e.package == package && WellFormedEntry(e)
    ensures forall i, j :: 0 <= i < j < |PackageEntries(package, versions)| ==>
      EntryOrder(PackageEntries(package, versions)[i], PackageEntries(package, versions)[j])
  {
    SortBySorted(versions, VersionOf, true);
  }

  /** Entries come out grouped by package in ascending order, versions descending within a package. */
  lemma {:induction false} EntriesForOrdered(keys: seq<string>, recipes: Recipes)
    requires forall i :: 0 <= i < |keys| ==> keys[i] in recipes
    requires forall i, j :: 0 <= i < j < |keys| ==> Less(keys[i], keys[j])
    ensures forall e :: e in EntriesFor(keys, recipes) ==> e.package in keys
    ensures forall i, j :: 0 <= i < j < |EntriesFor(keys, recipes)| ==>
      EntryOrder(EntriesFor(keys, recipes)[i], EntriesFor(keys, recipes)[j])
  {
    if keys != [] {
      var first := PackageEntries(keys[0], recipes[keys[0]]);
      var rest := EntriesFor(keys[1..], recipes);
      EntriesForOrdered(keys[1..], recipes);
      PackageEntriesShape(keys[0], recipes[keys[0]]);
      var all := first + rest;
      assert forall e :: e in first ==> e.package == keys[0];
      forall e | e in rest
        ensures Less(keys[0], e.package)
      {
        var m :| 0 <= m < |keys[1..]| && keys[1..][m] == e.package;
        assert keys[m + 1] == e.package;
      }
      forall i, j | 0 <= i < j < |all|
        ensures EntryOrder(all[i], all[j])
      {
        if j < |first| {
          assert all[i] == first[i] && all[j] == first[j];
        } else if i >= |first| {
          assert all[i] == rest[i - |first|] && all[j] == rest[j - |first|];
        } else {
          assert all[i] == first[i] && all[j] == rest[j - |first|];
          assert all[j] in rest;
        }
      }
    }
  }

  /** Each entry's reference is `package/version`, and the pair comes from the recipes with its folder. */
  lemma {:induction false} EntriesForFields(keys: seq<string>, recipes: Recipes, e: Entry)
    requires forall i :: 0 <= i < |keys| ==> keys[i] in recipes
    requires e in EntriesFor(keys, recipes)
    ensures e.packageReference == e.package + "/" + e.version
    ensures e.package in recipes
    ensures exists v :: v in recipes[e.package] && e == MakeEntry(e.package, v)
  {
    if keys != [] {
      var first := PackageEntries(keys[0], recipes[keys[0]]);
      if e in first {
        var sorted := SortBy(recipes[keys[0]], VersionOf, true);
        var i :| 0 <= i < |first| && first[i] == e;
        assert e == MakeEntry(keys[0], sorted[i]);
        assert sorted[i] in multiset(sorted);
      } else {
        EntriesForFields(keys[1..], recipes, e);
      }
    }
  }

  /** In a strictly ascending list the first key does not occur again. */
  lemma HeadNotInTail(keys: seq<string>)
    requires keys != []
    requires forall i, j :: 0 <= i < j < |keys| ==> Less(keys[i], keys[j])
    ensures keys[0] !in keys[1..]
  {
    if keys[0] in keys[1..] {
      var m :| 0 <= m < |keys[1..]| && keys[1..][m] == keys[0];
      assert Less(keys[0], keys[m + 1]);
      LessIrreflexive(keys[0]);
    }
  }

  lemma AscendingTail(keys: seq<string>)
    requires keys != []
    requires forall i, j :: 0 <= i < j < |keys| ==> Less(keys[i], keys[j])
    ensures forall i, j :: 0 <= i < j < |keys[1..]| ==> Less(keys[1..][i], keys[1..][j])
  {
    forall i, j | 0 <= i < j < |keys[1..]|
      ensures Less(keys[1..][i], keys[1..][j])
    {
      assert keys[1..][i] == keys[i + 1] && keys[1..][j] == keys[j + 1];
    }
  }

  /** Filtering one package's group for a package keeps all of it or none of it. */
  lemma FilterGroup(first: string, versions: seq<VersionFolder>, package: string)
    ensures Filter(PackageEntries(first, versions), ForPackage(package)) ==
      if package == first then PackageEntries(first, versions) else []
  {
    PackageEntriesPackage(first, versions);
    if package == first {
      FilterAll(PackageEntries(first, versions), ForPackage(package));
    } else {
      FilterNone(PackageEntries(first, versions), ForPackage(package));
    }
  }

  /** The entries for one package are exactly its own group, whatever the other packages hold. */
  lemma {:induction false} EntriesForOnePackage(keys: seq<string>, recipes: Recipes, package: string)
    requires forall i :: 0 <= i < |keys| ==> keys[i] in recipes
    requires forall i, j :: 0 <= i < j < |keys| ==> Less(keys[i], keys[j])
    ensures Filter(EntriesFor(keys, recipes), ForPackage(package)) ==
      if package in keys then PackageEntries(package, recipes[package]) else []
  {
    if keys != [] {
      var tail := keys[1..];
      assert keys == [keys[0]] + tail;
      var first := PackageEntries(keys[0], recipes[keys[0]]);
      var rest := EntriesFor(tail, recipes);
      assert EntriesFor(keys, recipes) == first + rest;
      AscendingTail(keys);
      EntriesForOnePackage(tail, recipes, package);
      FilterConcat(first, rest, ForPackage(package));
      FilterGroup(keys[0], recipes[keys[0]], package);
      if package == keys[0] {
        HeadNotInTail(keys);
      } else {
        assert package in keys <==> package in tail;
      }
    }
  }

  /**
   * The `--github` output is grouped by package in ascending order with
   * versions descending inside a group, and every entry's reference and
   * recipe path agree with a `(version, folder)` pair of its package.
   */
  lemma GithubEntriesOrderedAndWellFormed(recipes: Recipes)
    ensures forall i, j :: 0 <= i < j < |GithubEntries(recipes)| ==>
      EntryOrder(GithubEntries(recipes)[i], GithubEntries(recipes)[j])
    ensures forall e :: e in GithubEntries(recipes) ==>
      e.packageReference == e.package + "/" + e.version &&
      e.package in recipes &&
      exists v :: v in recipes[e.package] && e.version == v.version &&
        e.conanfile == RecipesRoot + "/" + e.package + "/" + v.folder + "/conanfile.py"
  {
    var keys := SortedKeys(recipes.Keys);
    EntriesForOrdered(keys, recipes);
    forall e | e in GithubEntries(recipes)
      ensures e.packageReference == e.package + "/" + e.version && e.package in recipes &&
        exists v :: v in recipes[e.package] && e.version == v.version &&
          e.conanfile == RecipesRoot + "/" + e.package + "/" + v.folder + "/conanfile.py"
    {
      EntriesForFields(keys, recipes, e);
      var v :| v in recipes[e.package] && e == MakeEntry(e.package, v);
      assert e.version == v.version;
    }
  }

  /**
   * No version is dropped or repeated: the entries of each package are
   * exactly that package's versions, one entry each, versions descending;
   * a name that is not a package has none.
   */
  lemma GithubEntriesPerPackage(recipes: Recipes, package: string)
    ensures package in recipes ==>
      Filter(GithubEntries(recipes), ForPackage(package)) == PackageEntries(package, recipes[package]) &&
      |Filter(GithubEntries(recipes), ForPackage(package))| == |recipes[package]|
    ensures package !in recipes ==> Filter(GithubEntries(recipes), ForPackage(package)) == []
  {
    EntriesForOnePackage(SortedKeys(recipes.Keys), recipes, package);
  }

  function EntryVersion(e: Entry): (r: string) { e.version }

  /** The versions of one package's entries are its versions, each as often as it is listed. */
  lemma PackageEntriesVersions(package: string, versions: seq<VersionFolder>)
    ensures multiset(MapSeq(PackageEntries(package, versions), EntryVersion)) == multiset(Versions(versions))
  {
    var sorted := SortBy(versions, VersionOf, true);
    assert MapSeq(PackageEntries(package, versions), EntryVersion) == MapSeq(sorted, VersionOf);
    MapSeqSortBy(versions, VersionOf, true, VersionOf);
  }

  // ---------------------------------------------------------------------------
  // The plain output
  // ---------------------------------------------------------------------------

  function Identity(s: string): (r: string) { s }

  /** `line` lists `package` and, ascending and each as often as listed, the versions of `versions`. */
  ghost predicate ListsVersions(line: string, package: string, versions: seq<VersionFolder>)
  {
    exists sorted: seq<string> ::
      && line == package + ": " + Join(sorted, ", ")
      && SortedBy(sorted, Identity, false)
      && multiset(sorted) == multiset(Versions(versions))
  }

  /** `package: v1, v2, ...` with the versions ascending. */
  function PlainLine(package: string, versions: seq<VersionFolder>): (line: string)
    ensures ListsVersions(line, package, versions)
  {
    var sorted := SortBy(Versions(versions), Identity, false);
    SortBySorted(Versions(versions), Identity, false);
    package + ": " + Join(sorted, ", ")
  }

  /** The plain output: one line per package, packages ascending. */
  function PlainLines(recipes: Recipes): (lines: seq<string>)
    ensures |lines| == |SortedKeys(recipes.Keys)|
  {
    var keys := SortedKeys(recipes.Keys);
    seq(|keys|, i requires 0 <= i < |keys| => PlainLine(keys[i], recipes[keys[i]]))
  }

  /**
   * One line per package, in ascending package order; line `i` is the `i`-th
   * package name, `": "`, and that package's versions in ascending order
   * joined by `", "`.
   */
  lemma PlainLinesShape(recipes: Recipes)
    ensures |PlainLines(recipes)| == |recipes|
    ensures forall i :: 0 <= i < |PlainLines(recipes)| ==>
      var package := SortedKeys(recipes.Keys)[i];
      package in recipes && ListsVersions(PlainLines(recipes)[i], package, recipes[package])
    ensures forall i, j :: 0 <= i < j < |PlainLines(recipes)| ==>
      Less(SortedKeys(recipes.Keys)[i], SortedKeys(recipes.Keys)[j])
  {
    var keys := SortedKeys(recipes.Keys);
    assert |recipes.Keys| == |recipes|;
  }
}
