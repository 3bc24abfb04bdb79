/**
 * The package-reference listing of `scripts/list_package_references.py`: the
 * catalogue of every `name/version` found under `recipes/`, the include and
 * exclude selection, the packages touched by commits and the narrowing of the
 * selection to them.
 *
 * The directory listing, each recipe's parsed `config.yml`, the selection
 * file's parsed `packages` section and the text `git diff-tree` prints for
 * each commit are inputs.
 */
module PackageReferences {
  import opened Wrappers
  import opened Strings
  import opened Seqs
  import opened Glob

  /** A YAML value that is either one item or a list of items. */
  datatype Item<T> = One(item: T) | Many(items: seq<T>)

  /** `item_to_list`: a list stays as it is, a single item becomes a one-element list. */
  function ItemToList<T>(value: Item<T>): (r: seq<T>)
    ensures value.Many? ==> r == value.items
    ensures value.One? ==> r == [value.item]
  {
    match value
    case One(x) => [x]
    case Many(xs) => xs
  }

  // ---------------------------------------------------------------------------
  // The catalogue (get_package_infos)
  // ---------------------------------------------------------------------------

  /** One entry of the `versions` mapping of a recipe's `config.yml`. */
  datatype VersionFolder = VersionFolder(version: string, folder: string)

  /**
   * One entry of the listing of `recipes/`, in listing order: its name, whether
   * it is a directory, and its parsed `versions` (None when it has no
   * `config.yml` file).
   */
  datatype RecipeDir = RecipeDir(name: string, isDir: bool, versions: Option<seq<VersionFolder>>)

  datatype PackageInfo = PackageInfo(
    package: string,
    version: string,
    packageReference: string,
    directory: string,
    conanfile: string,
    testConanfile: string)

  const RecipesRoot: string := "recipes"

  /** The catalogue entry for one version of package `name`. */
  function MakeInfo(name: string, v: VersionFolder): (r: PackageInfo)
  {
    PackageInfo(name, v.version, name + "/" + v.version, RecipesRoot + "/" + name + "/" + v.folder,
                "conanfile.py", "test_package/conanfile.py")
  }

  /** What every catalogue entry satisfies: its reference is `package/version` and its paths are fixed. */
  predicate WellFormed(e: PackageInfo)
  {
    && e.packageReference == e.package + "/" + e.version
    && RecipesRoot + "/" + e.package + "/" <= e.directory
    && e.conanfile == "conanfile.py"
    && e.testConanfile == "test_package/conanfile.py"
  }

  /** The entries of one package, in the order of its `versions` mapping. */
  function RecipeInfos(name: string, versions: seq<VersionFolder>): (r: seq<PackageInfo>)
  {
    if versions == [] then []
    else RecipeInfos(name, versions[..|versions| - 1]) + [MakeInfo(name, versions[|versions| - 1])]
  }

  /** A listing entry contributes only when it is a directory with a `config.yml`. */
  function DirInfos(d: RecipeDir): (r: seq<PackageInfo>)
  {
    if d.isDir && d.versions.Some? then RecipeInfos(d.name, d.versions.value) else []
  }

  /** All entries, in listing order, before sorting. */
  function ListedInfos(dirs: seq<RecipeDir>): (r: seq<PackageInfo>)
  {
    ConcatMap(dirs, DirInfos)
  }

  function VersionKey(e: PackageInfo): (r: string) { e.version }

  function PackageKey(e: PackageInfo): (r: string) { e.package }

  /** The catalogue: the listed entries sorted by version, then (stably) by package. */
  function Catalogue(dirs: seq<RecipeDir>): (r: seq<PackageInfo>)
  {
    SortBy(SortBy(ListedInfos(dirs), VersionKey, false), PackageKey, false)
  }

  /** `a` may precede `b` when ordered by package name, then by version. */
  predicate PackageVersionOrder(a: PackageInfo, b: PackageInfo)
  {
    Less(a.package, b.package) || (a.package == b.package && LessEq(a.version, b.version))
  }

  predicate OrderedByPackageVersion(s: seq<PackageInfo>)
  {
    forall i, j :: 0 <= i < j < |s| ==> PackageVersionOrder(s[i], s[j])
  }

  lemma {:induction false} RecipeInfosWellFormed(name: string, versions: seq<VersionFolder>)
    ensures forall e :: e in RecipeInfos(name, versions) ==> WellFormed(e) && e.package == name
  {
    if versions != [] {
      RecipeInfosWellFormed(name, versions[..|versions| - 1]);
      var v := versions[|versions| - 1];
      var d := RecipesRoot + "/" + name + "/" + v.folder;
      assert d[..|RecipesRoot + "/" + name + "/"|] == RecipesRoot + "/" + name + "/";
    }
  }

  lemma ListedInfosWellFormed(dirs: seq<RecipeDir>)
    ensures forall e :: e in ListedInfos(dirs) ==> WellFormed(e)
  {
    forall e | e in ListedInfos(dirs)
      ensures WellFormed(e)
    {
      ConcatMapMembership(dirs, DirInfos, e);
      var i :| 0 <= i < |dirs| && e in DirInfos(dirs[i]);
      RecipeInfosWellFormed(dirs[i].name, dirs[i].versions.value);
    }
  }

  lemma {:induction false} RecipeInfosComplete(name: string, versions: seq<VersionFolder>, e: PackageInfo)
    ensures e in RecipeInfos(name, versions) <==> exists k :: 0 <= k < |versions| && e == MakeInfo(name, versions[k])
  {
    if versions != [] {
      var init := versions[..|versions| - 1];
      RecipeInfosComplete(name, init, e);
      if e == MakeInfo(name, versions[|versions| - 1]) {
        assert e in RecipeInfos(name, versions);
      }
      if exists k :: 0 <= k < |versions| && e == MakeInfo(name, versions[k]) {
        var k :| 0 <= k < |versions| && e == MakeInfo(name, versions[k]);
        if k < |versions| - 1 {
          assert init[k] == versions[k];
        }
      }
    }
  }

  /** Directory `d` has a `config.yml` whose `versions` include the one `e` describes. */
  predicate Provides(d: RecipeDir, e: PackageInfo)
  {
    d.isDir && d.versions.Some? &&
    exists k :: 0 <= k < |d.versions.value| && e == MakeInfo(d.name, d.versions.value[k])
  }

  /**
   * The listing yields exactly the entries of the `versions` of the
   * directories that have a `config.yml`: nothing is invented and nothing is
   * dropped.
   */
  lemma ListedInfosComplete(dirs: seq<RecipeDir>, e: PackageInfo)
    ensures e in ListedInfos(dirs) <==> exists i :: 0 <= i < |dirs| && Provides(dirs[i], e)
  {
    ConcatMapMembership(dirs, DirInfos, e);
    forall i | 0 <= i < |dirs|
      ensures e in DirInfos(dirs[i]) <==> Provides(dirs[i], e)
    {
      var d := dirs[i];
      if d.isDir && d.versions.Some? {
        RecipeInfosComplete(d.name, d.versions.value, e);
      }
    }
  }

  /** Inserting an entry whose version is at least every other one keeps the (package, version) order. */
  lemma ConsOrdered(y: PackageInfo, rest: seq<PackageInfo>)
    requires OrderedByPackageVersion(rest)
    requires forall z :: z in rest ==> PackageVersionOrder(y, z)
    ensures OrderedByPackageVersion([y] + rest)
  {
    var r := [y] + rest;
    forall i, j | 0 <= i < j < |r|
      ensures PackageVersionOrder(r[i], r[j])
    {
      assert r[j] == rest[j - 1];
      if i > 0 {
        assert r[i] == rest[i - 1];
      }
    }
  }

  lemma {:induction false} InsertByPackageKeepsOrder(s: seq<PackageInfo>, y: PackageInfo)
    requires OrderedByPackageVersion(s)
    requires forall z :: z in s ==> LessEq(z.version, y.version)
    ensures OrderedByPackageVersion(Insert(s, y, PackageKey, false))
  {
    if s != [] {
      if Before(PackageKey(y), PackageKey(s[0]), false) {
        assert Insert(s, y, PackageKey, false) == [y] + s;
        forall z | z in s
          ensures PackageVersionOrder(y, z)
        {
          var j :| 0 <= j < |s| && s[j] == z;
          if j > 0 {
            assert PackageVersionOrder(s[0], s[j]);
            LessLessEqTransitive(y.package, s[0].package, s[j].package);
          }
        }
        ConsOrdered(y, s);
      } else {
        var rest := Insert(s[1..], y, PackageKey, false);
        assert Insert(s, y, PackageKey, false) == [s[0]] + rest;
        assert OrderedByPackageVersion(s[1..]) by {
          forall i, j | 0 <= i < j < |s| - 1
            ensures PackageVersionOrder(s[1..][i], s[1..][j])
          {
            assert PackageVersionOrder(s[i + 1], s[j + 1]);
          }
        }
        InsertByPackageKeepsOrder(s[1..], y);
        LessEqTotal(y.package, s[0].package);
        assert PackageVersionOrder(s[0], y);
        forall z | z in rest
          ensures PackageVersionOrder(s[0], z)
        {
          assert z in multiset(rest);
          if z != y {
            assert z in multiset(s[1..]);
            var j :| 0 <= j < |s[1..]| && s[1..][j] == z;
            assert PackageVersionOrder(s[0], s[j + 1]);
          }
        }
        ConsOrdered(s[0], rest);
      }
    }
  }

  /** Stably sorting a version-sorted list by package orders it by (package, version). */
  lemma {:induction false} SortByPackageAfterVersion(s: seq<PackageInfo>)
    requires SortedBy(s, VersionKey, false)
    ensures OrderedByPackageVersion(SortBy(s, PackageKey, false))
  {
    if s != [] {
      var init := s[..|s| - 1];
      var y := s[|s| - 1];
      SortByPackageAfterVersion(init);
      var sorted := SortBy(init, PackageKey, false);
      forall z | z in sorted
        ensures LessEq(z.version, y.version)
      {
        assert z in multiset(sorted);
        var i :| 0 <= i < |init| && init[i] == z;
        assert s[i] == z;
      }
      InsertByPackageKeepsOrder(sorted, y);
    }
  }

  /** The two sorts of get_package_infos leave the catalogue ordered by (package, version). */
  lemma CatalogueOrdered(dirs: seq<RecipeDir>)
    ensures OrderedByPackageVersion(Catalogue(dirs))
  {
    SortBySorted(ListedInfos(dirs), VersionKey, false);
    SortByPackageAfterVersion(SortBy(ListedInfos(dirs), VersionKey, false));
  }

  /** get_package_infos: lists the recipe directories, collects their versions, then sorts twice. */
  method GetPackageInfos(dirs: seq<RecipeDir>) returns (infos: seq<PackageInfo>)
    ensures infos == Catalogue(dirs)
    ensures OrderedByPackageVersion(infos)
    ensures multiset(infos) == multiset(ListedInfos(dirs))
    ensures forall e :: e in infos ==> WellFormed(e)
  {
    var listed: seq<PackageInfo> := [];
    for i := 0 to |dirs|
      invariant listed == ListedInfos(dirs[..i])
    {
      assert dirs[..i + 1][..i] == dirs[..i];
      var dir := dirs[i];
      if !dir.isDir {
        continue;
      }
      if dir.versions.None? {
        continue;
      }
      var versions := dir.versions.value;
      for j := 0 to |versions|
        invariant listed == ListedInfos(dirs[..i]) + RecipeInfos(dir.name, versions[..j])
      {
        assert versions[..j + 1][..j] == versions[..j];
        listed := listed + [MakeInfo(dir.name, versions[j])];
      }
      assert versions[..|versions|] == versions;
    }
    assert dirs[..|dirs|] == dirs;
    infos := SortBy(listed, VersionKey, false);
    infos := SortBy(infos, PackageKey, false);
    CatalogueOrdered(dirs);
    CatalogueWellFormed(dirs);
  }

  /** The catalogue holds the listed entries, each as often as listed, all well formed. */
  lemma CatalogueWellFormed(dirs: seq<RecipeDir>)
    ensures multiset(Catalogue(dirs)) == multiset(ListedInfos(dirs))
    ensures forall e :: e in Catalogue(dirs) ==> WellFormed(e)
  {
    ListedInfosWellFormed(dirs);
    forall e | e in Catalogue(dirs)
      ensures WellFormed(e)
    {
      assert e in multiset(Catalogue(dirs));
    }
  }

  // ---------------------------------------------------------------------------
  // Include / exclude selection (get_selected_packages)
  // ---------------------------------------------------------------------------

  /** The `packages` section of the selection file: optional `include` and `exclude` keys. */
  datatype PackageSelection = PackageSelection(includes: Option<Item<string>>, excludes: Option<Item<string>>)

  datatype Patterns = Patterns(includes: seq<string>, excludes: seq<string>)

  /**
   * The pattern lists before the include default: the caller's lists, unless
   * both are empty and a selection file is given, in which case the file's.
   */
  function ChosenPatterns(config: Option<PackageSelection>, includes: seq<string>, excludes: seq<string>): (r: Patterns)
    ensures config.None? || includes != [] || excludes != [] ==> r == Patterns(includes, excludes)
    ensures config.Some? && includes == [] && excludes == [] ==>
      r.includes == ItemToList(config.value.includes.GetOr(Many([]))) &&
      r.excludes == ItemToList(config.value.excludes.GetOr(Many([])))
  {
    if config.Some? && includes == [] && excludes == [] then
      Patterns(ItemToList(config.value.includes.GetOr(Many([]))), ItemToList(config.value.excludes.GetOr(Many([]))))
    else Patterns(includes, excludes)
  }

  /** An empty include list means `["*"]`. */
  function DefaultInclude(includes: seq<string>): (r: seq<string>)
    ensures r != []
    ensures includes == [] ==> r == ["*"]
    ensures includes != [] ==> r == includes
  {
    if includes == [] then ["*"] else includes
  }

  function ResolvePatterns(config: Option<PackageSelection>, includes: seq<string>, excludes: seq<string>): (r: Patterns)
  {
    var chosen := ChosenPatterns(config, includes, excludes);
    Patterns(DefaultInclude(chosen.includes), chosen.excludes)
  }

  /** A reference is kept when some include pattern and no exclude pattern matches it. */
  predicate IsSelected(reference: string, patterns: Patterns)
  {
    MatchesAny(reference, patterns.includes) && !MatchesAny(reference, patterns.excludes)
  }

  function Selects(patterns: Patterns): (r: string -> bool)
  {
    reference => IsSelected(reference, patterns)
  }

  /** get_selected_packages: the references passing the resolved patterns, in input order. */
  method GetSelectedPackages(references: seq<string>, config: Option<PackageSelection>,
                             includes: seq<string>, excludes: seq<string>) returns (result: seq<string>)
    ensures result == Filter(references, Selects(ResolvePatterns(config, includes, excludes)))
    ensures Subseq(result, references)
    ensures forall r :: r in result <==> r in references && IsSelected(r, ResolvePatterns(config, includes, excludes))
  {
    var patterns := ResolvePatterns(config, includes, excludes);
    result := [];
    for i := 0 to |references|
      invariant result == Filter(references[..i], Selects(patterns))
    {
      assert references[..i + 1] == references[..i] + [references[i]];
      FilterSnoc(references[..i], references[i], Selects(patterns));
      if !MatchesAny(references[i], patterns.includes) {
        continue;
      }
      if MatchesAny(references[i], patterns.excludes) {
        continue;
      }
      result := result + [references[i]];
    }
    assert references[..|references|] == references;
    FilterIsSubseq(references, Selects(patterns));
    forall r
      ensures r in result <==> r in references && IsSelected(r, patterns)
    {
      FilterMembership(references, Selects(patterns), r);
    }
  }

  /** With no include pattern from the caller or the file, only exclude patterns can drop a reference. */
  lemma NoIncludeMeansExcludeOnly(references: seq<string>, config: Option<PackageSelection>,
                                  includes: seq<string>, excludes: seq<string>, r: string)
    requires ChosenPatterns(config, includes, excludes).includes == []
    ensures r in Filter(references, Selects(ResolvePatterns(config, includes, excludes))) <==>
      r in references && !MatchesAny(r, ChosenPatterns(config, includes, excludes).excludes)
  {
    var patterns := ResolvePatterns(config, includes, excludes);
    assert patterns.includes == ["*"];
    StarInListMatchesEverything(r, patterns.includes);
    FilterMembership(references, Selects(patterns), r);
  }

  // ---------------------------------------------------------------------------
  // Packages touched by commits
  // ---------------------------------------------------------------------------

  function IsNonEmpty(s: string): (r: bool) { s != "" }

  /** get_files_in_commit after the subprocess: the non-empty lines of the diff output. */
  function FilesInCommit(output: string): (files: seq<string>)
    ensures forall f :: f in files ==> f != "" && '\n' !in f
  {
    var lines := Split(output, '\n');
    var files := Filter(lines, IsNonEmpty);
    assert forall f :: f in files ==> f != "" && '\n' !in f by {
      forall f | f in files
        ensures f != "" && '\n' !in f
      {
        FilterMembership(lines, IsNonEmpty, f);
      }
    }
    files
  }

  /** The output git prints: each line followed by a newline. */
  function Terminated(lines: seq<string>): (r: string)
  {
    if lines == [] then "" else lines[0] + "\n" + Terminated(lines[1..])
  }

  lemma {:induction false} SplitTerminated(lines: seq<string>)
    requires forall l :: l in lines ==> '\n' !in l
    ensures Split(Terminated(lines), '\n') == lines + [""]
  {
    if lines != [] {
      SplitTerminated(lines[1..]);
      SplitAfterPiece(lines[0], '\n', Terminated(lines[1..]));
      assert lines == [lines[0]] + lines[1..];
    }
  }

  /** The file list read back from git's output is the list of files git printed. */
  lemma FilesInCommitRoundTrip(lines: seq<string>)
    requires forall l :: l in lines ==> l != "" && '\n' !in l
    ensures FilesInCommit(Terminated(lines)) == lines
  {
    SplitTerminated(lines);
    FilterAll(lines, IsNonEmpty);
    FilterSnoc(lines, "", IsNonEmpty);
  }

  /** A path component that pathlib keeps: not empty and not `.`. */
  function IsComponent(c: string): (r: bool) { c != "" && c != "." }

  /** The root part pathlib gives an absolute path: `//` for exactly two leading slashes, else `/`. */
  function Root(path: string): (r: string)
  {
    if |path| >= 2 && path[1] == '/' && (|path| == 2 || path[2] != '/') then "//" else "/"
  }

  /**
   * `pathlib.PurePosixPath(path).parts`: an absolute path starts with its
   * root, `/` or `//`; every other part is a non-empty name other than `.`
   * holding no `/`.
   */
  function PathParts(path: string): (parts: seq<string>)
    ensures |path| > 0 && path[0] == '/' ==> parts != [] && (parts[0] == "/" || parts[0] == "//")
    ensures forall i :: (if |path| > 0 && path[0] == '/' then 1 else 0) <= i < |parts| ==>
      IsComponent(parts[i]) && '/' !in parts[i]
  {
    var root := if |path| > 0 && path[0] == '/' then [Root(path)] else [];
    var names := Filter(Split(path, '/'), IsComponent);
    assert forall x :: x in names ==> IsComponent(x) && '/' !in x by {
      forall x | x in names
        ensures IsComponent(x) && '/' !in x
      {
        FilterMembership(Split(path, '/'), IsComponent, x);
      }
    }
    root + names
  }

  /**
   * The package a changed path belongs to: the part after `recipes` when there
   * are at least three parts. It is a single path name, and an absolute path
   * belongs to no package.
   */
  function PackageOfPath(path: string): (r: Option<string>)
    ensures r.Some? ==> IsComponent(r.value) && '/' !in r.value
    ensures |path| > 0 && path[0] == '/' ==> r.None?
  {
    var parts := PathParts(path);
    if |parts| >= 3 && parts[0] == RecipesRoot then Some(parts[1]) else None
  }

  /** Two plain components in front of a relative path become its first two parts. */
  lemma PathPartsOfTwoComponents(first: string, name: string, rest: string)
    requires IsComponent(first) && '/' !in first
    requires IsComponent(name) && '/' !in name
    requires rest != [] && rest[0] != '/'
    ensures PathParts(first + "/" + name + "/" + rest) == [first, name] + PathParts(rest)
  {
    var tail := name + "/" + rest;
    var path := first + "/" + name + "/" + rest;
    var names := Split(rest, '/');
    assert path == first + ['/'] + tail;
    assert path[0] != '/';
    SplitAfterPiece(first, '/', tail);
    SplitAfterPiece(name, '/', rest);
    assert Split(path, '/') == [first, name] + names by {
      assert [first] + ([name] + names) == [first, name] + names;
    }
    assert Filter(Split(path, '/'), IsComponent) == [first, name] + Filter(names, IsComponent) by {
      FilterConcat([first, name], names, IsComponent);
      FilterAll([first, name], IsComponent);
    }
    assert PathParts(rest) == Filter(names, IsComponent);
  }

  /** The first name of a relative path is its first part; the parts of the rest follow. */
  lemma PathPartsPeel(first: string, rest: string)
    requires IsComponent(first) && '/' !in first
    requires rest == [] || rest[0] != '/'
    ensures PathParts(first + "/" + rest) == [first] + PathParts(rest)
  {
    var path := first + "/" + rest;
    var names := Split(rest, '/');
    assert path == first + ['/'] + rest;
    assert path[0] != '/';
    SplitAfterPiece(first, '/', rest);
    assert Filter(Split(path, '/'), IsComponent) == [first] + Filter(names, IsComponent) by {
      FilterConcat([first], names, IsComponent);
      FilterAll([first], IsComponent);
    }
  }

  /** A single name is a path of one part, so a file at the top level belongs to no package. */
  lemma PathPartsOfName(name: string)
    requires IsComponent(name) && '/' !in name
    ensures PathParts(name) == [name]
    ensures PackageOfPath(name) == None
  {
    SplitWithoutSeparator(name, '/');
    FilterAll([name], IsComponent);
    assert name[0] != '/';
  }

  /** A path whose first name is not `recipes` belongs to no package. */
  lemma NonRecipePathHasNoPackage(first: string, rest: string)
    requires IsComponent(first) && '/' !in first && first != RecipesRoot
    ensures PackageOfPath(first + "/" + rest) == None
  {
    var path := first + "/" + rest;
    assert path == first + ['/'] + rest;
    SplitAfterPiece(first, '/', rest);
    FilterConcat([first], Split(rest, '/'), IsComponent);
    FilterAll([first], IsComponent);
    assert path[0] != '/';
  }

  /** The recipe folder itself, `recipes/<name>`, has only two parts and so belongs to no package. */
  lemma RecipeFolderHasNoPackage(name: string)
    requires IsComponent(name) && '/' !in name
    ensures PackageOfPath(RecipesRoot + "/" + name) == None
  {
    var path := RecipesRoot + "/" + name;
    assert path == RecipesRoot + ['/'] + name;
    assert '/' !in RecipesRoot;
    SplitAfterPiece(RecipesRoot, '/', name);
    SplitWithoutSeparator(name, '/');
    FilterAll([RecipesRoot, name], IsComponent);
    assert path[0] != '/';
  }

  /** Any path `recipes/<name>/<something>` is attributed to package `name`. */
  lemma RecipePathPackage(name: string, rest: string)
    requires IsComponent(name) && '/' !in name
    requires rest != [] && rest[0] != '/' && PathParts(rest) != []
    ensures PackageOfPath(RecipesRoot + "/" + name + "/" + rest) == Some(name)
  {
    PathPartsOfTwoComponents(RecipesRoot, name, rest);
  }

  function OptionToSeq<T>(o: Option<T>): (r: seq<T>)
  {
    match o
    case Some(x) => [x]
    case None => []
  }

  /** The package of one changed file, as a list of zero or one names. */
  function PackageOfFile(path: string): (r: seq<string>)
    ensures forall p :: p in r <==> PackageOfPath(path) == Some(p)
  {
    OptionToSeq(PackageOfPath(path))
  }

  /** The packages of a list of changed files, one per recipe file, in file order. */
  function PackagesOfFiles(files: seq<string>): (r: seq<string>)
  {
    ConcatMap(files, PackageOfFile)
  }

  /** A package is reported exactly when some changed file lies in its recipe folder. */
  lemma PackagesOfFilesMembership(files: seq<string>, p: string)
    ensures p in PackagesOfFiles(files) <==> exists i :: 0 <= i < |files| && PackageOfPath(files[i]) == Some(p)
  {
    ConcatMapMembership(files, PackageOfFile, p);
    assert forall i :: 0 <= i < |files| ==> (p in PackageOfFile(files[i]) <==> PackageOfPath(files[i]) == Some(p));
  }

  function PackagesInDiff(output: string): (r: seq<string>)
  {
    PackagesOfFiles(FilesInCommit(output))
  }

  /** get_packages_in_commit, with the diff output of the commit as input. */
  method GetPackagesInCommit(output: string) returns (packages: seq<string>)
    ensures packages == PackagesInDiff(output)
    ensures forall p :: p in packages <==>
      exists f :: f in FilesInCommit(output) && PackageOfPath(f) == Some(p)
  {
    var files := FilesInCommit(output);
    packages := [];
    for i := 0 to |files|
      invariant packages == PackagesOfFiles(files[..i])
    {
      assert files[..i + 1][..i] == files[..i];
      assert PackagesOfFiles(files[..i + 1]) == PackagesOfFiles(files[..i]) + PackageOfFile(files[i]);
      var parts := PathParts(files[i]);
      if |parts| >= 3 && parts[0] == RecipesRoot {
        packages := packages + [parts[1]];
      }
    }
    assert files[..|files|] == files;
    forall p
      ensures p in packages <==> exists f :: f in files && PackageOfPath(f) == Some(p)
    {
      PackagesOfFilesMembership(files, p);
    }
  }

  /** The concatenation of the per-commit package lists, in commit order. */
  function ModifiedPackages(outputs: seq<string>): (r: seq<string>)
  {
    ConcatMap(outputs, PackagesInDiff)
  }

  lemma ModifiedPackagesMembership(outputs: seq<string>, p: string)
    ensures p in ModifiedPackages(outputs) <==> exists i :: 0 <= i < |outputs| && p in PackagesInDiff(outputs[i])
  {
    ConcatMapMembership(outputs, PackagesInDiff, p);
  }

  /** get_modified_packages_in_commits, with one diff output per commit id, in commit order. */
  method GetModifiedPackagesInCommits(outputs: seq<string>) returns (packages: seq<string>)
    ensures packages == ModifiedPackages(outputs)
    ensures forall p :: p in packages <==> exists i :: 0 <= i < |outputs| && p in PackagesInDiff(outputs[i])
  {
    packages := [];
    for i := 0 to |outputs|
      invariant packages == ModifiedPackages(outputs[..i])
    {
      assert outputs[..i + 1][..i] == outputs[..i];
      var inCommit := GetPackagesInCommit(outputs[i]);
      assert ModifiedPackages(outputs[..i + 1]) == ModifiedPackages(outputs[..i]) + PackagesInDiff(outputs[i]);
      packages := packages + inCommit;
    }
    assert outputs[..|outputs|] == outputs;
    forall p
      ensures p in packages <==> exists i :: 0 <= i < |outputs| && p in PackagesInDiff(outputs[i])
    {
      ModifiedPackagesMembership(outputs, p);
    }
  }

  // ---------------------------------------------------------------------------
  // main: narrowing to modified packages and the output selection
  // ---------------------------------------------------------------------------

  /** The reference names a modified package: its text before the first `/` is in `modified`. */
  function IsModifiedReference(modified: seq<string>): (r: string -> bool)
  {
    reference => FirstSegment(reference) in modified
  }

  /** The loop of main that keeps the selected references of modified packages. */
  method NarrowToModified(selected: seq<string>, modified: seq<string>) returns (result: seq<string>)
    ensures result == Filter(selected, IsModifiedReference(modified))
    ensures Subseq(result, selected)
    ensures forall r :: r in result <==> r in selected && FirstSegment(r) in modified
  {
    result := [];
    for i := 0 to |selected|
      invariant result == Filter(selected[..i], IsModifiedReference(modified))
    {
      assert selected[..i + 1] == selected[..i] + [selected[i]];
      FilterSnoc(selected[..i], selected[i], IsModifiedReference(modified));
      if FirstSegment(selected[i]) in modified {
        result := result + [selected[i]];
      }
    }
    assert selected[..|selected|] == selected;
    FilterIsSubseq(selected, IsModifiedReference(modified));
    forall r
      ensures r in result <==> r in selected && FirstSegment(r) in modified
    {
      FilterMembership(selected, IsModifiedReference(modified), r);
    }
  }

  function HasSelectedReference(selected: seq<string>): (r: PackageInfo -> bool)
  {
    (e: PackageInfo) => e.packageReference in selected
  }

  function References(infos: seq<PackageInfo>): (refs: seq<string>)
    ensures |refs| == |infos|
    ensures forall i :: 0 <= i < |infos| ==> refs[i] == infos[i].packageReference
  {
    seq(|infos|, i requires 0 <= i < |infos| => infos[i].packageReference)
  }

  /** What main computes: the selected references and, for the output file, their catalogue entries. */
  datatype Listing = Listing(references: seq<string>, infos: seq<PackageInfo>)

  function SelectedReferences(dirs: seq<RecipeDir>, config: Option<PackageSelection>,
                              includes: seq<string>, excludes: seq<string>, outputs: seq<string>): seq<string>
  {
    var selected := Filter(References(Catalogue(dirs)), Selects(ResolvePatterns(config, includes, excludes)));
    if outputs != [] then Filter(selected, IsModifiedReference(ModifiedPackages(outputs))) else selected
  }

  /**
   * main: catalogue, pattern selection, narrowing to the packages of the given
   * commits (when there are any) and the catalogue entries of what remains.
   */
  method ListPackageReferences(dirs: seq<RecipeDir>, config: Option<PackageSelection>,
                               includes: seq<string>, excludes: seq<string>, outputs: seq<string>)
    returns (listing: Listing)
    ensures listing.references == SelectedReferences(dirs, config, includes, excludes, outputs)
    ensures listing.infos == Filter(Catalogue(dirs), HasSelectedReference(listing.references))
    ensures OrderedByPackageVersion(listing.infos)
  {
    var infos := GetPackageInfos(dirs);
    var references := References(infos);
    var selected := GetSelectedPackages(references, config, includes, excludes);
    if outputs != [] {
      var modified := GetModifiedPackagesInCommits(outputs);
      selected := NarrowToModified(selected, modified);
    }
    var selectedInfos := Filter(infos, HasSelectedReference(selected));
    FilterKeepsPairwise(infos, HasSelectedReference(selected), PackageVersionOrder);
    listing := Listing(selected, selectedInfos);
  }

  /**
   * A catalogue entry is listed exactly when the patterns select its reference
   * and, when commits are given, one of them touched its recipe folder.
   */
  lemma ListedEntryCharacterisation(dirs: seq<RecipeDir>, config: Option<PackageSelection>,
                                    includes: seq<string>, excludes: seq<string>, outputs: seq<string>,
                                    e: PackageInfo)
    requires e in Catalogue(dirs) && '/' !in e.package
    ensures e.packageReference in SelectedReferences(dirs, config, includes, excludes, outputs) <==>
      IsSelected(e.packageReference, ResolvePatterns(config, includes, excludes)) &&
      (outputs == [] || exists i :: 0 <= i < |outputs| && e.package in PackagesInDiff(outputs[i]))
  {
    var catalogue := Catalogue(dirs);
    var patterns := ResolvePatterns(config, includes, excludes);
    var refs := References(catalogue);
    var k :| 0 <= k < |catalogue| && catalogue[k] == e;
    assert refs[k] == e.packageReference;
    FilterMembership(refs, Selects(patterns), e.packageReference);
    if outputs != [] {
      var selected := Filter(refs, Selects(patterns));
      var modified := ModifiedPackages(outputs);
      FilterMembership(selected, IsModifiedReference(modified), e.packageReference);
      assert e in multiset(catalogue);
      ListedInfosWellFormed(dirs);
      assert e in ListedInfos(dirs);
      FirstSegmentOfReference(e.package, e.version);
      ModifiedPackagesMembership(outputs, e.package);
    }
  }

  /** Every listed reference is the reference of a catalogue entry: nothing is invented. */
  lemma ListedReferencesComeFromCatalogue(dirs: seq<RecipeDir>, config: Option<PackageSelection>,
                                          includes: seq<string>, excludes: seq<string>, outputs: seq<string>)
    ensures Subseq(SelectedReferences(dirs, config, includes, excludes, outputs), References(Catalogue(dirs)))
  {
    var refs := References(Catalogue(dirs));
    var selected := Filter(refs, Selects(ResolvePatterns(config, includes, excludes)));
    FilterIsSubseq(refs, Selects(ResolvePatterns(config, includes, excludes)));
    if outputs != [] {
      var modified := ModifiedPackages(outputs);
      FilterIsSubseq(selected, IsModifiedReference(modified));
      SubseqTransitive(Filter(selected, IsModifiedReference(modified)), selected, refs);
    }
  }

  /**
   * A commit changing one file `recipes/<name>/<folder>/<file>` yields exactly
   * the package `name` (for instance `recipes/libx/all/conanfile.py` yields `libx`).
   */
  lemma ChangedRecipeFile(name: string, folder: string, file: string)
    requires IsComponent(name) && '/' !in name && '\n' !in name
    requires IsComponent(folder) && '/' !in folder && '\n' !in folder
    requires '\n' !in file
    ensures PackagesInDiff(RecipesRoot + "/" + name + "/" + folder + "/" + file + "\n") == [name]
  {
    var prefix := RecipesRoot + "/" + name + "/";
    var path := prefix + folder + "/" + file;
    AppendAssoc(prefix, folder + "/", file);
    AppendAssoc(prefix, folder, "/");
    RecipeFilePackage(name, folder, file);
    assert '\n' !in RecipesRoot;
    SingleFileDiff(path);
  }

  lemma AppendAssoc(a: string, b: string, c: string)
    ensures a + (b + c) == a + b + c
  {
  }

  /** A file two levels below a recipe folder belongs to that recipe's package. */
  lemma RecipeFilePackage(name: string, folder: string, file: string)
    requires IsComponent(name) && '/' !in name
    requires IsComponent(folder) && '/' !in folder
    ensures PackageOfPath(RecipesRoot + "/" + name + "/" + (folder + "/" + file)) == Some(name)
  {
    var rest := folder + "/" + file;
    SplitAfterPiece(folder, '/', file);
    FilterConcat([folder], Split(file, '/'), IsComponent);
    FilterAll([folder], IsComponent);
    RecipePathPackage(name, rest);
  }

  /** A diff output naming one file reports that file's package, if it has one. */
  lemma SingleFileDiff(path: string)
    requires path != "" && '\n' !in path
    ensures PackagesInDiff(path + "\n") == PackageOfFile(path)
  {
    assert Terminated([path]) == path + "\n" by {
      assert [path][1..] == [];
    }
    FilesInCommitRoundTrip([path]);
    assert [path][..0] == [];
    assert PackagesOfFiles([path]) == PackagesOfFiles([]) + PackageOfFile(path);
  }

  /** A diff output naming one file outside `recipes/` reports no package. */
  lemma NonRecipeFileDiff(first: string, rest: string)
    requires IsComponent(first) && '/' !in first && first != RecipesRoot
    requires '\n' !in first && '\n' !in rest
    ensures PackagesInDiff(first + "/" + rest + "\n") == []
  {
    NonRecipePathHasNoPackage(first, rest);
    SingleFileDiff(first + "/" + rest);
  }
}
