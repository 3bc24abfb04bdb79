# Recipe build selection, modelled in Dafny

This project models the three Python scripts that decide what the recipe
repository builds and how it reports its recipes:

- `scripts/list_package_references.py` builds the catalogue of every
  `name/version` under `recipes/`, sorted by package and then version. It
  keeps the references that pass the include and exclude patterns. When
  commit ids are given, it narrows those to packages whose recipe folder a
  commit touched, and lists the catalogue entries of what remains.
- `scripts/list_build_matrix.py` filters 18 fixed build configurations
  (12 Android ones plus macOS, Ubuntu and Windows) for one package reference.
  It uses platform and profile patterns and a list of rules in which the last
  matching `include` or `exclude` rule wins.
- `scripts/list_package_versions.py` prints every version of every recipe. It
  produces either GitHub Actions matrix entries (packages ascending, versions
  descending) or one plain line per package (versions ascending).

Module layout:

| module | file | contents |
|---|---|---|
| `Wrappers` | `wrappers.dfy` | `Option` |
| `Strings` | `strings.dfy` | Python's string order, `str.split` on one character, `str.join` |
| `Seqs` | `seqs.dfy` | the order-preserving filter, the subsequence relation, concatenation of per-element lists, and Python's stable `sorted` (insertion sort) |
| `Glob` | `glob.dfy` | `fnmatch.fnmatch` on POSIX, by parsing a pattern into tokens and matching them; a class whose reversed leading range is followed by `!` differs (see Left out) |
| `PackageReferences` | `package_references.dfy` | the first script |
| `BuildMatrix` | `build_matrix.dfy` | the second script |
| `PackageVersions` | `package_versions.dfy` | the third script |

The imperative parts are `method`s proved against specification functions:
- the directory loop of `get_package_infos`;
- the filtering loops of `get_selected_packages`, `get_packages_in_commit` and `get_modified_packages_in_commits`;
- the narrowing loop in `main`;
- the rule loop of `check_and_append`;
- the sequence of `check_and_append` calls in `get_build_matrix`.

`check_and_append` appends to the enclosing function's list. It is modelled
as a method that takes the list and returns the extended one.

The pure output construction of `list_package_versions.py` is made of
functions and lemmas.

Inputs that come from outside are parameters:
- the listing of `recipes/` and each recipe's parsed `config.yml`;
- the parsed selection file;
- the text `git diff-tree --name-only` prints for each commit;
- the package-to-versions map of `list_package_versions.py`.

## Model

| member | source | states |
|---|---|---|
| PackageReferences.ItemToList | scripts/list_package_references.py:14-17 | a list stays as it is, a single item becomes a one-element list |
| PackageReferences.GetPackageInfos | scripts/list_package_references.py:20-54 | the catalogue is the listed entries sorted by version and then stably by package; it is ordered by (package, version), is a permutation of the listed entries, and every entry has reference `package/version`, directory under `recipes/<package>/` and the fixed conanfile paths |
| PackageReferences.RecipeInfosWellFormed | scripts/list_package_references.py:35-49 | every entry of one recipe names that recipe, has reference `name/version` and a directory under `recipes/<name>/` |
| PackageReferences.ListedInfosWellFormed | scripts/list_package_references.py:23-49 | every collected entry is well formed |
| PackageReferences.RecipeInfosComplete | scripts/list_package_references.py:35-49 | an entry belongs to a recipe's list exactly when it is built from one of that recipe's `(version, folder)` pairs |
| PackageReferences.ListedInfosComplete | scripts/list_package_references.py:23-49 | an entry is collected exactly when some listing entry that is a directory with a `config.yml` provides it; other entries contribute nothing |
| PackageReferences.InsertByPackageKeepsOrder | scripts/list_package_references.py:51-52 | stable insertion by package of an entry whose version is at least every version already in the list keeps that list ordered by (package, version) |
| PackageReferences.SortByPackageAfterVersion | scripts/list_package_references.py:51-52 | sorting a version-sorted list stably by package gives (package, version) order |
| PackageReferences.CatalogueOrdered | scripts/list_package_references.py:51-52 | the catalogue is ordered by package, and by version within a package |
| PackageReferences.CatalogueWellFormed | scripts/list_package_references.py:23-52 | the sorted catalogue holds the collected entries, each as often as collected, and all of them are well formed |
| PackageReferences.ChosenPatterns | scripts/list_package_references.py:60-70 | the caller's patterns are used unless both lists are empty and a selection file is given; then the file's `include`/`exclude`, a missing key meaning none |
| PackageReferences.DefaultInclude | scripts/list_package_references.py:72-73 | an empty include list becomes `["*"]`; a non-empty one is kept |
| PackageReferences.GetSelectedPackages | scripts/list_package_references.py:57-89 | the result is the references matched by some include and no exclude pattern, in input order; an order-preserving subsequence of the input |
| PackageReferences.NoIncludeMeansExcludeOnly | scripts/list_package_references.py:72-86 | with no include pattern, a reference is kept exactly when no exclude pattern matches it |
| PackageReferences.FilesInCommit | scripts/list_package_references.py:99 | the files of a commit are non-empty and contain no newline |
| PackageReferences.SplitTerminated | scripts/list_package_references.py:99 | splitting newline-terminated lines gives the lines plus one trailing empty string |
| PackageReferences.FilesInCommitRoundTrip | scripts/list_package_references.py:92-99 | reading back git's newline-terminated file list gives exactly the files printed |
| PackageReferences.PathPartsOfTwoComponents | scripts/list_package_references.py:105 | the path parts of `a/b/rest` are `a`, `b` and the parts of `rest` |
| PackageReferences.PathPartsPeel | scripts/list_package_references.py:105 | the first name of a relative path is its first part, followed by the parts of the rest |
| PackageReferences.PathParts | scripts/list_package_references.py:105 | `Path(file).parts`: an absolute path starts with its root `/` or `//`; every other part is a non-empty name other than `.` with no `/` in it |
| PackageReferences.PackageOfPath | scripts/list_package_references.py:105-108 | the package a changed file is attributed to is a single path name, and an absolute path is attributed to none |
| PackageReferences.PathPartsOfName | scripts/list_package_references.py:105-108 | a single name is one path part, so a top-level file belongs to no package |
| PackageReferences.NonRecipePathHasNoPackage | scripts/list_package_references.py:106 | a path whose first part is not `recipes` belongs to no package |
| PackageReferences.RecipeFolderHasNoPackage | scripts/list_package_references.py:106 | `recipes/<name>` has two parts, fewer than three, and belongs to no package |
| PackageReferences.RecipePathPackage | scripts/list_package_references.py:105-108 | a path `recipes/<name>/<rest>` belongs to package `name` |
| PackageReferences.PackagesOfFilesMembership | scripts/list_package_references.py:102-109 | a package is reported exactly when one of the changed files belongs to it |
| PackageReferences.GetPackagesInCommit | scripts/list_package_references.py:102-109 | the packages of the changed files, one per file that `PackageOfPath` attributes, in file order, and a package is reported exactly when some changed file is attributed to it |
| PackageReferences.ModifiedPackagesMembership | scripts/list_package_references.py:112-117 | a package is modified exactly when one of the commits reports it |
| PackageReferences.GetModifiedPackagesInCommits | scripts/list_package_references.py:112-117 | the per-commit package lists concatenated in commit order; a package is in it exactly when some commit reports it |
| PackageReferences.NarrowToModified | scripts/list_package_references.py:217-223 | keeps, in order, exactly the selected references whose text before the first `/` is a modified package |
| PackageReferences.References | scripts/list_package_references.py:207-209 | one reference per catalogue entry, in catalogue order |
| PackageReferences.ListPackageReferences | scripts/list_package_references.py:194-235 | the printed references are the selected ones, narrowed when commit ids are given; the output-file entries are the catalogue entries whose reference was printed, still in (package, version) order |
| PackageReferences.ListedEntryCharacterisation | scripts/list_package_references.py:206-223 | a catalogue entry is listed exactly when the patterns select its reference and, if there are commits, one of them touched its recipe |
| PackageReferences.ListedReferencesComeFromCatalogue | scripts/list_package_references.py:206-223 | the listed references are an order-preserving subsequence of the catalogue's references |
| PackageReferences.ChangedRecipeFile | scripts/list_package_references.py:92-109 | a commit changing `recipes/<name>/<folder>/<file>` yields exactly the package `name` |
| PackageReferences.SingleFileDiff | scripts/list_package_references.py:92-109 | a diff output naming one file reports exactly the package `PackageOfPath` attributes to that file, or nothing when it attributes none |
| PackageReferences.NonRecipeFileDiff | scripts/list_package_references.py:92-109 | a diff output naming one file whose first path name is not `recipes` reports no package |
| Strings.LessIsLexicographic | scripts/list_package_references.py:51-52 | the string order `sorted` uses is lexicographic by code point: after a common prefix, a string that ends sorts first, otherwise the smaller next code point does |
| Strings.Split | scripts/list_package_references.py:99 | `str.split`: at least one part, and no part contains the separator |
| Strings.JoinSplit | scripts/list_package_references.py:99 | joining the parts of a split with the separator gives back the string |
| Strings.FirstSegment | scripts/list_package_references.py:221 | `split("/")[0]` contains no `/` |
| Strings.FirstSegmentOfReference | scripts/list_package_references.py:221 | the first segment of `name/version` is `name` |
| Seqs.FilterIsSubseq | scripts/list_package_references.py:75-89 | a filtering loop's result is an order-preserving subsequence of its input |
| Seqs.FilterMembership | scripts/list_package_references.py:75-89 | an element survives a filtering loop exactly when it is in the input and passes the test |
| Seqs.FilterKeepsPairwise | scripts/list_package_references.py:230-234 | filtering keeps any order that held between earlier and later elements |
| Seqs.ConcatMapMembership | scripts/list_package_references.py:114-116 | an element is in a concatenation of per-item lists exactly when it is in one of them |
| Seqs.SortBy | scripts/list_package_references.py:51-52 | `sorted` returns a permutation of its input |
| Seqs.SortBySorted | scripts/list_package_references.py:51-52 | `sorted` returns its input in key order, ascending or, with `reverse=True`, descending |
| Seqs.InsertSorted | scripts/list_package_references.py:51-52 | inserting into a sorted list keeps it sorted |
| Seqs.MapSeqSortBy | scripts/list_package_versions.py:56 | sorting keeps every element, so any projection of the sorted list (such as its versions) is a permutation of the same projection of the input |
| Glob.MatchesByPatternText | scripts/list_build_matrix.py:62-88 | `fnmatch.fnmatch` by the pattern's first character: `*` lets the rest match any suffix, `?` takes any one character, a closed `[...]` one character of its class (a leading `!` negating; CPython's removal of a reversed range before a `!` is not reproduced, see Left out), anything else, an unclosed `[` included, only itself; the empty pattern matches only the empty string |
| Glob.StarMatchesEverything | scripts/list_package_references.py:72-73 | the pattern `*` matches every string, `/` included |
| Glob.StarInListMatchesEverything | scripts/list_build_matrix.py:54-57 | a pattern list holding `*` matches every string |
| Glob.LiteralMatchesOnlyItself | scripts/list_package_references.py:78-86 | a pattern without `*`, `?` or `[` matches exactly itself |
| Glob.PrefixPatternMatchesPrefixes | scripts/list_package_references.py:78-86 | `literal*` matches exactly the strings starting with `literal` |
| BuildMatrix.CandidateShapes | scripts/list_build_matrix.py:100-180 | 18 candidates: 12 Android ones whose host profile is the platform and which carry NDK 28.1.13356709, then 6 without an NDK |
| BuildMatrix.Resolve | scripts/list_build_matrix.py:25-57 | the file's platform patterns apply only when the caller gave none; its profile patterns and rules always apply; empty include lists become `["*"]`; with no file, profiles are `["*"]` and there are no rules |
| BuildMatrix.LastVerdictIsLastDecision | scripts/list_build_matrix.py:73-96 | the flag ends set exactly when the last element with a verdict says exclude |
| BuildMatrix.LastMatchingRuleDecides | scripts/list_build_matrix.py:73-96 | a candidate is excluded by the rules exactly when the last rule that matches it and has type `include` or `exclude` has type `exclude` |
| BuildMatrix.CheckAndAppend | scripts/list_build_matrix.py:61-98 | appends the configuration exactly when the platform and host profile each match an include and no exclude pattern and the rules do not exclude it; otherwise the matrix is unchanged |
| BuildMatrix.OfferCandidate | scripts/list_build_matrix.py:118-180 | one `check_and_append` call on candidate `k` extends the matrix of the first `k` candidates to the first `k + 1` |
| BuildMatrix.OfferOtherCandidates | scripts/list_build_matrix.py:128-180 | the six fixed `check_and_append` calls after the Android loop turn the matrix of the 12 Android candidates into the matrix of all 18 |
| BuildMatrix.GetBuildMatrix | scripts/list_build_matrix.py:19-182 | the matrix is the configurations of the kept candidates in candidate order: Android, macOS, Ubuntu, Windows |
| BuildMatrix.KeptConfigsSubseq | scripts/list_build_matrix.py:59-182 | the kept configurations are an order-preserving subsequence of the candidates' configurations |
| BuildMatrix.MatrixIsSubsequenceOfCandidates | scripts/list_build_matrix.py:59-182 | each matrix entry is a distinct candidate's configuration, in candidate order |
| BuildMatrix.KeptConfigsMembership | scripts/list_build_matrix.py:61-98 | a configuration is kept exactly when some candidate carrying it passes the filter |
| BuildMatrix.MatrixMembership | scripts/list_build_matrix.py:61-98 | a configuration is in the matrix exactly when a candidate with it passes all four pattern tests and the rules |
| BuildMatrix.KeptConfigsAll | scripts/list_build_matrix.py:61-98 | when every candidate passes, the result is all their configurations |
| BuildMatrix.KeptConfigsNone | scripts/list_build_matrix.py:61-98 | when no candidate passes, the result is empty |
| BuildMatrix.DefaultMatrixHasEveryCandidate | scripts/list_build_matrix.py:54-57 | with no selection file and no platform patterns, all 18 configurations come out, in order |
| BuildMatrix.ExcludeAllPlatformsYieldsNothing | scripts/list_build_matrix.py:64-65 | an exclude-platform list holding `*` empties the matrix |
| BuildMatrix.ExcludeAllPlatformsArgument | scripts/list_build_matrix.py:35-65 | the caller's `*` exclude-platform pattern empties the matrix, whatever the selection file says |
| PackageVersions.LeastExists | scripts/list_package_versions.py:55 | a non-empty set of names has a least element |
| PackageVersions.LeastUnique | scripts/list_package_versions.py:55 | the least element is unique |
| PackageVersions.SortedKeys | scripts/list_package_versions.py:55 | `sorted(keys)`: each key exactly once, strictly ascending |
| PackageVersions.PackageEntries | scripts/list_package_versions.py:56 | one entry per version of the package |
| PackageVersions.PackageEntriesPackage | scripts/list_package_versions.py:47-49 | every entry of a package's group names that package |
| PackageVersions.PackageEntriesShape | scripts/list_package_versions.py:46-56 | within a package, entries have reference `package/version` and come in descending version order |
| PackageVersions.EntriesForOrdered | scripts/list_package_versions.py:55-56 | entries are grouped by package in ascending order, versions descending within a group |
| PackageVersions.EntriesForFields | scripts/list_package_versions.py:48-53 | every entry comes from one `(version, folder)` pair of its package, with reference `package/version` |
| PackageVersions.HeadNotInTail | scripts/list_package_versions.py:55 | in a strictly ascending key list the first key does not recur |
| PackageVersions.EntriesForOnePackage | scripts/list_package_versions.py:46-57 | the entries for one package are exactly its own group |
| PackageVersions.GithubEntries | scripts/list_package_versions.py:46-57 | every `--github` entry belongs to a package of the map and is built from one of that package's `(version, folder)` pairs |
| PackageVersions.GithubEntriesOrderedAndWellFormed | scripts/list_package_versions.py:46-57 | the `--github` entries are grouped by ascending package with versions descending; each has reference `package/version` and conanfile `recipes/<package>/<folder>/conanfile.py` for a `(version, folder)` pair of its package |
| PackageVersions.GithubEntriesPerPackage | scripts/list_package_versions.py:46-57 | each package contributes exactly as many entries as it has versions, as its own group; other names contribute none |
| PackageVersions.PackageEntriesVersions | scripts/list_package_versions.py:56 | a package's entries carry exactly its versions, none dropped or repeated |
| PackageVersions.PlainLine | scripts/list_package_versions.py:63 | a plain line is `package: ` followed by the package's versions, ascending and each as often as listed, joined by `, ` |
| PackageVersions.PlainLines | scripts/list_package_versions.py:61-63 | one plain line per package name |
| PackageVersions.PlainLinesShape | scripts/list_package_versions.py:61-63 | one plain line per package, in strictly ascending package order, each listing that package's versions ascending |

## Left out

- Reading files, YAML parsing, the directory listing, running `git`, the command line, environment variables and printing are all left out. Their results are parameters, and the printed values are return values.
- `get_github_args` and `get_cli_args` are not part of this model. The model starts from the patterns, selection file contents and commit outputs they produce.
- `PackageReferences.GetPackageInfos`: a version folder is joined as text. pathlib's normalisation of the folder value (for example `./all` or a trailing `/`) and `relative_to` are not modelled.
- `PackageVersions.GithubEntriesOrderedAndWellFormed`: the conanfile path is built as text. pathlib's normalisation of the folder value is not modelled.
- Paths are parsed as `PurePosixPath`. On Windows, `Path` also splits on `\\` and recognises drive letters; Windows path parsing is not modelled.
- `Glob.Matches`, `Glob.MatchesByPatternText`: a `!` inside a class is negation only when it is the class's first character. CPython 3.12's `fnmatch.translate` drops a reversed (empty) range such as `z-a`, and a `!` that then comes first negates the class. So `[z-a!]` matches any character there, but only `!` here, and `[z-a!b]` means `[^b]` there. This rewriting is not reproduced.
- `Glob.Matches`: only POSIX `fnmatch` is modelled. `os.path.normcase`, which folds case on Windows, is left out.
- The `KeyError` paths are not modelled; the model's datatypes always hold the keys involved. They are:
  - a selection file without `packages` (`scripts/list_package_references.py:66`);
  - a recipe `config.yml` without `versions`, or a version entry without `folder` (`scripts/list_package_references.py:35-36`);
  - a selection file without `platforms` when the caller gave no platform patterns (`scripts/list_build_matrix.py:35-41`);
  - a selection file without `profiles` or `rules` (`scripts/list_build_matrix.py:43-52`);
  - a rule without `type` that matches the candidate (`scripts/list_build_matrix.py:91`).
- YAML null values are not modelled. An `include` or `exclude` value of null becomes `[None]` through `item_to_list`, and `fnmatch` then raises (`scripts/list_package_references.py:69-70`, `:79`, `:84`; `scripts/list_build_matrix.py:36-49`). The same holds for a null `packages`, `platforms` or `profiles` value of a rule (`scripts/list_build_matrix.py:74-88`). A `rules` value of null is not modelled either.
- YAML `versions` keys that parse as numbers (`1.0` without quotes) are not modelled; versions are strings. Mixing numeric and string keys makes `sorted` raise `TypeError` (`scripts/list_package_references.py:51`, `scripts/list_package_versions.py:56`, `:63`).
- Dependency tiers and `latest`/`all` version pins are not part of these scripts.
- `PackageReferences.ListedEntryCharacterisation`: it requires the package name to contain no `/`. A directory entry name never does.
- Versions are compared as strings, as the scripts do (`1.10.0` sorts before `1.9.0`). Semantic version order is not modelled.
- `recipes/` is taken as the fixed root of every recipe path. The repository location itself is not modelled.
- The recipes, their test packages and the other scripts of the repository are not part of this model.
