/**
 * The build matrix of `scripts/list_build_matrix.py`: which of the fixed
 * build configurations one package version is built on. A configuration is
 * kept when its platform and its host profile pass the include and exclude
 * patterns and the selection rules, the last matching one deciding, do not
 * exclude it.
 *
 * The selection file is an input, already parsed.
 */
module BuildMatrix {
  import opened Wrappers
  import opened Seqs
  import opened Glob
  import opened PackageReferences

  /** One build configuration: a dictionary of the matrix. Only Android ones carry an NDK version. */
  datatype Config = Config(buildMachine: string, buildProfile: string, hostProfile: string, ndkVersion: Option<string>)

  /** A configuration together with the platform name its patterns are tested against. */
  datatype Candidate = Candidate(platform: string, config: Config)

  const AndroidPlatforms: seq<string> := [
    "android-35-armv8", "android-35-armv7", "android-35-x86", "android-35-x86_64",
    "android-23-armv8", "android-23-armv7", "android-23-x86", "android-23-x86_64",
    "android-21-armv8", "android-21-armv7", "android-21-x86", "android-21-x86_64"
  ]

  const NdkVersion: string := "28.1.13356709"

  /** An Android configuration: cross-built on Ubuntu, host profile named after the platform. */
  function AndroidConfig(platform: string): (r: Config)
  {
    Config("ubuntu-24.04", "ubuntu-24.04-x86_64-clang-18", platform, Some(NdkVersion))
  }

  const MacOs15: Candidate := Candidate("macos-15",
    Config("macos-15", "macos-15-x86_64-apple-clang-14", "macos-15-x86_64-apple-clang-14", None))
  const MacOs26: Candidate := Candidate("macos-26",
    Config("macos-26", "macos-26-armv8-apple-clang-14", "macos-26-armv8-apple-clang-14", None))
  const UbuntuGcc13: Candidate := Candidate("ubuntu-24.04",
    Config("ubuntu-24.04", "ubuntu-24.04-x86_64-gcc-13", "ubuntu-24.04-x86_64-gcc-13", None))
  const UbuntuGcc14: Candidate := Candidate("ubuntu-24.04",
    Config("ubuntu-24.04", "ubuntu-24.04-x86_64-gcc-14", "ubuntu-24.04-x86_64-gcc-14", None))
  const UbuntuClang18: Candidate := Candidate("ubuntu-24.04",
    Config("ubuntu-24.04", "ubuntu-24.04-x86_64-clang-18", "ubuntu-24.04-x86_64-clang-18", None))
  const Windows2022: Candidate := Candidate("windows-2022",
    Config("windows-2022", "windows-2022-x86_64-msvc-1940", "windows-2022-x86_64-msvc-1940", None))

  /** The Android candidates, one per platform name, in the given order. */
  function AndroidCandidatesOf(platforms: seq<string>): (cs: seq<Candidate>)
    ensures |cs| == |platforms|
    ensures forall i :: 0 <= i < |cs| ==> cs[i] == Candidate(platforms[i], AndroidConfig(platforms[i]))
  {
    seq(|platforms|, i requires 0 <= i < |platforms| => Candidate(platforms[i], AndroidConfig(platforms[i])))
  }

  const AndroidCandidates: seq<Candidate> := AndroidCandidatesOf(AndroidPlatforms)

  const OtherCandidates: seq<Candidate> := [MacOs15, MacOs26, UbuntuGcc13, UbuntuGcc14, UbuntuClang18, Windows2022]

  /** Every configuration the matrix can hold, in the order they are considered. */
  const Candidates: seq<Candidate> := AndroidCandidates + OtherCandidates

  /** The 18 candidates: 12 Android ones whose host profile is the platform, then 6 without an NDK. */
  lemma CandidateShapes()
    ensures |Candidates| == 18
    ensures forall i :: 0 <= i < 12 ==>
      Candidates[i].config.hostProfile == Candidates[i].platform &&
      Candidates[i].config.ndkVersion == Some(NdkVersion)
    ensures forall i :: 12 <= i < 18 ==> Candidates[i].config.ndkVersion.None?
  {
  }

  // ---------------------------------------------------------------------------
  // Selection file and the resolved pattern lists
  // ---------------------------------------------------------------------------

  /** A selection rule; a missing `packages`, `platforms` or `profiles` key means `"*"`. */
  datatype Rule = Rule(packages: Option<Item<string>>, platforms: Option<Item<string>>,
                       profiles: Option<Item<string>>, kind: string)

  /** The `platforms` or `profiles` section: optional `include` and `exclude` keys. */
  datatype Section = Section(includes: Option<Item<string>>, excludes: Option<Item<string>>)

  datatype SelectionConfig = SelectionConfig(platforms: Section, profiles: Section, rules: seq<Rule>)

  /** The pattern lists and rules the filter works with. */
  datatype Selection = Selection(
    includePlatforms: seq<string>,
    excludePlatforms: seq<string>,
    includeProfiles: seq<string>,
    excludeProfiles: seq<string>,
    rules: seq<Rule>)

  /** A section's list for one key; a missing key means no patterns. */
  function SectionList(field: Option<Item<string>>): (r: seq<string>)
  {
    ItemToList(field.GetOr(Many([])))
  }

  /**
   * The selection get_build_matrix works with: the file's platform patterns
   * only when the caller gave none, its profile patterns and rules whenever
   * there is a file, and `["*"]` for an empty include list.
   */
  function Resolve(config: Option<SelectionConfig>, includePlatforms: seq<string>, excludePlatforms: seq<string>): (sel: Selection)
    ensures sel.includePlatforms != [] && sel.includeProfiles != []
    ensures config.None? ==>
      sel == Selection(DefaultInclude(includePlatforms), excludePlatforms, ["*"], [], [])
    ensures config.Some? && (includePlatforms != [] || excludePlatforms != []) ==>
      sel.includePlatforms == DefaultInclude(includePlatforms) && sel.excludePlatforms == excludePlatforms
    ensures config.Some? && includePlatforms == [] && excludePlatforms == [] ==>
      sel.includePlatforms == DefaultInclude(SectionList(config.value.platforms.includes)) &&
      sel.excludePlatforms == SectionList(config.value.platforms.excludes)
    ensures config.Some? ==>
      sel.includeProfiles == DefaultInclude(SectionList(config.value.profiles.includes)) &&
      sel.excludeProfiles == SectionList(config.value.profiles.excludes) &&
      sel.rules == config.value.rules
  {
    match config
    case None => Selection(DefaultInclude(includePlatforms), excludePlatforms, ["*"], [], [])
    case Some(c) =>
      var platformsFromFile := includePlatforms == [] && excludePlatforms == [];
      var incPlatforms := if platformsFromFile then SectionList(c.platforms.includes) else includePlatforms;
      var excPlatforms := if platformsFromFile then SectionList(c.platforms.excludes) else excludePlatforms;
      Selection(DefaultInclude(incPlatforms), excPlatforms,
                DefaultInclude(SectionList(c.profiles.includes)), SectionList(c.profiles.excludes), c.rules)
  }

  // ---------------------------------------------------------------------------
  // Rules: the last matching rule decides
  // ---------------------------------------------------------------------------

  function RulePatterns(field: Option<Item<string>>): (r: seq<string>)
  {
    ItemToList(field.GetOr(One("*")))
  }

  /** The package reference, the platform and the profile each match one of the rule's patterns. */
  predicate RuleMatches(rule: Rule, reference: string, platform: string, profile: string)
  {
    && MatchesAny(reference, RulePatterns(rule.packages))
    && MatchesAny(platform, RulePatterns(rule.platforms))
    && MatchesAny(profile, RulePatterns(rule.profiles))
  }

  /**
   * What one rule says about a candidate: `Some(true)` for a matching
   * `exclude` rule, `Some(false)` for a matching `include` rule, and nothing
   * for a rule that does not match or has another type.
   */
  function Verdict(rule: Rule, reference: string, platform: string, profile: string): (r: Option<bool>)
  {
    if !RuleMatches(rule, reference, platform, profile) then None
    else if rule.kind == "include" then Some(false)
    else if rule.kind == "exclude" then Some(true)
    else None
  }

  /** The exclusion flag after running through `xs` in order from "not excluded", each verdict overriding it. */
  function LastVerdict<T>(xs: seq<T>, verdict: T -> Option<bool>): (r: bool)
  {
    if xs == [] then false
    else match verdict(xs[|xs| - 1])
      case Some(b) => b
      case None => LastVerdict(xs[..|xs| - 1], verdict)
  }

  /** The flag ends up set exactly when some verdict says so and no later element has a verdict. */
  lemma {:induction false} LastVerdictIsLastDecision<T>(xs: seq<T>, verdict: T -> Option<bool>)
    ensures LastVerdict(xs, verdict) <==>
      exists k :: 0 <= k < |xs| && verdict(xs[k]) == Some(true) &&
        forall m :: k < m < |xs| ==> verdict(xs[m]).None?
  {
    if xs != [] {
      var n := |xs| - 1;
      var init := xs[..n];
      LastVerdictIsLastDecision(init, verdict);
      if verdict(xs[n]).None? {
        if exists k :: 0 <= k < |init| && verdict(init[k]) == Some(true) &&
             forall m :: k < m < |init| ==> verdict(init[m]).None? {
          var k :| 0 <= k < |init| && verdict(init[k]) == Some(true) &&
             forall m :: k < m < |init| ==> verdict(init[m]).None?;
          assert verdict(xs[k]) == Some(true);
          forall m | k < m < |xs| ensures verdict(xs[m]).None? {
            if m < n {
              assert xs[m] == init[m];
            }
          }
        }
        if exists k :: 0 <= k < |xs| && verdict(xs[k]) == Some(true) &&
             forall m :: k < m < |xs| ==> verdict(xs[m]).None? {
          var k :| 0 <= k < |xs| && verdict(xs[k]) == Some(true) &&
             forall m :: k < m < |xs| ==> verdict(xs[m]).None?;
          assert k < n && verdict(init[k]) == Some(true);
          forall m | k < m < |init| ensures verdict(init[m]).None? {
            assert init[m] == xs[m];
          }
        }
      } else if verdict(xs[n]) == Some(false) {
        forall k | 0 <= k < |xs| && verdict(xs[k]) == Some(true)
          ensures exists m :: k < m < |xs| && !verdict(xs[m]).None?
        {
          assert k != n;
        }
      }
    }
  }

  /** The exclusion flag check_and_append's rule loop leaves behind. */
  function RulesExclude(rules: seq<Rule>, reference: string, platform: string, profile: string): (r: bool)
  {
    LastVerdict(rules, (r: Rule) => Verdict(r, reference, platform, profile))
  }

  /** A rule that matches and is an `include` or an `exclude` rule. */
  predicate Decides(rule: Rule, reference: string, platform: string, profile: string)
  {
    RuleMatches(rule, reference, platform, profile) && (rule.kind == "include" || rule.kind == "exclude")
  }

  /** Rule `k` decides and no later rule does. */
  predicate DecidedBy(rules: seq<Rule>, k: int, reference: string, platform: string, profile: string)
  {
    && 0 <= k < |rules|
    && Decides(rules[k], reference, platform, profile)
    && forall m :: k < m < |rules| ==> !Decides(rules[m], reference, platform, profile)
  }

  /**
   * Last match wins: a candidate is excluded exactly when the last rule that
   * matches it and has type `include` or `exclude` is an `exclude` rule.
   */
  lemma LastMatchingRuleDecides(rules: seq<Rule>, reference: string, platform: string, profile: string)
    ensures RulesExclude(rules, reference, platform, profile) <==>
      exists k :: DecidedBy(rules, k, reference, platform, profile) && rules[k].kind == "exclude"
  {
    var verdict := (r: Rule) => Verdict(r, reference, platform, profile);
    LastVerdictIsLastDecision(rules, verdict);
    forall k | 0 <= k < |rules|
      ensures (DecidedBy(rules, k, reference, platform, profile) && rules[k].kind == "exclude") <==>
        (verdict(rules[k]) == Some(true) && forall m :: k < m < |rules| ==> verdict(rules[m]).None?)
    {
      assert forall m :: k < m < |rules| ==>
        (verdict(rules[m]).None? <==> !Decides(rules[m], reference, platform, profile));
    }
  }

  // ---------------------------------------------------------------------------
  // The filter
  // ---------------------------------------------------------------------------

  /** check_and_append's test: the candidate survives the four pattern tests and the rules. */
  predicate Kept(sel: Selection, reference: string, c: Candidate)
  {
    && MatchesAny(c.platform, sel.includePlatforms)
    && !MatchesAny(c.platform, sel.excludePlatforms)
    && MatchesAny(c.config.hostProfile, sel.includeProfiles)
    && !MatchesAny(c.config.hostProfile, sel.excludeProfiles)
    && !RulesExclude(sel.rules, reference, c.platform, c.config.hostProfile)
  }

  /** The configurations of the kept candidates, in candidate order. */
  function KeptConfigs(cs: seq<Candidate>, sel: Selection, reference: string): (r: seq<Config>)
  {
    if cs == [] then []
    else
      KeptConfigs(cs[..|cs| - 1], sel, reference) +
      (if Kept(sel, reference, cs[|cs| - 1]) then [cs[|cs| - 1].config] else [])
  }

  /** The configurations of all candidates, in candidate order. */
  function Configs(cs: seq<Candidate>): (r: seq<Config>)
  {
    if cs == [] then [] else Configs(cs[..|cs| - 1]) + [cs[|cs| - 1].config]
  }

  /** The build matrix for one package reference under one selection. */
  function Matrix(sel: Selection, reference: string): (r: seq<Config>)
  {
    KeptConfigs(Candidates, sel, reference)
  }

  /** Offering candidate `k` extends the matrix built from the candidates before it. */
  lemma KeptConfigsStep(cs: seq<Candidate>, k: nat, sel: Selection, reference: string)
    requires k < |cs|
    ensures KeptConfigs(cs[..k + 1], sel, reference) ==
      KeptConfigs(cs[..k], sel, reference) + (if Kept(sel, reference, cs[k]) then [cs[k].config] else [])
  {
    assert cs[..k + 1][..k] == cs[..k];
  }

  /** check_and_append: appends `config` to the matrix when the candidate passes every test. */
  method CheckAndAppend(sel: Selection, reference: string, platform: string, config: Config, matrix: seq<Config>)
    returns (result: seq<Config>)
    ensures Kept(sel, reference, Candidate(platform, config)) ==> result == matrix + [config]
    ensures !Kept(sel, reference, Candidate(platform, config)) ==> result == matrix
  {
    result := matrix;
    if !MatchesAny(platform, sel.includePlatforms) {
      return;
    }
    if MatchesAny(platform, sel.excludePlatforms) {
      return;
    }
    var profile := config.hostProfile;
    if !MatchesAny(profile, sel.includeProfiles) {
      return;
    }
    if MatchesAny(profile, sel.excludeProfiles) {
      return;
    }
    var excluded := false;
    for i := 0 to |sel.rules|
      invariant excluded == RulesExclude(sel.rules[..i], reference, platform, profile)
    {
      assert sel.rules[..i + 1][..i] == sel.rules[..i];
      var rule := sel.rules[i];
      if !MatchesAny(reference, RulePatterns(rule.packages)) {
        continue;
      }
      if !MatchesAny(platform, RulePatterns(rule.platforms)) {
        continue;
      }
      if !MatchesAny(profile, RulePatterns(rule.profiles)) {
        continue;
      }
      if rule.kind == "include" {
        excluded := false;
      } else if rule.kind == "exclude" {
        excluded := true;
      }
    }
    assert sel.rules[..|sel.rules|] == sel.rules;
    if excluded {
      return;
    }
    result := matrix + [config];
  }

  /**
   * get_build_matrix: resolves the selection, then offers the twelve Android
   * configurations in a loop and the macOS, Ubuntu and Windows ones one by one.
   */
  method GetBuildMatrix(reference: string, config: Option<SelectionConfig>,
                        includePlatforms: seq<string>, excludePlatforms: seq<string>)
    returns (matrix: seq<Config>)
    ensures matrix == Matrix(Resolve(config, includePlatforms, excludePlatforms), reference)
  {
    var sel := Resolve(config, includePlatforms, excludePlatforms);
    CandidateLayout();
    matrix := [];
    for i := 0 to |AndroidPlatforms|
      invariant matrix == KeptConfigs(Candidates[..i], sel, reference)
    {
      var platform := AndroidPlatforms[i];
      matrix := OfferCandidate(sel, reference, i, Candidate(platform, AndroidConfig(platform)), matrix);
    }
    matrix := OfferOtherCandidates(sel, reference, matrix);
  }

  /** The six fixed check_and_append calls that follow the Android loop. */
  method OfferOtherCandidates(sel: Selection, reference: string, matrix: seq<Config>)
    returns (result: seq<Config>)
    requires matrix == KeptConfigs(Candidates[..12], sel, reference)
    ensures result == Matrix(sel, reference)
  {
    FixedCandidates();
    result := OfferCandidate(sel, reference, 12, MacOs15, matrix);
    result := OfferCandidate(sel, reference, 13, MacOs26, result);
    result := OfferCandidate(sel, reference, 14, UbuntuGcc13, result);
    result := OfferCandidate(sel, reference, 15, UbuntuGcc14, result);
    result := OfferCandidate(sel, reference, 16, UbuntuClang18, result);
    result := OfferCandidate(sel, reference, 17, Windows2022, result);
    WholeCandidateList(sel, reference);
  }

  lemma WholeCandidateList(sel: Selection, reference: string)
    ensures KeptConfigs(Candidates[..18], sel, reference) == Matrix(sel, reference)
  {
    CandidateLayout();
    assert Candidates[..18] == Candidates;
  }

  /** The six candidates after the Android ones. */
  lemma FixedCandidates()
    ensures |Candidates| == 18
    ensures Candidates[12] == MacOs15 && Candidates[13] == MacOs26 && Candidates[14] == UbuntuGcc13
    ensures Candidates[15] == UbuntuGcc14 && Candidates[16] == UbuntuClang18 && Candidates[17] == Windows2022
  {
    CandidateLayout();
  }

  /** Where each candidate sits in the list. */
  lemma CandidateLayout()
    ensures |AndroidPlatforms| == 12 && |Candidates| == 18
    ensures forall i :: 0 <= i < 12 ==> Candidates[i] == Candidate(AndroidPlatforms[i], AndroidConfig(AndroidPlatforms[i]))
    ensures Candidates[12] == MacOs15 && Candidates[13] == MacOs26 && Candidates[14] == UbuntuGcc13
    ensures Candidates[15] == UbuntuGcc14 && Candidates[16] == UbuntuClang18 && Candidates[17] == Windows2022
  {
  }

  /**
   * One check_and_append call of get_build_matrix, on candidate `k`: the
   * matrix built from the first `k` candidates becomes the one built from the
   * first `k + 1`.
   */
  method OfferCandidate(sel: Selection, reference: string, ghost k: nat, candidate: Candidate,
                        matrix: seq<Config>)
    returns (result: seq<Config>)
    requires k < |Candidates| && Candidates[k] == candidate
    requires matrix == KeptConfigs(Candidates[..k], sel, reference)
    ensures result == KeptConfigs(Candidates[..k + 1], sel, reference)
  {
    result := CheckAndAppend(sel, reference, candidate.platform, candidate.config, matrix);
    KeptConfigsStep(Candidates, k, sel, reference);
  }

  // ---------------------------------------------------------------------------
  // Properties of the matrix
  // ---------------------------------------------------------------------------

  /** The kept configurations are an order-preserving subsequence of the candidates' configurations. */
  lemma {:induction false} KeptConfigsSubseq(cs: seq<Candidate>, sel: Selection, reference: string)
    ensures Subseq(KeptConfigs(cs, sel, reference), Configs(cs))
  {
    if cs != [] {
      var init := cs[..|cs| - 1];
      var c := cs[|cs| - 1];
      KeptConfigsSubseq(init, sel, reference);
      var kept := KeptConfigs(init, sel, reference);
      var all := Configs(cs);
      assert all[..|all| - 1] == Configs(init) && all[|all| - 1] == c.config;
      if Kept(sel, reference, c) {
        var a := kept + [c.config];
        assert a[..|a| - 1] == kept && a[|a| - 1] == c.config;
      } else {
        assert KeptConfigs(cs, sel, reference) == kept + [] == kept;
        SubseqDropLast(kept, all);
      }
    }
  }

  /** A configuration is in the result exactly when some candidate with it is kept. */
  lemma {:induction false} KeptConfigsMembership(cs: seq<Candidate>, sel: Selection, reference: string, x: Config)
    ensures x in KeptConfigs(cs, sel, reference) <==>
      exists i :: 0 <= i < |cs| && cs[i].config == x && Kept(sel, reference, cs[i])
  {
    if cs != [] {
      var init := cs[..|cs| - 1];
      KeptConfigsMembership(init, sel, reference, x);
      if exists i :: 0 <= i < |cs| && cs[i].config == x && Kept(sel, reference, cs[i]) {
        var i :| 0 <= i < |cs| && cs[i].config == x && Kept(sel, reference, cs[i]);
        if i < |cs| - 1 {
          assert init[i] == cs[i];
        }
      }
    }
  }

  lemma {:induction false} KeptConfigsAll(cs: seq<Candidate>, sel: Selection, reference: string)
    requires forall i :: 0 <= i < |cs| ==> Kept(sel, reference, cs[i])
    ensures KeptConfigs(cs, sel, reference) == Configs(cs)
  {
    if cs != [] {
      KeptConfigsAll(cs[..|cs| - 1], sel, reference);
    }
  }

  lemma {:induction false} KeptConfigsNone(cs: seq<Candidate>, sel: Selection, reference: string)
    requires forall i :: 0 <= i < |cs| ==> !Kept(sel, reference, cs[i])
    ensures KeptConfigs(cs, sel, reference) == []
  {
    if cs != [] {
      KeptConfigsNone(cs[..|cs| - 1], sel, reference);
    }
  }

  /** Each matrix entry is a candidate's configuration, kept at most once and in candidate order. */
  lemma MatrixIsSubsequenceOfCandidates(sel: Selection, reference: string)
    ensures Subseq(Matrix(sel, reference), Configs(Candidates))
  {
    KeptConfigsSubseq(Candidates, sel, reference);
  }

  /**
   * A configuration is in the matrix exactly when a candidate carrying it
   * passes: its platform matches an include and no exclude platform pattern,
   * its host profile an include and no exclude profile pattern, and the rules
   * do not exclude it.
   */
  lemma MatrixMembership(sel: Selection, reference: string, x: Config)
    ensures x in Matrix(sel, reference) <==>
      exists i :: 0 <= i < |Candidates| && Candidates[i].config == x &&
        MatchesAny(Candidates[i].platform, sel.includePlatforms) &&
        !MatchesAny(Candidates[i].platform, sel.excludePlatforms) &&
        MatchesAny(x.hostProfile, sel.includeProfiles) &&
        !MatchesAny(x.hostProfile, sel.excludeProfiles) &&
        !RulesExclude(sel.rules, reference, Candidates[i].platform, x.hostProfile)
  {
    KeptConfigsMembership(Candidates, sel, reference, x);
  }

  /** With no selection file and no platform patterns, all 18 configurations come out, in order. */
  lemma DefaultMatrixHasEveryCandidate(reference: string)
    ensures Matrix(Resolve(None, [], []), reference) == Configs(Candidates)
  {
    var sel := Resolve(None, [], []);
    assert sel.includePlatforms == ["*"] && sel.includeProfiles == ["*"];
    forall i | 0 <= i < |Candidates|
      ensures Kept(sel, reference, Candidates[i])
    {
      StarInListMatchesEverything(Candidates[i].platform, sel.includePlatforms);
      StarInListMatchesEverything(Candidates[i].config.hostProfile, sel.includeProfiles);
    }
    KeptConfigsAll(Candidates, sel, reference);
  }

  /** A selection whose exclude-platform patterns hold `"*"` yields an empty matrix. */
  lemma ExcludeAllPlatformsYieldsNothing(sel: Selection, reference: string)
    requires "*" in sel.excludePlatforms
    ensures Matrix(sel, reference) == []
  {
    forall i | 0 <= i < |Candidates|
      ensures !Kept(sel, reference, Candidates[i])
    {
      StarInListMatchesEverything(Candidates[i].platform, sel.excludePlatforms);
    }
    KeptConfigsNone(Candidates, sel, reference);
  }

  /** The caller's `"*"` exclude-platform pattern empties the matrix, whatever the selection file says. */
  lemma ExcludeAllPlatformsArgument(reference: string, config: Option<SelectionConfig>,
                                    includePlatforms: seq<string>, excludePlatforms: seq<string>)
    requires "*" in excludePlatforms
    ensures Matrix(Resolve(config, includePlatforms, excludePlatforms), reference) == []
  {
    ExcludeAllPlatformsYieldsNothing(Resolve(config, includePlatforms, excludePlatforms), reference);
  }
}
