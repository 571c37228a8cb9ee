/**
 * The core of the system-framework checker: extracting the system frameworks
 * an app links from the load-command dump of its executable, locating that
 * executable inside the app bundle, and flagging the frameworks whose iOS
 * introduction is later than the app's minimum OS version.
 *
 * The dump script, the documentation lookup over HTTP and the numeric
 * comparison of version strings are parameters of the operations below.
 */
module SystemFramework {
  import opened Wrappers
  import opened Text
  import opened Paths
  import opened Seqs
  import FrameworkPattern

  // ---------------------------------------------------------------------------
  // Extraction of linked framework names
  // ---------------------------------------------------------------------------

  /** Frameworks never reported: available since early iOS, so their lookup is not worth doing. */
  const IgnoreFrameworks: seq<string> := ["OpenAL", "MobileCoreServices", "WebKit", "JavaScriptCore"]

  /** The marker of a weak link in the dump. */
  const WeakMarker: string := "weak"

  /** Some ignored framework name occurs in `line` (anywhere, as a substring). */
  predicate Ignored(line: string) {
    exists k :: 0 <= k < |IgnoreFrameworks| && Contains(line, IgnoreFrameworks[k])
  }

  /** `line` mentions the weak-link marker. */
  predicate WeakLinked(line: string) {
    Contains(line, WeakMarker)
  }

  /**
   * The reference meaning of one line's contribution: `name` is reported for
   * `line` exactly when no ignored name and no weak marker occurs in it and
   * `name` is group 1 of the leftmost, shortest framework-path match.
   */
  ghost predicate Contributes(line: string, name: string) {
    (forall k, i :: 0 <= k < |IgnoreFrameworks| ==> !OccursAt(line, i, IgnoreFrameworks[k])) &&
    (forall i :: !OccursAt(line, i, WeakMarker)) &&
    exists m :: FrameworkPattern.IsSearchResult(line, m) && name == FrameworkPattern.Group(line, m)
  }

  /** `re.search` has at most one answer. */
  lemma SearchResultUnique(line: string, m1: FrameworkPattern.Match, m2: FrameworkPattern.Match)
    requires FrameworkPattern.IsSearchResult(line, m1) && FrameworkPattern.IsSearchResult(line, m2)
    ensures m1 == m2
  {
    assert !(m1.start < m2.start) && !(m2.start < m1.start);
    assert !(m1.groupLength < m2.groupLength) && !(m2.groupLength < m1.groupLength);
  }

  /** What one dump line adds to the list: nothing, or one framework name. */
  function Contribution(line: string): (r: seq<string>)
    ensures |r| <= 1
  {
    if Ignored(line) then []
    else if WeakLinked(line) then []
    else
      match FrameworkPattern.Search(line)
      case None => []
      case Some(m) => [FrameworkPattern.Group(line, m)]
  }

  /** A line that mentions an ignored name or the weak marker contributes nothing. */
  lemma FilteredLineContributesNothing(line: string)
    requires Ignored(line) || WeakLinked(line)
    ensures Contribution(line) == []
  {
  }

  /** `Contribution` agrees with the reference meaning `Contributes`, in both directions. */
  lemma ContributionMeaning(line: string, name: string)
    ensures name in Contribution(line) <==> Contributes(line, name)
  {
    var found := FrameworkPattern.Search(line);
    FrameworkPattern.SearchSpec(line);
    if found.Some? {
      forall m | FrameworkPattern.IsSearchResult(line, m) ensures m == found.value {
        SearchResultUnique(line, found.value, m);
      }
    }
  }

  /** The names reported for `lines`: each line's contribution, in line order, duplicates kept. */
  function Extracted(lines: seq<string>): (r: seq<string>)
    ensures |r| <= |lines|
  {
    FlatMapLength(lines, Contribution);
    FlatMap(lines, Contribution)
  }

  /**
   * The inner loop of `extract_frameworks`: scan the ignore list, stopping at
   * the first name that occurs in `line`.
   */
  method IgnoreTag(line: string) returns (ignoreTag: bool)
    ensures ignoreTag <==> exists k :: 0 <= k < |IgnoreFrameworks| && Contains(line, IgnoreFrameworks[k])
  {
    var ignores := IgnoreFrameworks;
    ignoreTag := false;
    for j := 0 to |ignores|
      invariant !ignoreTag
      invariant forall k :: 0 <= k < j ==> !Contains(line, ignores[k])
    {
      if Contains(line, ignores[j]) {
        ignoreTag := true;
        break;
      }
    }
  }

  /** `extract_frameworks(output_str)`. */
  method ExtractFrameworks(outputStr: string) returns (frameworks: seq<string>)
    ensures frameworks == Extracted(SplitLines(outputStr))
    ensures outputStr == [] ==> frameworks == []
  {
    frameworks := [];
    var lines := SplitLines(outputStr);
    for n := 0 to |lines|
      invariant frameworks == Extracted(lines[..n])
    {
      var line := lines[n];
      ExtractedStep(lines, n);
      var ignoreTag := IgnoreTag(line);
      if ignoreTag {
        FilteredLineContributesNothing(line);
        continue;
      }
      if Contains(line, WeakMarker) {
        FilteredLineContributesNothing(line);
        continue;
      }
      var found := FrameworkPattern.Search(line);
      if found.Some? {
        var frameworkPath := FrameworkPattern.Group(line, found.value);
        frameworks := frameworks + [frameworkPath];
      }
    }
    assert lines[..|lines|] == lines;
  }

  /** One more line adds its contribution at the end. */
  lemma ExtractedStep(lines: seq<string>, n: nat)
    requires n < |lines|
    ensures Extracted(lines[..n + 1]) == Extracted(lines[..n]) + Contribution(lines[n])
  {
    assert lines[..n + 1] == lines[..n] + [lines[n]];
    FlatMapSnoc(lines[..n], lines[n], Contribution);
  }

  /** The list for a dump is the list for its first lines followed by the list for the rest. */
  lemma ExtractedAppend(a: seq<string>, b: seq<string>)
    ensures Extracted(a + b) == Extracted(a) + Extracted(b)
  {
    FlatMapAppend(a, b, Contribution);
  }

  /** A name is reported exactly when some line contributes it. */
  lemma ExtractedMembers(lines: seq<string>, name: string)
    ensures name in Extracted(lines) <==> exists i :: 0 <= i < |lines| && Contributes(lines[i], name)
  {
    FlatMapMembers(lines, Contribution, name);
    forall i | 0 <= i < |lines| ensures name in Contribution(lines[i]) <==> Contributes(lines[i], name) {
      ContributionMeaning(lines[i], name);
    }
  }

  /**
   * A line mentioning an ignored name or the weak marker adds nothing,
   * whatever else it holds and whatever the other lines hold.
   */
  lemma ExtractedSkipsFilteredLine(before: seq<string>, line: string, after: seq<string>)
    requires Ignored(line) || WeakLinked(line)
    ensures Extracted(before + [line] + after) == Extracted(before + after)
  {
    FilteredLineContributesNothing(line);
    FlatMapSkip(before, line, after, Contribution);
  }

  /** A line naming `WebKitLegacy` is dropped too: `WebKit` occurs in it. */
  lemma WebKitLegacyIgnored(line: string)
    requires Contains(line, "WebKitLegacy")
    ensures Ignored(line) && Contribution(line) == []
  {
    var i :| OccursAt(line, i, "WebKitLegacy");
    assert line[i..i + 6] == line[i..i + 12][..6];
    assert OccursAt(line, i, IgnoreFrameworks[2]);
  }

  /** Repeated lines give repeated names: there is no deduplication. */
  lemma ExtractedKeepsDuplicates(line: string, name: string, count: nat)
    requires Contribution(line) == [name]
    ensures Extracted(seq(count, _ => line)) == seq(count, _ => name)
  {
    FlatMapRepeat(line, name, count, Contribution);
  }

  /** Every reported name is non-empty and some line holds `/System/Library/Frameworks/<name>.framework`. */
  lemma ExtractedNameOccurs(lines: seq<string>, name: string)
    requires name in Extracted(lines)
    ensures name != []
    ensures exists i :: 0 <= i < |lines| && Contains(lines[i], FrameworkPattern.Root + name + FrameworkPattern.Suffix)
  {
    ExtractedMembers(lines, name);
    var i :| 0 <= i < |lines| && Contributes(lines[i], name);
    var m :| FrameworkPattern.IsSearchResult(lines[i], m) && name == FrameworkPattern.Group(lines[i], m);
    FrameworkPattern.GroupOccurs(lines[i], m);
  }

  // ---------------------------------------------------------------------------
  // Locating the executable and running the dump script
  // ---------------------------------------------------------------------------

  /**
   * The executable inside the bundle at `appPath`: the bundle path, a `/`, and
   * the bundle's base name without its extension.
   */
  function MachOPath(appPath: string): (r: string)
    ensures |r| > |appPath| && r[..|appPath| + 1] == appPath + "/"
    ensures '/' !in r[|appPath| + 1..]
    ensures r[|appPath| + 1..] + SplitExt(Basename(appPath)).1 == Basename(appPath)
  {
    var filename := Basename(appPath);
    var (stem, extension) := SplitExt(filename);
    var r := appPath + "/" + stem;
    assert r[|appPath| + 1..] == stem;
    assert forall i :: 0 <= i < |stem| ==> stem[i] == filename[i];
    r
  }

  /** A bundle `Payload/Demo.app` has its executable at `Payload/Demo.app/Demo`. */
  lemma MachOPathExample()
    ensures MachOPath("Payload/Demo.app") == "Payload/Demo.app/Demo"
  {
    BasenameExample();
    SplitExtExample();
  }

  /** The outcome of the dump script: its exit status and its standard output. */
  datatype ScriptResult = ScriptResult(returnCode: int, stdout: string)

  /**
   * `system_frameworks_list(app_path)`, with the dump script passed in as
   * `runScript`: None when the script fails, else the extracted names.
   */
  method SystemFrameworksList(appPath: string, runScript: string -> ScriptResult)
    returns (frameworks: Option<seq<string>>)
    ensures var result := runScript(MachOPath(appPath));
      result.returnCode != 0 <==> frameworks.None?
    ensures var result := runScript(MachOPath(appPath));
      frameworks.Some? ==> frameworks.value == Extracted(SplitLines(result.stdout))
  {
    var machoPath := MachOPath(appPath);
    var result := runScript(machoPath);
    if result.returnCode == 0 {
      var list := ExtractFrameworks(result.stdout);
      frameworks := Some(list);
    } else {
      frameworks := None;
    }
  }

  // ---------------------------------------------------------------------------
  // Flagging frameworks introduced after the minimum OS version
  // ---------------------------------------------------------------------------

  /** One entry of a framework's `metadata.platforms` list. */
  datatype Platform = Platform(name: string, introducedAt: string)

  /** The value recorded for a framework whose platform data could not be had. */
  const FailureSentinel: string := "None"

  /**
   * `platform` is an iOS record introduced later than `minOsVersion`;
   * `isLater(introduced, min)` stands for `float(introduced) > float(min)`.
   */
  predicate Qualifies(platform: Platform, minOsVersion: string, isLater: (string, string) -> bool) {
    platform.name == "iOS" && isLater(platform.introducedAt, minOsVersion)
  }

  /** The `introducedAt` of the last qualifying record of `platforms`, if any. */
  function LastQualifying(platforms: seq<Platform>, minOsVersion: string, isLater: (string, string) -> bool)
    : (r: Option<string>)
    ensures r.Some? ==>
      exists k :: 0 <= k < |platforms| && Qualifies(platforms[k], minOsVersion, isLater) && platforms[k].introducedAt == r.value
  {
    if platforms == [] then None
    else
      var last := platforms[|platforms| - 1];
      if Qualifies(last, minOsVersion, isLater) then Some(last.introducedAt)
      else LastQualifying(platforms[..|platforms| - 1], minOsVersion, isLater)
  }

  /** Nothing qualifies exactly when the result is None; otherwise it is the value of the last qualifying record. */
  lemma {:induction false} LastQualifyingSpec(platforms: seq<Platform>, minOsVersion: string,
                                              isLater: (string, string) -> bool)
    ensures var r := LastQualifying(platforms, minOsVersion, isLater);
      (r.None? <==> forall k :: 0 <= k < |platforms| ==> !Qualifies(platforms[k], minOsVersion, isLater)) &&
      (r.Some? ==> IsLastQualifying(platforms, minOsVersion, isLater, r.value))
  {
    if platforms != [] {
      var n := |platforms| - 1;
      var init := platforms[..n];
      if Qualifies(platforms[n], minOsVersion, isLater) {
        assert IsLastQualifyingAt(platforms, minOsVersion, isLater, n);
      } else {
        LastQualifyingSpec(init, minOsVersion, isLater);
        var r := LastQualifying(init, minOsVersion, isLater);
        if r.Some? {
          var k :| IsLastQualifyingAt(init, minOsVersion, isLater, k) && init[k].introducedAt == r.value;
          assert init[k] == platforms[k];
          forall j | k < j < |platforms| ensures !Qualifies(platforms[j], minOsVersion, isLater) {
            if j < n {
              assert init[j] == platforms[j];
            }
          }
          assert IsLastQualifyingAt(platforms, minOsVersion, isLater, k);
        } else {
          forall k | 0 <= k < |platforms| ensures !Qualifies(platforms[k], minOsVersion, isLater) {
            if k < n {
              assert init[k] == platforms[k];
            }
          }
        }
      }
    }
  }

  /** Record `k` qualifies and no later record does. */
  ghost predicate IsLastQualifyingAt(platforms: seq<Platform>, minOsVersion: string,
                                     isLater: (string, string) -> bool, k: int)
  {
    0 <= k < |platforms| && Qualifies(platforms[k], minOsVersion, isLater) &&
    forall j :: k < j < |platforms| ==> !Qualifies(platforms[j], minOsVersion, isLater)
  }

  /** `value` is the `introducedAt` of the last qualifying record. */
  ghost predicate IsLastQualifying(platforms: seq<Platform>, minOsVersion: string,
                                   isLater: (string, string) -> bool, value: string)
  {
    exists k :: IsLastQualifyingAt(platforms, minOsVersion, isLater, k) && platforms[k].introducedAt == value
  }

  /** What the loop body does for one framework: the value it writes, or None when it writes nothing. */
  function Verdict(platformsData: Option<seq<Platform>>, minOsVersion: string, isLater: (string, string) -> bool)
    : (r: Option<string>)
    ensures r.None? ==> platformsData.Some? && platformsData.value != []
    ensures r.Some? && r.value != FailureSentinel ==>
      platformsData.Some? &&
      exists k :: 0 <= k < |platformsData.value| && Qualifies(platformsData.value[k], minOsVersion, isLater) &&
        platformsData.value[k].introducedAt == r.value
  {
    match platformsData
    case None => Some(FailureSentinel)
    case Some(platforms) =>
      if platforms == [] then Some(FailureSentinel)
      else LastQualifying(platforms, minOsVersion, isLater)
  }

  /** `m` after writing `v` under `key`, or `m` itself when there is nothing to write. */
  function Written(m: map<string, string>, key: string, v: Option<string>): map<string, string> {
    match v
    case None => m
    case Some(value) => m[key := value]
  }

  /** The map built for `frameworks`, one framework after another. */
  function Flagged(frameworks: seq<string>, minOsVersion: string,
                   lookup: string -> Option<seq<Platform>>, isLater: (string, string) -> bool)
    : (r: map<string, string>)
    ensures forall f :: f in r ==> f in frameworks
  {
    if frameworks == [] then map[]
    else
      var init := frameworks[..|frameworks| - 1];
      var f := frameworks[|frameworks| - 1];
      assert forall g :: g in init ==> g in frameworks;
      Written(Flagged(init, minOsVersion, lookup, isLater), f, Verdict(lookup(f), minOsVersion, isLater))
  }

  /**
   * The key order of a Python dict after writing `v` under `key`: a new key
   * goes to the end, a key already present keeps its place.
   */
  function Inserted(keys: seq<string>, key: string, v: Option<string>): seq<string> {
    if v.Some? && key !in keys then keys + [key] else keys
  }

  /** The keys of `Flagged`, in the order the dict holds them (and the report prints them). */
  function FlaggedKeys(frameworks: seq<string>, minOsVersion: string,
                       lookup: string -> Option<seq<Platform>>, isLater: (string, string) -> bool)
    : (keys: seq<string>)
    ensures forall i, j :: 0 <= i < j < |keys| ==> keys[i] != keys[j]
  {
    if frameworks == [] then []
    else
      var f := frameworks[|frameworks| - 1];
      Inserted(FlaggedKeys(frameworks[..|frameworks| - 1], minOsVersion, lookup, isLater), f,
               Verdict(lookup(f), minOsVersion, isLater))
  }

  /**
   * The inner loop of `get_system_frame_platforms`: every qualifying record
   * writes its `introducedAt` under `framework`, a later write replacing an
   * earlier one; `keys` is the key order of the dict `minFrameworks`.
   */
  method WritePlatforms(minFrameworks: map<string, string>, keys: seq<string>, framework: string,
                        platforms: seq<Platform>, minOsVersion: string, isLater: (string, string) -> bool)
    returns (written: map<string, string>, writtenKeys: seq<string>)
    requires framework in minFrameworks <==> framework in keys
    ensures written == Written(minFrameworks, framework, LastQualifying(platforms, minOsVersion, isLater))
    ensures writtenKeys == Inserted(keys, framework, LastQualifying(platforms, minOsVersion, isLater))
  {
    written, writtenKeys := minFrameworks, keys;
    for j := 0 to |platforms|
      invariant written == Written(minFrameworks, framework, LastQualifying(platforms[..j], minOsVersion, isLater))
      invariant writtenKeys == Inserted(keys, framework, LastQualifying(platforms[..j], minOsVersion, isLater))
      invariant framework in written <==> framework in writtenKeys
    {
      var platform := platforms[j];
      LastQualifyingStep(platforms, j, minOsVersion, isLater);
      var introduced := platform.introducedAt;
      if platform.name == "iOS" && isLater(introduced, minOsVersion) {
        if framework !in written {
          writtenKeys := writtenKeys + [framework];
        }
        written := written[framework := platform.introducedAt];
      }
    }
    assert platforms[..|platforms|] == platforms;
  }

  /**
   * `get_system_frame_platforms(frameworks, min_os_version)`, with the
   * documentation lookup passed in as `lookup` (None for a failed request)
   * and the version comparison as `isLater`. Besides the map it returns its
   * keys in the order the dict holds them.
   */
  method GetSystemFramePlatforms(frameworks: seq<string>, minOsVersion: string,
                                 lookup: string -> Option<seq<Platform>>, isLater: (string, string) -> bool)
    returns (minFrameworks: map<string, string>, keys: seq<string>)
    ensures minFrameworks == Flagged(frameworks, minOsVersion, lookup, isLater)
    ensures keys == FlaggedKeys(frameworks, minOsVersion, lookup, isLater)
  {
    minFrameworks := map[];
    keys := [];
    for n := 0 to |frameworks|
      invariant minFrameworks == Flagged(frameworks[..n], minOsVersion, lookup, isLater)
      invariant keys == FlaggedKeys(frameworks[..n], minOsVersion, lookup, isLater)
    {
      var framework := frameworks[n];
      FlaggedStep(frameworks, n, minOsVersion, lookup, isLater);
      FlaggedKeysDomain(frameworks[..n], minOsVersion, lookup, isLater, framework);
      var platformsData := lookup(framework);
      if platformsData.Some? && platformsData.value != [] {
        minFrameworks, keys := WritePlatforms(minFrameworks, keys, framework, platformsData.value, minOsVersion, isLater);
      } else {
        if framework !in minFrameworks {
          keys := keys + [framework];
        }
        minFrameworks := minFrameworks[framework := FailureSentinel];
      }
    }
    assert frameworks[..|frameworks|] == frameworks;
  }

  /** One more framework writes its verdict into the map and, when new, appends its key. */
  lemma FlaggedStep(frameworks: seq<string>, n: nat, minOsVersion: string,
                    lookup: string -> Option<seq<Platform>>, isLater: (string, string) -> bool)
    requires n < |frameworks|
    ensures var v := Verdict(lookup(frameworks[n]), minOsVersion, isLater);
      Flagged(frameworks[..n + 1], minOsVersion, lookup, isLater) ==
        Written(Flagged(frameworks[..n], minOsVersion, lookup, isLater), frameworks[n], v) &&
      FlaggedKeys(frameworks[..n + 1], minOsVersion, lookup, isLater) ==
        Inserted(FlaggedKeys(frameworks[..n], minOsVersion, lookup, isLater), frameworks[n], v)
  {
    assert frameworks[..n + 1][..n] == frameworks[..n];
  }

  /** One more record either qualifies and becomes the last write, or leaves the last write as it was. */
  lemma LastQualifyingStep(platforms: seq<Platform>, j: nat, minOsVersion: string, isLater: (string, string) -> bool)
    requires j < |platforms|
    ensures LastQualifying(platforms[..j + 1], minOsVersion, isLater) ==
      if Qualifies(platforms[j], minOsVersion, isLater) then Some(platforms[j].introducedAt)
      else LastQualifying(platforms[..j], minOsVersion, isLater)
  {
    assert platforms[..j + 1][..j] == platforms[..j];
  }

  /**
   * The map keyed by framework: a framework is present exactly when it was
   * queried and its verdict writes something, and then it holds that value.
   * A repeated name has the same verdict at every occurrence.
   */
  lemma {:induction false} FlaggedEntry(frameworks: seq<string>, minOsVersion: string,
                                        lookup: string -> Option<seq<Platform>>, isLater: (string, string) -> bool,
                                        f: string)
    ensures var r := Flagged(frameworks, minOsVersion, lookup, isLater);
      var v := Verdict(lookup(f), minOsVersion, isLater);
      (f in r <==> f in frameworks && v.Some?) && (f in r ==> r[f] == v.value)
  {
    if frameworks != [] {
      var init := frameworks[..|frameworks| - 1];
      assert frameworks == init + [frameworks[|frameworks| - 1]];
      FlaggedEntry(init, minOsVersion, lookup, isLater, f);
    }
  }

  /** The dict's keys in order are exactly the keys of the map. */
  lemma {:induction false} FlaggedKeysDomain(frameworks: seq<string>, minOsVersion: string,
                                             lookup: string -> Option<seq<Platform>>, isLater: (string, string) -> bool,
                                             f: string)
    ensures f in FlaggedKeys(frameworks, minOsVersion, lookup, isLater) <==>
            f in Flagged(frameworks, minOsVersion, lookup, isLater)
  {
    if frameworks != [] {
      FlaggedKeysDomain(frameworks[..|frameworks| - 1], minOsVersion, lookup, isLater, f);
    }
  }

  /** `a` occurs in `xs` before any occurrence of `b`. */
  ghost predicate FirstBefore(xs: seq<string>, a: string, b: string) {
    exists p :: 0 <= p < |xs| && xs[p] == a && forall q :: 0 <= q <= p ==> xs[q] != b
  }

  /** What comes first in a prefix comes first in the whole sequence. */
  lemma FirstBeforePrefix(init: seq<string>, xs: seq<string>, a: string, b: string)
    requires |init| <= |xs| && init == xs[..|init|] && FirstBefore(init, a, b)
    ensures FirstBefore(xs, a, b)
  {
    var p :| 0 <= p < |init| && init[p] == a && forall q :: 0 <= q <= p ==> init[q] != b;
    assert xs[p] == a;
    forall q | 0 <= q <= p ensures xs[q] != b {
      assert xs[q] == init[q];
    }
  }

  /** Each of `keys` occurs in `xs` before any occurrence of a later one. */
  ghost predicate KeysInFirstOrder(xs: seq<string>, keys: seq<string>) {
    forall i, j :: 0 <= i < j < |keys| ==> FirstBefore(xs, keys[i], keys[j])
  }

  /**
   * The keys come in the order in which the frameworks were first queried: a
   * repeated framework keeps the place of its first occurrence.
   */
  lemma {:induction false} FlaggedKeysFirstWrite(frameworks: seq<string>, minOsVersion: string,
                                                 lookup: string -> Option<seq<Platform>>,
                                                 isLater: (string, string) -> bool)
    ensures KeysInFirstOrder(frameworks, FlaggedKeys(frameworks, minOsVersion, lookup, isLater))
  {
    if frameworks != [] {
      var n := |frameworks| - 1;
      var init := frameworks[..n];
      var f := frameworks[n];
      var before := FlaggedKeys(init, minOsVersion, lookup, isLater);
      var keys := FlaggedKeys(frameworks, minOsVersion, lookup, isLater);
      FlaggedKeysFirstWrite(init, minOsVersion, lookup, isLater);
      forall i, j | 0 <= i < j < |before| ensures FirstBefore(frameworks, before[i], before[j]) {
        FirstBeforePrefix(init, frameworks, before[i], before[j]);
      }
      if keys != before {
        assert keys == before + [f];
        FlaggedKeysDomain(init, minOsVersion, lookup, isLater, f);
        FlaggedEntry(init, minOsVersion, lookup, isLater, f);
        assert f !in init;
        forall i | 0 <= i < |before| ensures FirstBefore(frameworks, before[i], f) {
          FlaggedKeysDomain(init, minOsVersion, lookup, isLater, before[i]);
          FlaggedEntry(init, minOsVersion, lookup, isLater, before[i]);
          var p :| 0 <= p < |init| && init[p] == before[i];
          assert frameworks[p] == before[i];
          forall q | 0 <= q <= p ensures frameworks[q] != f {
            assert frameworks[q] == init[q];
          }
        }
      }
    }
  }

  /** A framework queried twice keeps the dict position of its first write. */
  lemma RepeatedFrameworkKeepsFirstPlace(isLater: (string, string) -> bool)
    ensures FlaggedKeys(["CoreML", "ARKit", "CoreML"], "11.0", f => None, isLater) == ["CoreML", "ARKit"]
  {
    var lookup: string -> Option<seq<Platform>> := f => None;
    var fs := ["CoreML", "ARKit", "CoreML"];
    assert Verdict(lookup("CoreML"), "11.0", isLater) == Some(FailureSentinel);
    assert Verdict(lookup("ARKit"), "11.0", isLater) == Some(FailureSentinel);
    assert fs[..1][..0] == [];
    assert FlaggedKeys(fs[..1], "11.0", lookup, isLater) == ["CoreML"];
    assert fs[..2][..1] == fs[..1];
    assert FlaggedKeys(fs[..2], "11.0", lookup, isLater) == ["CoreML", "ARKit"];
    assert fs[..2] == ["CoreML", "ARKit"];
  }

  /** Every framework written to by the loop is a key, once, and no other name is. */
  lemma FlaggedKeysMembers(frameworks: seq<string>, minOsVersion: string,
                           lookup: string -> Option<seq<Platform>>, isLater: (string, string) -> bool,
                           f: string)
    ensures f in FlaggedKeys(frameworks, minOsVersion, lookup, isLater) <==>
            f in frameworks && Verdict(lookup(f), minOsVersion, isLater).Some?
  {
    FlaggedKeysDomain(frameworks, minOsVersion, lookup, isLater, f);
    FlaggedEntry(frameworks, minOsVersion, lookup, isLater, f);
  }

  /** The map built by the loop equals the map written down at once, framework by framework. */
  lemma FlaggedAsMap(frameworks: seq<string>, minOsVersion: string,
                     lookup: string -> Option<seq<Platform>>, isLater: (string, string) -> bool)
    ensures Flagged(frameworks, minOsVersion, lookup, isLater) ==
      map f | f in frameworks && Verdict(lookup(f), minOsVersion, isLater).Some? ::
        Verdict(lookup(f), minOsVersion, isLater).value
  {
    var r := Flagged(frameworks, minOsVersion, lookup, isLater);
    var m := map f | f in frameworks && Verdict(lookup(f), minOsVersion, isLater).Some? ::
      Verdict(lookup(f), minOsVersion, isLater).value;
    forall f ensures (f in r <==> f in m) && (f in r ==> r[f] == m[f]) {
      FlaggedEntry(frameworks, minOsVersion, lookup, isLater, f);
    }
  }

  /** A framework whose lookup failed or returned no platforms is recorded with the sentinel. */
  lemma FlaggedFailedLookup(frameworks: seq<string>, minOsVersion: string,
                            lookup: string -> Option<seq<Platform>>, isLater: (string, string) -> bool,
                            f: string)
    requires f in frameworks && (lookup(f) == None || lookup(f) == Some([]))
    ensures var r := Flagged(frameworks, minOsVersion, lookup, isLater);
      f in r && r[f] == FailureSentinel
  {
    FlaggedEntry(frameworks, minOsVersion, lookup, isLater, f);
  }

  /**
   * A framework with platform data is flagged exactly when one of its
   * records qualifies, and then with the `introducedAt` of the last such.
   */
  lemma FlaggedIntroducedLater(frameworks: seq<string>, minOsVersion: string,
                               lookup: string -> Option<seq<Platform>>, isLater: (string, string) -> bool,
                               f: string, platforms: seq<Platform>)
    requires f in frameworks && lookup(f) == Some(platforms) && platforms != []
    ensures var r := Flagged(frameworks, minOsVersion, lookup, isLater);
      f in r <==> exists k :: 0 <= k < |platforms| && Qualifies(platforms[k], minOsVersion, isLater)
    ensures var r := Flagged(frameworks, minOsVersion, lookup, isLater);
      f in r ==> IsLastQualifying(platforms, minOsVersion, isLater, r[f])
  {
    FlaggedEntry(frameworks, minOsVersion, lookup, isLater, f);
    LastQualifyingSpec(platforms, minOsVersion, isLater);
  }

  /** The example of a CoreML dependency and a minimum OS version of 11.0. */
  lemma CoreMLExample(isLater: (string, string) -> bool)
    requires !isLater("11.0", "11.0") && isLater("12.0", "11.0")
    ensures Flagged(["CoreML"], "11.0", f => Some([Platform("iOS", "11.0")]), isLater) == map[]
    ensures Flagged(["CoreML"], "11.0", f => Some([Platform("iOS", "12.0")]), isLater) == map["CoreML" := "12.0"]
  {
  }

}
