# abnormal_system_framework — a Dafny model of the system-framework checker

The checker finds the iOS system frameworks that an app links but that appeared after the app's
minimum OS version. Such a dependency crashes the app at launch on older systems. The checker works
in three steps:

1. It locates the executable inside the `.app` bundle: the bundle path, a `/`, and the bundle's base
   name without its extension. It then runs a dump script on that executable, which prints the
   load commands.
2. It reads the dump line by line. A line is dropped when it mentions one of four frameworks that
   are always available (`OpenAL`, `MobileCoreServices`, `WebKit`, `JavaScriptCore`) anywhere, as a
   substring. A line is also dropped when it contains `weak`. From any other line it takes the first
   `/System/Library/Frameworks/<name>.framework` path, with the shortest possible `<name>`, and
   appends `<name>` to the list.
3. For each name, it fetches the framework's platform records from Apple's documentation. It then
   records the `introducedAt` of the last iOS record introduced later than the minimum OS version.
   When the fetch fails or returns no records, it records the sentinel `"None"`.

The model is organised in modules:

- `Wrappers` holds `Option`.
- `Seqs` holds a generic `FlatMap`, which concatenates per-element results, and its laws.
- `Text` models Python's `pat in s`, `str.rfind` on one character, and `str.splitlines` restricted to
  line feeds.
- `Paths` models `os.path.basename` and `os.path.splitext` for POSIX paths.
- `FrameworkPattern` writes out the one regular expression as an explicit search: leftmost start,
  lazy group of at least one non-line-feed character, followed by `.framework`. `Search` is
  `re.search`; `SearchFrom` (trying each start in turn) and `ShortestGroup` (trying each group
  length in turn) are its parts.
- `SystemFramework` models the operations of `system_framework.py` itself.

Two loops are kept as methods with loop invariants, proved against specification functions:

- `extract_frameworks` becomes `ExtractFrameworks`, an outer loop over lines with the ignore-list
  loop `IgnoreTag` inside it, specified by the function `Extracted`.
- `get_system_frame_platforms` becomes `GetSystemFramePlatforms`, an outer loop over frameworks
  with the loop over platform records `WritePlatforms` inside it. It is specified by the function
  `Flagged` for the map and by `FlaggedKeys` for its keys. A Python dict keeps its keys in the order
  they were first written, and the report prints them in that order. The model's `map` has no
  order, so the methods also return the keys as a sequence.

Each specification function has its meaning proved in separate lemmas against an independent
reference definition: `Contributes` for one dump line, and `IsLastQualifying` for platform records.

The dump script, the documentation fetch and the float comparison of version strings become
parameters:

- `runScript: string -> ScriptResult` for the dump script;
- `lookup: string -> Option<seq<Platform>>` for the fetch, where None stands for a failed request;
- `isLater(introduced, min)` for `float(introduced) > float(min)`.

## Model

| member | source | states |
|---|---|---|
| SystemFramework.ExtractFrameworks | system_framework.py:41-59 | The loop's list is exactly the concatenation, in line order, of what each dump line contributes; an empty dump gives an empty list |
| SystemFramework.IgnoreTag | system_framework.py:46-52 | The early-exit scan of the ignore list sets the flag exactly when some ignored name occurs in the line as a substring |
| SystemFramework.Contribution | system_framework.py:45-58 | One dump line adds at most one name |
| SystemFramework.ContributionMeaning | system_framework.py:47-58 | A line adds `name` exactly when it holds no ignored name and no `weak`, and `name` is group 1 of the leftmost, shortest framework-path match (both directions) |
| SystemFramework.FilteredLineContributesNothing | system_framework.py:47-54 | A line holding an ignored name or `weak` adds nothing |
| SystemFramework.ExtractedSkipsFilteredLine | system_framework.py:47-54 | Removing a line that holds an ignored name or `weak` leaves the list unchanged, whatever the other lines hold: each line is judged on its own |
| SystemFramework.WebKitLegacyIgnored | system_framework.py:47-50 | A line naming `WebKitLegacy` is ignored because `WebKit` occurs in it, and adds nothing |
| SystemFramework.Extracted | system_framework.py:45-58 | The list is no longer than the dump has lines |
| SystemFramework.ExtractedStep | system_framework.py:45-58 | One more line appends exactly that line's contribution at the end of the list |
| SystemFramework.ExtractedAppend | system_framework.py:45-58 | The list for two dumps back to back is the first list followed by the second: order is preserved |
| SystemFramework.ExtractedMembers | system_framework.py:45-58 | A name is in the list exactly when some line contributes it (both directions) |
| SystemFramework.ExtractedKeepsDuplicates | system_framework.py:58 | A line repeated `count` times gives its name `count` times: no deduplication |
| SystemFramework.ExtractedNameOccurs | system_framework.py:55-57 | Every listed name is non-empty and some line holds `/System/Library/Frameworks/` + name + `.framework` |
| SystemFramework.SearchResultUnique | system_framework.py:55 | The leftmost, shortest match is unique |
| FrameworkPattern.SearchSpec | system_framework.py:55 | The search fails exactly when the pattern matches nowhere in the line; otherwise it returns a match with no match starting earlier and no shorter group at its start |
| FrameworkPattern.SearchFromSpec | system_framework.py:55 | From a start position on, the search returns the leftmost match with its shortest group, or none when no match starts there or later |
| FrameworkPattern.HitAt | system_framework.py:55 | Where the search stops, the pattern matches with the shortest group at that position |
| FrameworkPattern.MissAt | system_framework.py:55 | Where the search moves on, the pattern matches at that position with no group length |
| FrameworkPattern.ShortestGroupSpec | system_framework.py:44 | The lazy group takes the fewest characters, from a given minimum on, that contain no line feed and are followed by `.framework`, or reports that no length fits |
| FrameworkPattern.GroupOccurs | system_framework.py:57 | A captured name is non-empty, has no line feed, and the line spells out its full framework path at the match |
| FrameworkPattern.GroupIsShortest | system_framework.py:55-57 | No shorter non-empty prefix of the captured name is followed by `.framework` at the match position |
| FrameworkPattern.Search | system_framework.py:55 | A match found lies inside the line, group included; what it is is stated by `SearchSpec` |
| FrameworkPattern.SearchFrom | system_framework.py:55 | A match found from a start position starts there or later and lies inside the line |
| FrameworkPattern.ShortestGroup | system_framework.py:44 | A group length found is at least the minimum tried and fits inside the line |
| FrameworkPattern.Group | system_framework.py:57 | The captured name has the group's length |
| Text.Contains | system_framework.py:48-53 | Python's substring test holds exactly when the pattern occurs at some index |
| Text.OccursConcat | system_framework.py:57 | Three strings occurring back to back spell out their concatenation |
| Text.SplitLines | system_framework.py:45 | The lines hold no line feed, and joined with line feeds they give back the text, with a final line feed added when missing |
| Text.SplitLinesOfUnlines | system_framework.py:45 | Splitting lines that were each terminated by a line feed gives those lines back |
| Text.LastIndexOf | system_framework.py:23 | The index is that of the last occurrence of the character, or -1 when it does not occur |
| Paths.Basename | system_framework.py:23 | The base name is the longest suffix of the path without a `/`: it holds no `/`, and the character before it, if any, is `/` |
| Paths.SplitExt | system_framework.py:24 | Root and extension concatenate to the name; the extension is non-empty exactly when the last dot of the last component has a non-dot character before it in that component, and then it starts at that dot |
| Paths.BasenameExample | system_framework.py:23 | The base name of `Payload/Demo.app` is `Demo.app` |
| Paths.SplitExtExample | system_framework.py:24 | `Demo.app` splits into `Demo` and `.app` |
| SystemFramework.MachOPath | system_framework.py:23-25 | The executable path is the bundle path, `/`, and a slash-free name that, followed by the bundle's extension, is the bundle's base name |
| SystemFramework.MachOPathExample | system_framework.py:23-25 | The bundle `Payload/Demo.app` has its executable at `Payload/Demo.app/Demo` |
| SystemFramework.SystemFrameworksList | system_framework.py:22-38 | The script runs on the executable path; a non-zero status gives None, and status 0 gives the names extracted from its output |
| SystemFramework.GetSystemFramePlatforms | system_framework.py:80-94 | The outer loop builds exactly the map `Flagged` describes (per framework, the sentinel for a failed or empty lookup, otherwise the inner loop's last write) and the dict's key order `FlaggedKeys` |
| SystemFramework.WritePlatforms | system_framework.py:87-90 | The inner loop leaves the map with the last qualifying record's `introducedAt` written under the framework, or unchanged when none qualifies; a newly written framework goes to the end of the key order |
| SystemFramework.Verdict | system_framework.py:86-92 | The loop body for one framework writes something unless the lookup gave records; anything it writes other than `"None"` is the `introducedAt` of a qualifying iOS record of that lookup |
| SystemFramework.LastQualifying | system_framework.py:87-90 | What the inner loop writes last, when anything, is the `introducedAt` of a qualifying iOS record |
| SystemFramework.LastQualifyingStep | system_framework.py:87-90 | One more record either qualifies and becomes the last write, or leaves the last write as it was |
| SystemFramework.FlaggedStep | system_framework.py:82-92 | One more framework writes its verdict into the map and, when it is not yet a key, appends it to the key order |
| SystemFramework.FlaggedKeys | system_framework.py:81-94 | The key order lists no framework twice |
| SystemFramework.FlaggedKeysDomain | system_framework.py:81-94 | The key order holds exactly the keys of the map |
| SystemFramework.FlaggedKeysMembers | system_framework.py:81-94 | A framework is in the key order exactly when it was queried and its verdict writes something |
| SystemFramework.FlaggedKeysFirstWrite | system_framework.py:81-94 | Keys come in the order of the frameworks' first occurrences: each key occurs in the input before any occurrence of a later key, so a repeated framework keeps its first position |
| SystemFramework.RepeatedFrameworkKeepsFirstPlace | system_framework.py:81-94 | Querying CoreML, ARKit and CoreML again, all failing, gives the key order CoreML, ARKit |
| SystemFramework.Flagged | system_framework.py:81-82 | Every key of the map is one of the queried frameworks |
| SystemFramework.LastQualifyingSpec | system_framework.py:87-90 | The inner loop's last write is absent exactly when no record is an iOS record introduced later than the minimum; otherwise it is the value of the last such record |
| SystemFramework.FlaggedEntry | system_framework.py:80-94 | A framework is a key exactly when it was queried and its verdict writes something, and its value is that verdict |
| SystemFramework.FlaggedAsMap | system_framework.py:80-94 | The map equals the comprehension over queried frameworks whose verdict writes something |
| SystemFramework.FlaggedFailedLookup | system_framework.py:86-92 | A framework whose lookup failed or returned no records maps to `"None"` |
| SystemFramework.FlaggedIntroducedLater | system_framework.py:86-90 | A framework with records is a key exactly when one of them qualifies, and then its value is that of the last qualifying record |
| SystemFramework.CoreMLExample | system_framework.py:86-90 | With a minimum of 11.0, CoreML introduced in 11.0 is not flagged and CoreML introduced in 12.0 is flagged with `12.0` |
| Seqs.FlatMapAppend | system_framework.py:45-58 | Concatenating per-element results distributes over appending inputs |
| Seqs.FlatMapMembers | system_framework.py:45-58 | An element is in the concatenation exactly when it is in some per-element result |
| Seqs.FlatMapLength | system_framework.py:45-58 | When each element yields at most one result, there are no more results than elements |
| Seqs.FlatMapSkip | system_framework.py:51-54 | An element yielding nothing can be removed without changing the concatenation |
| Seqs.FlatMapRepeat | system_framework.py:58 | Repeating an element that yields one value repeats that value |

## Left out

- The dump script itself: running `otool.sh` with `subprocess` and decoding its output as UTF-8 (`system_framework.py:26`, `:30`) are external I/O. The script becomes the parameter `runScript`, which returns a status and already-decoded text.
- `get_platforms_data` (`system_framework.py:62-77`): the HTTP request, the status check, `json.loads` and the `metadata.platforms` access are network and foreign parsing. The result comes in through `lookup`.
- Exceptions from the fetch and from JSON parsing: in the code they propagate and abort the whole loop. The model's `lookup` is total and cannot fail that way.
- A missing `introducedAt` or `name` key in a record (a `KeyError`) is not modelled: records are the `Platform` datatype.
- SystemFramework.FlaggedEntry: `lookup` is a function, so a framework named twice gets the same data both times. A live fetch could differ between the occurrences; the model does not capture which occurrence then wins beyond the last write being kept.
- `float(introduced) > float(min_os_version)` (`system_framework.py:89`): floating-point parsing and comparison, including the `ValueError` or `TypeError` raised for a non-numeric or missing minimum version, are abstracted as the relation `isLater`.
- Text.SplitLines: splits only at line feeds. Python's `str.splitlines` also splits at carriage returns, form feeds and other Unicode line boundaries.
- Python's general `re` engine is not modelled. Only the one fixed pattern is, as an explicit search.
- Paths.Basename and Paths.SplitExt: model POSIX paths as sequences of characters. There is no byte-path or platform-specific handling.
- `main.py` (argument parsing, printing, timing) is not part of this model. That includes its passing of a None framework list to `get_system_frame_platforms` when the script fails.
- `min_os_version.py` (reading `info.plist`) is not part of this model.
- `print` diagnostics throughout are left out.
- The documented behaviour of the system describes the extracted names as deduplicated. The code appends every match and keeps duplicates, and the model follows the code (`ExtractedKeepsDuplicates`).
