# bleep: project picker, service and forked test-runner protocol

This project models two parts of bleep in Dafny.

The first part is the IntelliJ plugin's project picker. It covers:
- the `BleepToolWindowPanel` selection engine:
  - the reverse-dependency index and the transitive dependency closure;
  - the select / deselect / group edits;
  - the "unlocking" forest layout of the project tree;
  - the panel state machine (`PanelState`).
- the `BleepService` selection store, its stale-selection filter and its sorted persisted form;
- the name parsing of `ProjectInfo`;
- the JSON-line filter on the CLI's stdout;
- the release-asset choice of `BleepDownloader`.

The second part is the forked test runner. It covers:
- the hand-written JSON wire protocol of `TestProtocol`: the string escaper, every encoder, and the command parser with its two extractors;
- in `ForkedTestRunner`:
  - the line-buffering capture streams;
  - the status tally of the event handler;
  - how an aborted suite is reported;
  - the command loop.

Module layout:
- `KotlinStd` (kotlin_std.dfy): the small parts of the Kotlin standard library the plugin relies on. These are substring tests, trimming, `sorted()` by UTF-16 code units, `distinct()`, `joinToString` and `flatten`.
- `ProjectData`, `Downloader`, `Service`, `Layout` and `Panel`: the plugin.
- `TestProtocol`, `TestProtocolArray`, `TestProtocolMessages` and `TestRunner`: the runner.

Kotlin strings are Dafny `string`. Java strings are `JString`, a sequence of UTF-16 code units, because `(char) b` casts and `\uXXXX` decoding can produce any code unit.

The plugin's background tasks and `invokeLater` hops run in sequence here. Whatever the bleep CLI, the download or the BSP refresh returned becomes an input of the method that handles it: `Load`, `BleepResult`, `CommandResult`, `BspRefresh`.

On the runner side, `Channel` is the list of protocol lines sent so far.

Round trips through the wire format are proved on a token model. A message is a list of `Piece`s: gaps of punctuation and quoted strings. `Render` turns the pieces into text. The field extractors are shown to skip every piece before the key they look for.

## Model

| member | source | states |
|---|---|---|
| ProjectData.ProjectName | intellij-plugin/src/main/kotlin/build/bleep/intellij/BleepProjectData.kt:29-30 | the base name is a prefix of the name, never contains `@`, and equals the whole name exactly when there is no `@` |
| ProjectData.CrossId | intellij-plugin/src/main/kotlin/build/bleep/intellij/BleepProjectData.kt:36-37 | a cross id exists exactly when the name contains `@`; it is a proper suffix of the name |
| ProjectData.NameReassembles | intellij-plugin/src/main/kotlin/build/bleep/intellij/BleepProjectData.kt:29-37 | name == projectName + "@" + crossId when there is a cross id, else name == projectName |
| ProjectData.SplitAtFirstAt | intellij-plugin/src/main/kotlin/build/bleep/intellij/BleepProjectData.kt:29-30 | in `base@tag` with an `@`-free base, the first `@` sits right after the base |
| ProjectData.CrossVariants | intellij-plugin/src/main/kotlin/build/bleep/intellij/BleepProjectData.kt:20-38 | two cross variants of one base share `projectName`, keep their own cross ids and remain distinct names |
| ProjectData.JsonLines | intellij-plugin/src/main/kotlin/build/bleep/intellij/BleepProjectData.kt:131-140 | the kept lines are exactly the input lines whose left-trimmed form starts with `{` |
| ProjectData.JsonLinesAppend | intellij-plugin/src/main/kotlin/build/bleep/intellij/BleepProjectData.kt:131-140 | filtering keeps the lines' order: the kept lines of two parts are those of the first part, then those of the second |
| ProjectData.IsJsonLineMeans | intellij-plugin/src/main/kotlin/build/bleep/intellij/BleepProjectData.kt:136 | a line is kept exactly when its first non-whitespace character is `{` |
| ProjectData.CollectJsonOutput | intellij-plugin/src/main/kotlin/build/bleep/intellij/BleepProjectData.kt:131-140 | the read loop appends the kept lines, in order and with nothing between them |
| ProjectData.OutputEmptyIffNoJsonLine | intellij-plugin/src/main/kotlin/build/bleep/intellij/BleepProjectData.kt:131-161 | the collected output is empty exactly when no line is a JSON line |
| ProjectData.RunBleepCommand | intellij-plugin/src/main/kotlin/build/bleep/intellij/BleepProjectData.kt:112-165 | null exactly when the binary is missing, the process threw, the exit code is non-zero or no line was JSON; otherwise the non-empty concatenation of the JSON lines |
| Downloader.DetectOsArch | intellij-plugin/src/main/kotlin/build/bleep/intellij/BleepDownloader.kt:33-51 | succeeds exactly for a known OS word and a known arch; "windows" wins over "linux", which wins over "mac"; aarch64 is ARM64; the two error texts |
| Downloader.WindowsWins | intellij-plugin/src/main/kotlin/build/bleep/intellij/BleepDownloader.kt:37-42 | an OS name mentioning "windows" is Windows, whatever else it mentions |
| Downloader.DownloadUrl | intellij-plugin/src/main/kotlin/build/bleep/intellij/BleepDownloader.kt:53-63 | a URL exactly for the supported pairs, always under the release's `v<version>` directory; otherwise the "No native image available" error |
| Downloader.PublishedAssets | intellij-plugin/src/main/kotlin/build/bleep/intellij/BleepDownloader.kt:53-60 | the exact asset URL of each of the four supported platforms |
| Downloader.NoArmImageForLinuxOrWindows | intellij-plugin/src/main/kotlin/build/bleep/intellij/BleepDownloader.kt:61 | the URL fails exactly for (LINUX, ARM64) and (WINDOWS, ARM64) |
| Downloader.Extension | intellij-plugin/src/main/kotlin/build/bleep/intellij/BleepDownloader.kt:129-136 | one of ".tar.gz", ".zip", ".gz" or ""; a non-empty result is a suffix of the URL; ".tar.gz" wins over ".gz"; "" exactly when no suffix matches |
| Downloader.ExtractorFor | intellij-plugin/src/main/kotlin/build/bleep/intellij/BleepDownloader.kt:138-145 | rejects exactly the URLs without a known extension, with "Unknown archive format: " and the URL |
| Downloader.ExtractorAgreesWithExtension | intellij-plugin/src/main/kotlin/build/bleep/intellij/BleepDownloader.kt:129-145 | the chosen extractor is the one for the extension `getExtension` reports |
| Downloader.DownloadUrlExtension | intellij-plugin/src/main/kotlin/build/bleep/intellij/BleepDownloader.kt:53-60 | every published asset is a ".zip" on Windows and a ".tar.gz" elsewhere, and is extracted as such |
| Downloader.SuffixCarries | intellij-plugin/src/main/kotlin/build/bleep/intellij/BleepDownloader.kt:129-136 | whether a URL ends with a suffix depends only on its tail |
| Downloader.ExecutableName | intellij-plugin/src/main/kotlin/build/bleep/intellij/BleepDownloader.kt:67 | "bleep.exe" exactly on Windows, "bleep" exactly elsewhere |
| Service.CrossProjectNames | intellij-plugin/src/main/kotlin/build/bleep/intellij/BleepService.kt:384-391 | every full name of the graph, sorted ascending, with duplicates kept; empty without a graph |
| Service.ProjectNames | intellij-plugin/src/main/kotlin/build/bleep/intellij/BleepService.kt:393-401 | the base names of the graph, each once, sorted ascending; empty without a graph |
| Service.FlagPairsJoin | intellij-plugin/src/main/kotlin/build/bleep/intellij/BleepService.kt:611 | joining the flattened `[flag, t]` pairs equals joining one `flag t` word per target |
| Service.SourceGenArgsPerTarget | intellij-plugin/src/main/kotlin/build/bleep/intellij/BleepService.kt:611 | the source-generator arguments are `-p t` for each target, in order, joined by single spaces |
| Service.DownloadErrorMessage | intellij-plugin/src/main/kotlin/build/bleep/intellij/BleepService.kt:242-250 | the not-found text exactly when the message contains "404" or "Not Found"; otherwise the network text for "connect"/"timeout"; otherwise the generic text |
| Service.NotFoundBeatsNetwork | intellij-plugin/src/main/kotlin/build/bleep/intellij/BleepService.kt:243-246 | a message with both "404" and "timeout" is reported as not found |
| Service.NullMessageIsGeneric | intellij-plugin/src/main/kotlin/build/bleep/intellij/BleepService.kt:247-248 | a null exception message gives the generic text ending in "null" |
| Service.StaleFiltered | intellij-plugin/src/main/kotlin/build/bleep/intellij/BleepService.kt:278-291 | with both sets non-empty the kept selection is selection ∩ valid names; otherwise the selection unchanged |
| Service.BleepService.constructor | intellij-plugin/src/main/kotlin/build/bleep/intellij/BleepService.kt:29-39 | the service starts with nothing selected and BSP not configured |
| Service.BleepService.GetSelectedProjects | intellij-plugin/src/main/kotlin/build/bleep/intellij/BleepService.kt:142 | returns the current selection |
| Service.BleepService.SetSelectedProjects | intellij-plugin/src/main/kotlin/build/bleep/intellij/BleepService.kt:144-147 | the selection becomes exactly the given set |
| Service.BleepService.ToggleProjectSelection | intellij-plugin/src/main/kotlin/build/bleep/intellij/BleepService.kt:149-155 | the selection becomes `Toggled(old, n)` |
| Service.Toggled | intellij-plugin/src/main/kotlin/build/bleep/intellij/BleepService.kt:149-155 | membership of `n` flips; every other name keeps its membership |
| Service.ToggleTwice | intellij-plugin/src/main/kotlin/build/bleep/intellij/BleepService.kt:149-155 | toggling twice restores the selection |
| Service.BleepService.SelectGroup | intellij-plugin/src/main/kotlin/build/bleep/intellij/BleepService.kt:157-159 | every listed id is added, nothing removed |
| Service.BleepService.DeselectGroup | intellij-plugin/src/main/kotlin/build/bleep/intellij/BleepService.kt:161-163 | exactly the listed ids are removed |
| Service.BleepService.SaveProjectSelection | intellij-plugin/src/main/kotlin/build/bleep/intellij/BleepService.kt:123-140 | with a base path, the persisted list is sorted ascending and lists each selected project exactly once; without one nothing is written |
| Service.BleepService.DropStaleSelection | intellij-plugin/src/main/kotlin/build/bleep/intellij/BleepService.kt:276-291 | the selection becomes `StaleFiltered(old, valid)`; the projects passed on list it exactly; it is re-persisted, sorted, when something was dropped |
| Service.BleepService.SetupIde | intellij-plugin/src/main/kotlin/build/bleep/intellij/BleepService.kt:259-330 | every outcome: the ensureBleep error, the stale filter, a missing base path, setup-ide failure (BSP status ERROR, the command's message or "bleep setup-ide failed"); on success the status set to CONFIGURED is then overwritten by `refreshBsp`, so it ends CONNECTED when the project connected, ERROR when the BSP file was missing or the import failed, and CONFIGURED only when the refresh threw; completion succeeds exactly when the project connected, and otherwise carries `refreshBsp`'s message |
| Service.BleepService.RefreshBsp | intellij-plugin/src/main/kotlin/build/bleep/intellij/BleepService.kt:496-581 | without a base path, "Project base path not found" and the status unchanged; success exactly when a BSP action ran or the import succeeded, and then the status is CONNECTED; a missing `.bsp/bleep.json` or a failed import sets ERROR; an exception leaves the status alone; each failure's message ("BSP file not found at …", "BSP import failed: message[: details]", "BSP refresh exception: …"); short of an exception, the status is CONNECTED exactly when the refresh succeeded |
| Layout.AssociateByName | intellij-plugin/src/main/kotlin/build/bleep/intellij/BleepToolWindowFactory.kt:734 | `associateBy`: every name is a key, and a key maps to the last project with that name |
| Layout.ReverseOfMeans | intellij-plugin/src/main/kotlin/build/bleep/intellij/BleepToolWindowFactory.kt:736-743 | the reverse map holds `c` under `d` exactly when project `c` lists `d` in `dependsOn`; no entry is empty |
| Layout.ReverseIndex | intellij-plugin/src/main/kotlin/build/bleep/intellij/BleepToolWindowFactory.kt:736-743 | the loop builds that reverse-dependency index |
| Layout.IndexesWellFormed | intellij-plugin/src/main/kotlin/build/bleep/intellij/BleepToolWindowFactory.kt:733-744 | the two maps `buildDependencyMaps` builds give a graph whose dependents are known projects and whose internal edges appear in the reverse index |
| Layout.InternalDeps | intellij-plugin/src/main/kotlin/build/bleep/intellij/BleepToolWindowFactory.kt:780-783 | a project's internal dependencies are projects of the graph |
| Layout.UnlockedDependents | intellij-plugin/src/main/kotlin/build/bleep/intellij/BleepToolWindowFactory.kt:801-804 | exactly the unlisted dependents whose internal dependencies are all listed, each once, by descending dependent count then name |
| Layout.AddProjectWithChildren | intellij-plugin/src/main/kotlin/build/bleep/intellij/BleepToolWindowFactory.kt:791-810 | a listed project is skipped; otherwise its subtree places each newly listed project once, in dependency order, checked when selected; the children of every node are exactly the projects it unlocks (dependents not yet listed whose internal dependencies are all listed, counting the siblings placed before), sorted, and nothing unlocked is left unlisted |
| Layout.Level0 | intellij-plugin/src/main/kotlin/build/bleep/intellij/BleepToolWindowFactory.kt:812-816 | exactly the projects without internal dependencies, by descending dependent count then name |
| Layout.AddLevel0 | intellij-plugin/src/main/kotlin/build/bleep/intellij/BleepToolWindowFactory.kt:818-820 | the level-0 roots are added in order and the listed set stays closed under unlocking |
| Layout.ReachedIsLeastClosed | intellij-plugin/src/main/kotlin/build/bleep/intellij/BleepToolWindowFactory.kt:790-820 | the projects reached from level 0 form the least set closed under "all internal dependencies listed" |
| Layout.LeafNodes | intellij-plugin/src/main/kotlin/build/bleep/intellij/BleepToolWindowFactory.kt:826-832 | one childless node per name, in order, checked when selected |
| Layout.FallbackRoots | intellij-plugin/src/main/kotlin/build/bleep/intellij/BleepToolWindowFactory.kt:822-832 | the unreached projects become sorted, childless roots; each waits on an unreached dependency |
| Layout.PopulateProjectTree | intellij-plugin/src/main/kotlin/build/bleep/intellij/BleepToolWindowFactory.kt:768-841 | every project is placed, once when names are distinct; reached part in dependency order with sorted roots; each root and each child sits where it is unlocked: under the first node whose placement lists its last internal dependency, sorted among the projects that node unlocks; reached set is the least closed set; fallback roots are the rest |
| Layout.ChainNotFlat | intellij-plugin/src/main/kotlin/build/bleep/intellij/BleepToolWindowFactory.kt:791-810 | for a:[], b:[a], c:[a,b], `c` is not a child of `a`: placing `a` unlocks only `b` |
| Layout.ChainNested | intellij-plugin/src/main/kotlin/build/bleep/intellij/BleepToolWindowFactory.kt:791-810 | for the same graph, the chain a, b, c satisfies the unlocking rule |
| Panel.DirtyChecked | intellij-plugin/src/main/kotlin/build/bleep/intellij/BleepToolWindowFactory.kt:539-548 | no change in APPLYING, LOADING, INITIALIZING or ERROR; from READY/DIRTY the state is DIRTY exactly when dirty and READY exactly when not |
| Panel.DirtyCheckedIdempotent | intellij-plugin/src/main/kotlin/build/bleep/intellij/BleepToolWindowFactory.kt:539-548 | checking twice gives the same state as checking once |
| Panel.ClearedState | intellij-plugin/src/main/kotlin/build/bleep/intellij/BleepToolWindowFactory.kt:526-530 | DIRTY exactly when the selection differs from the applied one, else READY |
| Panel.LoadFailedMessage | intellij-plugin/src/main/kotlin/build/bleep/intellij/BleepToolWindowFactory.kt:722-724 | "Failed to load projects: " followed by the message, or by "null" |
| Panel.CollectDependencies | intellij-plugin/src/main/kotlin/build/bleep/intellij/BleepToolWindowFactory.kt:631-638 | terminates on cycles; the result holds the start and every `dependsOn` entry of every known project it adds, and is the least such extension of the visited set |
| Panel.CollectedIsClosure | intellij-plugin/src/main/kotlin/build/bleep/intellij/BleepToolWindowFactory.kt:611-613 | started from an empty set, the walk yields the dependency closure of the project |
| Panel.ClosureUnion | intellij-plugin/src/main/kotlin/build/bleep/intellij/BleepToolWindowFactory.kt:880-884 | the closures of two start sets unite into the closure of their union |
| Panel.ClosureUnique | intellij-plugin/src/main/kotlin/build/bleep/intellij/BleepToolWindowFactory.kt:631-638 | a start set has exactly one closure |
| Panel.BaseNameOf | intellij-plugin/src/main/kotlin/build/bleep/intellij/BleepToolWindowFactory.kt:756-758 | the text before an `@` found at index > 0, else the whole name |
| Panel.BaseNameOfAgrees | intellij-plugin/src/main/kotlin/build/bleep/intellij/BleepToolWindowFactory.kt:756-758 | agrees with `projectName` except on names starting with `@` |
| Panel.CrossProjectGroupMeans | intellij-plugin/src/main/kotlin/build/bleep/intellij/BleepToolWindowFactory.kt:750-761 | a group is a cross-project group exactly when all its members share one base name (vacuous for at most one member) |
| Panel.MixedBases | intellij-plugin/src/main/kotlin/build/bleep/intellij/BleepToolWindowFactory.kt:754-760 | two members with different base names make more than one base name |
| Panel.ShownGroupsMembers | intellij-plugin/src/main/kotlin/build/bleep/intellij/BleepToolWindowFactory.kt:695 | the shown groups are exactly the loaded groups that are not cross-project groups |
| Panel.ShownGroupsAppend | intellij-plugin/src/main/kotlin/build/bleep/intellij/BleepToolWindowFactory.kt:695 | filtering keeps the groups' order: the shown groups of two lists joined are those of the first, then those of the second |
| Panel.AllGroup | intellij-plugin/src/main/kotlin/build/bleep/intellij/BleepToolWindowFactory.kt:847 | the "All" group lists every project name |
| Panel.LayOutForest | intellij-plugin/src/main/kotlin/build/bleep/intellij/BleepToolWindowFactory.kt:768-841 | the forest is a reached part and a fallback part with every guarantee of `Layout.PopulateProjectTree`, the unlocking rule included |
| Panel.ForestShowsEveryProject | intellij-plugin/src/main/kotlin/build/bleep/intellij/BleepToolWindowFactory.kt:768-841 | such a forest shows every project, once when names are distinct, each top-level box checked exactly when selected |
| Panel.ToolWindowPanel.constructor | intellij-plugin/src/main/kotlin/build/bleep/intellij/BleepToolWindowFactory.kt:74-125 | the panel starts INITIALIZING with nothing loaded, nothing applied and no error |
| Panel.ToolWindowPanel.CheckDirtyState | intellij-plugin/src/main/kotlin/build/bleep/intellij/BleepToolWindowFactory.kt:539-548 | the state becomes `DirtyChecked(old state, selection ≠ applied)` and READY/DIRTY agree with the comparison |
| Panel.ToolWindowPanel.UpdateCountLabel | intellij-plugin/src/main/kotlin/build/bleep/intellij/BleepToolWindowFactory.kt:655-660 | ends with the dirty check |
| Panel.ToolWindowPanel.ShowError | intellij-plugin/src/main/kotlin/build/bleep/intellij/BleepToolWindowFactory.kt:507-517 | records the message and moves to ERROR |
| Panel.ToolWindowPanel.ClearError | intellij-plugin/src/main/kotlin/build/bleep/intellij/BleepToolWindowFactory.kt:522-534 | clears the message and goes to DIRTY exactly when selection ≠ applied, else READY |
| Panel.ToolWindowPanel.SelectWithDependencies | intellij-plugin/src/main/kotlin/build/bleep/intellij/BleepToolWindowFactory.kt:611-617 | the selection becomes the old selection united with the closure of the project; nothing is removed |
| Panel.ToolWindowPanel.DeselectSingleProject | intellij-plugin/src/main/kotlin/build/bleep/intellij/BleepToolWindowFactory.kt:645-646 | only that project leaves the selection |
| Panel.ToolWindowPanel.ToggleGroup | intellij-plugin/src/main/kotlin/build/bleep/intellij/BleepToolWindowFactory.kt:871-888 | all members selected: exactly the members leave; otherwise the closure of all members joins; then the dirty check |
| Panel.ToolWindowPanel.OnNodeStateChanged | intellij-plugin/src/main/kotlin/build/bleep/intellij/BleepToolWindowFactory.kt:152-183 | checking a node adds its closure, unchecking removes just that project; then the dirty check |
| Panel.ToolWindowPanel.BuildDependencyMaps | intellij-plugin/src/main/kotlin/build/bleep/intellij/BleepToolWindowFactory.kt:733-744 | `projectByName` and `dependents` become the name index and the reverse-dependency index of `allProjects` |
| Panel.ToolWindowPanel.PopulateProjectTree | intellij-plugin/src/main/kotlin/build/bleep/intellij/BleepToolWindowFactory.kt:768-841 | the tree is laid out from the loaded graph with every guarantee of `Layout.PopulateProjectTree`, the unlocking rule included |
| Panel.ToolWindowPanel.SelectAll | intellij-plugin/src/main/kotlin/build/bleep/intellij/BleepToolWindowFactory.kt:1007-1011 | every project is selected, the tree is rebuilt, then the dirty check |
| Panel.ToolWindowPanel.DeselectAll | intellij-plugin/src/main/kotlin/build/bleep/intellij/BleepToolWindowFactory.kt:1013-1017 | nothing is selected, the tree is rebuilt, then the dirty check |
| Panel.ToolWindowPanel.RefreshProjects | intellij-plugin/src/main/kotlin/build/bleep/intellij/BleepToolWindowFactory.kt:662-729 | a saved selection replaces the current one; a failure or missing graph ends in ERROR with its message and leaves the projects, their indexes, the groups and the applied selection as they were (a failure also keeps the selection); a loaded graph ends READY with applied = selection, the tree laid out and the groups filtered |
| Panel.ToolWindowPanel.ShowLoaded | intellij-plugin/src/main/kotlin/build/bleep/intellij/BleepToolWindowFactory.kt:678-715 | a saved selection replaces the current one; a missing graph ends in ERROR with "Failed to load project graph from bleep CLI" and leaves the projects, their indexes, the groups and the applied selection as they were; otherwise the state ends READY with applied = selection, the tree laid out and the groups filtered |
| Panel.ToolWindowPanel.ShowProjects | intellij-plugin/src/main/kotlin/build/bleep/intellij/BleepToolWindowFactory.kt:690-715 | the graph is indexed and laid out with every guarantee of `Layout.PopulateProjectTree`, the groups filtered, the applied selection set; the state ends READY |
| Panel.ToolWindowPanel.ShowGraph | intellij-plugin/src/main/kotlin/build/bleep/intellij/BleepToolWindowFactory.kt:690-692 | the indexes are those of the new projects and the tree is laid out from them with every guarantee of `Layout.PopulateProjectTree` |
| Panel.ToolWindowPanel.OnSetupIde | intellij-plugin/src/main/kotlin/build/bleep/intellij/BleepToolWindowFactory.kt:1019-1032 | success applies the service's final selection and goes READY; failure goes to ERROR with the service's message and leaves the applied selection alone; in every case the service ends as `SetupIde` leaves it: the stale-filtered selection once bleep is available, the persisted sorted list with a base path, and the BSP status (unchanged without bleep or a base path, ERROR when setup-ide failed, otherwise what `refreshBsp` left) |
| Panel.SetFlagsMeans | intellij-plugin/src/main/kotlin/build/bleep/intellij/BleepToolWindowFactory.kt:1090-1093 | a flag is passed exactly when its getter is on |
| Panel.NonBlankValuesMeans | intellij-plugin/src/main/kotlin/build/bleep/intellij/BleepToolWindowFactory.kt:1098-1102 | a single value is passed exactly when it is not blank |
| Panel.FlattenMeans | intellij-plugin/src/main/kotlin/build/bleep/intellij/BleepToolWindowFactory.kt:1094-1106 | an entry of a list getter is passed exactly when some getter returned it |
| Panel.CollectedArgsMeans | intellij-plugin/src/main/kotlin/build/bleep/intellij/BleepToolWindowFactory.kt:1088-1110 | an argument is an enabled flag, an entry of a flagged-value or multi-value list, or a non-blank single value |
| Panel.ArgsCollector.IsValid | intellij-plugin/src/main/kotlin/build/bleep/intellij/BleepToolWindowFactory.kt:1081-1086 | valid exactly when every required check passes |
| Panel.ArgsCollector.CollectArgs | intellij-plugin/src/main/kotlin/build/bleep/intellij/BleepToolWindowFactory.kt:1088-1110 | flags, then flagged values, then non-blank values, then multi-values, each group in insertion order |
| TestProtocol.J | bleep-test-runner/src/main/java/bleep/testing/runner/TestProtocol.java:18-30 | a Java literal becomes one code unit per character |
| TestProtocol.EscapeChar | bleep-test-runner/src/main/java/bleep/testing/runner/TestProtocol.java:195-223 | every character escapes to a non-empty text |
| TestProtocol.JsonString | bleep-test-runner/src/main/java/bleep/testing/runner/TestProtocol.java:189-227 | the loop computes `JsonText`: "null" for null, otherwise the quoted escaped text |
| TestProtocol.EscapedAppend | bleep-test-runner/src/main/java/bleep/testing/runner/TestProtocol.java:193-225 | escaping works character by character, so it distributes over concatenation |
| TestProtocol.EscapedPlain | bleep-test-runner/src/main/java/bleep/testing/runner/TestProtocol.java:195-223 | a string is copied unchanged exactly when it has no quote, no backslash and no character below 0x20 |
| TestProtocol.EscapedQuoteFree | bleep-test-runner/src/main/java/bleep/testing/runner/TestProtocol.java:196-201 | escaping leaves no bare quote |
| TestProtocol.EscapedPrintable | bleep-test-runner/src/main/java/bleep/testing/runner/TestProtocol.java:202-222 | escaped text has no character below 0x20 |
| TestProtocol.JsonTextOneLine | bleep-test-runner/src/main/java/bleep/testing/runner/TestProtocol.java:189-227 | an encoded string has no line feed or carriage return |
| TestProtocol.ParseHex4 | bleep-test-runner/src/main/java/bleep/testing/runner/TestProtocol.java:217-219 | the four hex digits written for a control character parse back to it |
| TestProtocol.HexValueOtherScripts | bleep-test-runner/src/main/java/bleep/testing/runner/TestProtocol.java:274-275 | as for `Character.digit`, Arabic-Indic, Devanagari and fullwidth digits and fullwidth letters are hexadecimal digits; `g` and `-` are not |
| TestProtocol.ParseHexArabicIndic | bleep-test-runner/src/main/java/bleep/testing/runner/TestProtocol.java:274-275 | `parseInt` reads the Arabic-Indic digits ٠٠٤١ as 0x41 |
| TestProtocol.ParseHexFullwidth | bleep-test-runner/src/main/java/bleep/testing/runner/TestProtocol.java:274-275 | `parseInt` reads fullwidth ００４Ａ as 0x4A |
| TestProtocol.ParseHexMixed | bleep-test-runner/src/main/java/bleep/testing/runner/TestProtocol.java:274-275 | a sign and digits of different scripts mix: `-१ｆ0` is minus 0x1F0 |
| TestProtocol.ParseHexRejects | bleep-test-runner/src/main/java/bleep/testing/runner/TestProtocol.java:274-275 | `004g` is not a number, so the lookup throws |
| TestProtocol.DecodeEscaped | bleep-test-runner/src/main/java/bleep/testing/runner/TestProtocol.java:244-286 | the field decoder reads back exactly what `jsonString` escaped |
| TestProtocol.ValueAtJson | bleep-test-runner/src/main/java/bleep/testing/runner/TestProtocol.java:236-240 | after a colon, an encoded string value is found and a `null` value is absent |
| TestProtocol.FieldOfKey | bleep-test-runner/src/main/java/bleep/testing/runner/TestProtocol.java:230-236 | a field lookup at its own quoted key reads the value that follows |
| TestProtocol.PassIndex | bleep-test-runner/src/main/java/bleep/testing/runner/TestProtocol.java:231-233 | the search for a quoted key skips rendered pieces that cannot contain it |
| TestProtocol.QuoteFreeSkipped | bleep-test-runner/src/main/java/bleep/testing/runner/TestProtocol.java:231-233 | a written string without quotes inside holds the quoted key only if it is the key |
| TestProtocol.IndexString | bleep-test-runner/src/main/java/bleep/testing/runner/TestProtocol.java:231-233 | the search moves past a written string that holds no quoted key and is followed by a character other than the key's first |
| TestProtocol.ExtractStringField | bleep-test-runner/src/main/java/bleep/testing/runner/TestProtocol.java:230-288 | the loops compute `FieldOf`: absent for a missing key or a non-string value, the decoded text otherwise, a thrown error when the four characters after `\u` are not a number to `parseInt(…, 16)` (an optional sign, then digits of any script or the letters a to f, ASCII or fullwidth) |
| TestProtocolArray.ExtractStringArray | bleep-test-runner/src/main/java/bleep/testing/runner/TestProtocol.java:291-354 | the scanner computes `ArrayOf` in the as-written decoding |
| TestProtocolArray.RunArray | bleep-test-runner/src/main/java/bleep/testing/runner/TestProtocol.java:309-352 | the as-written scanner never throws and never returns null once it is past `[` |
| TestProtocolArray.ReadTextCorrected | bleep-test-runner/src/main/java/bleep/testing/runner/TestProtocol.java:202-220 | with every escape of `jsonString` decoded, array strings read back unchanged |
| TestProtocolArray.ReadTextAsWritten | bleep-test-runner/src/main/java/bleep/testing/runner/TestProtocol.java:314-332 | as written, a string reads back unchanged exactly when it has no control character other than LF, CR and TAB |
| TestProtocolArray.BackspaceReadsAsB | bleep-test-runner/src/main/java/bleep/testing/runner/TestProtocol.java:314-332 | as written, a backspace reads back as the letter `b` |
| TestProtocolArray.ArrayEscaped | bleep-test-runner/src/main/java/bleep/testing/runner/TestProtocol.java:309-352 | the array scanner reads an escaped string as `ReadText` of it |
| TestProtocolArray.ReadArgsCorrected | bleep-test-runner/src/main/java/bleep/testing/runner/TestProtocol.java:335-349 | with full decoding, the args read back are the non-null args (a null element is skipped) |
| TestProtocolArray.ReadArgsAsWritten | bleep-test-runner/src/main/java/bleep/testing/runner/TestProtocol.java:314-349 | as written, the same holds when no arg has a control character other than LF, CR and TAB |
| TestProtocolArray.ArrayItems | bleep-test-runner/src/main/java/bleep/testing/runner/TestProtocol.java:309-352 | a rendered string list followed by `]` scans to its elements, in order |
| TestProtocolMessages.AppendStrings | bleep-test-runner/src/main/java/bleep/testing/runner/TestProtocol.java:113-116 | the loop appends the comma-separated string list |
| TestProtocolMessages.EncodeRunSuite | bleep-test-runner/src/main/java/bleep/testing/runner/TestProtocol.java:358-370 | builds the RunSuite message rendered from its pieces |
| TestProtocolMessages.EncodeEntry | bleep-test-runner/src/main/java/bleep/testing/runner/TestProtocol.java:109-118 | one thread entry: name, state, then the stack lines |
| TestProtocolMessages.EncodeThreadDump | bleep-test-runner/src/main/java/bleep/testing/runner/TestProtocol.java:102-122 | builds the ThreadDump message rendered from its pieces |
| TestProtocolMessages.ThreadDumpOrder | bleep-test-runner/src/main/java/bleep/testing/runner/TestProtocol.java:104-120 | threads appear in input order, comma-separated, each followed by the next |
| TestProtocolMessages.ParseWith | bleep-test-runner/src/main/java/bleep/testing/runner/TestProtocol.java:144-184 | an empty line is `Invalid("Empty command")`; Shutdown and GetThreadDump exactly when the type field says so; RunSuite only with the RunSuite type |
| TestProtocolMessages.RunSuiteOf | bleep-test-runner/src/main/java/bleep/testing/runner/TestProtocol.java:162-177 | RunSuite exactly when className and framework are found and the args did not throw; it carries those two fields |
| TestProtocolMessages.ParseCommand | bleep-test-runner/src/main/java/bleep/testing/runner/TestProtocol.java:144-184 | the method equals `ParseWith` in the as-written array decoding |
| TestProtocolMessages.ShutdownParses | bleep-test-runner/src/main/java/bleep/testing/runner/TestProtocol.java:156-157 | `parseCommand(encodeShutdown())` is Shutdown |
| TestProtocolMessages.GetThreadDumpParses | bleep-test-runner/src/main/java/bleep/testing/runner/TestProtocol.java:158-159 | a GetThreadDump message parses to GetThreadDump |
| TestProtocolMessages.UnknownTypeParses | bleep-test-runner/src/main/java/bleep/testing/runner/TestProtocol.java:178-179 | any other type gives "Unknown command type: " and the type, with or without data |
| TestProtocolMessages.ResponsesAreNotCommands | bleep-test-runner/src/main/java/bleep/testing/runner/TestProtocol.java:178-179 | Ready and TestStarted messages are rejected as unknown command types |
| TestProtocolMessages.RunSuiteWithoutData | bleep-test-runner/src/main/java/bleep/testing/runner/TestProtocol.java:162-165 | a RunSuite without data gives "Missing data field for RunSuite" |
| TestProtocolMessages.RunSuiteRoundTrip | bleep-test-runner/src/main/java/bleep/testing/runner/TestProtocol.java:160-177 | when the written className holds neither `"framework"` nor `"args"` and the written framework does not hold `"args"`, parsing an encoded RunSuite gives back className, framework and the args as read; a null className or framework gives "Missing className or framework" |
| TestProtocolMessages.RunSuiteMissingArgs | bleep-test-runner/src/main/java/bleep/testing/runner/TestProtocol.java:166-177 | a RunSuite without args parses with an empty argument list |
| TestProtocolMessages.RunSuiteRoundTripCorrected | bleep-test-runner/src/main/java/bleep/testing/runner/TestProtocol.java:358-370 | with full array decoding, a RunSuite round-trips, null args dropped, when the written className holds neither `"framework"` nor `"args"` and the written framework does not hold `"args"` |
| TestProtocolMessages.RunSuiteRoundTripAsWritten | bleep-test-runner/src/main/java/bleep/testing/runner/TestProtocol.java:144-177 | as written, a RunSuite round-trips when no arg has a control character other than LF, CR and TAB and, as above, the written className holds neither `"framework"` nor `"args"` and the written framework does not hold `"args"` |
| TestProtocolMessages.BackspaceArgument | bleep-test-runner/src/main/java/bleep/testing/runner/TestProtocol.java:314-332 | as written, an argument holding one backspace comes back as "b" |
| TestProtocolMessages.TestFinishedMessage | bleep-test-runner/src/main/java/bleep/testing/runner/TestProtocol.java:46-62 | when no written suite, test, status or throwable holds `"message"`, the `message` key is present exactly when the message is non-null, and carries it |
| TestProtocolMessages.TestFinishedThrowable | bleep-test-runner/src/main/java/bleep/testing/runner/TestProtocol.java:46-62 | when no written suite, test, status or message holds `"throwable"`, the `throwable` key is present exactly when the throwable is non-null, and carries it |
| TestProtocolMessages.ErrorMessage | bleep-test-runner/src/main/java/bleep/testing/runner/TestProtocol.java:90-99 | an Error message carries its message (absent when null) |
| TestProtocolMessages.ErrorThrowable | bleep-test-runner/src/main/java/bleep/testing/runner/TestProtocol.java:94-96 | when the written message does not hold `"throwable"`, the Error's `throwable` key is present exactly when it is non-null, and carries it |
| TestProtocolMessages.LogMessage | bleep-test-runner/src/main/java/bleep/testing/runner/TestProtocol.java:82-88 | when the written level does not hold `"message"`, a Log message carries its message (absent when null) |
| TestProtocolMessages.SkipsQuotes | bleep-test-runner/src/main/java/bleep/testing/runner/TestProtocol.java:231-233 | a value with quotes inside, such as `"hi"`, is passed over by the search for `"message"` |
| TestProtocolMessages.KeyAfterQuoteNotSkipped | bleep-test-runner/src/main/java/bleep/testing/runner/TestProtocol.java:231-233 | the value `"message` (a quote, then the key) is written `"\"message"`, which holds `"message"`, so the search stops inside it |
| TestProtocolMessages.ShortMessagesOneLine | bleep-test-runner/src/main/java/bleep/testing/runner/TestProtocol.java:34-44 | Ready, Shutdown and TestStarted are single lines |
| TestProtocolMessages.TestFinishedOneLine | bleep-test-runner/src/main/java/bleep/testing/runner/TestProtocol.java:46-62 | TestFinished is a single line |
| TestProtocolMessages.SuiteDoneOneLine | bleep-test-runner/src/main/java/bleep/testing/runner/TestProtocol.java:64-80 | SuiteDone is a single line |
| TestProtocolMessages.LogAndErrorOneLine | bleep-test-runner/src/main/java/bleep/testing/runner/TestProtocol.java:82-99 | Log and Error are single lines |
| TestProtocolMessages.ThreadDumpOneLine | bleep-test-runner/src/main/java/bleep/testing/runner/TestProtocol.java:102-122 | ThreadDump is a single line |
| TestProtocolMessages.RunSuiteOneLine | bleep-test-runner/src/main/java/bleep/testing/runner/TestProtocol.java:358-370 | RunSuite is a single line |
| TestRunner.Channel.Send | bleep-test-runner/src/main/java/bleep/testing/runner/ForkedTestRunner.java:141-144 | one message is appended per send |
| TestRunner.LogLines | bleep-test-runner/src/main/java/bleep/testing/runner/ForkedTestRunner.java:496-503 | one Log message per captured line, in order |
| TestRunner.CapturingOutputStream.Flush | bleep-test-runner/src/main/java/bleep/testing/runner/ForkedTestRunner.java:496-503 | a non-empty buffer is sent as one Log ("error" for stderr, "info" otherwise); the buffer ends empty, so a second flush sends nothing |
| TestRunner.CapturingOutputStream.Write | bleep-test-runner/src/main/java/bleep/testing/runner/ForkedTestRunner.java:470-478 | `\n` flushes; any other byte is appended as the code unit `(char) b` |
| TestRunner.CapturingOutputStream.WriteText | bleep-test-runner/src/main/java/bleep/testing/runner/ForkedTestRunner.java:481-493 | the loop leaves the text after the last `\n` pending and sends one Log per completed non-empty line |
| TestRunner.FeedLines | bleep-test-runner/src/main/java/bleep/testing/runner/ForkedTestRunner.java:470-503 | no sent line and no pending buffer contains `\n`, and no sent line is empty |
| TestRunner.FeedSplit | bleep-test-runner/src/main/java/bleep/testing/runner/ForkedTestRunner.java:481-493 | the sent lines are the non-empty `\n`-separated parts before the last one, which stays pending |
| TestRunner.ExtractTestName | bleep-test-runner/src/main/java/bleep/testing/runner/ForkedTestRunner.java:419-432 | the selector's test name for TestSelector and NestedTestSelector, else the fully-qualified name |
| TestRunner.Bump | bleep-test-runner/src/main/java/bleep/testing/runner/ForkedTestRunner.java:237-269 | Success bumps passed; Failure and Error bump failed; Skipped and Canceled bump skipped; Ignored and Pending bump ignored; the total grows by one |
| TestRunner.TallyCounts | bleep-test-runner/src/main/java/bleep/testing/runner/ForkedTestRunner.java:237-269 | each counter equals the number of events in its status class; the counters sum to the number of events |
| TestRunner.SuiteRun.constructor | bleep-test-runner/src/main/java/bleep/testing/runner/ForkedTestRunner.java:225-228 | the four counters start at zero |
| TestRunner.SuiteRun.Count | bleep-test-runner/src/main/java/bleep/testing/runner/ForkedTestRunner.java:237-269 | the status switch bumps one counter and names the status |
| TestRunner.SuiteRun.Handle | bleep-test-runner/src/main/java/bleep/testing/runner/ForkedTestRunner.java:234-292 | an event bumps its counter, flushes both captured streams, then sends its TestFinished line |
| TestRunner.SuiteRun.Done | bleep-test-runner/src/main/java/bleep/testing/runner/ForkedTestRunner.java:298-306 | final flush of both streams, then SuiteDone with the four counters |
| TestRunner.AbortReport | bleep-test-runner/src/main/java/bleep/testing/runner/ForkedTestRunner.java:312-329 | rethrown exactly for interruption or a security exception not about System.exit; an interruption sends the warning "Suite X was cancelled"; a blocked System.exit sends SuiteDone with 0 passed and 1 failed; another security exception sends nothing; any other exception sends the Error "Error running suite X: message" with its stack trace |
| TestRunner.SuiteAbortReadsBack | bleep-test-runner/src/main/java/bleep/testing/runner/ForkedTestRunner.java:312-329 | with the command loop's report of a rethrown exception: a cancelled suite reads back as the warning, then the Error "Error in command loop: java.lang.InterruptedException"; another rethrown security exception as that Error with its message; a blocked exit as the failed SuiteDone; a crash as the suite's Error |
| TestRunner.BlockedExitReported | bleep-test-runner/src/main/java/bleep/testing/runner/ForkedTestRunner.java:316-321 | a System.exit blocked outside task execution (in the framework's runner, `fingerprints()`, `tasks` or `done()`) makes the runner send the warning "Test attempted System.exit(status) - blocked" (172-176), then SuiteDone with 0 passed and 1 failed, and nothing reaches the command loop |
| TestRunner.ExecuteTasks | bleep-test-runner/src/main/java/bleep/testing/runner/ForkedTestRunner.java:332-351 | the loop sends exactly `TasksLines`: each task's own lines, then its nested tasks' lines, then the next task's; a task whose `execute` threw an Exception adds the error Log and the next task still runs |
| TestRunner.RunTask | bleep-test-runner/src/main/java/bleep/testing/runner/ForkedTestRunner.java:340-349 | one task: its own lines, then its nested tasks (recursively) or, when it threw an Exception, the Log "Task execution failed: message" at level error |
| TestRunner.TasksLinesAppend | bleep-test-runner/src/main/java/bleep/testing/runner/ForkedTestRunner.java:334-350 | the lines of two task lists run one after the other are the lines of the first then those of the second, so a failing task does not cut the run short |
| TestRunner.TaskFailedReadsBack | bleep-test-runner/src/main/java/bleep/testing/runner/ForkedTestRunner.java:346-348 | the failed-task error reads back as a Log whose message is "Task execution failed: " and the exception's message ("null" when it has none) |
| TestRunner.TestExitReported | bleep-test-runner/src/main/java/bleep/testing/runner/ForkedTestRunner.java:340-349 | a test calling System.exit inside its task: after what the task sent, the warning (172-176), then the Log "Task execution failed: System.exit(status) blocked by test runner", then the remaining tasks; `executeTasks` returns normally, so the suite ends with its ordinary SuiteDone from `SuiteRun.Done`, not `BlockedExit`'s failed one |
| TestRunner.CommandsAt | bleep-test-runner/src/main/java/bleep/testing/runner/ForkedTestRunner.java:86-118 | each line is dispatched in turn until a Shutdown, which is consumed and stops the loop |
| TestRunner.CommandLoop | bleep-test-runner/src/main/java/bleep/testing/runner/ForkedTestRunner.java:81-117 | Ready first, then the actions of every command up to EOF or Shutdown; it reads exactly the lines up to and including the Shutdown |
| TestRunner.Execute | bleep-test-runner/src/main/java/bleep/testing/runner/ForkedTestRunner.java:94-117 | one parsed line: stop exactly on Shutdown, otherwise its dispatch |
| TestRunner.ShutdownStops | bleep-test-runner/src/main/java/bleep/testing/runner/ForkedTestRunner.java:94-95 | nothing after an encoded Shutdown is read or run |
| TestRunner.InvalidReported | bleep-test-runner/src/main/java/bleep/testing/runner/ForkedTestRunner.java:114-116 | an invalid line is answered with an Error whose message is "Failed to decode command: " and the parser's message |
| TestRunner.RunSuiteDispatched | bleep-test-runner/src/main/java/bleep/testing/runner/ForkedTestRunner.java:97-108 | an encoded RunSuite line runs that suite with its non-null arguments, under the conditions of `RunSuiteRoundTripAsWritten` |

## Left out

- Swing and IntelliJ UI: tree nodes and their renderer, labels, colours, tabs, command panels, `updateUIForState`. Only the state value, the selection and the laid-out forest are modelled. The tree is the list of top-level nodes.
- BSP polling and stopping by reflection (`checkBspStatus`, `onStopBsp`). These call into a plugin that is not part of this model.
- Subprocess execution. This covers `runBleepCommandWithOutput`, `runBleepInTerminal` and the process plumbing of `BleepProjectData.runBleepCommand`. The process's existence, exit code, exception and stdout lines are inputs of `ProjectData.RunBleepCommand`. stderr collection is omitted.
- HTTP download, progress fractions and the tar/zip/gzip extraction streams. Only the choice of extractor is modelled.
- YAML reading and writing of the selection file, and Gson parsing of the CLI output. The persisted selection is the sorted list that would be dumped.
- Version checking (`checkVersion`, `ensureBleep`'s minimum-version test). `meetsMinimumVersion` and `MINIMUM_VERSION` are in a part of `BleepConfig.kt` that is not part of this model. `ensureBleep`'s outcome is an input of `SetupIde`.
- Concurrency:
  - `invokeLater` hops run at once, in sequence. `showError` sets ERROR immediately, and `clearError` picks its state immediately.
  - `Task.Backgroundable` results are method inputs.
  - Out of scope: thread safety of the concurrent key set, the `synchronized` lock of the capture streams, thread interruption, the `shuttingDown` flag and the security manager's installation.
- Framework loading (`Class.forName`), sbt.testing calls and what a task does inside `execute`. A test run is the `RanSuite` action, and its events are inputs of `SuiteRun.Handle`. A task is the lines it sends and how `execute` ends (`Task`).
- TestRunner.ExecuteTasks: a `java.lang.Error` thrown by `execute` (a Throwable that is not an Exception, such as `NoClassDefFoundError` or `ExceptionInInitializerError`) is not modelled. It passes the `catch (Exception e)` clauses at ForkedTestRunner.java:346, 325, 119 and 130: no error Log, no later task, no SuiteDone, and the runner ends. `Task.Threw` stands for an Exception only.
- TestRunner.RunTask: the same; a task that throws a `java.lang.Error` is not modelled, and with it the end of the runner.
- TestRunner.CommandLoop: a suite whose framework throws a `java.lang.Error` ends `main` after its `finally`, before end of input or `Shutdown`; the model does not represent that, so `read == Consumed(input)` assumes every suite run returns or throws an Exception.
- TestRunner.ExecuteTasks: the `Thread.interrupted()` check before each task and an `InterruptedException` thrown by a task are not modelled; that cancellation is `AbortReport`'s `Interrupted` case. The task model does not bump the counters; `SuiteRun.Handle` does that for each event.
- `triggerBspSync` (reload the configuration, notify the listeners, then `refreshBsp`) is not modelled; `refreshBsp` is modelled as `setupIde` uses it. Its import fallback calls back asynchronously; here the callback runs at once.
- Thread-dump generation from the JVM. The entries are inputs of `EncodeThreadDump`, and a dump request is the `DumpedThreads` action.
- Locale lowercasing: `DetectOsArch` lowercases ASCII letters only.
- TestRunner.CapturingOutputStream.WriteText: takes the code units that `write(byte[], off, len)` decodes with the platform charset. The charset decoding is not modelled.
- How a suite ends abnormally is modelled by `AbortReport` and `SuiteAbortLines`. This includes the command loop's "Error in command loop: …" report of a rethrown exception (ForkedTestRunner.java:124-127). The command loop's own model (`Commands`) records a suite run as one `RanSuite` action and does not splice those lines in. The loop's `InterruptedException` branch (ForkedTestRunner.java:119-123) is not modelled: `runSuite` wraps an interruption in a `RuntimeException`, so nothing the loop calls throws it. "Fatal error in test runner" comes from failures outside the loop (stream set-up, the reader) and is not modelled.
- TestRunner.SuiteAbortReadsBack: reads back the type and message of each line, not the `throwable` field. Reading it back needs the message's written form not to hold `"throwable"` (`ErrorThrowable`). The stack traces come from the JVM and are inputs.
- Exception texts: a `\u` escape with a non-hex digit makes `parseCommand` return `Parse error: ` plus the `NumberFormatException` message. That message comes from the JDK, not from this repository; it is modelled as `For input string: "…" under radix 16`.
- TestProtocolMessages.RunSuiteRoundTrip: requires that the written className holds neither `"framework"` nor `"args"` and that the written framework does not hold `"args"` (`Skips`). `parseCommand` finds a field at the first textual occurrence of its quoted key. A className equal to `framework`, or one that starts with a quote followed by `framework`, makes the framework lookup stop inside the className. Quotes elsewhere in the values are allowed.
- TestProtocolMessages.RunSuiteRoundTripCorrected: the same requirement on className and framework as `RunSuiteRoundTrip`.
- TestProtocolMessages.RunSuiteRoundTripAsWritten: the same requirement on className and framework, and no argument may hold a control character other than LF, CR and TAB (`Survives`); the Findings row shows why.
- TestRunner.RunSuiteDispatched: the requirements of `RunSuiteRoundTripAsWritten`.
- TestProtocolMessages.TestFinishedMessage: requires that the written suite, test, status and throwable do not hold `"message"`. `KeyAfterQuoteNotSkipped` shows a value that breaks this: a test named `"message`.
- TestProtocolMessages.TestFinishedThrowable: requires that the written suite, test, status and message do not hold `"throwable"`, for the same reason.
- TestProtocolMessages.ErrorThrowable: requires that the written message does not hold `"throwable"`, for the same reason.
- TestProtocolMessages.LogMessage: requires that the written level does not hold `"message"`; the runner's levels (`debug`, `info`, `warn`, `error`) do not.
- TestProtocol.HexValue: follows `Character.digit(c, 16)` with the decimal-digit runs of the Basic Multilingual Plane as of Unicode 13 (`DecimalDigit`). A JDK built on another Unicode version may add or drop runs. Digits outside the Basic Multilingual Plane cannot occur, because `parseInt` sees single UTF-16 code units.
- The command loop (`TestRunner.Commands`, `TestRunner.CommandLoop`) uses the parser as written. The corrected array decoding is stated by `RunSuiteRoundTripCorrected` and not threaded through the loop.

## Findings

| source | as written | input that shows it | evidently intended | confidence | as-written member | corrected member |
|---|---|---|---|---|---|---|
| bleep-test-runner/src/main/java/bleep/testing/runner/TestProtocol.java:314-332 | `extractStringArray` decodes only the escapes `\"`, `\\`, `\n`, `\r`, `\t`; any other escaped character is kept as the letter after the backslash, and `\u` escapes are not decoded | a RunSuite whose args are `["\b"]` (one backspace): `encodeRunSuite` writes `\b`, and `parseCommand` returns the argument `"b"` | the args read back equal the args encoded, as `extractStringField` (TestProtocol.java:244-286) already does for the same escapes | not executed | TestProtocolMessages.BackspaceArgument | TestProtocolMessages.RunSuiteRoundTripCorrected |
