# Prefab reference cache

A Dafny model of the reference cache of PrefabAssetUtility, a Unity editor
extension. The cache answers two questions: which GUIDs a prefab references,
and which prefabs reference a given GUID.

The extension keeps two dictionaries:

- `_prefabToGUID` maps an asset path to the GUIDs found in the asset file;
- `_GUIDToPrefab` maps a GUID to the asset paths it was found in.

They are filled by scanning, line by line, every asset whose path contains
`.prefab` anywhere (so also, say, a file under a folder `X.prefabs/`). A line that
contains `guid` contributes the capture of the regular expression
`guid: (.*?),` (matched ignoring case). The collected GUIDs are de-duplicated.
The dictionaries are saved to two JSON files and loaded back in the next editor
session. When a prefab changes, only that prefab is re-scanned.

The model is in four modules:

- `Results` (results.dfy): the `Option` and `Result` values.
- `Scanner` (scanner.dfy): the scanner. It models the ordinal `Contains`, the
  regular expression and its `Split`, the read loop (the method `ScanLines`),
  and LINQ `Distinct`.
- `ReferenceIndex` (reference_index.dfy): the two dictionaries as an `Index`
  value, and what processing one asset or a list of assets does to them, as
  functions. The lemmas say which invariants the updates keep and which they
  do not.
- `PrefabUtils` (prefab_utils.dfy): the static class as a `PrefabCache` object
  that updates its two dictionary fields in place, and the two cache files as
  a `CacheFiles` object. Each method is proved against the functions of
  `ReferenceIndex`.

`ScannerExamples` (scanner_examples.dfy) states the scanner's behaviour on
concrete lines.

Four behaviours of the code are worth stating up front:

- A line that contains `guid` but has no match makes `Regex.Split(line)[1]`
  throw. The scan of that asset fails; the line is not skipped.
- Re-processing an asset only appends to reverse lists. Stale reverse links are
  never removed, and reprocessing an asset appends it a second time to the
  lists of the GUIDs it still references.
- A rebuild stops at the first asset that throws. Assets after it are not
  processed, and nothing is saved. Failing assets are neither skipped nor
  collected.
- Queries can be made at any time; a missing key raises `KeyNotFoundException`,
  modelled as `Err(KeyNotFound(key))`.

## Model

| member | source | states |
|---|---|---|
| Scanner.CaptureEnd | Editor/PrefabUtils.cs:23-24 | the lazy group `(.*?)` ends at the first ',' after its start, unless a line break or the end of the line comes first; then there is no match at that start |
| Scanner.LeftmostMatch | Editor/PrefabUtils.cs:23-24 | the regex engine's match is the leftmost position where `guid: ` (ignoring case) is followed by a capture that can end at a ',' |
| Scanner.Captured | Editor/PrefabUtils.cs:23-24 | the captured GUID never contains ',' or a line break |
| Scanner.SplitFrom | Editor/PrefabUtils.cs:107 | `Regex.Split` with one capturing group yields an odd number of pieces |
| Scanner.SplitFromPieces | Editor/PrefabUtils.cs:107 | the split is a single piece (the whole text) iff there is no match; otherwise it has at least three pieces, the first being the text before the leftmost match and the second that match's capture |
| Scanner.ExamineLine | Editor/PrefabUtils.cs:105-108 | a line is skipped iff it lacks the ordinal substring "guid"; it throws iff it has "guid" and no match anywhere; otherwise its GUID is the capture of the leftmost match |
| Scanner.LaterOccurrencesIgnored | Editor/PrefabUtils.cs:107 | once a line has a match, text appended to the line does not change its GUID (only element [1] of the split is taken) |
| Scanner.MatchBeforeCommaSurvivesTruncation | Editor/PrefabUtils.cs:23-24 | a match in a longer line whose capture ends within a prefix is also a match in that prefix |
| Scanner.CaptureEndExtends | Editor/PrefabUtils.cs:23-24 | a capture that ends inside a line ends at the same place once more text is appended |
| Scanner.ContainsExtends | Editor/PrefabUtils.cs:105 | a line that contains "guid" still contains it after text is appended |
| Scanner.LeftmostMatchExtends | Editor/PrefabUtils.cs:23-24 | the leftmost match of a line stays the leftmost match after text is appended |
| Scanner.Scan | Editor/PrefabUtils.cs:100-111 | a successful scan of an asset has no duplicate GUIDs |
| Scanner.CollectOk | Editor/PrefabUtils.cs:100-109 | the read loop finishes iff no line throws; it then holds at most one GUID per line, and exactly the GUIDs the lines contribute |
| Scanner.CollectErr | Editor/PrefabUtils.cs:103-108 | when the read loop throws, it is at the first line that contains "guid" but has no match |
| Scanner.CollectErrPersists | Editor/PrefabUtils.cs:103-108 | the lines after the one that throws are never read |
| Scanner.ScanMeaning | Editor/PrefabUtils.cs:100-111 | a scan fails iff some line throws; otherwise it lists, once each, exactly the GUIDs the lines contribute |
| Scanner.ScanLines | Editor/PrefabUtils.cs:100-111 | the `while (ReadLine)` loop followed by `Distinct` computes `Scan` of the lines |
| Scanner.Distinct | Editor/PrefabUtils.cs:111 | LINQ `Distinct` keeps exactly the elements of its input, once each, and the result is no longer than the input |
| Scanner.IndexOf | Editor/PrefabUtils.cs:111 | the first occurrence of an element, used to state the order `Distinct` keeps |
| Scanner.IndexOfInPrefix | Editor/PrefabUtils.cs:111 | an element's first occurrence in a sequence is its first occurrence in any prefix that contains it |
| Scanner.DistinctKeepsFirstOccurrenceOrder | Editor/PrefabUtils.cs:111 | `Distinct` lists elements in the order of their first occurrences |
| ReferenceIndex.AddReverseLinksGrows | Editor/PrefabUtils.cs:118-128 | the reverse update only adds: the new keys are exactly the scanned GUIDs, every old list is a prefix of its new list, lists of GUIDs that were not scanned are unchanged, and the asset is in the list of every scanned GUID |
| ReferenceIndex.AddReverseLinksAppendsOnce | Editor/PrefabUtils.cs:118-128 | with distinct GUIDs, each scanned GUID's list becomes its old list (or the empty list) followed by the asset once |
| ReferenceIndex.ProcessEffect | Editor/PrefabUtils.cs:113-128 | the complete new state after processing an asset: its forward entry is replaced, every other forward entry is unchanged, and the reverse lists change as above |
| ReferenceIndex.ReprocessingAppendsAgain | Editor/PrefabUtils.cs:118-128 | processing the same asset twice with the same GUIDs is not idempotent: the asset is appended to each reverse list a second time |
| ReferenceIndex.StaleLinkSurvives | Editor/PrefabUtils.cs:113-128 | after an asset stops referencing a GUID and is re-processed, the GUID's reverse list still names the asset, though its forward entry no longer lists the GUID |
| ReferenceIndex.ProcessPreservesForwardImpliesReverse | Editor/PrefabUtils.cs:113-128 | every update keeps "each GUID in an asset's forward entry has the asset in its reverse list" |
| ReferenceIndex.ProcessNewAssetKeepsConsistency | Editor/PrefabUtils.cs:113-128 | processing an asset not yet in the index keeps both directions of the correspondence and keeps reverse lists free of duplicates |
| ReferenceIndex.QueriesAfterProcess | Editor/PrefabUtils.cs:177-190 | after processing an asset, its forward query returns the scanned GUIDs, and the reverse query of each scanned GUID succeeds with its old list (or the empty list) followed by the asset |
| ReferenceIndex.ScanAsset | Editor/PrefabUtils.cs:97-111 | scanning an asset fails iff its file cannot be read or its scan throws; a failure names that asset; a success is the de-duplicated scan |
| ReferenceIndex.RebuildInvariant | Editor/PrefabUtils.cs:72-93 | a rebuild over distinct asset paths, whether or not it stops early, leaves a consistent index with duplicate-free, non-empty reverse lists and forward entries equal to the scans; it finishes iff every asset scans, and then every asset has an entry |
| ReferenceIndex.RebuildCharacterization | Editor/PrefabUtils.cs:72-93 | a finished rebuild is exactly the index built from the scans: forward entries are the scans, and a GUID's list names exactly the assets whose scan contains it |
| ReferenceIndex.RebuildOrderIrrelevant | Editor/PrefabUtils.cs:72-93 | the order in which the asset database lists the prefabs does not change whether the rebuild finishes, the forward dictionary, the GUID keys, or which assets each reverse list names |
| ReferenceIndex.BuiltFromSameAssetsAgree | Editor/PrefabUtils.cs:72-93 | two indexes built from the scans of the same set of assets agree on forward entries, reverse keys and reverse membership |
| ReferenceIndex.ForwardAgree | Editor/PrefabUtils.cs:72-93 | two indexes whose forward entries are the scans of the same set of assets have equal forward dictionaries |
| ReferenceIndex.ReverseAgree | Editor/PrefabUtils.cs:72-93 | if two indexes' reverse lists are both built from the same set of assets, every asset the first lists for a GUID is listed by the second too |
| PrefabUtils.GetAllPrefabs | Editor/PrefabUtils.cs:56-59 | a path is kept iff it is an asset path containing ".prefab"; the filter keeps paths distinct |
| PrefabUtils.CacheFiles.constructor | Editor/PrefabUtils.cs:15-16 | the two cache files, each present with a dictionary or absent |
| PrefabUtils.PrefabCache.constructor | Editor/PrefabUtils.cs:20-21 | both dictionaries start empty |
| PrefabUtils.PrefabCache.SaveCache | Editor/PrefabUtils.cs:152-170 | each cache file is replaced by its dictionary |
| PrefabUtils.PrefabCache.ProcessCacheForAsset | Editor/PrefabUtils.cs:95-130 | the in-place update equals `Step`: on an exception nothing changes, otherwise the new state is `Process` of the scan; it keeps forward ⇒ reverse |
| PrefabUtils.PrefabCache.RefreshPrefabCache | Editor/PrefabUtils.cs:72-93 | clear-then-process equals `ProcessAll` from empty over the prefabs; both files are saved iff no asset threw; over distinct paths the index is consistent, and a finished rebuild is built from the scans |
| PrefabUtils.PrefabCache.LoadCache | Editor/PrefabUtils.cs:132-150 | with both files present, their dictionaries are installed and nothing is written; otherwise the cache is rebuilt |
| PrefabUtils.PrefabCache.PrefabInstanceUpdated | Editor/PrefabUtils.cs:61-70 | the changed prefab is processed; the files are saved iff the preference is on and processing did not throw |
| PrefabUtils.PrefabCache.GetPrefabsForGUID | Editor/PrefabUtils.cs:177-180 | returns the stored list iff the GUID is a key, and `KeyNotFound` otherwise |
| PrefabUtils.PrefabCache.GetGUIDsForPrefab | Editor/PrefabUtils.cs:187-190 | returns the stored list iff the path is a key, and `KeyNotFound` otherwise |
| PrefabUtils.ProcessAllStops | Editor/PrefabUtils.cs:81-88 | once an asset throws, the remaining prefabs are not processed |
| PrefabUtils.SaveThenLoadInNewSession | Editor/PrefabUtils.cs:132-170 | saving at the end of a session and loading in a fresh one restores both dictionaries exactly, and does not rebuild |
| ScannerExamples.LazyEndIsCaptureEnd | Editor/PrefabUtils.cs:23 | any position meeting the lazy-capture condition is where the capture ends |
| ScannerExamples.ReferenceLine | Editor/PrefabUtils.cs:105-107 | a line `head` + `guid: ` + id + `,` + tail, where head has no 'g' and id has no ',' or line break, yields id |
| ScannerExamples.ScriptReferenceLine | Editor/PrefabUtils.cs:105-107 | a Unity `m_Script` reference line yields the GUID between `guid: ` and the next ',' |
| ScannerExamples.SameGuidOnTwoLines | Editor/PrefabUtils.cs:100-111 | two lines naming the same GUID give that GUID once |
| ScannerExamples.CollectSameGuidTwice | Editor/PrefabUtils.cs:100-109 | before de-duplication, two lines naming the same GUID give it twice |
| ScannerExamples.DistinctOfRepeat | Editor/PrefabUtils.cs:111 | `Distinct` of a repeated element is that element once |
| ScannerExamples.RepeatedGuid | Editor/PrefabUtils.cs:100-111 | the line `guid: x,` read twice gives `x` once |
| ScannerExamples.UpperCaseMarkerSkipped | Editor/PrefabUtils.cs:105 | `GUID: b,` matches the pattern at position 0, yet the line is skipped: the `Contains` test is case-sensitive |
| ScannerExamples.MarkerWithoutMatchThrows | Editor/PrefabUtils.cs:105-107 | the line `guid` contains the marker but has no match, so the scan throws at line 0 |

## Left out

- `Init` (lines 27-40): finding the base path through reflection and `Uri`, and subscribing to the editor events, are not modelled. The model starts from the constructor and a call to `LoadCache`.
- `CompilationPipelineOnCompilationStarted` and `EditorApplicationOnQuitting` (lines 42-54) are not separate members: each one calls `SaveCache`, and event unsubscription is not modelled.
- The asset database and the file system are parameters. `AssetDatabase.GetAllAssetPaths` is a sequence `assetPaths`. The asset files are a map `contents` from asset path to lines; a path missing from the map is a file that cannot be opened. `AssetDatabase.GetAssetPath` of the changed instance is the parameter `asset`.
- The `_basePath + asset` path concatenation is not modelled. Assets are identified by their relative path.
- `StreamReader.ReadLine` splitting is not modelled. An asset file is already a sequence of lines.
- The progress bar of `RefreshPrefabCache` is not modelled.
- JSON serialisation is assumed lossless. A cache file is `Some(dictionary)` or absent. A file holding `null` or malformed JSON (which `DeserializeObject` turns into a null dictionary or an exception) is not modelled.
- `Directory.CreateDirectory`, and a crash between the two file writes of `SaveCache`, are not modelled.
- The `EditorPrefs` preference read by `PrefabInstanceUpdated` is the parameter `saveOnChange`. The settings window (Editor/PrefabAssetSettings.cs) is not part of this model.
- `RegexOptions.IgnoreCase` is modelled as ASCII case folding. Culture-specific folding of other characters is not modelled.
- Regex.Split is modelled for the pattern `guid: (.*?),` only, not for regular expressions in general.
- PrefabUtils.PrefabCache.GetPrefabsForGUID: returns a copy of the stored list. The source returns the live `List` object, and a caller that mutates it changes the cache; that aliasing is not modelled.
- PrefabUtils.PrefabCache.GetGUIDsForPrefab: returns a copy of the stored list, for the same reason.
- The exception types of the source are modelled as values. `Failure` is an unreadable asset or a "guid" line without a match, and `LookupError` is a missing key. Exceptions propagate out of the entry points as those values.
