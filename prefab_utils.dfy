/**
 * The static class PrefabUtils: the two dictionaries it updates in place, the
 * two cache files it loads and saves, and the entry points the editor calls.
 *
 * The asset files on disk are a map from asset path to the file's lines; the
 * cache files are an object with one field per file, None when the file does
 * not exist. The "save cache on prefab change" preference is a parameter.
 */
module PrefabUtils {
  import opened Results
  import opened Scanner
  import opened ReferenceIndex

  /** `GetAllPrefabs`: the asset paths that contain ".prefab", in their order. */
  function GetAllPrefabs(assetPaths: seq<string>): (prefabs: seq<string>)
    ensures forall p :: p in prefabs <==> p in assetPaths && Contains(p, ".prefab")
    ensures NoDuplicates(assetPaths) ==> NoDuplicates(prefabs)
    decreases |assetPaths|
  {
    if assetPaths == [] then []
    else
      var init := assetPaths[..|assetPaths| - 1];
      var p := assetPaths[|assetPaths| - 1];
      var rest := GetAllPrefabs(init);
      assert forall q :: q in assetPaths <==> q in init || q == p;
      assert NoDuplicates(assetPaths) ==> p !in init;
      if Contains(p, ".prefab") then rest + [p] else rest
  }

  /** The files PrefabCache/PrefabToGUID.json and PrefabCache/GUIDToPrefab.json. */
  class CacheFiles {
    var prefabToGuidFile: Option<Table>
    var guidToPrefabFile: Option<Table>

    constructor (prefabToGuidFile: Option<Table>, guidToPrefabFile: Option<Table>)
      ensures this.prefabToGuidFile == prefabToGuidFile
      ensures this.guidToPrefabFile == guidToPrefabFile
    {
      this.prefabToGuidFile := prefabToGuidFile;
      this.guidToPrefabFile := guidToPrefabFile;
    }

    predicate BothExist()
      reads this
    {
      prefabToGuidFile.Some? && guidToPrefabFile.Some?
    }
  }

  class PrefabCache {
    var prefabToGuid: Table
    var guidToPrefab: Table
    const files: CacheFiles

    /** The two dictionaries as one value. */
    function State(): Index
      reads this
    {
      Index(prefabToGuid, guidToPrefab)
    }

    /** The static initialisers: two empty dictionaries. */
    constructor (files: CacheFiles)
      ensures State() == Empty
      ensures this.files == files
    {
      prefabToGuid := map[];
      guidToPrefab := map[];
      this.files := files;
    }

    /** `SaveCache`: each file is replaced by the serialised dictionary. */
    method SaveCache()
      modifies files
      ensures files.prefabToGuidFile == Some(prefabToGuid)
      ensures files.guidToPrefabFile == Some(guidToPrefab)
    {
      files.prefabToGuidFile := Some(prefabToGuid);
      files.guidToPrefabFile := Some(guidToPrefab);
    }

    /**
     * `ProcessCacheForAsset`: scan the asset, replace its forward entry and
     * append it to the reverse list of each scanned GUID. An exception
     * (unreadable file, "guid" line without a match) leaves both dictionaries
     * as they were.
     */
    method ProcessCacheForAsset(asset: string, contents: map<string, seq<string>>) returns (failure: Option<Failure>)
      modifies this
      ensures Run(State(), failure) == Step(old(State()), contents, asset)
      ensures ForwardImpliesReverse(old(State())) ==> ForwardImpliesReverse(State())
    {
      if asset !in contents {
        return Some(AssetUnreadable(asset));
      }
      var scanned := ScanLines(contents[asset]);
      if scanned.Err? {
        return Some(NoGuidMatch(asset, scanned.error.line));
      }
      var guids := scanned.value;
      // `_prefabToGUID[asset] = GUIDs` or `_prefabToGUID.Add(asset, GUIDs)`
      prefabToGuid := prefabToGuid[asset := guids];
      var i := 0;
      while i < |guids|
        invariant 0 <= i <= |guids|
        invariant prefabToGuid == old(prefabToGuid)[asset := guids]
        invariant guidToPrefab == AddReverseLinks(old(guidToPrefab), asset, guids[..i])
      {
        var guid := guids[i];
        if guid in guidToPrefab {
          guidToPrefab := guidToPrefab[guid := guidToPrefab[guid] + [asset]];
        } else {
          guidToPrefab := guidToPrefab[guid := [asset]];
        }
        assert guids[..i + 1][..i] == guids[..i];
        i := i + 1;
      }
      assert guids[..i] == guids;
      failure := None;
      if ForwardImpliesReverse(old(State())) {
        ProcessPreservesForwardImpliesReverse(old(State()), asset, guids);
      }
    }

    /**
     * `RefreshPrefabCache`: clear both dictionaries, process every prefab in
     * order, then save. The first exception stops the loop: the dictionaries
     * keep what was processed so far and nothing is saved.
     */
    method RefreshPrefabCache(assetPaths: seq<string>, contents: map<string, seq<string>>)
      returns (failure: Option<Failure>)
      modifies this, files
      ensures var run := ProcessAll(Empty, contents, GetAllPrefabs(assetPaths));
        State() == run.index && failure == run.failure
      ensures failure.None? ==> files.prefabToGuidFile == Some(prefabToGuid) && files.guidToPrefabFile == Some(guidToPrefab)
      ensures failure.Some? ==> unchanged(files)
      ensures NoDuplicates(assetPaths) ==> Consistent(State()) && ListsDistinct(guidToPrefab)
      ensures NoDuplicates(assetPaths) && failure.None? ==>
        BuiltFrom(State(), contents, GetAllPrefabs(assetPaths))
    {
      var allPrefabs := GetAllPrefabs(assetPaths);
      prefabToGuid := map[];
      guidToPrefab := map[];
      var n := 0;
      while n < |allPrefabs|
        invariant 0 <= n <= |allPrefabs|
        invariant ProcessAll(Empty, contents, allPrefabs[..n]) == Run(State(), None)
        invariant unchanged(files)
      {
        assert allPrefabs[..n + 1][..n] == allPrefabs[..n];
        failure := ProcessCacheForAsset(allPrefabs[n], contents);
        if failure.Some? {
          ProcessAllStops(contents, allPrefabs, n + 1);
          break;
        }
        n := n + 1;
      }
      if n == |allPrefabs| {
        assert allPrefabs[..n] == allPrefabs;
        failure := None;
        SaveCache();
      }
      if NoDuplicates(assetPaths) {
        RebuildInvariant(contents, allPrefabs);
        if failure.None? {
          RebuildCharacterization(contents, allPrefabs);
        }
      }
    }

    /**
     * `LoadCache`: when both cache files exist their contents become the two
     * dictionaries; otherwise the cache is rebuilt (and saved).
     */
    method LoadCache(assetPaths: seq<string>, contents: map<string, seq<string>>) returns (failure: Option<Failure>)
      modifies this, files
      ensures old(files.BothExist()) ==>
        && failure.None?
        && prefabToGuid == old(files.prefabToGuidFile.value)
        && guidToPrefab == old(files.guidToPrefabFile.value)
        && unchanged(files)
      ensures !old(files.BothExist()) ==>
        var run := ProcessAll(Empty, contents, GetAllPrefabs(assetPaths));
        && State() == run.index && failure == run.failure
        && (failure.None? ==> files.prefabToGuidFile == Some(prefabToGuid) && files.guidToPrefabFile == Some(guidToPrefab))
        && (failure.Some? ==> unchanged(files))
    {
      if files.BothExist() {
        prefabToGuid := files.prefabToGuidFile.value;
        guidToPrefab := files.guidToPrefabFile.value;
        failure := None;
      } else {
        failure := RefreshPrefabCache(assetPaths, contents);
      }
    }

    /**
     * `PrefabInstanceUpdated`: process the changed prefab, then save when the
     * "save cache on prefab change" preference is set and nothing threw.
     */
    method PrefabInstanceUpdated(asset: string, contents: map<string, seq<string>>, saveOnChange: bool)
      returns (failure: Option<Failure>)
      modifies this, files
      ensures Run(State(), failure) == Step(old(State()), contents, asset)
      ensures failure.None? && saveOnChange ==>
        files.prefabToGuidFile == Some(prefabToGuid) && files.guidToPrefabFile == Some(guidToPrefab)
      ensures failure.Some? || !saveOnChange ==> unchanged(files)
      ensures ForwardImpliesReverse(old(State())) ==> ForwardImpliesReverse(State())
    {
      failure := ProcessCacheForAsset(asset, contents);
      if failure.None? && saveOnChange {
        SaveCache();
      }
    }

    /** `GetPrefabsForGUID`: the stored list of assets, or KeyNotFoundException. */
    method GetPrefabsForGUID(guid: string) returns (r: Result<seq<string>, LookupError>)
      ensures r.Ok? <==> guid in guidToPrefab
      ensures r.Ok? ==> r.value == guidToPrefab[guid]
      ensures r.Err? ==> r.error == KeyNotFound(guid)
    {
      r := Lookup(guidToPrefab, guid);
    }

    /** `GetGUIDsForPrefab`: the stored list of GUIDs, or KeyNotFoundException. */
    method GetGUIDsForPrefab(prefabPath: string) returns (r: Result<seq<string>, LookupError>)
      ensures r.Ok? <==> prefabPath in prefabToGuid
      ensures r.Ok? ==> r.value == prefabToGuid[prefabPath]
      ensures r.Err? ==> r.error == KeyNotFound(prefabPath)
    {
      r := Lookup(prefabToGuid, prefabPath);
    }
  }

  /** Once the loop of RefreshPrefabCache throws at some asset, the later assets are not processed. */
  lemma {:induction false} ProcessAllStops(contents: map<string, seq<string>>, assets: seq<string>, n: nat)
    requires n <= |assets|
    requires ProcessAll(Empty, contents, assets[..n]).failure.Some?
    ensures ProcessAll(Empty, contents, assets) == ProcessAll(Empty, contents, assets[..n])
    decreases |assets|
  {
    if n < |assets| {
      var init := assets[..|assets| - 1];
      assert init[..n] == assets[..n];
      ProcessAllStops(contents, init, n);
    } else {
      assert assets[..n] == assets;
    }
  }

  /**
   * Saving at the end of one editor session and loading at the start of the
   * next restores both dictionaries, whatever the asset files then hold.
   */
  method SaveThenLoadInNewSession(cache: PrefabCache, assetPaths: seq<string>, contents: map<string, seq<string>>)
    returns (next: PrefabCache, failure: Option<Failure>)
    modifies cache.files
    ensures fresh(next) && next.files == cache.files
    ensures failure.None? && next.State() == cache.State()
  {
    cache.SaveCache();
    next := new PrefabCache(cache.files);
    failure := next.LoadCache(assetPaths, contents);
  }
}
