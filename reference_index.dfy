/**
 * The two dictionaries of the prefab cache as values, and what processing
 * assets does to them.
 *
 * `prefabToGuid` maps an asset path to the GUIDs it references; `guidToPrefab`
 * maps a GUID to the asset paths that referenced it. Processing an asset
 * replaces its forward entry and APPENDS the asset to the reverse list of each
 * scanned GUID; nothing is ever removed from a reverse list. So the direction
 * forward => reverse is kept by every update, while the full two-way
 * correspondence (and duplicate-free reverse lists) holds after a rebuild from
 * empty maps over distinct asset paths.
 */
module ReferenceIndex {
  import opened Results
  import opened Scanner

  /** A `Dictionary<string, List<string>>`. */
  type Table = map<string, seq<string>>

  datatype Index = Index(prefabToGuid: Table, guidToPrefab: Table)

  /** Both dictionaries cleared. */
  const Empty: Index := Index(map[], map[])

  /** The list stored under a key, or the empty list for a missing key. */
  function Entry(t: Table, key: string): seq<string>
  {
    if key in t then t[key] else []
  }

  // ---------------------------------------------------------------------------
  // Processing one asset

  /** `_GUIDToPrefab[guid].Add(asset)`, or a new singleton list for a new key. */
  function Link(rev: Table, guid: string, asset: string): Table
  {
    if guid in rev then rev[guid := rev[guid] + [asset]] else rev[guid := [asset]]
  }

  /** The `foreach (string guid in GUIDs)` loop, one `Link` per GUID in order. */
  function AddReverseLinks(rev: Table, asset: string, guids: seq<string>): Table
    decreases |guids|
  {
    if guids == [] then rev
    else Link(AddReverseLinks(rev, asset, guids[..|guids| - 1]), guids[|guids| - 1], asset)
  }

  /** ProcessCacheForAsset after the scan: replace the forward entry, append reverse links. */
  function Process(idx: Index, asset: string, guids: seq<string>): Index
  {
    Index(idx.prefabToGuid[asset := guids], AddReverseLinks(idx.guidToPrefab, asset, guids))
  }

  /**
   * Appending reverse links only ever adds: every old list is a prefix of the
   * new one, lists of GUIDs that were not scanned are untouched, new keys are
   * exactly the scanned GUIDs, and the asset is in the list of each of them.
   */
  lemma {:induction false} AddReverseLinksGrows(rev: Table, asset: string, guids: seq<string>)
    ensures AddReverseLinks(rev, asset, guids).Keys == rev.Keys + set g | g in guids
    ensures forall g :: g in rev ==> rev[g] <= AddReverseLinks(rev, asset, guids)[g]
    ensures forall g :: g in rev && g !in guids ==> AddReverseLinks(rev, asset, guids)[g] == rev[g]
    ensures forall g :: g in guids ==> asset in AddReverseLinks(rev, asset, guids)[g]
    decreases |guids|
  {
    if guids != [] {
      var init := guids[..|guids| - 1];
      AddReverseLinksGrows(rev, asset, init);
      assert forall g :: g in guids <==> g in init || g == guids[|guids| - 1];
    }
  }

  /** With distinct scanned GUIDs, each of their lists gains the asset exactly once, at its end. */
  lemma {:induction false} AddReverseLinksAppendsOnce(rev: Table, asset: string, guids: seq<string>)
    requires NoDuplicates(guids)
    ensures forall g :: g in guids ==>
      g in AddReverseLinks(rev, asset, guids) && AddReverseLinks(rev, asset, guids)[g] == Entry(rev, g) + [asset]
    decreases |guids|
  {
    if guids != [] {
      var init := guids[..|guids| - 1];
      var last := guids[|guids| - 1];
      AddReverseLinksAppendsOnce(rev, asset, init);
      AddReverseLinksGrows(rev, asset, init);
      assert last !in init;
      assert forall g :: g in guids <==> g in init || g == last;
    }
  }

  /**
   * The effect of processing an asset whose scan gave distinct GUIDs, as the
   * code is written: its forward entry becomes the scan, other forward entries
   * stay; each scanned GUID's list is its old list (or nothing) plus the asset;
   * lists of other GUIDs stay as they were, stale links to the asset included.
   */
  lemma ProcessEffect(idx: Index, asset: string, guids: seq<string>)
    requires NoDuplicates(guids)
    ensures var r := Process(idx, asset, guids);
      && r.prefabToGuid.Keys == idx.prefabToGuid.Keys + {asset}
      && r.prefabToGuid[asset] == guids
      && (forall a :: a in idx.prefabToGuid && a != asset ==> r.prefabToGuid[a] == idx.prefabToGuid[a])
      && r.guidToPrefab.Keys == idx.guidToPrefab.Keys + (set g | g in guids)
      && (forall g :: g in guids ==> r.guidToPrefab[g] == Entry(idx.guidToPrefab, g) + [asset])
      && (forall g :: g in idx.guidToPrefab && g !in guids ==> r.guidToPrefab[g] == idx.guidToPrefab[g])
  {
    AddReverseLinksGrows(idx.guidToPrefab, asset, guids);
    AddReverseLinksAppendsOnce(idx.guidToPrefab, asset, guids);
  }

  /**
   * Processing the same asset again with the same scan does not leave the
   * index as it was: every scanned GUID's list gets the asset a second time.
   */
  lemma ReprocessingAppendsAgain(idx: Index, asset: string, guids: seq<string>)
    requires NoDuplicates(guids) && guids != []
    ensures var once := Process(idx, asset, guids);
      var twice := Process(once, asset, guids);
      && twice.prefabToGuid == once.prefabToGuid
      && (forall g :: g in guids ==>
            g in once.guidToPrefab && g in twice.guidToPrefab && twice.guidToPrefab[g] == once.guidToPrefab[g] + [asset])
      && twice != once
  {
    var once := Process(idx, asset, guids);
    var twice := Process(once, asset, guids);
    ProcessEffect(idx, asset, guids);
    ProcessEffect(once, asset, guids);
    assert |twice.guidToPrefab[guids[0]]| == |once.guidToPrefab[guids[0]]| + 1;
  }

  /**
   * A GUID the asset no longer references keeps the asset in its reverse list:
   * after the asset is re-processed with a scan that drops the GUID, the
   * reverse list still names the asset while the forward entry no longer
   * names the GUID.
   */
  lemma StaleLinkSurvives(idx: Index, asset: string, before: seq<string>, after: seq<string>, g: string)
    requires NoDuplicates(before) && NoDuplicates(after)
    requires g in before && g !in after
    ensures var r := Process(Process(idx, asset, before), asset, after);
      && g in r.guidToPrefab && asset in r.guidToPrefab[g]
      && g !in r.prefabToGuid[asset]
  {
    var mid := Process(idx, asset, before);
    ProcessEffect(idx, asset, before);
    ProcessEffect(mid, asset, after);
    assert mid.guidToPrefab[g] == Entry(idx.guidToPrefab, g) + [asset];
  }

  // ---------------------------------------------------------------------------
  // Consistency of the two dictionaries

  /** Every GUID listed for an asset lists that asset in return. */
  predicate ForwardImpliesReverse(idx: Index)
  {
    forall a, g :: a in idx.prefabToGuid && g in idx.prefabToGuid[a] ==>
      g in idx.guidToPrefab && a in idx.guidToPrefab[g]
  }

  /** Every asset listed for a GUID lists that GUID in return. */
  predicate ReverseImpliesForward(idx: Index)
  {
    forall g, a :: g in idx.guidToPrefab && a in idx.guidToPrefab[g] ==>
      a in idx.prefabToGuid && g in idx.prefabToGuid[a]
  }

  predicate Consistent(idx: Index)
  {
    ForwardImpliesReverse(idx) && ReverseImpliesForward(idx)
  }

  /** No list of the table holds an element twice. */
  predicate ListsDistinct(t: Table)
  {
    forall key :: key in t ==> NoDuplicates(t[key])
  }

  /** Every call of ProcessCacheForAsset keeps the forward => reverse direction. */
  lemma ProcessPreservesForwardImpliesReverse(idx: Index, asset: string, guids: seq<string>)
    requires ForwardImpliesReverse(idx)
    ensures ForwardImpliesReverse(Process(idx, asset, guids))
  {
    var r := Process(idx, asset, guids);
    AddReverseLinksGrows(idx.guidToPrefab, asset, guids);
    forall a, g | a in r.prefabToGuid && g in r.prefabToGuid[a]
      ensures g in r.guidToPrefab && a in r.guidToPrefab[g]
    {
      if a != asset {
        assert idx.guidToPrefab[g] <= r.guidToPrefab[g];
      }
    }
  }

  /**
   * Processing an asset that is not yet in the index, with distinct scanned
   * GUIDs, keeps the index fully consistent and its reverse lists distinct.
   */
  lemma ProcessNewAssetKeepsConsistency(idx: Index, asset: string, guids: seq<string>)
    requires Consistent(idx) && ListsDistinct(idx.guidToPrefab)
    requires asset !in idx.prefabToGuid
    requires NoDuplicates(guids)
    ensures Consistent(Process(idx, asset, guids))
    ensures ListsDistinct(Process(idx, asset, guids).guidToPrefab)
  {
    var r := Process(idx, asset, guids);
    ProcessPreservesForwardImpliesReverse(idx, asset, guids);
    ProcessEffect(idx, asset, guids);
    forall g, a | g in r.guidToPrefab && a in r.guidToPrefab[g]
      ensures a in r.prefabToGuid && g in r.prefabToGuid[a]
    {
      if g in guids && a !in Entry(idx.guidToPrefab, g) {
        assert a == asset;
      }
    }
    forall g | g in r.guidToPrefab ensures NoDuplicates(r.guidToPrefab[g]) {
      if g in guids {
        assert asset !in Entry(idx.guidToPrefab, g);
      }
    }
  }

  // ---------------------------------------------------------------------------
  // Queries

  /** The exception of a dictionary lookup with a missing key. */
  datatype LookupError = KeyNotFound(key: string)

  /** `dictionary[key]`: the stored list, or KeyNotFoundException. */
  function Lookup(t: Table, key: string): Result<seq<string>, LookupError>
  {
    if key in t then Ok(t[key]) else Err(KeyNotFound(key))
  }

  /**
   * Right after an asset is processed, asking for its GUIDs gives the scan,
   * and asking for any scanned GUID's assets gives a list ending with it.
   */
  lemma QueriesAfterProcess(idx: Index, asset: string, guids: seq<string>)
    requires NoDuplicates(guids)
    ensures Lookup(Process(idx, asset, guids).prefabToGuid, asset) == Ok(guids)
    ensures forall g :: g in guids ==>
      && Lookup(Process(idx, asset, guids).guidToPrefab, g).Ok?
      && Lookup(Process(idx, asset, guids).guidToPrefab, g).value == Entry(idx.guidToPrefab, g) + [asset]
  {
    ProcessEffect(idx, asset, guids);
  }

  // ---------------------------------------------------------------------------
  // Processing many assets

  /** Why processing an asset throws: its file cannot be opened, or a line has "guid" but no match. */
  datatype Failure = AssetUnreadable(asset: string) | NoGuidMatch(asset: string, line: nat)

  /** Opening and scanning one asset, with `contents` standing for the asset files on disk. */
  function ScanAsset(contents: map<string, seq<string>>, asset: string): (r: Result<seq<string>, Failure>)
    ensures r.Ok? ==> asset in contents && Scan(contents[asset]) == Ok(r.value) && NoDuplicates(r.value)
    ensures r.Err? ==> r.error.asset == asset
    ensures r.Err? <==> asset !in contents || Scan(contents[asset]).Err?
  {
    if asset !in contents then Err(AssetUnreadable(asset))
    else
      match Scan(contents[asset])
      case Ok(guids) => Ok(guids)
      case Err(NoMatch(n)) => Err(NoGuidMatch(asset, n))
  }

  /** The index after some processing, and the exception that stopped it, if any. */
  datatype Run = Run(index: Index, failure: Option<Failure>)

  /** One call of ProcessCacheForAsset: on an exception nothing has been changed yet. */
  function Step(idx: Index, contents: map<string, seq<string>>, asset: string): Run
  {
    match ScanAsset(contents, asset)
    case Err(e) => Run(idx, Some(e))
    case Ok(guids) => Run(Process(idx, asset, guids), None)
  }

  /** The `foreach` of RefreshPrefabCache: process assets in order until one throws. */
  function ProcessAll(idx: Index, contents: map<string, seq<string>>, assets: seq<string>): Run
    decreases |assets|
  {
    if assets == [] then Run(idx, None)
    else
      var run := ProcessAll(idx, contents, assets[..|assets| - 1]);
      if run.failure.Some? then run
      else Step(run.index, contents, assets[|assets| - 1])
  }

  /**
   * Rebuilding from empty dictionaries over distinct asset paths: whether it
   * stops early or not, the index is fully consistent, its reverse lists are
   * distinct, and each forward entry is the scan of a processed asset; it
   * finishes exactly when every asset can be scanned, and then every asset
   * has its entry.
   */
  lemma {:induction false} RebuildInvariant(contents: map<string, seq<string>>, assets: seq<string>)
    requires NoDuplicates(assets)
    ensures var run := ProcessAll(Empty, contents, assets);
      && Consistent(run.index)
      && ListsDistinct(run.index.guidToPrefab)
      && (forall g :: g in run.index.guidToPrefab ==> run.index.guidToPrefab[g] != [])
      && (forall a :: a in run.index.prefabToGuid ==>
            a in assets && ScanAsset(contents, a) == Ok(run.index.prefabToGuid[a]))
      && (run.failure.None? <==> forall a :: a in assets ==> ScanAsset(contents, a).Ok?)
      && (run.failure.None? ==> forall a :: a in assets ==> a in run.index.prefabToGuid)
    decreases |assets|
  {
    if assets != [] {
      var init := assets[..|assets| - 1];
      var last := assets[|assets| - 1];
      assert forall a :: a in assets <==> a in init || a == last;
      assert NoDuplicates(init);
      RebuildInvariant(contents, init);
      var run := ProcessAll(Empty, contents, init);
      if run.failure.None? {
        assert last !in init;
        match ScanAsset(contents, last)
        case Err(_) =>
        case Ok(guids) =>
          ProcessNewAssetKeepsConsistency(run.index, last, guids);
          ProcessEffect(run.index, last, guids);
      }
    }
  }

  /** The forward dictionary holds exactly the assets, each with its scan. */
  ghost predicate ForwardBuiltFrom(idx: Index, contents: map<string, seq<string>>, assets: seq<string>)
  {
    && (forall a :: a in idx.prefabToGuid <==> a in assets)
    && (forall a :: a in assets ==> ScanAsset(contents, a) == Ok(idx.prefabToGuid[a]))
  }

  /** An asset is listed for a GUID exactly when it is one of the assets and its scan contains the GUID. */
  ghost predicate ReverseBuiltFrom(idx: Index, contents: map<string, seq<string>>, assets: seq<string>)
  {
    forall g, a :: g in idx.guidToPrefab && a in idx.guidToPrefab[g] <==>
      a in assets && ScanAsset(contents, a).Ok? && g in ScanAsset(contents, a).value
  }

  ghost predicate NoEmptyLists(t: Table)
  {
    forall key :: key in t ==> t[key] != []
  }

  /**
   * What a complete rebuild over `assets` leaves: the forward dictionary holds
   * exactly the assets with their scans, an asset is listed for a GUID exactly
   * when its scan contains that GUID, once, and no reverse list is empty.
   */
  ghost predicate BuiltFrom(idx: Index, contents: map<string, seq<string>>, assets: seq<string>)
  {
    && ForwardBuiltFrom(idx, contents, assets)
    && ReverseBuiltFrom(idx, contents, assets)
    && ListsDistinct(idx.guidToPrefab)
    && NoEmptyLists(idx.guidToPrefab)
  }

  /** A complete rebuild over distinct asset paths is described by BuiltFrom. */
  lemma RebuildCharacterization(contents: map<string, seq<string>>, assets: seq<string>)
    requires NoDuplicates(assets)
    requires ProcessAll(Empty, contents, assets).failure.None?
    ensures BuiltFrom(ProcessAll(Empty, contents, assets).index, contents, assets)
  {
    RebuildInvariant(contents, assets);
  }

  /**
   * The order in which a rebuild visits the asset paths does not matter: the
   * forward dictionaries are equal, and each GUID lists the same assets.
   */
  lemma RebuildOrderIrrelevant(contents: map<string, seq<string>>, assets1: seq<string>, assets2: seq<string>)
    requires NoDuplicates(assets1) && NoDuplicates(assets2)
    requires forall a :: a in assets1 <==> a in assets2
    ensures ProcessAll(Empty, contents, assets1).failure.None? <==> ProcessAll(Empty, contents, assets2).failure.None?
    ensures ProcessAll(Empty, contents, assets1).failure.None? ==>
      var idx1 := ProcessAll(Empty, contents, assets1).index;
      var idx2 := ProcessAll(Empty, contents, assets2).index;
      && idx1.prefabToGuid == idx2.prefabToGuid
      && idx1.guidToPrefab.Keys == idx2.guidToPrefab.Keys
      && forall g, a :: g in idx1.guidToPrefab ==> (a in idx1.guidToPrefab[g] <==> a in idx2.guidToPrefab[g])
  {
    RebuildInvariant(contents, assets1);
    RebuildInvariant(contents, assets2);
    if ProcessAll(Empty, contents, assets1).failure.None? {
      RebuildCharacterization(contents, assets1);
      RebuildCharacterization(contents, assets2);
      BuiltFromSameAssetsAgree(ProcessAll(Empty, contents, assets1).index, ProcessAll(Empty, contents, assets2).index,
                               contents, assets1, assets2);
    }
  }

  lemma BuiltFromSameAssetsAgree(idx1: Index, idx2: Index, contents: map<string, seq<string>>,
                                 assets1: seq<string>, assets2: seq<string>)
    requires forall a :: a in assets1 <==> a in assets2
    requires BuiltFrom(idx1, contents, assets1) && BuiltFrom(idx2, contents, assets2)
    ensures idx1.prefabToGuid == idx2.prefabToGuid
    ensures idx1.guidToPrefab.Keys == idx2.guidToPrefab.Keys
    ensures forall g, a :: g in idx1.guidToPrefab ==> (a in idx1.guidToPrefab[g] <==> a in idx2.guidToPrefab[g])
  {
    ForwardAgree(idx1, idx2, contents, assets1, assets2);
    ReverseAgree(idx1, idx2, contents, assets1, assets2);
    ReverseAgree(idx2, idx1, contents, assets2, assets1);
    forall g | g in idx1.guidToPrefab ensures g in idx2.guidToPrefab {
      assert idx1.guidToPrefab[g][0] in idx1.guidToPrefab[g];
    }
    forall g | g in idx2.guidToPrefab ensures g in idx1.guidToPrefab {
      assert idx2.guidToPrefab[g][0] in idx2.guidToPrefab[g];
    }
  }

  lemma ForwardAgree(idx1: Index, idx2: Index, contents: map<string, seq<string>>,
                     assets1: seq<string>, assets2: seq<string>)
    requires forall a :: a in assets1 <==> a in assets2
    requires ForwardBuiltFrom(idx1, contents, assets1) && ForwardBuiltFrom(idx2, contents, assets2)
    ensures idx1.prefabToGuid == idx2.prefabToGuid
  {
    assert idx1.prefabToGuid.Keys == idx2.prefabToGuid.Keys;
    forall a | a in idx1.prefabToGuid ensures idx1.prefabToGuid[a] == idx2.prefabToGuid[a] {
      assert ScanAsset(contents, a) == Ok(idx1.prefabToGuid[a]);
    }
  }

  lemma ReverseAgree(idx1: Index, idx2: Index, contents: map<string, seq<string>>,
                     assets1: seq<string>, assets2: seq<string>)
    requires forall a :: a in assets1 <==> a in assets2
    requires ReverseBuiltFrom(idx1, contents, assets1) && ReverseBuiltFrom(idx2, contents, assets2)
    ensures forall g, a :: g in idx1.guidToPrefab && a in idx1.guidToPrefab[g] ==>
      g in idx2.guidToPrefab && a in idx2.guidToPrefab[g]
  {
    forall g, a | g in idx1.guidToPrefab && a in idx1.guidToPrefab[g]
      ensures g in idx2.guidToPrefab && a in idx2.guidToPrefab[g]
    {
      assert a in assets2 && ScanAsset(contents, a).Ok? && g in ScanAsset(contents, a).value;
    }
  }
}
