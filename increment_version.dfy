/**
 * The version bookkeeping of the Tiled editor extension
 * (`public/assets/extensions/incrementVersion.js`).
 *
 * A `GameExporter` watches one world. Saving a map of the world bumps the world's
 * version and that map's version, and writes the world file's map list, each map
 * stamped with its version, to an export file. The converter later compares these
 * map versions with the ones it stored. The editor's host API (signals, `TextFile`,
 * saving assets) is left out: what a read of the world file yields is an argument
 * and every export written is appended to `exports`.
 */
module IncrementVersion {
  import opened Wrappers
  import opened JsStrings
  import TiledConvert

  // ---------------------------------------------------------------------------
  // Path helpers

  /** `getPath(path)`: `path.substring(0, path.lastIndexOf("/"))`. */
  function GetPath(path: string): string
  {
    Substring(path, 0, LastIndexOf(path, '/'))
  }

  /** `getFileNameFromPath(path)`: `path.substring(path.lastIndexOf("/") + 1)`. */
  function GetFileNameFromPath(path: string): string
  {
    Substring(path, LastIndexOf(path, '/') + 1, |path|)
  }

  /** `removeFileExtension(filename)`: everything before the last '.', or all of it. */
  function RemoveFileExtension(filename: string): string
  {
    var i := LastIndexOf(filename, '.');
    if i == -1 then filename else Substring(filename, 0, i)
  }

  /** The directory and the file name of a path, joined by '/', give it back; without a
      '/' the directory is "" (`substring(0, -1)` clamps to 0) and the name is all of it. */
  lemma PathAndFileNameRebuildPath(path: string)
    ensures LastIndexOf(path, '/') >= 0 ==> GetPath(path) + "/" + GetFileNameFromPath(path) == path
    ensures LastIndexOf(path, '/') < 0 ==> GetPath(path) == "" && GetFileNameFromPath(path) == path
  {
    var i := LastIndexOf(path, '/');
    assert GetFileNameFromPath(path) == path[i + 1..];
    if i >= 0 {
      assert GetPath(path) == path[..i];
      TiledConvert.RebuildAround(path, i, GetPath(path), GetFileNameFromPath(path));
    } else {
      assert path[0..] == path;
    }
  }

  /** The file name holds no '/'. */
  lemma FileNameHasNoSlash(path: string)
    ensures '/' !in GetFileNameFromPath(path)
  {
    assert GetFileNameFromPath(path) == path[LastIndexOf(path, '/') + 1..];
    NoneAfterLast(path, '/');
  }

  /** The extension helper's directory agrees with the converter's. */
  lemma GetPathAgreesWithConverter(path: string)
    ensures GetPath(path) == TiledConvert.GetPathFileLocation(path)
  {
  }

  /** The file name agrees with the converter's name taken with no extension. */
  lemma FileNameAgreesWithConverter(path: string)
    ensures GetFileNameFromPath(path) == TiledConvert.GetPathFileName(path, "")
  {
    TiledConvert.EmptyExtensionKeepsName(path);
  }

  /** What `removeFileExtension` drops is the last '.' and what follows it; a name
      without '.' is returned unchanged. */
  lemma RemoveFileExtensionSplits(filename: string)
    ensures var stem := RemoveFileExtension(filename);
      && |stem| <= |filename| && filename[..|stem|] == stem
      && (LastIndexOf(filename, '.') >= 0 ==> filename[|stem|] == '.' && '.' !in filename[|stem| + 1..])
      && (LastIndexOf(filename, '.') < 0 ==> stem == filename)
  {
    var i := LastIndexOf(filename, '.');
    if i >= 0 {
      assert RemoveFileExtension(filename) == filename[..i];
      NoneAfterLast(filename, '.');
    }
  }

  // ---------------------------------------------------------------------------
  // World file contents

  datatype AssetType = TileMap | OtherAsset

  /** The fields of an editor asset that are read. */
  datatype Asset = Asset(fileName: string, assetType: AssetType, modified: bool)

  /** An entry of the world's `maps`, as the editor holds it. */
  datatype WorldMapEntry = WorldMapEntry(fileName: string)

  /** An entry of the world file's `maps`; `version` is added by the export. */
  datatype MapRecord = MapRecord(fileName: string, x: int, y: int, width: int, height: int, version: Option<int>)

  /** The parsed world file; `worldVersion` is added by the export. */
  datatype WorldData = WorldData(maps: seq<MapRecord>, worldVersion: Option<int>)

  /** `mapVersions[name] || 0`. */
  function VersionOf(mapVersions: map<string, int>, name: string): int
  {
    if name in mapVersions && mapVersions[name] != 0 then mapVersions[name] else 0
  }

  /** `|| 0` only changes a missing entry: a stored 0 reads as 0 anyway. */
  lemma VersionOfIsLookup(mapVersions: map<string, int>, name: string)
    ensures VersionOf(mapVersions, name) == if name in mapVersions then mapVersions[name] else 0
  {
  }

  /** The map list of `writeWorldFile`: every map keeps its fields and gets its version. */
  function StampVersions(maps: seq<MapRecord>, mapVersions: map<string, int>): (r: seq<MapRecord>)
    ensures |r| == |maps|
    ensures forall k :: 0 <= k < |maps| ==>
      && r[k].fileName == maps[k].fileName && r[k].x == maps[k].x && r[k].y == maps[k].y
      && r[k].width == maps[k].width && r[k].height == maps[k].height
      && r[k].version == Some(VersionOf(mapVersions, maps[k].fileName))
  {
    seq(|maps|, k requires 0 <= k < |maps| => maps[k].(version := Some(VersionOf(mapVersions, maps[k].fileName))))
  }

  /** Stamping twice is stamping once: earlier versions in the file are overwritten. */
  lemma StampVersionsIdempotent(maps: seq<MapRecord>, mapVersions: map<string, int>)
    ensures StampVersions(StampVersions(maps, mapVersions), mapVersions) == StampVersions(maps, mapVersions)
  {
  }

  /** `_checkForNewMap`: the maps, in order, whose file name is not in `prevMaps`. */
  function NewMaps(maps: seq<WorldMapEntry>, prevMaps: seq<string>): (r: seq<WorldMapEntry>)
    ensures |r| <= |maps|
    ensures forall m :: m in r <==> m in maps && m.fileName !in prevMaps
  {
    if |maps| == 0 then []
    else (if maps[0].fileName !in prevMaps then [maps[0]] else []) + NewMaps(maps[1..], prevMaps)
  }

  /** The filter works map by map, so it keeps the maps' order: filtering a joined
      list joins the filtered parts. */
  lemma {:induction false} NewMapsOfJoin(a: seq<WorldMapEntry>, b: seq<WorldMapEntry>, prevMaps: seq<string>)
    ensures NewMaps(a + b, prevMaps) == NewMaps(a, prevMaps) + NewMaps(b, prevMaps)
  {
    if |a| == 0 {
      assert a + b == b;
    } else {
      assert (a + b)[1..] == a[1..] + b;
      NewMapsOfJoin(a[1..], b, prevMaps);
    }
  }

  /** `maps.map(m => m.fileName)`. */
  function FileNames(maps: seq<WorldMapEntry>): (names: seq<string>)
    ensures |names| == |maps| && forall k :: 0 <= k < |maps| ==> names[k] == maps[k].fileName
  {
    seq(|maps|, k requires 0 <= k < |maps| => maps[k].fileName)
  }

  /** Filtering a list of maps against its own file names finds nothing new: `world.maps`
      and `world.prevMaps` are taken from one snapshot, so `_checkForNewMap` as written
      always returns an empty list. */
  lemma SnapshotHasNoNewMaps(maps: seq<WorldMapEntry>)
    ensures NewMaps(maps, FileNames(maps)) == []
  {
    NoNewMapsAmongKnown(maps, FileNames(maps));
  }

  /** Maps whose every file name is listed are none of them new. */
  lemma {:induction false} NoNewMapsAmongKnown(maps: seq<WorldMapEntry>, prevMaps: seq<string>)
    requires forall k :: 0 <= k < |maps| ==> maps[k].fileName in prevMaps
    ensures NewMaps(maps, prevMaps) == []
  {
    if |maps| > 0 {
      NoNewMapsAmongKnown(maps[1..], prevMaps);
    }
  }

  /** Filtering the current maps against the names taken when the world was opened finds
      exactly a map added since. */
  lemma AddedMapIsFound(atOpen: seq<WorldMapEntry>, added: WorldMapEntry)
    requires added.fileName !in FileNames(atOpen)
    ensures NewMaps(atOpen + [added], FileNames(atOpen)) == [added]
  {
    NewMapsOfJoin(atOpen, [added], FileNames(atOpen));
    SnapshotHasNoNewMaps(atOpen);
    assert NewMaps([added], FileNames(atOpen)) == [added] + NewMaps([], FileNames(atOpen));
  }

  /** `modifiedAssets.filter(a => a !== name)`: every occurrence of `name` goes, the rest stay. */
  function RemoveAll(xs: seq<string>, name: string): (r: seq<string>)
    ensures multiset(r) == multiset(xs)[name := 0]
  {
    if |xs| == 0 then []
    else
      assert xs == [xs[0]] + xs[1..];
      (if xs[0] != name then [xs[0]] else []) + RemoveAll(xs[1..], name)
  }

  /** `modifiedAssets.find(a => a === name)` read as a condition: found, and not the empty
      string, which is falsy. */
  predicate FoundTruthy(xs: seq<string>, name: string)
  {
    name in xs && name != ""
  }

  /** `[name] in mapVersions`: the one-element array converts to `name` as a key. */
  function BumpMapVersion(mapVersions: map<string, int>, name: string): (r: map<string, int>)
    ensures r.Keys == mapVersions.Keys + {name}
    ensures name in mapVersions ==> r[name] == mapVersions[name] + 1
    ensures name !in mapVersions ==> r[name] == 0
    ensures forall n :: n in mapVersions && n != name ==> r[n] == mapVersions[n]
  {
    if name in mapVersions then mapVersions[name := mapVersions[name] + 1] else mapVersions[name := 0]
  }

  // ---------------------------------------------------------------------------
  // The exporter

  class GameExporter {
    /** `customProperties.worldVersion`. */
    var worldVersion: int
    /** `customProperties.mapVersions`, keyed by map file name. */
    var mapVersions: map<string, int>
    /** File names of maps saved as modified but not yet versioned. */
    var modifiedAssets: seq<string>
    /** `world.maps` and `world.prevMaps` (the file names when the world was opened). */
    const maps: seq<WorldMapEntry>
    const prevMaps: seq<string>
    /** Every export file written, in order. */
    var exports: seq<WorldData>

    /** The constructor and `init`: the world's maps are taken as they are; a saved
        `worldVersion` or `mapVersions` replaces the default when it is truthy. */
    constructor (worldMaps: seq<WorldMapEntry>, savedWorldVersion: Option<int>, savedMapVersions: Option<map<string, int>>)
      ensures maps == worldMaps
      ensures prevMaps == FileNames(worldMaps)
      ensures worldVersion == if savedWorldVersion.Some? && savedWorldVersion.value != 0 then savedWorldVersion.value else 0
      ensures mapVersions == if savedMapVersions.Some? then savedMapVersions.value else map[]
      ensures modifiedAssets == [] && exports == []
    {
      maps := worldMaps;
      prevMaps := FileNames(worldMaps);
      worldVersion := if savedWorldVersion.Some? && savedWorldVersion.value != 0 then savedWorldVersion.value else 0;
      mapVersions := if savedMapVersions.Some? then savedMapVersions.value else map[];
      modifiedAssets := [];
      exports := [];
    }

    /** `assetBelongsToWorld(asset)`: a TileMap listed in the world's maps. */
    predicate BelongsToWorld(asset: Asset)
    {
      asset.assetType == TileMap && exists k :: 0 <= k < |maps| && maps[k].fileName == asset.fileName
    }

    /** `onAssetAboutToBeSaved(asset)`: a modified map of this world is remembered. */
    method OnAssetAboutToBeSaved(asset: Asset)
      modifies this
      ensures BelongsToWorld(asset) && asset.modified ==> modifiedAssets == old(modifiedAssets) + [asset.fileName]
      ensures !(BelongsToWorld(asset) && asset.modified) ==> modifiedAssets == old(modifiedAssets)
      ensures worldVersion == old(worldVersion) && mapVersions == old(mapVersions) && exports == old(exports)
    {
      if BelongsToWorld(asset) && asset.modified {
        modifiedAssets := modifiedAssets + [asset.fileName];
      }
    }

    /** `onWorldsChanged()` as written: the maps of the opening snapshot not named in the
        same snapshot count as modified, and there are none. */
    method OnWorldsChanged()
      modifies this
      ensures modifiedAssets == old(modifiedAssets) + FileNames(NewMaps(maps, prevMaps))
      ensures prevMaps == FileNames(maps) ==> modifiedAssets == old(modifiedAssets)
      ensures worldVersion == old(worldVersion) && mapVersions == old(mapVersions) && exports == old(exports)
    {
      var added := NewMaps(maps, prevMaps);
      modifiedAssets := modifiedAssets + FileNames(added);
      if prevMaps == FileNames(maps) {
        SnapshotHasNoNewMaps(maps);
        assert modifiedAssets == old(modifiedAssets) + [];
      }
    }

    /** `onWorldsChanged()` as intended: the world's maps now, compared with the names
        taken when it was opened; the maps added since count as modified. */
    method OnWorldsChangedNow(current: seq<WorldMapEntry>)
      modifies this
      ensures modifiedAssets == old(modifiedAssets) + FileNames(NewMaps(current, prevMaps))
      ensures forall name :: name in modifiedAssets <==>
        name in old(modifiedAssets) || exists m :: m in current && m.fileName == name && name !in prevMaps
      ensures worldVersion == old(worldVersion) && mapVersions == old(mapVersions) && exports == old(exports)
    {
      var added := NewMaps(current, prevMaps);
      modifiedAssets := modifiedAssets + FileNames(added);
      forall name | name in FileNames(added)
        ensures exists m :: m in current && m.fileName == name && name !in prevMaps
      {
        var k :| 0 <= k < |added| && FileNames(added)[k] == name;
        assert added[k] in added;
      }
      forall name | exists m :: m in current && m.fileName == name && name !in prevMaps
        ensures name in FileNames(added)
      {
        var m :| m in current && m.fileName == name && name !in prevMaps;
        assert m in added;
        var k :| 0 <= k < |added| && added[k] == m;
        assert FileNames(added)[k] == name;
      }
    }

    /** `writeWorldFile()`, given what reading the world file yields: the stamped maps go
        to the export file `<world>-save.json`; nothing is written when the world file
        could not be read. */
    method WriteWorldFile(worldFile: Option<WorldData>)
      modifies this
      ensures worldFile.None? ==> exports == old(exports)
      ensures worldFile.Some? ==>
        exports == old(exports) + [WorldData(StampVersions(worldFile.value.maps, mapVersions), Some(worldVersion))]
      ensures worldVersion == old(worldVersion) && mapVersions == old(mapVersions) && modifiedAssets == old(modifiedAssets)
    {
      if worldFile.Some? {
        exports := exports + [WorldData(StampVersions(worldFile.value.maps, mapVersions), Some(worldVersion))];
      }
    }

    /** `onAssetSaved(asset)`: a map of this world that was modified, or any map of it on
        the very first save, bumps the world version by one and its own version (0 when
        new), is exported, and leaves the modified list. */
    method OnAssetSaved(asset: Asset, worldFile: Option<WorldData>)
      modifies this
      ensures var bump := BelongsToWorld(asset) && (FoundTruthy(old(modifiedAssets), asset.fileName) || old(worldVersion) == 0);
        && (bump ==>
          && worldVersion == old(worldVersion) + 1
          && mapVersions == BumpMapVersion(old(mapVersions), GetFileNameFromPath(asset.fileName))
          && modifiedAssets == RemoveAll(old(modifiedAssets), asset.fileName)
          && (worldFile.Some? ==> exports == old(exports) + [WorldData(StampVersions(worldFile.value.maps, mapVersions), Some(worldVersion))])
          && (worldFile.None? ==> exports == old(exports)))
        && (!bump ==>
          && worldVersion == old(worldVersion) && mapVersions == old(mapVersions)
          && modifiedAssets == old(modifiedAssets) && exports == old(exports))
    {
      if BelongsToWorld(asset) {
        var isNewSave := worldVersion == 0;
        var isAssetModified := FoundTruthy(modifiedAssets, asset.fileName);
        if isAssetModified || isNewSave {
          worldVersion := worldVersion + 1;
          mapVersions := BumpMapVersion(mapVersions, GetFileNameFromPath(asset.fileName));
          WriteWorldFile(worldFile);
          modifiedAssets := RemoveAll(modifiedAssets, asset.fileName);
        }
      }
    }
  }
}
