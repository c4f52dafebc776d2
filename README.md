# World loader and quadtree, modelled in Dafny

This project models the parts of the game that decide which world objects exist near
the player. In the game's own terms:

- **ConvertTiled** turns a Tiled world (a `.world` file listing `.tmj` maps) into two
  tables per world: an object table with one row per non-empty tile, and a chunk table.
  The chunk table lists, for every chunk of `chunkResolution` pixels, the object ids in
  slices of at most 10000. A map is converted again only when its version grew.
- **The world-loader worker** follows the client's chunk position.
  - When the chunk changes, it builds the `gridSize` by `gridSize` matrix of chunks
    around the client. Chunks that drifted out of the matrix (with a trail) are aborted
    and destroyed.
  - It reads the missing chunks from the chunk table and their objects from the object
    table in batches of 10000 ids.
  - It groups the objects by chunk and posts them to the main thread, 50 per timer tick.
- **The main-thread loader** records the objects the game created per chunk. It tears a
  chunk down in batches when the worker says so, and `WorldAPI.execute` forwards the
  client position to every worker that is ready.
- **EventEmitter** is the publish/subscribe hub the worker's parts talk through.
- **The quadtree** stores game objects as points in an arena of nodes.
  - A node keeps up to `capacity` points and then splits into four quadrants.
  - `queryRange` and `executeOutsideRange` split the stored points by a range.
  - `redistributeNodes` rebuilds the tree from the objects' positions.
- **The Tiled editor extension** `incrementVersion.js` bumps a world version and a
  per-map version whenever a map of the world is saved. It writes them, with the world
  file's map list, to the export file `<world>-save.json`. The export step copies that
  file to where ConvertTiled reads the versions back.
- **`convertPxToNumber.js`** rewrites every `<digits>px` in a bundle to the number.

Messages between threads are modelled as an outbox of values. Database tables are maps
and sequences, the clock is an explicit `now` parameter, and an `async` continuation is
a separate method that the caller invokes when the awaited value is available.

| file | module |
|---|---|
| wrappers.dfy | `Wrappers`: `Option` |
| strings.dfy | `JsStrings`: `lastIndexOf`, `indexOf`, `substring`, `replace`, `split` |
| boundary.dfy | `Boundary` |
| cells.dfy | `Cells`: chunk cells and `Math.floor(v / size) * size` |
| px_convert.dfy | `PxConvert` |
| event_emitter.dfy | `Events` |
| convert_tiled.dfy | `TiledConvert` |
| increment_version.dfy | `IncrementVersion` |
| worker_grid.dfy | `WorkerGrid`: `ClientPosition`, the matrix |
| worker_chunks.dfy | `WorkerChunks`: `Chunk`, `ChunkCreator` |
| worker_objects.dfy | `WorkerObjects`: `Timer`, `ObjectCreator`, `queryObjects` |
| worker_loader.dfy | `WorkerLoader`: the worker's `Loader` and `onmessage` |
| loader.dfy | `MainLoader`: `destroyInBatches`, the main-thread `Loader`, `WorldAPI` |
| quadtree.dfy | `Quadtree` |

## Model

| member | source | states |
|---|---|---|
| Boundary.Construct | src/world-loader/Boundary.js:2-16 | The object form copies x, y, width and height and sets padding to 0, whatever padding the object has. The positional form keeps the four values and the padding given, and the padding defaults to 0. |
| Boundary.ContainsClosedCorners | src/world-loader/Boundary.js:40-48 | `contains` is closed: the lowest and the highest corner of the padded box are both inside. |
| Boundary.TouchingBoxesDoNotIntersect | src/world-loader/Boundary.js:22-33 | `intersects` is strict: two unpadded boxes that only share an edge do not intersect, in either order. |
| Boundary.IntersectsIgnoresOwnPadding | src/world-loader/Boundary.js:22-33 | Only the other box's padding is applied. The receiver's own `padding` is read but has no effect on the answer. |
| Boundary.IntersectsSymmetric | src/world-loader/Boundary.js:26-30 | With both paddings 0, `a.intersects(b)` equals `b.intersects(a)`. |
| Boundary.IntersectingBoxesShareAPoint | src/world-loader/Boundary.js:22-48 | Two unpadded boxes of non-negative size that intersect have a point that both `contains` accept. |
| Boundary.InsideKeepsDisjoint | src/Classes/Quadtree/index.js:279-283 | A box lying inside a box that misses the range misses it too. This is why `queryRange` may skip a whole subtree. |
| Cells.Snap | src/world-loader/WorldLoader/worker.js:72-73 | `Math.floor(v / size) * size` is the multiple of `size` whose chunk `[off, off + size)` holds `v`, for negative `v` too. |
| Cells.SnapIdempotent | src/world-loader/WorldLoader/worker.js:72-73 | Snapping an offset gives the same offset. |
| Cells.SnapUnique | src/world-loader/WorldLoader/worker.js:72-73 | The snapped offset is the only multiple of `size` in `(v - size, v]`. |
| JsStrings.LastIndexOf | src/world-loader/ConvertTiled/index.js:17 | `lastIndexOf(c)` returns -1 or the index of a `c`, and no `c` comes after it. |
| JsStrings.IndexOf | src/world-loader/ConvertTiled/index.js:12 | `indexOf(pat)` returns -1 or the first index at which `pat` occurs, and it does not occur earlier. |
| JsStrings.IndexOfFrom | src/world-loader/ConvertTiled/index.js:12 | The same as `indexOf`, searching from a start index. |
| JsStrings.IndexOfCharFrom | src/world-loader/ConvertTiled/index.js:11 | The first index at or after `from` that holds `c`, or -1 when there is none. |
| JsStrings.Split | src/world-loader/ConvertTiled/index.js:11 | `split(c)` yields at least one part. No part holds a `c`, and the parts joined with `c` give back the string. |
| JsStrings.SplitFromFree | src/world-loader/ConvertTiled/index.js:11 | Splitting from any start index yields parts free of `c`. |
| JsStrings.SplitFromJoins | src/world-loader/ConvertTiled/index.js:11 | The parts split from a start index join back into the rest of the string. |
| JsStrings.SplitJoin | src/world-loader/ConvertTiled/index.js:11 | The converse round trip: parts free of `c`, joined with `c`, split back into the same parts. |
| JsStrings.JoinUnique | src/world-loader/ConvertTiled/index.js:11 | A string has only one splitting into parts free of `c`, so `split` is the unique inverse of joining. |
| JsStrings.SplitLastPart | src/world-loader/ConvertTiled/index.js:11-12 | The last part of `split("/")` is exactly the text after the last `/`, or the whole string when there is none. |
| PxConvert.DigitRun | src/convertPxToNumber.js:9 | `\d+` is greedy: it matches the longest run of digits at the start, and the next character is not a digit. |
| PxConvert.DigitRunUnique | src/convertPxToNumber.js:9 | Any all-digit prefix followed by a non-digit, or by the end, is the run `\d+` takes. |
| PxConvert.NatToString | src/convertPxToNumber.js:9 | The number written back is all digits, with no leading zero except for 0 itself. |
| PxConvert.DigitsValueOfNatToString | src/convertPxToNumber.js:9 | Reading back the decimal text of `n` gives `n`, so the value and the text are inverse. |
| PxConvert.DigitRunNotLonger | src/convertPxToNumber.js:5-9 | With `UPSCALE_FACTOR` 1, a run of digits never gets longer when it is rewritten. |
| PxConvert.NextNotLonger | src/convertPxToNumber.js:9 | No step of the scan writes more than it consumes. |
| PxConvert.ConvertNotLonger | src/convertPxToNumber.js:7-10 | The rewritten bundle is never longer than the original. |
| PxConvert.ConvertWithoutMatch | src/convertPxToNumber.js:7-10 | Text with no digit directly before `px` comes back unchanged. |
| PxConvert.ConvertConcat | src/convertPxToNumber.js:9 | With the `g` flag, text that ends cleanly is rewritten independently of what follows it. |
| PxConvert.MatchAtStart | src/convertPxToNumber.js:9 | `<digits>px` at the start becomes the decimal text of the digits' value. The rest of the text is then rewritten in turn. |
| PxConvert.ConvertOneMatch | src/convertPxToNumber.js:7-10 | One match between clean text: the text before it is kept, `<digits>px` becomes the number, and the scan goes on after it. |
| PxConvert.HundredPx | src/convertPxToNumber.js:6-9 | `"100px"` becomes `"100"`, the example in the source's comment. |
| PxConvert.LeadingZerosVanish | src/convertPxToNumber.js:9 | `"007px"` becomes `"7"`, because `p1 * UPSCALE_FACTOR` is a number, so the leading zeros go. |
| Events.RemoveFirst | src/world-loader/EventEmitter.js:27-35 | `unsubscribe` removes exactly one occurrence of the listener when present, and otherwise leaves the array as it is. |
| Events.PlainCalls | src/world-loader/EventEmitter.js:37-44 | Plain listeners are called once each, in array order, each with the data. |
| Events.DispatchPlain | src/world-loader/EventEmitter.js:37-44 | When only plain listeners are subscribed, `notify` makes exactly those calls and leaves the array unchanged. |
| Events.Onces | src/world-loader/EventEmitter.js:17-25 | The `subscribeOnce` wrappers of an array are exactly its `Once` entries. |
| Events.OncesOfRemoveFirst | src/world-loader/EventEmitter.js:23 | The wrapper's `unsubscribe(eventType, listener)` never removes a wrapper, because the listener it names is not the wrapper. |
| Events.DispatchKeepsOnces | src/world-loader/EventEmitter.js:17-25 | As written, every wrapper is still subscribed after a `notify`. |
| Events.OnceListenerFiresTwice | src/world-loader/EventEmitter.js:17-25 | As written, `subscribeOnce` followed by two `notify`s calls the listener twice, and both times without the data. |
| Events.DispatchOnceRemovesOnces | src/world-loader/EventEmitter.js:17-25 | In the corrected dispatch, no wrapper is left after a `notify`, and every plain listener stays. |
| Events.DispatchOnceAgreesWithoutOnces | src/world-loader/EventEmitter.js:37-44 | When no wrapper is subscribed, the corrected dispatch equals the dispatch as written. |
| Events.SubscribeThenUnsubscribe | src/world-loader/EventEmitter.js:6-15 | Subscribing a new listener and then calling the returned unsubscriber restores the array. |
| Events.DuplicateSubscriptionCalledTwice | src/world-loader/EventEmitter.js:10 | `subscribe` does not deduplicate, so a listener subscribed twice is called twice per `notify`. |
| Events.RunListeners | src/world-loader/EventEmitter.js:37-44 | The `for...of` loop over the live array makes the calls `Dispatch` specifies and leaves the array `Dispatch` specifies. |
| Events.Emitter.constructor | src/world-loader/EventEmitter.js:2-4 | The emitter starts with no listeners and no calls. |
| Events.Emitter.Subscribe | src/world-loader/EventEmitter.js:6-16 | Appends the listener to its type's array, creating the array when missing. Returns the unsubscriber for that type and listener. |
| Events.Emitter.SubscribeOnce | src/world-loader/EventEmitter.js:17-25 | Appends a wrapper to the type's array, creating the array when missing. |
| Events.Emitter.Unsubscribe | src/world-loader/EventEmitter.js:27-35 | Removes the first occurrence of the listener from a known type. An unknown type stays unknown. |
| Events.Emitter.CallUnsubscriber | src/world-loader/EventEmitter.js:12-15 | Calling the returned function equals `unsubscribe` with the same type and listener. |
| Events.Emitter.Notify | src/world-loader/EventEmitter.js:37-44 | For a known type: the calls of `Dispatch` are appended, and the array becomes what `Dispatch` leaves. An unknown type changes nothing. |
| TiledConvert.FileNameIsLastSegment | src/world-loader/ConvertTiled/index.js:10-14 | `getPathFileName` is the text after the last `/`, with the first occurrence of the extension removed. |
| TiledConvert.ReplaceFirstRemoves | src/world-loader/ConvertTiled/index.js:12 | `replace(ext, "")` removes exactly the first occurrence of `ext`: putting it back at that index gives the name back. Without an occurrence the name is unchanged. |
| TiledConvert.EmptyExtensionKeepsName | src/world-loader/ConvertTiled/index.js:10-14 | With the default extension `""`, the file name is the whole last segment. |
| TiledConvert.LocationAndNameRebuildPath | src/world-loader/ConvertTiled/index.js:10-26 | The location, a `/` and the file name give the path back. Without a `/`, the location is `""` and the name is the whole path. |
| TiledConvert.NoSlashWholeName | src/world-loader/ConvertTiled/index.js:20-25 | Without a `/` the location is `""` and the name is the whole path. |
| TiledConvert.LocationDropsLastSlash | src/world-loader/ConvertTiled/index.js:15-26 | The location is the path up to, and not including, its last `/`. |
| TiledConvert.TilesetIndexFor | src/world-loader/ConvertTiled/index.js:210-219 | The chosen tileset is the last one whose `firstgid` is at most the gid. None means that every `firstgid` exceeds it. |
| TiledConvert.GetTilesetForGid | src/world-loader/ConvertTiled/index.js:210-219 | The backward loop finds the last tileset with `firstgid <= gid`, or null, which agrees with `TilesetIndexFor`. |
| TiledConvert.TilePositionOfRowAndColumn | src/world-loader/ConvertTiled/index.js:221-227 | The tile at row `r` and column `c` of a map `width` wide lies at `(c * tilewidth + originX, r * tileheight + originY)`. |
| TiledConvert.ChunkWorldPosition | src/world-loader/ConvertTiled/index.js:229-235 | The chunk offsets are multiples of `chunkResolution`, and the chunk they name holds the position. |
| TiledConvert.ChunkWorldPositionIdempotent | src/world-loader/ConvertTiled/index.js:229-235 | The chunk of a chunk's offsets is that chunk. |
| TiledConvert.KeptCells | src/world-loader/ConvertTiled/index.js:244-283 | Every cell it lists lies among the first `n` and has a non-zero gid that some tileset owns. |
| TiledConvert.KeptCellsExact | src/world-loader/ConvertTiled/index.js:244-283 | The converse: every such cell among the first `n` is listed, and the list is strictly increasing, so each cell appears once and in order. |
| TiledConvert.RecordsOfKeptCells | src/world-loader/ConvertTiled/index.js:244-283 | `tilesToAdd` has one row per kept cell, in cell order. Each row holds the gid less its tileset's `firstgid`, the tileset's name, the tile's world position and the chunk of that position. |
| TiledConvert.FirstSeen | src/world-loader/ConvertTiled/index.js:275-281 | The keys of `chunksToAdd` are the rows' chunks, each once. |
| TiledConvert.ProcessTiles | src/world-loader/ConvertTiled/index.js:244-283 | The tile loop builds exactly the rows of `RecordsOfKeptCells`, and the keys of their chunks in order of first appearance. |
| TiledConvert.ProcessTile | src/world-loader/ConvertTiled/index.js:245-282 | One iteration keeps the loop invariant: a skipped cell adds nothing, and a kept cell adds its row and possibly a new key. |
| TiledConvert.IdsInMembers | src/world-loader/ConvertTiled/index.js:290-299 | An id is listed for a chunk exactly when its row lies in that chunk, and a chunk's ids ascend. |
| TiledConvert.IdsInAppend | src/world-loader/ConvertTiled/index.js:290 | `bulkAdd` continues the numbering: the ids of appended rows follow the old ones. |
| TiledConvert.GroupIds | src/world-loader/ConvertTiled/index.js:293-299 | After `bulkAdd`, every key of `chunksToAdd` holds the ids of exactly its rows, in id order, and there is no other key. |
| TiledConvert.AppendSlices | src/world-loader/ConvertTiled/index.js:337-339 | The `splice(0, THRESHOLD)` loop appends the ids, in order, as full slices followed by one last non-empty slice of at most 10000. The earlier slices are unchanged. |
| TiledConvert.PackNew | src/world-loader/ConvertTiled/index.js:310-322 | A new entry's `data`, read in order, is the ids. Every slice holds 1 to 10000 ids, and all but the last are full. |
| TiledConvert.TopUp | src/world-loader/ConvertTiled/index.js:327-334 | A last slice that is not full is filled from the ids, up to 10000. Nothing is lost or reordered, and the rest goes on to new slices. |
| TiledConvert.AppendToEntry | src/world-loader/ConvertTiled/index.js:323-347 | An existing entry's `data` becomes the old ids followed by the new ones. It stays within 10000 per slice, and every slice but the last is unchanged. |
| TiledConvert.ShouldConvertCases | src/world-loader/ConvertTiled/index.js:126-137 | A map is converted when it was never converted, or when its stored version is below the world file's version. A stored map with a missing version is not converted. |
| TiledConvert.ConvertedOnce | src/world-loader/ConvertTiled/index.js:113-122 | After a conversion records the version, the same map entry is not converted again. |
| TiledConvert.RecordsInTheirChunks | src/world-loader/ConvertTiled/index.js:261-281 | Every row's chunk is a key of `chunksToAdd`, and it is the chunk of the row's position. |
| TiledConvert.FileChunks | src/world-loader/ConvertTiled/index.js:301-349 | The key loop creates or updates exactly the keys of `chunksToAdd`. Each such entry lists its old ids followed by its new ones, and every other entry is unchanged. |
| TiledConvert.MergeIntoTable | src/world-loader/ConvertTiled/index.js:301-349 | After the key loop, every chunk entry lists exactly the ids of the object rows in that chunk, old and new, in id order. |
| TiledConvert.GroupedIds | src/world-loader/ConvertTiled/index.js:323-339 | A chunk's old ids followed by its new ids are the ids of the grown object table in that chunk. |
| TiledConvert.FileChunk | src/world-loader/ConvertTiled/index.js:305-348 | One key: a missing entry is added with the packed ids, and an existing entry gets them appended. Either way, the entry lists the old ids followed by the new ones. |
| TiledConvert.UntouchedChunksKeepIds | src/world-loader/ConvertTiled/index.js:301-349 | A chunk that no new row lies in keeps its ids. |
| TiledConvert.MergedTableMatches | src/world-loader/ConvertTiled/index.js:285-349 | After a conversion the chunk table and the object table agree: every row's chunk has an entry, and each entry lists exactly its rows' ids, packed. |
| TiledConvert.ConvertInto | src/world-loader/ConvertTiled/index.js:193-353 | Converting one map appends its rows to the world's object table and keeps the two tables agreeing. |
| TiledConvert.ReplaceTablesValid | src/world-loader/ConvertTiled/index.js:286-287 | Replacing one world's tables with agreeing ones keeps the tables of every converted world agreeing. |
| TiledConvert.ConvertWorldTables | src/world-loader/ConvertTiled/index.js:181-364 | Converting a map of world `w` appends its rows to `w`'s object table, leaves every other world's tables alone, and keeps all tables agreeing. |
| TiledConvert.Converter.constructor | src/world-loader/ConvertTiled/index.js:48-56 | `init` with a positive `chunkResolution` starts an empty database. The missing-resolution error is excluded by the precondition. |
| TiledConvert.Converter.ConvertTiledMap | src/world-loader/ConvertTiled/index.js:181-364 | Appends exactly the map's rows to the world's object table and keeps the chunk table in agreement. No other world and no bookkeeping table changes. |
| TiledConvert.Converter.ProcessMap | src/world-loader/ConvertTiled/index.js:99-138 | When `ShouldConvert` holds, the map's rows are appended to the world's object table, the chunk tables of other worlds stay as they were, and the version is recorded under `world-fileName`. Otherwise nothing changes. Either way the new state is one step of `ProcessAll`. |
| TiledConvert.Converter.CreateTables | src/world-loader/ConvertTiled/index.js:76-81 | The first visit of a world creates its empty object and chunk tables and its `converted_worlds` row. Nothing else changes. |
| TiledConvert.Converter.ProcessMaps | src/world-loader/ConvertTiled/index.js:95-97 | The loop over the world file's maps leaves exactly the state `ProcessAll` gives: its versions, its rows appended to the world's object table, and the other worlds' chunk tables unchanged. |
| TiledConvert.Converter.ConvertWorld | src/world-loader/ConvertTiled/index.js:62-98 | The world is added to `converted_worlds` on first sight only, with empty tables. Then every map of the world file is processed in order: the versions are those of `ProcessAll`, its rows are appended to the world's object table, and no other world's tables change. |
| TiledConvert.ProcessMapStepSettles | src/world-loader/ConvertTiled/index.js:99-138 | One map stores a version under its key, never lowers a stored version, leaves the other keys alone, and is not due for conversion afterwards. |
| TiledConvert.ProcessAllKeys | src/world-loader/ConvertTiled/index.js:95-97 | After a pass, every map of the world file has a stored version, and the other `converted_maps` rows are unchanged. |
| TiledConvert.ProcessAllSettles | src/world-loader/ConvertTiled/index.js:95-97 | After a pass, no map of the world file is due for conversion. |
| TiledConvert.ProcessSettledIsIdle | src/world-loader/ConvertTiled/index.js:95-97 | A pass over maps that are none of them due adds no rows and stores no version. |
| TiledConvert.ProcessAllAgain | src/world-loader/ConvertTiled/index.js:62-138 | Converting a world twice with the same world file: the second pass adds no rows and changes no version. |
| IncrementVersion.PathAndFileNameRebuildPath | public/assets/extensions/incrementVersion.js:51-65 | `getPath`, a `/` and `getFileNameFromPath` give the path back. Without a `/` the name is the whole path and the path is `""`. |
| IncrementVersion.FileNameHasNoSlash | public/assets/extensions/incrementVersion.js:58-65 | The file name holds no `/`. |
| IncrementVersion.GetPathAgreesWithConverter | public/assets/extensions/incrementVersion.js:51-56 | The extension's `getPath` computes the same directory as the converter's `getPathFileLocation`. |
| IncrementVersion.FileNameAgreesWithConverter | public/assets/extensions/incrementVersion.js:58-65 | The extension's `getFileNameFromPath` equals the converter's `getPathFileName` with no extension. |
| IncrementVersion.RemoveFileExtensionSplits | public/assets/extensions/incrementVersion.js:68-77 | The result is the file name up to its last `.`, and no `.` follows that point. Without a `.` the name is unchanged. |
| IncrementVersion.VersionOfIsLookup | public/assets/extensions/incrementVersion.js:323 | `mapVersions[name] \|\| 0` is the stored version, or 0 when there is none. |
| IncrementVersion.StampVersions | public/assets/extensions/incrementVersion.js:320-327 | Every map of the world file keeps its fields and gets the version recorded for its `fileName`. |
| IncrementVersion.StampVersionsIdempotent | public/assets/extensions/incrementVersion.js:320-327 | Stamping twice is stamping once. |
| IncrementVersion.NewMaps | public/assets/extensions/incrementVersion.js:238-252 | `_checkForNewMap` returns, in order, exactly the maps whose file name was not listed when the world was opened. |
| IncrementVersion.NewMapsOfJoin | public/assets/extensions/incrementVersion.js:240-244 | The filter distributes over concatenation. |
| IncrementVersion.RemoveAll | public/assets/extensions/incrementVersion.js:295-297 | Every occurrence of the saved asset leaves `modifiedAssets`, and the rest stay. |
| IncrementVersion.BumpMapVersion | public/assets/extensions/incrementVersion.js:286-291 | The map's version goes up by one, or starts at 0 when it has none. The versions of other maps are unchanged. |
| IncrementVersion.GameExporter.constructor | public/assets/extensions/incrementVersion.js:105-113 | Takes the world's maps and the file names at opening. Versions missing from the saved world file start at 0 and at an empty map. |
| IncrementVersion.GameExporter.OnAssetAboutToBeSaved | public/assets/extensions/incrementVersion.js:223-237 | A modified map of this world is appended to `modifiedAssets`. Any other asset changes nothing. |
| IncrementVersion.GameExporter.OnWorldsChanged | public/assets/extensions/incrementVersion.js:238-264 | As written: appends the file names of the snapshot's maps not in `prevMaps`. Both lists are taken from the same snapshot when the world is opened, so nothing is ever appended. |
| IncrementVersion.SnapshotHasNoNewMaps | public/assets/extensions/incrementVersion.js:106-110 | A counterexample. Filtering a map list against its own file names finds no new map, so the as-written handler never records an added map. |
| IncrementVersion.AddedMapIsFound | public/assets/extensions/incrementVersion.js:238-243 | Against the current map list, a map added since opening is found, and it is the only one. |
| IncrementVersion.GameExporter.OnWorldsChangedNow | public/assets/extensions/incrementVersion.js:238-264 | As intended: the current maps are compared with `prevMaps`. A name is in `modifiedAssets` afterwards exactly when it was before, or it names a current map absent at opening. |
| IncrementVersion.GameExporter.WriteWorldFile | public/assets/extensions/incrementVersion.js:308-338 | When the world file can be read, its map list is written to the export file `<world>-save.json`, every map stamped with its version, together with the world's version. The `.world` file itself is not rewritten. An unreadable world file writes nothing. |
| IncrementVersion.GameExporter.OnAssetSaved | public/assets/extensions/incrementVersion.js:271-302 | Saving a map of this world that was marked modified, or saving one while the world version is still 0, does four things. The world version goes up by one, the map's version is bumped, the asset leaves `modifiedAssets`, and the stamped maps are written to the export file `<world>-save.json`. Any other save changes nothing. |
| WorkerGrid.MatrixAround | src/world-loader/WorldLoader/worker.js:191-196 | The matrix is `gridSize * chunkSize` wide and high, since floor plus ceil of `gridSize / 2` is `gridSize`. It starts `floor(gridSize / 2)` chunks before the client, and for `gridSize >= 1` it holds the client's chunk. |
| WorkerGrid.WithinMatrixTrail | src/world-loader/WorldLoader/worker.js:123-134 | With trail distance 1, `_isWithinMatrix` is the half-open matrix box. A larger trail distance only widens it. |
| WorkerGrid.WithinMatrixHalfOpen | src/world-loader/WorldLoader/worker.js:123-134 | The trail-widened box is closed below and open above: its right edge is outside, and the cells just inside it are within. |
| WorkerGrid.Lattice | src/world-loader/WorldLoader/worker.js:272-281 | The loop variable takes the values `lo, lo + step, ...` below `hi`. |
| WorkerGrid.LatticeLength | src/world-loader/WorldLoader/worker.js:272-281 | A span of `n` steps gives exactly `n` values. |
| WorkerGrid.Column | src/world-loader/WorldLoader/worker.js:277-288 | The inner loop walks the cells `(x, y)` in order of `y`. |
| WorkerGrid.GridLength | src/world-loader/WorldLoader/worker.js:272-289 | The nested loops walk `|xs| * |ys|` cells. |
| WorkerGrid.GridMember | src/world-loader/WorldLoader/worker.js:272-289 | A cell is walked exactly when its x is in the outer lattice and its y in the inner one. |
| WorkerGrid.MatrixCellsCount | src/world-loader/WorldLoader/worker.js:191-196 | The matrix around the client holds `gridSize` squared chunks. |
| WorkerGrid.MatrixCellInside | src/world-loader/WorldLoader/worker.js:268-292 | Every walked cell lies on the chunk lattice of the matrix, and `_isWithinMatrix` accepts it for any trail distance of at least 1. |
| WorkerGrid.Missing | src/world-loader/WorldLoader/worker.js:284-287 | The chunks pushed are the walked cells without a created chunk, in walk order. |
| WorkerGrid.MissingMember | src/world-loader/WorldLoader/worker.js:284-287 | A cell is pushed exactly when it is walked and has no created chunk. |
| WorkerGrid.MissingAppend | src/world-loader/WorldLoader/worker.js:272-289 | Collecting the missing cells distributes over the walk's concatenation, so the walk can be taken column by column. |
| WorkerGrid.ClientPosition.constructor | src/world-loader/WorldLoader/worker.js:47-62 | The position starts at (0, 0), with no previous cell and not stale. |
| WorkerGrid.ClientPosition.Execute | src/world-loader/WorldLoader/worker.js:69-81 | The position snaps to the client's chunk. It announces a change exactly when the chunk differs from the previous one or the position was stale, and it then remembers the chunk and clears stale. |
| WorkerGrid.ClientPosition.SetStale | src/world-loader/WorldLoader/worker.js:82-84 | The next `execute` announces even an unchanged chunk. |
| WorkerChunks.Find | src/world-loader/WorldLoader/worker.js:309 | `createdChunks.get(key)` finds a chunk exactly when the key is created, and the chunk it finds has that key. |
| WorkerChunks.Without | src/world-loader/WorldLoader/worker.js:135-142 | In the corrected `deReference`, the chunk leaves `createdChunks` and nothing else does. |
| WorkerChunks.WithoutKey | src/world-loader/WorldLoader/worker.js:137 | As written, `createdChunks.delete(this.key)` removes whatever chunk has the key, and the key is gone afterwards. |
| WorkerChunks.DeReferenceResident | src/world-loader/WorldLoader/worker.js:135-142 | For a chunk that is still in `createdChunks`, deleting by key and deleting by identity agree. |
| WorkerChunks.StaleDeReferenceDropsNewer | src/world-loader/WorldLoader/worker.js:135-142 | A counterexample. An aborted older chunk dereferenced after a newer chunk took its key deletes the newer chunk, which deletion by identity keeps. |
| WorkerChunks.Select | src/world-loader/WorldLoader/worker.js:199-208 | Selects the created chunks that are inside, or outside, the matrix, in map order. |
| WorkerChunks.SelectResidentOk | src/world-loader/WorldLoader/worker.js:199-208 | Keeping some chunks keeps `createdChunks` a map, and introduces no new key. |
| WorkerChunks.EvictOutside | src/world-loader/WorldLoader/worker.js:199-208 | Every chunk outside the matrix (with trail) is aborted and leaves the map, and it posts `cleanUp-chunk` then `handleObjectDestroy`, in map order. The chunks inside stay, in order, and the method also reports whether all of them are settled (lines 170-181). |
| WorkerChunks.SelectNowhere | src/world-loader/WorldLoader/worker.js:314-318 | Against an empty matrix no chunk is inside, so `setStale()` without a key drops every chunk. |
| WorkerChunks.Made | src/world-loader/WorldLoader/worker.js:107-121 | `new Chunk(row)` takes the row's key and data, with a `clientKey` stamped with the clock, neither aborted nor settled. |
| WorkerChunks.WithinIdsMember | src/world-loader/WorldLoader/worker.js:301-303 | A new chunk is returned by `initChunks` exactly when it is within the matrix. |
| WorkerChunks.NewRowsCover | src/world-loader/WorldLoader/worker.js:295-304 | Every row's key ends up in `createdChunks`. |
| WorkerChunks.NewRowsFresh | src/world-loader/WorldLoader/worker.js:296-298 | No chunk is built for a key already created, and none twice for one key. |
| WorkerChunks.NewEntry | src/world-loader/WorldLoader/worker.js:118 | `createdChunks.set` of a new key adds exactly that key and keeps the map a map. |
| WorkerChunks.CreateChunks | src/world-loader/WorldLoader/worker.js:293-306 | `initChunks` builds one chunk per row with a new key, in order. It registers each in `createdChunks` and returns those within the matrix, and afterwards the keys are the old ones plus the rows' keys. |
| WorkerChunks.WithoutKeys | src/world-loader/WorldLoader/worker.js:135-142 | Removing a chunk removes its key and no other. |
| WorkerChunks.RegionCells | src/world-loader/WorldLoader/worker.js:268-292 | The nested loops push exactly the matrix cells without a created chunk, in x-major order. |
| WorkerChunks.ChunkCreator.constructor | src/world-loader/WorldLoader/worker.js:156-165 | The creator starts with no chunks and no matrix. |
| WorkerChunks.ChunkCreator.OnClientChunkChange | src/world-loader/WorldLoader/worker.js:188-223 | Sets the matrix around the client and evicts the chunks outside it, aborted and posted for destruction. It then asks for exactly the missing region cells. |
| WorkerChunks.ChunkCreator.CreateRegionChunks | src/world-loader/WorldLoader/worker.js:268-292 | Gives the matrix cells without a created chunk, in walk order. |
| WorkerChunks.ChunkCreator.InitChunks | src/world-loader/WorldLoader/worker.js:293-306 | Builds and registers the chunks of the rows with new keys, and returns those inside the matrix. |
| WorkerChunks.Evict | src/world-loader/WorldLoader/worker.js:199-208 | After an eviction every chunk left in `createdChunks` is inside the matrix (with trail), and the indexes still point into the store. |
| WorkerChunks.Ready | src/world-loader/WorldLoader/worker.js:166-186 | `onChunkReady` keeps the store's size and its resident indexes inside it. |
| WorkerChunks.ReadySettles | src/world-loader/WorldLoader/worker.js:166-186 | After `onChunkReady` the chunk is settled, every chunk left is inside the matrix, and `onChunksAllReady` is the last post exactly when every chunk left is settled. |
| WorkerChunks.ChunkCreator.OnChunkReady | src/world-loader/WorldLoader/worker.js:166-186 | The chunk is settled, and the chunks outside the matrix are evicted and posted for destruction. `onChunksAllReady` is posted exactly when every remaining chunk is settled. |
| WorkerChunks.ChunkCreator.SetStale | src/world-loader/WorldLoader/worker.js:307-320 | With a created key, that chunk is aborted, dereferenced and posted for destruction. With an unknown key, `chunk.abort()` throws and nothing changes. Without a key, every chunk is aborted and posted and the map empties. |
| WorkerChunks.ChunkCreator.Abort | src/world-loader/WorldLoader/worker.js:143-145 | Only that chunk becomes aborted. |
| WorkerChunks.ChunkCreator.DeReference | src/world-loader/WorldLoader/worker.js:135-142 | The corrected `deReference`: exactly this chunk leaves `createdChunks`, and `cleanUp-chunk` is posted with its `clientKey`. |
| WorkerObjects.Creates | src/world-loader/WorldLoader/worker.js:365-377 | One `onCreateObject` message per object, in order, each naming the object's chunk. |
| WorkerObjects.ProcessBatch | src/world-loader/WorldLoader/worker.js:352-390 | One tick posts the next at most 50 objects, or nothing once the chunk is aborted. It reports whether the chunk is done. |
| WorkerObjects.BatchesPostAll | src/world-loader/WorldLoader/worker.js:352-390 | Unless aborted, the ticks together post every object of the chunk exactly once, in order. |
| WorkerObjects.BatchesCount | src/world-loader/WorldLoader/worker.js:352-390 | `n` objects take `ceil(n / 50)` ticks, and a chunk with no objects takes one tick. |
| WorkerObjects.BatchesBounded | src/world-loader/WorldLoader/worker.js:352-390 | No tick posts more than `CREATE_OBJECT_BATCH_SIZE` objects. |
| WorkerObjects.TimerSplit | src/world-loader/WorldLoader/worker.js:30-40 | A timer pass splits the entries: every entry either runs or keeps waiting, and an entry runs exactly when more than `time` has passed since it was set. |
| WorkerObjects.Timer.constructor | src/world-loader/WorldLoader/worker.js:18-24 | The timer starts empty. |
| WorkerObjects.Timer.Add | src/world-loader/WorldLoader/worker.js:25-29 | Adds the job with its delay and the current clock. |
| WorkerObjects.Timer.TakeDue | src/world-loader/WorldLoader/worker.js:30-40 | Returns the due jobs in order and keeps exactly the entries that are not due. |
| WorkerObjects.Fetched | src/world-loader/WorldLoader/worker.js:466-480 | `bulkGet` returns the object of each id in order, and `undefined` for an id the table lacks. |
| WorkerObjects.FetchInBatches | src/world-loader/WorldLoader/worker.js:466-486 | Fetching in slices of 10000 returns the same objects as one `bulkGet` of all the ids. |
| WorkerObjects.FirstSliceLosesObjects | src/world-loader/WorldLoader/worker.js:451-459 | As written, a chunk with more than 10000 ids reads only `data[0]`, so it loses objects. |
| WorkerObjects.FirstSliceOfOneSlice | src/world-loader/WorldLoader/worker.js:451-459 | A chunk of one slice reads the same ids either way. |
| WorkerObjects.Drops | src/world-loader/WorldLoader/worker.js:460-465 | The chunks the query drops are those aborted or outside the matrix, in order. Built on the corrected `deReference` and query (see "## Findings"). |
| WorkerObjects.WithoutAll | src/world-loader/WorldLoader/worker.js:460-465 | Every dropped chunk leaves `createdChunks`. Built on the corrected `deReference` and query (see "## Findings"). |
| WorkerObjects.CleanUps | src/world-loader/WorldLoader/worker.js:460-465 | One `cleanUp-chunk` is posted per dropped chunk, in order. |
| WorkerObjects.QueryChunks | src/world-loader/WorldLoader/worker.js:449-493 | Aborts and dereferences exactly the dropped chunks. For every live chunk with ids, in order, it fetches the objects of all its slices. |
| WorkerObjects.ChunkAt | src/world-loader/WorldLoader/worker.js:506 | `chunks.find` gives the first listed chunk at the cell, or none when no listed chunk is there. |
| WorkerObjects.GroupIndex | src/world-loader/WorldLoader/worker.js:503-505 | `chunkObjects.has(key)` holds exactly when some group has the cell. |
| WorkerObjects.GroupsCorrect | src/world-loader/WorldLoader/worker.js:496-510 | The map `chunkObjects` holds one entry per distinct cell of the fetched objects, in order of first appearance. Each entry names the listed chunk at its cell and holds exactly that cell's objects, in fetch order. |
| WorkerObjects.PresentAll | src/world-loader/WorldLoader/worker.js:498-502 | Grouping goes ahead only when every fetched object exists, and then keeps them in fetch order. |
| WorkerObjects.GroupObjects | src/world-loader/WorldLoader/worker.js:496-510 | The loop builds the grouping of `GroupsCorrect`, or fails on a missing object. |
| WorkerObjects.Payloads | src/world-loader/WorldLoader/worker.js:517-521 | Each group becomes a payload of its chunk and objects. This requires every group to have a chunk. |
| WorkerObjects.GroupsSameCells | src/world-loader/WorldLoader/worker.js:460-510 | Aborting chunks during the pass does not change the grouping, because cells are kept. |
| WorkerObjects.PayloadChunks | src/world-loader/WorldLoader/worker.js:506-521 | Every payload names a chunk of the list at its group's cell. |
| WorkerObjects.Starts | src/world-loader/WorldLoader/worker.js:416-419 | Each payload schedules its first batch, from index 0, after `CREATE_OBJECT_BATCH_DELAY`. |
| WorkerObjects.DueJobsOk | src/world-loader/WorldLoader/worker.js:30-40 | Every due job names an existing chunk and a position within its objects. |
| WorkerObjects.WaitingOk | src/world-loader/WorldLoader/worker.js:30-40 | Every job left waiting still names an existing chunk and a position within its objects. |
| WorkerObjects.QueryObjects | src/world-loader/WorldLoader/worker.js:433-524 | The whole `queryObjects`: the dropped chunks are aborted, dereferenced and cleaned up. The payloads are the grouping of all live chunks' objects, and every payload names a listed chunk. Built on the corrected `deReference` and query (see "## Findings"). |
| WorkerObjects.ObjectCreator.constructor | src/world-loader/WorldLoader/worker.js:325-336 | Shares the loader's chunk creator and starts an empty timer. |
| WorkerObjects.ObjectCreator.OnStart | src/world-loader/WorldLoader/worker.js:401-431 | Runs `queryObjects` over the new chunks, then schedules the first batch of each payload on the timer. Built on the corrected `deReference` and query (see "## Findings"). |
| WorkerObjects.ObjectCreator.Schedule | src/world-loader/WorldLoader/worker.js:416-419 | Appends one timer entry per payload, in order. |
| WorkerObjects.JobOutcome | src/world-loader/WorldLoader/worker.js:352-390 | The state a batch job leaves keeps every resident index pointing into the chunk store, and the store keeps its size. |
| WorkerObjects.JobOutcomeFacts | src/world-loader/WorldLoader/worker.js:352-390 | A job posts the creation of at most 50 objects (none once the chunk is aborted), first among its posts. While objects remain and the chunk is not aborted, the rest is set again one delay from `now` and nothing else changes. Otherwise nothing is set again, the chunk is settled, and every chunk left in `createdChunks` is inside the matrix. |
| WorkerObjects.ObjectCreator.RunJob | src/world-loader/WorldLoader/worker.js:352-390 | The chunk creator, the posts and the timer are left exactly as `JobOutcome` says, so every fact of `JobOutcomeFacts` holds of the new state. |
| WorkerObjects.ObjectCreator.AfterCreate | src/world-loader/WorldLoader/worker.js:421-428 | A chunk that is still live is kept. Otherwise it is aborted, dereferenced and posted for destruction. The new state is `AfterCreateOutcome`. Built on the corrected `deReference` and query (see "## Findings"). |
| WorkerObjects.RunAll | src/world-loader/WorldLoader/worker.js:30-40 | The due jobs run one after the other. Resident indexes stay inside the store, and every finished chunk is a chunk of the store. |
| WorkerObjects.RunAllRequeued | src/world-loader/WorldLoader/worker.js:352-390 | Each job of a pass sets at most one new entry, and each one is one delay from `now`. |
| WorkerObjects.AfterCreateOutcome | src/world-loader/WorldLoader/worker.js:421-428 | The store keeps its size when a finished chunk is checked. Built on the corrected `deReference` and query (see "## Findings"). |
| WorkerObjects.AfterAll | src/world-loader/WorldLoader/worker.js:421-428 | Checking the finished chunks in order keeps the store's size. Built on the corrected `deReference` and query (see "## Findings"). |
| WorkerObjects.TimerPass | src/world-loader/WorldLoader/worker.js:30-40 | A pass of the timer keeps the chunk store's size. Built on the corrected `deReference` and query (see "## Findings"). |
| WorkerObjects.TimerPassEntries | src/world-loader/WorldLoader/worker.js:30-40 | After a pass, the entries that were not due come first, in order. No entry left is due at `now`, so a pass never runs a batch it set itself, and the list grows by at most one entry per due job. |
| WorkerObjects.ObjectCreator.RunDue | src/world-loader/WorldLoader/worker.js:30-40 | The loop over the due jobs leaves the chunk creator, the posts, the finished chunks and the timer exactly as `RunAll` says. |
| WorkerObjects.ObjectCreator.FinishAll | src/world-loader/WorldLoader/worker.js:421-428 | The `AfterCreate` of each finished chunk, in order, leaves the state `AfterAll` gives. |
| WorkerObjects.ObjectCreator.Execute | src/world-loader/WorldLoader/worker.js:525-527 | A timer pass leaves the chunk creator, the posts and the timer exactly as `TimerPass` says: the entries not due wait in order, followed by the batches set meanwhile (`TimerPassEntries`). Built on the corrected `deReference` and query (see "## Findings"). |
| WorkerLoader.Loader.constructor | src/world-loader/WorldLoader/worker.js:531-555 | `loader-init` builds the position, chunk creator and object creator, sharing one emitter, with no chunk announced yet. |
| WorkerLoader.Loader.Execute | src/world-loader/WorldLoader/worker.js:557-560 | Snaps the client position to its chunk. A changed or stale chunk resets the matrix around it, evicts the chunks outside (`Evict`) and asks for exactly the missing cells; an unchanged one keeps the matrix and asks for nothing. Then the object timer runs one pass (`TimerPass`). The chunks, the timer and the posts are given in full. Built on the corrected `deReference` and query (see "## Findings"). |
| WorkerLoader.Loader.ChunksArrived | src/world-loader/WorldLoader/worker.js:216-220 | The chunk rows of the region arrive. Exactly the rows with new keys become chunks. The ones inside the matrix are queried: those dropped meanwhile are aborted, leave `createdChunks` and are posted for clean-up, the payloads are `QueryOutcome`'s, and one timer entry per payload is appended. Every payload names one of the new chunks. Built on the corrected `deReference` and query (see "## Findings"). |
| WorkerLoader.Loader.SetStale | src/world-loader/WorldLoader/worker.js:565-568 | An unknown key throws before anything changes. A known key aborts that chunk, removes exactly its key and posts its destruction. No key aborts every chunk, empties `createdChunks` and posts each destruction. Both make the position stale and keep its cell. |
| MainLoader.DestroyBatch | src/world-loader/WorldLoader/index.js:79-95 | One `processBatch` run destroys the next at most `batchSize` objects in order, and says whether more remain. |
| MainLoader.RoundsDestroyAll | src/world-loader/WorldLoader/index.js:79-96 | The runs together destroy every object from the index onwards exactly once, in order. |
| MainLoader.RoundsBounded | src/world-loader/WorldLoader/index.js:83-88 | No run destroys more than `batchSize` objects, and only the last run is short. |
| MainLoader.TeardownDestroysAll | src/world-loader/WorldLoader/index.js:66-97 | `destroyInBatches` destroys all of a chunk's objects once, in order, and does nothing for a chunk without objects. |
| MainLoader.Loader.constructor | src/world-loader/WorldLoader/index.js:100-108 | The loader starts with no chunks and a worker that is not ready, and it sends `world-db-init`. |
| MainLoader.Loader.OnCreateObject | src/world-loader/WorldLoader/index.js:123-133 | The chunk's record is created on its first object and reused afterwards. The object the game made is appended to it. |
| MainLoader.Loader.OnHandleObjectDestroy | src/world-loader/WorldLoader/index.js:139-153 | An unknown key does nothing. A known chunk leaves the map and its first batch of 50 is destroyed, with the rest waiting for the delay. |
| MainLoader.Loader.ResumeDestroy | src/world-loader/WorldLoader/index.js:90-94 | After the delay, the next batch is destroyed, and the teardown waits again while objects remain. |
| MainLoader.Loader.OnWorkerReady | src/world-loader/WorldLoader/index.js:110-113 | The worker becomes ready and is sent `loader-init`. |
| MainLoader.Loader.OnWorkerError | src/world-loader/WorldLoader/index.js:115-118 | As written, the handler is a plain `function` whose `this` is the worker, so the loader is unchanged. |
| MainLoader.Loader.OnWorkerErrorIntended | src/world-loader/WorldLoader/index.js:115-118 | As intended, the loader stops counting the worker as ready. |
| MainLoader.ErrorKeepsWorkerReady | src/world-loader/WorldLoader/index.js:115-118 | A ready loader stays ready after an error handled as written, and is not ready when handled as intended. |
| MainLoader.Loader.SetStale | src/world-loader/WorldLoader/index.js:166-168 | Sends `loader-set-stale` with the key, and changes nothing else. |
| MainLoader.ReadyIndices | src/world-loader/WorldLoader/index.js:193-200 | Selects exactly the loaders whose worker is ready, in strictly increasing order. |
| MainLoader.WorldAPI.constructor | src/world-loader/WorldLoader/index.js:180-184 | Starts with no loaders. |
| MainLoader.WorldAPI.CreateLoader | src/world-loader/WorldLoader/index.js:186-190 | Appends a fresh loader that is not ready and has sent only `world-db-init`. |
| MainLoader.WorldAPI.Execute | src/world-loader/WorldLoader/index.js:191-203 | Sends `loader-execute` with the position to each ready loader, and nothing to the others. The loaders posted to are exactly `ReadyIndices` of their readiness. Each loader's readiness, chunks and `destroying` set are unchanged. |
| Quadtree.Quadrant | src/Classes/Quadtree/index.js:248-259 | Each quadrant has half the parent's width and height, and no padding. |
| Quadtree.QuadrantInside | src/Classes/Quadtree/index.js:251-259 | Each quadrant lies inside its parent. |
| Quadtree.QuadrantsCover | src/Classes/Quadtree/index.js:251-266 | Every point the parent contains lies in some quadrant, so `insert` can always hand a point down. |
| Quadtree.QuadrantInteriorsDisjoint | src/Classes/Quadtree/index.js:251-259 | A point inside one quadrant lies in another only on the dividing lines. |
| Quadtree.FirstQuadrant | src/Classes/Quadtree/index.js:229-237 | The child that takes the point is the first of nw, ne, sw, se whose closed box contains it. |
| Quadtree.InRange | src/Classes/Quadtree/index.js:285-289 | The points kept are exactly those the range contains, in order. |
| Quadtree.OutOfRange | src/Classes/Quadtree/index.js:348-353 | The points passed to `fn` are exactly those the range does not contain. |
| Quadtree.RangeSplit | src/Classes/Quadtree/index.js:285-289 | The in-range and out-of-range points together are the node's points. |
| Quadtree.MissedNodeChildrenEmpty | src/Classes/Quadtree/index.js:279-297 | Below a node that misses the range, the query finds nothing. |
| Quadtree.QueryAndOutsidePartition | src/Classes/Quadtree/index.js:341-362 | `queryRange` and `executeOutsideRange` together visit every stored point of the subtree exactly once. |
| Quadtree.QueryRangeSound | src/Classes/Quadtree/index.js:279-297 | `queryRange` returns only points of the subtree that lie in the range. |
| Quadtree.QueryFound | src/Classes/Quadtree/index.js:279-297 | A point `queryRange` returns lies in the range and is stored in a node, reached from the start node, whose box intersects the range. |
| Quadtree.QueryComplete | src/Classes/Quadtree/index.js:279-297 | It returns every point in the range that is stored in a node whose box intersects the range. |
| Quadtree.QueryRangeExact | src/Classes/Quadtree/index.js:279-297 | From the root, a point is returned exactly when it is in the range and stored in a node that intersects the range. |
| Quadtree.QueryRangeMissesEdgePoint | src/Classes/Quadtree/index.js:281 | A counterexample. A stored point that the range contains, but that lies on the range's edge, is not returned, because the strict `intersects` prunes its node. |
| Quadtree.QueryClosedComplete | src/Classes/Quadtree/index.js:279-297 | With a closed overlap test, every point stored below a node that the range contains is returned. |
| Quadtree.QueryRangeClosedExact | src/Classes/Quadtree/index.js:279-297 | With a closed overlap test, the query from the root returns exactly the stored points the range contains. |
| Quadtree.WellFormedNested | src/Classes/Quadtree/index.js:200-270 | In a tree built by `insert`, every child lies inside its parent and every point lies inside its node. |
| Quadtree.SubdivideWellFormed | src/Classes/Quadtree/index.js:242-270 | Splitting a leaf wider than the resolution keeps the tree well formed and stores the same points. |
| Quadtree.SubdivideStored | src/Classes/Quadtree/index.js:242-270 | Splitting moves no point: the arena stores the same points. |
| Quadtree.Subdivide | src/Classes/Quadtree/index.js:242-270 | Refuses exactly when `Math.floor(width) <= resolution`. Otherwise it gives the node four fresh empty quadrant children. |
| Quadtree.InsertAt | src/Classes/Quadtree/index.js:200-241 | A point outside the box is refused and nothing changes. Otherwise it is stored exactly once: here when there is room or the node cannot split, else in the first child that contains it, splitting first when needed. The resolution may be unset (`None`), in which case a full leaf always splits. |
| Quadtree.AppendHere | src/Classes/Quadtree/index.js:205-213 | Keeping the point at a node with room, or at one that cannot split, keeps the tree well formed and stores exactly that point more. |
| Quadtree.Descend | src/Classes/Quadtree/index.js:214-238 | A full node splits when it has no children and then hands the point to the first quadrant containing it. The point is stored exactly once, below the node. |
| Quadtree.InsertIntoChildren | src/Classes/Quadtree/index.js:229-237 | The first of nw, ne, sw, se that contains the point stores it, exactly once, below that child. The tree stays well formed and earlier nodes are unchanged. |
| Quadtree.UnsetResolutionKeepsCapacity | src/Classes/Quadtree/index.js:205-247 | `quadtreeManager.resolution` is never assigned, and `Math.floor(width) <= undefined` is false, so `subdivide` never refuses. No node of a tree built that way holds more than `capacity` points, however small it gets. |
| Quadtree.DividedNodesAboveResolution | src/Classes/Quadtree/index.js:242-247 | When a resolution of at least zero is set, every split node is at least one unit wide and wider than the resolution, and every other node is more than half the resolution wide. This bounds the depth only for a set resolution; the unset case is `UnsetResolutionKeepsCapacity`. |
| Quadtree.RemoveId | src/Classes/Quadtree/index.js:364-366 | Every point carrying the id leaves the node, and the other points stay. |
| Quadtree.RemoveIdWellFormed | src/Classes/Quadtree/index.js:364-366 | Removing points keeps the tree well formed. |
| Quadtree.DeleteKey | src/Classes/Quadtree/index.js:593-595 | `allPoints.delete(id)` removes that key and keeps the others. |
| Quadtree.SetKey | src/Classes/Quadtree/index.js:499 | `allPoints.set` adds a new key last, and an existing key keeps its place. |
| Quadtree.Register | src/Classes/Quadtree/index.js:517-520 | After the queue is added, `allPoints` holds the old keys and the queued ids, still distinct. |
| Quadtree.AcceptedIsInRange | src/Classes/Quadtree/index.js:605-608 | The points a rebuilt tree holds are the objects' points the root contains. |
| Quadtree.PointsOf | src/Classes/Quadtree/index.js:605-607 | The points rebuilt are each key of `allPoints` with its object's position. |
| Quadtree.InsertRoot | src/Classes/Quadtree/index.js:500 | `root.insert` stores the point exactly when the root contains it. |
| Quadtree.AddPointAt | src/Classes/Quadtree/index.js:496-505 | `_addPoint` registers the id in `allPoints` and inserts the point. The object counts as in the tree exactly when it was inserted. |
| Quadtree.AddAllAt | src/Classes/Quadtree/index.js:517-523 | Adding the queue registers every queued id and stores exactly the queued points the root contains. Each queued object is placed (`quadNode`, `_tree`) exactly when the root contains its last queued position; every other object keeps its node and flag (`QueuePlaced`). |
| Quadtree.ReAddAllAt | src/Classes/Quadtree/index.js:605-608 | Re-adding every key to an empty tree stores exactly the objects' points the root contains. |
| Quadtree.IdCounter.constructor | src/Classes/Quadtree/index.js:10-18 | The cursor starts at 0. |
| Quadtree.IdCounter.Generate | src/Classes/Quadtree/index.js:19-21 | Returns the cursor and advances it. |
| Quadtree.IdCounter.Clear | src/Classes/Quadtree/index.js:22-24 | Resets the cursor to 0. |
| Quadtree.QuadTree.constructor | src/Classes/Quadtree/index.js:385-404 | The tree starts with one empty root over the given box and no objects. It is never stale by time when no `staleTime` is given. |
| Quadtree.QuadTree.Clear | src/Classes/Quadtree/index.js:408-411 | A fresh empty root replaces the tree, and the objects are kept. |
| Quadtree.QuadTree.Delete | src/Classes/Quadtree/index.js:416-420 | Forgets every object and drops the root. |
| Quadtree.QuadTree.AddPoint | src/Classes/Quadtree/index.js:496-505 | With a root, the point is added as `AddPointAt` says. Without one, `this.root.insert` throws after `allPoints.set`. |
| Quadtree.QuadTree.AddPointToRoot | src/Classes/Quadtree/index.js:496-505 | Below an existing root, the point is registered and inserted as `AddPointAt` says, and nothing else changes. |
| Quadtree.QuadTree.AddItem | src/Classes/Quadtree/index.js:585-592 | The object is queued with its position, and nothing else changes. |
| Quadtree.QuadTree.RemovePoint | src/Classes/Quadtree/index.js:593-595 | The object leaves `allPoints`, and its point stays in its node. |
| Quadtree.QuadTree.DestroyPoint | src/Classes/Quadtree/index.js:127-135 | `QuadTreePoint.destroy` removes the point from its node and, when it was inserted, removes the object from `allPoints`. |
| Quadtree.QuadTree.AddQueuedPoints | src/Classes/Quadtree/index.js:517-523 | With a root, every queued point is added, the queue empties, and each queued object is placed exactly when the root contains its last queued position (`QueuePlaced`). Without a root and with a non-empty queue, it throws at the first point, and that object loses its node and flag. |
| Quadtree.QuadTree.AddQueuedToRoot | src/Classes/Quadtree/index.js:517-523 | Below an existing root, the queue empties into the tree: every queued id is registered and exactly the queued points the root contains are stored. Each queued object is placed exactly when the root contains its last queued position, and the others keep their node and flag (`QueuePlaced`). |
| Quadtree.QuadTree.RedistributeNodes | src/Classes/Quadtree/index.js:596-609 | The tree is rebuilt from an empty root with every object at its current position. The clock is recorded. |
| Quadtree.QuadTree.Refresh | src/Classes/Quadtree/index.js:610-613 | Adds the queue, then rebuilds. The tree then stores exactly the points of all objects that the root contains. An object has a node exactly when it is registered and the root contains it, a registered object's flag follows its node, an unregistered object keeps its flag, the clock is `now` and `stale` is kept. When the first queued point throws, that object is registered and loses its node and flag, and nothing else changes. |
| Quadtree.QuadTree.Update | src/Classes/Quadtree/index.js:556-578 | The root box recentres on the client. The tree is rebuilt exactly when `staleTime` has elapsed or the tree was stale. Otherwise the nodes, every object's node and flag, the clock and the root are kept. |

## Left out

- I/O is not modelled:
  - `fetch` of world and map files and their JSON parsing: the parsed values are parameters.
  - The Dexie/IndexedDB database is modelled as maps and sequences. Schema versioning
    (`_addTable`), transactions, `deleteMap` and a failed `bulkAdd` are not modelled.
  - The Tiled host API (`tiled.*`, `TextFile`, `handleExport`, the world-load hooks at
    `incrementVersion.js:436-486`), and `processBundle`/`processAllBundles` (the `fs`
    and `glob` calls of `convertPxToNumber.js`).
- `postMessage` between threads is an outbox of values, and `Date.now()` is an explicit
  `now` argument. `async`/`await` interleavings are not modelled: each continuation is a
  method the caller invokes when the awaited value is available.
- The singletons (`Timer.instance`, `WorldDb.instance`, `DexieSingleton`) are not
  modelled. Each object is built once by its owner. `WorldDb` is a parameter: the
  chunk rows and object table passed in.
- `cleanUp` methods are not modelled: they only delete references or terminate the worker.
- Numbers are mathematical integers or reals. IEEE rounding is not modelled, so the
  quadtree's `1e30` root is a parameter box, and `convertPxToNumber` writes exact
  naturals even beyond 2^53.
- `Math.random` node colours and the quadtree's debug and render helpers are not
  modelled: `getSubtrees`, `getSubtreePoints`, `collectAllPoints`, `getAllPoints`,
  `getItemsInRange`, `executeOnEachQuadNode`, `getTotal`, `renderBoundary`,
  `QuadtreeManager.render`/`createTree`/`execute`, `QuadTreeObject`.
- The quadtree's `executeWithinRange` (with its `onEnd` `Timer`, lines 30-54 and
  304-340) is not modelled. `queryRange` and `executeOutsideRange` cover the same range
  split.
- `_updatePointPosition` (lines 524-533) reads `this.point`, which the tree does not
  have. It throws and the `catch` swallows the error, so positions only ever come from
  the objects. The model passes those positions to `RedistributeNodes` directly.
- `Quadtree.QuadTree.Delete`: `Id.instance.clear()` is not modelled inside it.
  `IdCounter.Clear` models that reset separately.
- The quadtree's `capacity` (always the default 4) and `resolution` are parameters.
  `quadtreeManager.resolution` is never assigned in the source; see
  `UnsetResolutionKeepsCapacity`.
- `Quadtree.InsertAt`: requires `capacity > 0`. With a capacity of 0 and no resolution,
  the source's `insert` would split and recurse without end. The only capacity the
  source uses is 4.
- `WorkerGrid.ClientPosition.Execute`: the `px` and `py` the main thread posts are
  JavaScript numbers, and the model takes them as integers. The worker snaps them with
  `Math.floor(x / chunkSize) * chunkSize` (worker.js:72-73). For a positive integer
  chunk size, a fractional position lands in the same cell as its floor, so integer
  inputs lose no cell. Fractional inputs themselves are not modelled.
- `TiledConvert.RecordsOfKeptCells`: the tileset custom properties (lines 194-208, 269)
  are not modelled. Line 269 indexes `tilesetProps` by gid rather than by tileset name,
  so it spreads nothing in practice.
- `TiledConvert.Converter.constructor`: a map of width 0 and a missing
  `chunkResolution` are excluded by preconditions. The source throws or divides by zero there.
- `TiledConvert.Converter.ProcessMap`: when a map is converted again, its rows are
  appended again. Nothing deletes the rows of the earlier conversion.
- `IncrementVersion.BumpMapVersion`: `mapVersions` is keyed by the saved asset's base
  name (line 286), while `writeWorldFile` reads it by the world entry's `fileName`
  (line 323). The model keeps both as written, so a map whose `fileName` holds a
  directory is stamped with version 0.
- `WorkerObjects.Timer.TakeDue`: the source's timer is a `Map` keyed by the function.
  The model keeps an ordered sequence of entries, so re-adding the same closure appends
  an entry instead of replacing one.
- `MainLoader.Loader.OnCreateObject`: the game's `onCreateObject` callback is a
  parameter (the object it made, if any). `onChunksAllReady` and `onDestroyObject` are
  callbacks into the game and are not modelled.
- `WorkerObjects.Drops`, `WorkerObjects.WithoutAll`, `WorkerObjects.QueryObjects`,
  `WorkerObjects.ObjectCreator.OnStart`, `WorkerObjects.ObjectCreator.AfterCreate`,
  `WorkerObjects.AfterCreateOutcome`, `WorkerObjects.AfterAll`, `WorkerObjects.TimerPass`,
  `WorkerObjects.ObjectCreator.Execute`, `WorkerLoader.Loader.Execute` and
  `WorkerLoader.Loader.ChunksArrived` use the corrected worker behaviour of "## Findings".
  `deReference` is modelled by identity (`WorkerChunks.ChunkCreator.DeReference`, whereas
  worker.js:135-142 deletes by key), and the query reads every slice of `data`
  (`WorkerObjects.QueryChunks`, whereas worker.js:451-459 reads only `data[0]`). The
  as-written behaviour is kept only in the two counterexample lemmas.
- `WorkerLoader.Loader.ChunksArrived`: the query's `abort` function (always a no-op in
  the source) and the timing logged around it are not modelled.

## Findings

| source | as written | input that shows it | evidently intended | confidence | as-written member | corrected member |
|---|---|---|---|---|---|---|
| src/world-loader/EventEmitter.js:17-25 | The `subscribeOnce` wrapper calls `listener()` without the data, then unsubscribes `listener`, which is not what was subscribed. The wrapper therefore stays. | `subscribeOnce(t, f)` then `notify(t, d)` twice: `f` is called twice, both times without `d`. | The wrapper is called at most once, with the data, and then removes itself. | not executed | Events.OnceListenerFiresTwice | Events.DispatchOnceRemovesOnces |
| src/world-loader/WorldLoader/worker.js:135-142 | `deReference` deletes `createdChunks` by key, whichever chunk now holds that key. | An aborted chunk at (0,0) whose query is still pending, then a new chunk at (0,0). When the old query resolves (lines 460-462), the new chunk is deleted. | Only the chunk being dereferenced leaves the map. | not executed | WorkerChunks.StaleDeReferenceDropsNewer | WorkerChunks.ChunkCreator.DeReference |
| src/world-loader/WorldLoader/worker.js:451-459 | `queryObjects` reads only `data[0]` of each chunk. | A chunk whose conversion stored 10001 ids: `data` has two slices and the 10001st object is never created. | Every slice of the chunk's `data` is read. | not executed | WorkerObjects.FirstSliceLosesObjects | WorkerObjects.QueryChunks |
| src/Classes/Quadtree/index.js:281 | `queryRange` prunes a node with the strict `intersects`, while points are matched with the closed `contains`. | Root (0,0,8,8) holding (0,4). The range (-2,0,2,8) contains (0,4), but the query returns nothing. | Every stored point the range contains is returned. | not executed | Quadtree.QueryRangeMissesEdgePoint | Quadtree.QueryRangeClosedExact |
| src/world-loader/WorldLoader/index.js:115-118 | `worker.onerror` is a plain `function`, so `this.workerReady = false` sets a field on the worker. | A ready loader whose worker raises an error stays ready, and `WorldAPI.execute` keeps posting to it. | The loader is marked not ready. | not executed | MainLoader.ErrorKeepsWorkerReady | MainLoader.Loader.OnWorkerErrorIntended |
| public/assets/extensions/incrementVersion.js:238-264 | `World` (lines 109-110) copies `asset.maps` into `maps` and its file names into `prevMaps` once, when the world is opened. `_checkForNewMap` compares the two, so `onWorldsChanged` never finds a new map. | Open a world with maps `a` and `b`, then attach `c`. `this.world.maps` still lists `a` and `b`, and `modifiedAssets` stays empty. | The maps of the world as it is now are compared with `prevMaps`, and `c` is recorded as modified. | not executed | IncrementVersion.SnapshotHasNoNewMaps | IncrementVersion.GameExporter.OnWorldsChangedNow |
