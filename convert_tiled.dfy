/**
 * The Tiled-to-chunk-table converter (`src/world-loader/ConvertTiled/index.js`).
 *
 * A Tiled map is cut into square chunks of `chunkResolution` world units. Every
 * non-empty tile becomes a row of the world's object table; every chunk becomes a row
 * of the world's chunk table whose `data` lists the ids of its objects in slices of at
 * most THRESHOLD ids. The IndexedDB tables are modelled as maps and sequences held by
 * a `Converter` object; `fetch` of the world and map files is replaced by arguments.
 */
module TiledConvert {
  import opened Wrappers
  import opened JsStrings
  import opened Cells

  /** `(100 * 100) / 1`: the most ids one slice of a chunk's `data` holds. */
  const THRESHOLD: nat := 10000

  // ---------------------------------------------------------------------------
  // Path helpers

  /** `getPathFileName(path, ext)`: the last '/'-separated part with the first
      occurrence of `ext` removed. */
  function GetPathFileName(path: string, ext: string): string
  {
    var parts := Split(path, '/');
    ReplaceFirst(parts[|parts| - 1], ext, "")
  }

  /** `getPathFileLocation(path)`: the text before the last '/', or "" without one. */
  function GetPathFileLocation(path: string): string
  {
    var i := LastIndexOf(path, '/');
    if i != -1 then Substring(path, 0, i) else ""
  }

  /** The file name is what follows the last '/', less the first occurrence of `ext`. */
  lemma FileNameIsLastSegment(path: string, ext: string)
    ensures GetPathFileName(path, ext) == ReplaceFirst(path[LastIndexOf(path, '/') + 1..], ext, "")
  {
    SplitLastPart(path, '/');
  }

  /** Removing the first occurrence of `pat` can be undone by putting it back. */
  lemma ReplaceFirstRemoves(s: string, pat: string)
    ensures IndexOf(s, pat) < 0 ==> ReplaceFirst(s, pat, "") == s
    ensures IndexOf(s, pat) >= 0 ==>
      var i := IndexOf(s, pat);
      var r := ReplaceFirst(s, pat, "");
      i <= |r| && r[..i] + pat + r[i..] == s
  {
    var i := IndexOf(s, pat);
    if i >= 0 {
      var a, b := s[..i], s[i + |pat|..];
      assert ReplaceFirst(s, pat, "") == a + "" + b;
      assert a + "" == a;
      ConcatHalves(a, b);
      ThreeParts(s, i, i + |pat|);
    }
  }

  /** With the default extension "" the name is the whole last segment. */
  lemma EmptyExtensionKeepsName(path: string)
    ensures GetPathFileName(path, "") == path[LastIndexOf(path, '/') + 1..]
  {
    FileNameIsLastSegment(path, "");
    var seg := path[LastIndexOf(path, '/') + 1..];
    assert OccursAt(seg, "", 0);
    assert seg[..0] + "" + seg[0..] == seg;
  }

  /** The location and the last segment, joined by '/', give the path back; without a
      '/' the location is "" and the segment is the whole path. */
  lemma LocationAndNameRebuildPath(path: string)
    ensures LastIndexOf(path, '/') >= 0 ==>
      GetPathFileLocation(path) + "/" + GetPathFileName(path, "") == path
    ensures LastIndexOf(path, '/') < 0 ==>
      GetPathFileLocation(path) == "" && GetPathFileName(path, "") == path
  {
    var i := LastIndexOf(path, '/');
    if i >= 0 {
      EmptyExtensionKeepsName(path);
      RebuildAround(path, i, GetPathFileLocation(path), GetPathFileName(path, ""));
    } else {
      NoSlashWholeName(path);
    }
  }

  /** Without a '/' the location is "" and the name is the whole path. */
  lemma NoSlashWholeName(path: string)
    requires LastIndexOf(path, '/') < 0
    ensures GetPathFileLocation(path) == "" && GetPathFileName(path, "") == path
  {
    var name := GetPathFileName(path, "");
    EmptyExtensionKeepsName(path);
    assert name == path[0..];
    WholeSuffix(path);
  }

  /** The text before a '/' at `i`, the '/' and the text after it give the path back. */
  lemma RebuildAround(path: string, i: nat, before: string, after: string)
    requires i < |path| && path[i] == '/' && before == path[..i] && after == path[i + 1..]
    ensures before + "/" + after == path
  {
    assert "/" == [path[i]];
    SplitAround(path, i);
  }

  /** The location contains every '/' of the path but the last. */
  lemma LocationDropsLastSlash(path: string)
    requires LastIndexOf(path, '/') >= 0
    ensures |GetPathFileLocation(path)| == LastIndexOf(path, '/')
    ensures GetPathFileLocation(path) == path[..LastIndexOf(path, '/')]
  {
  }

  // ---------------------------------------------------------------------------
  // Tilesets and positions

  /** A tileset of the map: `name`, `firstgid`, `tilewidth`, `tileheight`. */
  datatype Tileset = Tileset(name: string, firstgid: int, tilewidth: int, tileheight: int)

  /** The fields of a map file that are read: `width` and `layers[0].data`. */
  datatype TiledMap = TiledMap(width: int, tilesets: seq<Tileset>, layerData: seq<int>)

  /** The tileset a global tile id belongs to: the highest-indexed one whose `firstgid`
      is at most `gid`, or none. */
  function TilesetIndexFor(tilesets: seq<Tileset>, gid: int): (r: Option<nat>)
    ensures r.Some? ==> r.value < |tilesets| && tilesets[r.value].firstgid <= gid
    ensures r.Some? ==> forall j :: r.value < j < |tilesets| ==> tilesets[j].firstgid > gid
    ensures r.None? ==> forall j :: 0 <= j < |tilesets| ==> tilesets[j].firstgid > gid
  {
    if |tilesets| == 0 then None
    else if tilesets[|tilesets| - 1].firstgid <= gid then Some(|tilesets| - 1)
    else TilesetIndexFor(tilesets[..|tilesets| - 1], gid)
  }

  /** `getTilesetForGid(gid)`: the backward `for` loop over `map.tilesets`. */
  method GetTilesetForGid(tilesets: seq<Tileset>, gid: int) returns (r: Option<nat>)
    ensures r.Some? ==> r.value < |tilesets| && tilesets[r.value].firstgid <= gid
    ensures r.Some? ==> forall j :: r.value < j < |tilesets| ==> tilesets[j].firstgid > gid
    ensures r.None? ==> forall j :: 0 <= j < |tilesets| ==> tilesets[j].firstgid > gid
    ensures r == TilesetIndexFor(tilesets, gid)
  {
    var i := |tilesets| - 1;
    while i >= 0
      invariant -1 <= i < |tilesets|
      invariant forall j :: i < j < |tilesets| ==> tilesets[j].firstgid > gid
      invariant TilesetIndexFor(tilesets, gid) == TilesetIndexFor(tilesets[..i + 1], gid)
    {
      if gid >= tilesets[i].firstgid {
        return Some(i);
      }
      assert tilesets[..i + 1][..i] == tilesets[..i];
      i := i - 1;
    }
    assert tilesets[..0] == [];
    return None;
  }

  /** `getTileWorldPosition(i, tileWidth, tileHeight, mapWidth)` shifted by the map's
      origin in the world. */
  function TileWorldPosition(index: nat, tileWidth: int, tileHeight: int, mapWidth: int, originX: int, originY: int): (p: (int, int))
    requires mapWidth > 0
  {
    ((index % mapWidth) * tileWidth + originX, (index / mapWidth) * tileHeight + originY)
  }

  /** The tile in column `col` of row `row` lies at `col` tile widths and `row` tile
      heights from the origin: tile indexes run row by row. */
  lemma TilePositionOfRowAndColumn(row: nat, col: nat, tileWidth: int, tileHeight: int, mapWidth: int, originX: int, originY: int)
    requires 0 <= col < mapWidth
    ensures TileWorldPosition(row * mapWidth + col, tileWidth, tileHeight, mapWidth, originX, originY)
      == (col * tileWidth + originX, row * tileHeight + originY)
  {
    DivModUnique(row * mapWidth + col, mapWidth, row, col);
  }

  /** `getChunkWorldPosition(position)`: the offsets of the chunk covering a position. */
  function ChunkWorldPosition(x: int, y: int, resolution: int): (c: Cell)
    requires resolution > 0
    ensures c.x <= x < c.x + resolution && c.y <= y < c.y + resolution
    ensures c.x % resolution == 0 && c.y % resolution == 0
  {
    Cell(Snap(x, resolution), Snap(y, resolution))
  }

  /** A chunk's offsets lie in that chunk. */
  lemma ChunkWorldPositionIdempotent(x: int, y: int, resolution: int)
    requires resolution > 0
    ensures var c := ChunkWorldPosition(x, y, resolution); ChunkWorldPosition(c.x, c.y, resolution) == c
  {
    SnapIdempotent(x, resolution);
    SnapIdempotent(y, resolution);
  }

  // ---------------------------------------------------------------------------
  // The tile loop of `processTiles`

  /** One row of the world's object table: `tileId` is local to its tileset. */
  datatype TileRecord = TileRecord(tileId: int, tileset: string, x: int, y: int, chunk: Cell)

  /** What the loop makes of cell `i` of the layer: nothing when no tileset owns the gid
      or the gid is 0, else one record. */
  function RecordAt(m: TiledMap, i: nat, resolution: int, originX: int, originY: int): Option<TileRecord>
    requires i < |m.layerData| && m.width > 0 && resolution > 0
  {
    var gid := m.layerData[i];
    match TilesetIndexFor(m.tilesets, gid)
    case None => None
    case Some(t) =>
      var ts := m.tilesets[t];
      var pos := TileWorldPosition(i, ts.tilewidth, ts.tileheight, m.width, originX, originY);
      if gid == 0 then None
      else Some(TileRecord(gid - ts.firstgid, ts.name, pos.0, pos.1, ChunkWorldPosition(pos.0, pos.1, resolution)))
  }

  /** The records made from the first `n` cells, in cell order. */
  function RecordsUpTo(m: TiledMap, n: nat, resolution: int, originX: int, originY: int): seq<TileRecord>
    requires n <= |m.layerData| && m.width > 0 && resolution > 0
  {
    if n == 0 then []
    else
      RecordsUpTo(m, n - 1, resolution, originX, originY)
      + match RecordAt(m, n - 1, resolution, originX, originY) case None => [] case Some(r) => [r]
  }

  /** A cell that yields a record: a non-zero gid that some tileset owns. */
  predicate Kept(m: TiledMap, i: nat)
    requires i < |m.layerData|
  {
    m.layerData[i] != 0 && TilesetIndexFor(m.tilesets, m.layerData[i]).Some?
  }

  /** The indexes of the kept cells among the first `n`. */
  function KeptCells(m: TiledMap, n: nat): (ks: seq<nat>)
    requires n <= |m.layerData|
    ensures forall j :: 0 <= j < |ks| ==> ks[j] < n && Kept(m, ks[j])
  {
    if n == 0 then [] else KeptCells(m, n - 1) + if Kept(m, n - 1) then [n - 1] else []
  }

  /** `KeptCells` lists every kept cell among the first `n`, each once, in increasing
      order. */
  lemma {:induction false} KeptCellsExact(m: TiledMap, n: nat)
    requires n <= |m.layerData|
    ensures forall i :: 0 <= i < n && Kept(m, i) ==> i in KeptCells(m, n)
    ensures forall a, b :: 0 <= a < b < |KeptCells(m, n)| ==> KeptCells(m, n)[a] < KeptCells(m, n)[b]
  {
    if n > 0 {
      KeptCellsExact(m, n - 1);
      var ks0 := KeptCells(m, n - 1);
      if Kept(m, n - 1) {
        assert KeptCells(m, n) == ks0 + [n - 1];
      } else {
        assert KeptCells(m, n) == ks0;
      }
    }
  }

  /** `r` is the record of kept cell `i`: the gid made local to its tileset, the
      tileset's name, the tile's world position and the chunk that covers it. */
  predicate RecordOfCell(m: TiledMap, i: nat, r: TileRecord, resolution: int, originX: int, originY: int)
    requires i < |m.layerData| && m.width > 0 && resolution > 0 && Kept(m, i)
  {
    var gid := m.layerData[i];
    var ts := m.tilesets[TilesetIndexFor(m.tilesets, gid).value];
    var pos := TileWorldPosition(i, ts.tilewidth, ts.tileheight, m.width, originX, originY);
    && r.tileId == gid - ts.firstgid >= 0
    && r.tileset == ts.name
    && (r.x, r.y) == pos
    && r.chunk == ChunkWorldPosition(pos.0, pos.1, resolution)
  }

  /** Every kept cell yields exactly one record, in cell order. */
  lemma {:induction false} RecordsOfKeptCells(m: TiledMap, n: nat, resolution: int, originX: int, originY: int)
    requires n <= |m.layerData| && m.width > 0 && resolution > 0
    ensures |RecordsUpTo(m, n, resolution, originX, originY)| == |KeptCells(m, n)|
    ensures forall j :: 0 <= j < |KeptCells(m, n)| ==>
      RecordOfCell(m, KeptCells(m, n)[j], RecordsUpTo(m, n, resolution, originX, originY)[j], resolution, originX, originY)
  {
    if n > 0 {
      RecordsOfKeptCells(m, n - 1, resolution, originX, originY);
      var rs0, ks0 := RecordsUpTo(m, n - 1, resolution, originX, originY), KeptCells(m, n - 1);
      if Kept(m, n - 1) {
        RecordAtKept(m, n - 1, resolution, originX, originY);
        var r := RecordAt(m, n - 1, resolution, originX, originY).value;
        assert KeptCells(m, n) == ks0 + [n - 1];
        assert RecordsUpTo(m, n, resolution, originX, originY) == rs0 + [r];
        RecordsSnoc(m, ks0, rs0, n - 1, r, resolution, originX, originY);
      } else {
        assert KeptCells(m, n) == ks0;
        assert RecordsUpTo(m, n, resolution, originX, originY) == rs0;
      }
    }
  }

  /** A kept cell yields its record. */
  lemma RecordAtKept(m: TiledMap, i: nat, resolution: int, originX: int, originY: int)
    requires i < |m.layerData| && m.width > 0 && resolution > 0 && Kept(m, i)
    ensures RecordAt(m, i, resolution, originX, originY).Some?
    ensures RecordOfCell(m, i, RecordAt(m, i, resolution, originX, originY).value, resolution, originX, originY)
  {
  }

  lemma RecordsSnoc(m: TiledMap, ks: seq<nat>, rs: seq<TileRecord>, k: nat, r: TileRecord, resolution: int, originX: int, originY: int)
    requires m.width > 0 && resolution > 0 && |ks| == |rs|
    requires forall j :: 0 <= j < |ks| ==> ks[j] < |m.layerData| && Kept(m, ks[j])
    requires forall j :: 0 <= j < |ks| ==> RecordOfCell(m, ks[j], rs[j], resolution, originX, originY)
    requires k < |m.layerData| && Kept(m, k) && RecordOfCell(m, k, r, resolution, originX, originY)
    ensures forall j :: 0 <= j < |ks| + 1 ==> (ks + [k])[j] < |m.layerData| && Kept(m, (ks + [k])[j])
    ensures forall j :: 0 <= j < |ks| + 1 ==> RecordOfCell(m, (ks + [k])[j], (rs + [r])[j], resolution, originX, originY)
  {
    forall j | 0 <= j < |ks| + 1
      ensures (ks + [k])[j] < |m.layerData| && Kept(m, (ks + [k])[j])
      ensures RecordOfCell(m, (ks + [k])[j], (rs + [r])[j], resolution, originX, originY)
    {
      if j < |ks| {
        assert (ks + [k])[j] == ks[j] && (rs + [r])[j] == rs[j];
      }
    }
  }

  /** The chunk of each record, in order. */
  function ChunksOf(rs: seq<TileRecord>): seq<Cell>
  {
    seq(|rs|, k requires 0 <= k < |rs| => rs[k].chunk)
  }

  /** The distinct elements of `cs` in order of first appearance: the key order of the
      `chunksToAdd` object, whose keys are not array indexes. */
  function FirstSeen(cs: seq<Cell>): (r: seq<Cell>)
    ensures forall c :: c in r <==> c in cs
    ensures forall a, b :: 0 <= a < b < |r| ==> r[a] != r[b]
  {
    if |cs| == 0 then []
    else
      var p := FirstSeen(cs[..|cs| - 1]);
      assert forall c :: c in cs <==> c in cs[..|cs| - 1] || c == cs[|cs| - 1];
      if cs[|cs| - 1] in p then p else p + [cs[|cs| - 1]]
  }

  /** The tile loop of `processTiles`: `tilesToAdd` and the keys of `chunksToAdd`. */
  method ProcessTiles(m: TiledMap, resolution: int, originX: int, originY: int)
    returns (records: seq<TileRecord>, chunkKeys: seq<Cell>)
    requires m.width > 0 && resolution > 0
    ensures records == RecordsUpTo(m, |m.layerData|, resolution, originX, originY)
    ensures chunkKeys == FirstSeen(ChunksOf(records))
  {
    records, chunkKeys := [], [];
    var i := 0;
    while i < |m.layerData|
      invariant i <= |m.layerData|
      invariant Scanned(m, i, resolution, originX, originY, records, chunkKeys)
    {
      records, chunkKeys := ProcessTile(m, i, resolution, originX, originY, records, chunkKeys);
      i := i + 1;
    }
  }

  /** The body of the tile loop for cell `i`: its record, if any, joins `tilesToAdd`, and
      its chunk the keys of `chunksToAdd` when not there yet. */
  method ProcessTile(m: TiledMap, i: nat, resolution: int, originX: int, originY: int,
                     records: seq<TileRecord>, chunkKeys: seq<Cell>)
    returns (records': seq<TileRecord>, chunkKeys': seq<Cell>)
    requires i < |m.layerData| && m.width > 0 && resolution > 0
    requires Scanned(m, i, resolution, originX, originY, records, chunkKeys)
    ensures Scanned(m, i + 1, resolution, originX, originY, records', chunkKeys')
  {
    records', chunkKeys' := records, chunkKeys;
    var gid := m.layerData[i];
    var t := GetTilesetForGid(m.tilesets, gid);
    if t.Some? {
      var ts := m.tilesets[t.value];
      var pos := TileWorldPosition(i, ts.tilewidth, ts.tileheight, m.width, originX, originY);
      var chunk := ChunkWorldPosition(pos.0, pos.1, resolution);
      if gid != 0 {
        var r := TileRecord(gid - ts.firstgid, ts.name, pos.0, pos.1, chunk);
        KeptStep(m, i, resolution, originX, originY, records, chunkKeys, r);
        records' := records + [r];
        if chunk !in chunkKeys {
          chunkKeys' := chunkKeys + [chunk];
        }
      } else {
        SkippedStep(m, i, resolution, originX, originY, records, chunkKeys);
      }
    } else {
      SkippedStep(m, i, resolution, originX, originY, records, chunkKeys);
    }
  }

  /** The loop invariant of ProcessTiles after `i` cells. */
  ghost predicate Scanned(m: TiledMap, i: nat, resolution: int, originX: int, originY: int,
                          records: seq<TileRecord>, chunkKeys: seq<Cell>)
    requires i <= |m.layerData| && m.width > 0 && resolution > 0
  {
    records == RecordsUpTo(m, i, resolution, originX, originY) && chunkKeys == FirstSeen(ChunksOf(records))
  }

  /** A cell that yields no record leaves the records as they are. */
  lemma SkippedStep(m: TiledMap, i: nat, resolution: int, originX: int, originY: int,
                    records: seq<TileRecord>, chunkKeys: seq<Cell>)
    requires i < |m.layerData| && m.width > 0 && resolution > 0
    requires Scanned(m, i, resolution, originX, originY, records, chunkKeys)
    requires m.layerData[i] == 0 || TilesetIndexFor(m.tilesets, m.layerData[i]).None?
    ensures Scanned(m, i + 1, resolution, originX, originY, records, chunkKeys)
  {
    assert RecordAt(m, i, resolution, originX, originY) == None;
    assert records + [] == records;
  }

  /** A cell that yields a record appends it, and its chunk joins the keys if new. */
  lemma KeptStep(m: TiledMap, i: nat, resolution: int, originX: int, originY: int,
                 records: seq<TileRecord>, chunkKeys: seq<Cell>, r: TileRecord)
    requires i < |m.layerData| && m.width > 0 && resolution > 0
    requires Scanned(m, i, resolution, originX, originY, records, chunkKeys)
    requires m.layerData[i] != 0 && TilesetIndexFor(m.tilesets, m.layerData[i]).Some?
    requires var ts := m.tilesets[TilesetIndexFor(m.tilesets, m.layerData[i]).value];
      var pos := TileWorldPosition(i, ts.tilewidth, ts.tileheight, m.width, originX, originY);
      r == TileRecord(m.layerData[i] - ts.firstgid, ts.name, pos.0, pos.1, ChunkWorldPosition(pos.0, pos.1, resolution))
    ensures Scanned(m, i + 1, resolution, originX, originY, records + [r],
                    if r.chunk in chunkKeys then chunkKeys else chunkKeys + [r.chunk])
  {
    assert RecordAt(m, i, resolution, originX, originY) == Some(r);
    FirstSeenStep(records, r);
  }

  lemma FirstSeenStep(records: seq<TileRecord>, r: TileRecord)
    ensures var p := FirstSeen(ChunksOf(records));
      FirstSeen(ChunksOf(records + [r])) == if r.chunk in p then p else p + [r.chunk]
  {
    var cs := ChunksOf(records + [r]);
    assert cs[..|cs| - 1] == ChunksOf(records);
  }

  // ---------------------------------------------------------------------------
  // Ids and their grouping by chunk

  /** The ids of the rows of `rs` that lie in chunk `c`, when row `k` has id `base + k`. */
  function IdsIn(rs: seq<TileRecord>, base: int, c: Cell): seq<int>
  {
    if |rs| == 0 then []
    else IdsIn(rs[..|rs| - 1], base, c) + if rs[|rs| - 1].chunk == c then [base + |rs| - 1] else []
  }

  /** An id is listed for a chunk exactly when its row lies in that chunk; ids ascend. */
  lemma {:induction false} IdsInMembers(rs: seq<TileRecord>, base: int, c: Cell)
    ensures forall id :: id in IdsIn(rs, base, c) <==> base <= id < base + |rs| && rs[id - base].chunk == c
    ensures forall a, b :: 0 <= a < b < |IdsIn(rs, base, c)| ==> IdsIn(rs, base, c)[a] < IdsIn(rs, base, c)[b]
  {
    if |rs| > 0 {
      var init := rs[..|rs| - 1];
      IdsInMembers(init, base, c);
      assert forall k :: 0 <= k < |init| ==> rs[k] == init[k];
      var p := IdsIn(init, base, c);
      assert forall a :: 0 <= a < |p| ==> p[a] in p;
    }
  }

  /** Ids of rows appended after others continue the numbering. */
  lemma {:induction false} IdsInAppend(a: seq<TileRecord>, b: seq<TileRecord>, base: int, c: Cell)
    ensures IdsIn(a + b, base, c) == IdsIn(a, base, c) + IdsIn(b, base + |a|, c)
    decreases |b|
  {
    if |b| == 0 {
      assert a + b == a;
    } else {
      var b' := b[..|b| - 1];
      assert (a + b)[..|a + b| - 1] == a + b';
      IdsInAppend(a, b', base, c);
    }
  }

  /** A chunk no row lies in has no ids. */
  lemma {:induction false} IdsInAbsent(rs: seq<TileRecord>, base: int, c: Cell)
    requires forall r :: r in rs ==> r.chunk != c
    ensures IdsIn(rs, base, c) == []
  {
    if |rs| > 0 {
      assert forall r :: r in rs[..|rs| - 1] ==> r in rs;
      IdsInAbsent(rs[..|rs| - 1], base, c);
    }
  }

  /** The `ids.forEach` after `bulkAdd`: row `k` got id `firstId + k` and is filed under
      the chunk its position falls in. */
  method GroupIds(records: seq<TileRecord>, firstId: int, chunkKeys: seq<Cell>, resolution: int)
    returns (groups: map<Cell, seq<int>>)
    requires resolution > 0
    requires forall r :: r in records ==> r.chunk in chunkKeys && r.chunk == ChunkWorldPosition(r.x, r.y, resolution)
    ensures forall c :: c in groups <==> c in chunkKeys
    ensures forall c :: c in groups ==> groups[c] == IdsIn(records, firstId, c)
  {
    groups := map c | c in chunkKeys :: [];
    var k := 0;
    while k < |records|
      invariant k <= |records|
      invariant forall c :: c in groups <==> c in chunkKeys
      invariant forall c :: c in groups ==> groups[c] == IdsIn(records[..k], firstId, c)
    {
      var key := ChunkWorldPosition(records[k].x, records[k].y, resolution);
      assert records[k] in records;
      assert records[..k + 1][..k] == records[..k];
      groups := groups[key := groups[key] + [firstId + k]];
      k := k + 1;
    }
    assert records[..k] == records;
  }

  // ---------------------------------------------------------------------------
  // Packing ids into slices

  /** A chunk's `data`, read as one list of ids. */
  function Flatten(ss: seq<seq<int>>): seq<int>
  {
    if |ss| == 0 then [] else Flatten(ss[..|ss| - 1]) + ss[|ss| - 1]
  }

  /** No slice holds more than THRESHOLD ids. */
  predicate Packed(ss: seq<seq<int>>)
  {
    forall k :: 0 <= k < |ss| ==> |ss[k]| <= THRESHOLD
  }

  lemma FlattenAppend(ss: seq<seq<int>>, s: seq<int>)
    ensures Flatten(ss + [s]) == Flatten(ss) + s
  {
    assert (ss + [s])[..|ss|] == ss;
  }

  /** `while (ids.length > 0) data.push(ids.splice(0, threshold))`: appends the ids as new
      slices, all full but the last. */
  method AppendSlices(data: seq<seq<int>>, ids: seq<int>) returns (out: seq<seq<int>>)
    ensures Flatten(out) == Flatten(data) + ids
    ensures |out| >= |data| && out[..|data|] == data
    ensures forall k :: |data| <= k < |out| ==> 1 <= |out[k]| <= THRESHOLD
    ensures forall k :: |data| <= k < |out| - 1 ==> |out[k]| == THRESHOLD
    ensures |ids| == 0 ==> out == data
  {
    out := data;
    var rest := ids;
    while |rest| > 0
      invariant Flatten(out) + rest == Flatten(data) + ids
      invariant |out| >= |data| && out[..|data|] == data
      invariant forall k :: |data| <= k < |out| ==> 1 <= |out[k]| <= THRESHOLD
      invariant forall k :: |data| <= k < |out| ==> |out[k]| == THRESHOLD || (k == |out| - 1 && |rest| == 0)
      invariant |ids| == 0 ==> out == data
    {
      var take := if |rest| < THRESHOLD then |rest| else THRESHOLD;
      FlattenAppend(out, rest[..take]);
      assert rest == rest[..take] + rest[take..];
      out := out + [rest[..take]];
      rest := rest[take..];
    }
  }

  /** The ids of a chunk the table does not have yet: consecutive slices, together the
      ids in order, each of at most THRESHOLD ids and all but the last full. */
  method PackNew(ids: seq<int>) returns (data: seq<seq<int>>)
    ensures Flatten(data) == ids
    ensures forall k :: 0 <= k < |data| ==> 1 <= |data[k]| <= THRESHOLD
    ensures forall k :: 0 <= k < |data| - 1 ==> |data[k]| == THRESHOLD
  {
    data := AppendSlices([], ids);
  }

  /** The top-up of an existing chunk's last slice: `lastArray.push(...ids.splice(0,
      threshold - lastArray.length))` when the last slice exists and has room. */
  method TopUp(prev: seq<seq<int>>, ids: seq<int>) returns (data: seq<seq<int>>, rest: seq<int>)
    ensures Flatten(data) + rest == Flatten(prev) + ids
    ensures |data| == |prev| && data[..|prev| - 1 + if |prev| == 0 then 1 else 0] == prev[..|prev| - 1 + if |prev| == 0 then 1 else 0]
    ensures Packed(prev) ==> Packed(data)
    ensures |prev| > 0 && |prev[|prev| - 1]| < THRESHOLD ==>
      |data[|prev| - 1]| == if |prev[|prev| - 1]| + |ids| < THRESHOLD then |prev[|prev| - 1]| + |ids| else THRESHOLD
    ensures |rest| > 0 ==> |prev| == 0 || |data[|prev| - 1]| >= THRESHOLD
  {
    rest := ids;
    data := prev;
    if |prev| > 0 && |prev[|prev| - 1]| < THRESHOLD {
      var last := prev[|prev| - 1];
      var room := THRESHOLD - |last|;
      var take := if |rest| < room then |rest| else room;
      var init := prev[..|prev| - 1];
      assert prev == init + [last];
      FlattenAppend(init, last);
      FlattenAppend(init, last + rest[..take]);
      assert rest == rest[..take] + rest[take..];
      data := init + [last + rest[..take]];
      rest := rest[take..];
    }
  }

  /** The ids of a chunk the table has: the last slice is topped up to THRESHOLD (when it
      is an array with room), then the rest go into new slices. */
  method AppendToEntry(prev: seq<seq<int>>, ids: seq<int>) returns (data: seq<seq<int>>)
    ensures Flatten(data) == Flatten(prev) + ids
    ensures Packed(prev) ==> Packed(data)
    ensures |data| >= |prev| && forall k :: 0 <= k < |prev| - 1 ==> data[k] == prev[k]
  {
    var topped, rest := TopUp(prev, ids);
    data := AppendSlices(topped, rest);
    assert forall k :: 0 <= k < |prev| - 1 ==> topped[k] == prev[k];
    assert forall k :: 0 <= k < |topped| ==> data[k] == topped[k];
  }

  // ---------------------------------------------------------------------------
  // Version decision and the converter's tables

  /** The version written for a converted map: `convert(version = 0)`. */
  function StoredVersion(incoming: Option<int>): int
  {
    if incoming.Some? then incoming.value else 0
  }

  /** `_processMap`'s decision, given the version of the map's `converted_maps` row
      (`None` when there is no row) and the version the world file lists (`None` when
      absent, and `undefined < x` is false). */
  function ShouldConvert(stored: Option<int>, incoming: Option<int>): bool
  {
    match stored
    case None => true
    case Some(current) => incoming.Some? && current < incoming.value
  }

  /** A map is converted when it never was or its stored version is lower; an equal or
      higher stored version, or a missing incoming one, leaves everything as it is. */
  lemma ShouldConvertCases(stored: Option<int>, incoming: Option<int>)
    ensures stored.None? ==> ShouldConvert(stored, incoming)
    ensures stored.Some? && incoming.Some? && stored.value >= incoming.value ==> !ShouldConvert(stored, incoming)
    ensures stored.Some? && incoming.None? ==> !ShouldConvert(stored, incoming)
    ensures stored.Some? && incoming.Some? && stored.value < incoming.value ==> ShouldConvert(stored, incoming)
  {
  }

  /** After a conversion the same map entry is not converted again. */
  lemma ConvertedOnce(incoming: Option<int>)
    ensures !ShouldConvert(Some(StoredVersion(incoming)), incoming)
  {
  }

  /** A row of a world's chunk table: `{position, xOff, yOff, data}`; the key is the position. */
  datatype ChunkEntry = ChunkEntry(xOff: int, yOff: int, data: seq<seq<int>>)

  /** An entry of the world file's `maps`: `fileName`, origin `x`, `y`, and `version`. */
  datatype MapRef = MapRef(fileName: string, x: int, y: int, version: Option<int>)

  /** A world's chunk table agrees with its object table (row `k` has id `k + 1`): every
      object's chunk has an entry, each entry lists exactly the ids of its objects in id
      order, and no slice holds more than THRESHOLD ids. */
  ghost predicate TableMatches(rows: seq<TileRecord>, table: map<Cell, ChunkEntry>, resolution: int)
    requires resolution > 0
  {
    && (forall r :: r in rows ==> r.chunk in table && r.chunk == ChunkWorldPosition(r.x, r.y, resolution))
    && (forall c :: c in table ==> EntryMatches(c, table[c], IdsIn(rows, 1, c)))
  }

  /** The entry of chunk `c` sits at the chunk's offsets and lists `ids` in slices of at
      most THRESHOLD. */
  predicate EntryMatches(c: Cell, e: ChunkEntry, ids: seq<int>)
  {
    e.xOff == c.x && e.yOff == c.y && Flatten(e.data) == ids && Packed(e.data)
  }

  /** The records' facts the grouping needs: each lies in the chunk its position falls
      in, and that chunk is among the keys. */
  lemma RecordsInTheirChunks(m: TiledMap, resolution: int, originX: int, originY: int, records: seq<TileRecord>, chunkKeys: seq<Cell>)
    requires m.width > 0 && resolution > 0
    requires records == RecordsUpTo(m, |m.layerData|, resolution, originX, originY)
    requires chunkKeys == FirstSeen(ChunksOf(records))
    ensures forall r :: r in records ==> r.chunk in chunkKeys && r.chunk == ChunkWorldPosition(r.x, r.y, resolution)
  {
    RecordsOfKeptCells(m, |m.layerData|, resolution, originX, originY);
    forall r | r in records ensures r.chunk in chunkKeys && r.chunk == ChunkWorldPosition(r.x, r.y, resolution) {
      var j :| 0 <= j < |records| && records[j] == r;
      assert ChunksOf(records)[j] == r.chunk;
    }
  }

  /** The ids an entry lists, `[]` for a chunk without one. */
  function IdsOf(table: map<Cell, ChunkEntry>, c: Cell): seq<int>
  {
    if c in table then Flatten(table[c].data) else []
  }

  /** The `for (const key in chunksToAdd)` loop: each chunk's new ids go into a new
      entry or are appended to the existing one; other entries are left alone. */
  method FileChunks(table: map<Cell, ChunkEntry>, chunkKeys: seq<Cell>, groups: map<Cell, seq<int>>)
    returns (out: map<Cell, ChunkEntry>)
    requires forall a, b :: 0 <= a < b < |chunkKeys| ==> chunkKeys[a] != chunkKeys[b]
    requires forall c :: c in groups <==> c in chunkKeys
    requires forall c :: c in table ==> EntryMatches(c, table[c], IdsOf(table, c))
    ensures forall c :: c in out <==> c in table || c in chunkKeys
    ensures forall c :: c in out && c in groups ==> EntryMatches(c, out[c], IdsOf(table, c) + groups[c])
    ensures forall c :: c in out && c !in groups ==> out[c] == table[c]
  {
    out := table;
    var j := 0;
    while j < |chunkKeys|
      invariant j <= |chunkKeys|
      invariant Filed(table, out, chunkKeys[..j], groups)
    {
      var c := chunkKeys[j];
      NotLater(chunkKeys, j);
      assert chunkKeys[..j + 1] == chunkKeys[..j] + [c];
      assert c in out ==> out[c] == table[c];
      var e := FileChunk(if c in out then Some(out[c]) else None, c, IdsOf(table, c), groups[c]);
      FiledStep(table, out, chunkKeys[..j], groups, c, e);
      out := out[c := e];
      j := j + 1;
    }
    assert chunkKeys[..j] == chunkKeys;
  }

  /** The loop invariant of FileChunks after the keys `done`. */
  ghost predicate Filed(table: map<Cell, ChunkEntry>, out: map<Cell, ChunkEntry>, done: seq<Cell>,
                        groups: map<Cell, seq<int>>)
  {
    && (forall c :: c in out <==> c in table || c in done)
    && (forall c :: c in out && c in done ==> c in groups && EntryMatches(c, out[c], IdsOf(table, c) + groups[c]))
    && (forall c :: c in out && c !in done ==> c in table && out[c] == table[c])
  }

  lemma FiledStep(table: map<Cell, ChunkEntry>, out: map<Cell, ChunkEntry>, done: seq<Cell>,
                  groups: map<Cell, seq<int>>, c: Cell, e: ChunkEntry)
    requires Filed(table, out, done, groups) && c !in done && c in groups
    requires EntryMatches(c, e, IdsOf(table, c) + groups[c])
    ensures Filed(table, out[c := e], done + [c], groups)
  {
  }

  /** The chunk-table half of `processTiles`: afterwards every entry lists the ids of
      the old rows followed by those of the new rows. */
  method MergeIntoTable(table: map<Cell, ChunkEntry>, chunkKeys: seq<Cell>, groups: map<Cell, seq<int>>,
                        oldRows: seq<TileRecord>, records: seq<TileRecord>)
    returns (out: map<Cell, ChunkEntry>)
    requires forall a, b :: 0 <= a < b < |chunkKeys| ==> chunkKeys[a] != chunkKeys[b]
    requires forall c :: c in groups <==> c in chunkKeys
    requires forall c :: c in groups ==> groups[c] == IdsIn(records, |oldRows| + 1, c)
    requires forall c :: c in table ==> EntryMatches(c, table[c], IdsIn(oldRows, 1, c))
    requires forall r :: r in oldRows ==> r.chunk in table
    requires forall r :: r in records ==> r.chunk in chunkKeys
    ensures forall c :: c in out <==> c in table || c in chunkKeys
    ensures forall c :: c in out ==> EntryMatches(c, out[c], IdsIn(oldRows + records, 1, c))
  {
    assert forall c :: c in table ==> IdsOf(table, c) == IdsIn(oldRows, 1, c);
    out := FileChunks(table, chunkKeys, groups);
    UntouchedChunksKeepIds(oldRows, records, chunkKeys);
    forall c | c in out && c in groups ensures EntryMatches(c, out[c], IdsIn(oldRows + records, 1, c)) {
      GroupedIds(table, oldRows, records, c);
    }
  }

  /** A chunk that got new ids lists the old ones followed by them. */
  lemma GroupedIds(table: map<Cell, ChunkEntry>, oldRows: seq<TileRecord>, records: seq<TileRecord>, c: Cell)
    requires c in table ==> EntryMatches(c, table[c], IdsIn(oldRows, 1, c))
    requires c !in table ==> forall r :: r in oldRows ==> r.chunk != c
    ensures IdsOf(table, c) + IdsIn(records, |oldRows| + 1, c) == IdsIn(oldRows + records, 1, c)
  {
    IdsInAppend(oldRows, records, 1, c);
    if c !in table {
      IdsInAbsent(oldRows, 1, c);
    }
  }

  /** One key of the loop: a new entry packs the ids, an existing one gets them appended. */
  method FileChunk(existing: Option<ChunkEntry>, c: Cell, oldIds: seq<int>, ids: seq<int>) returns (e: ChunkEntry)
    requires existing.Some? ==> EntryMatches(c, existing.value, oldIds)
    ensures EntryMatches(c, e, oldIds + ids)
    requires existing.None? ==> oldIds == []
  {
    var data;
    if existing.None? {
      data := PackNew(ids);
      assert oldIds + ids == ids;
    } else {
      data := AppendToEntry(existing.value.data, ids);
    }
    e := ChunkEntry(c.x, c.y, data);
  }

  /** In a sequence without repetitions, the element at `j` does not come again later. */
  lemma NotLater(keys: seq<Cell>, j: nat)
    requires j < |keys| && forall a, b :: 0 <= a < b < |keys| ==> keys[a] != keys[b]
    ensures forall d :: d in keys[..j] ==> d != keys[j]
  {
  }

  /** A chunk none of the new rows lies in keeps its ids. */
  lemma UntouchedChunksKeepIds(oldRows: seq<TileRecord>, records: seq<TileRecord>, chunkKeys: seq<Cell>)
    requires forall r :: r in records ==> r.chunk in chunkKeys
    ensures forall c :: c !in chunkKeys ==> IdsIn(oldRows + records, 1, c) == IdsIn(oldRows, 1, c)
  {
    forall c | c !in chunkKeys ensures IdsIn(oldRows + records, 1, c) == IdsIn(oldRows, 1, c) {
      UntouchedChunkKeepsIds(oldRows, records, c);
    }
  }

  lemma UntouchedChunkKeepsIds(oldRows: seq<TileRecord>, records: seq<TileRecord>, c: Cell)
    requires forall r :: r in records ==> r.chunk != c
    ensures IdsIn(oldRows + records, 1, c) == IdsIn(oldRows, 1, c)
  {
    IdsInAppend(oldRows, records, 1, c);
    IdsInAbsent(records, |oldRows| + 1, c);
    assert IdsIn(oldRows, 1, c) + [] == IdsIn(oldRows, 1, c);
  }

  /** The merged chunk table agrees with the grown object table. */
  lemma MergedTableMatches(oldRows: seq<TileRecord>, records: seq<TileRecord>, table: map<Cell, ChunkEntry>,
                           chunkKeys: seq<Cell>, resolution: int)
    requires resolution > 0
    requires forall r :: r in oldRows ==> r.chunk in table && r.chunk == ChunkWorldPosition(r.x, r.y, resolution)
    requires forall r :: r in records ==> r.chunk in chunkKeys && r.chunk == ChunkWorldPosition(r.x, r.y, resolution)
    requires forall c :: c in chunkKeys ==> c in table
    requires forall c :: c in table ==> EntryMatches(c, table[c], IdsIn(oldRows + records, 1, c))
    ensures TableMatches(oldRows + records, table, resolution)
  {
  }

  /** The body of `_convertTiledMap` on one world's tables: the tile loop, `bulkAdd`
      (row `k` gets id `k + 1`), the grouping of the new ids by chunk and the packing
      into the chunk table. Tables that agreed before agree afterwards. */
  method ConvertInto(oldRows: seq<TileRecord>, oldTable: map<Cell, ChunkEntry>, m: TiledMap,
                     resolution: int, originX: int, originY: int)
    returns (rows: seq<TileRecord>, table: map<Cell, ChunkEntry>)
    requires m.width > 0 && resolution > 0 && TableMatches(oldRows, oldTable, resolution)
    ensures rows == oldRows + RecordsUpTo(m, |m.layerData|, resolution, originX, originY)
    ensures TableMatches(rows, table, resolution)
  {
    var records, chunkKeys := ProcessTiles(m, resolution, originX, originY);
    RecordsInTheirChunks(m, resolution, originX, originY, records, chunkKeys);
    var groups := GroupIds(records, |oldRows| + 1, chunkKeys, resolution);
    table := MergeIntoTable(oldTable, chunkKeys, groups, oldRows, records);
    MergedTableMatches(oldRows, records, table, chunkKeys, resolution);
    rows := oldRows + records;
  }

  /** Every converted world has both tables, and they agree. */
  ghost predicate TablesValid(worlds: seq<string>, objects: map<string, seq<TileRecord>>,
                              chunkTables: map<string, map<Cell, ChunkEntry>>, resolution: int)
    requires resolution > 0
  {
    && (forall w :: w in objects <==> w in worlds)
    && (forall w :: w in chunkTables <==> w in worlds)
    && (forall w :: w in chunkTables ==> w in objects && TableMatches(objects[w], chunkTables[w], resolution))
  }

  /** Replacing one world's tables by agreeing ones keeps every world's tables agreeing. */
  lemma ReplaceTablesValid(worlds: seq<string>, objects: map<string, seq<TileRecord>>,
                           chunkTables: map<string, map<Cell, ChunkEntry>>, resolution: int,
                           w: string, rows: seq<TileRecord>, table: map<Cell, ChunkEntry>)
    requires resolution > 0 && TablesValid(worlds, objects, chunkTables, resolution)
    requires w in worlds && TableMatches(rows, table, resolution)
    ensures TablesValid(worlds, objects[w := rows], chunkTables[w := table], resolution)
  {
  }

  /** ConvertInto on the tables of world `w`, the other worlds' tables untouched. */
  method ConvertWorldTables(worlds: seq<string>, objects: map<string, seq<TileRecord>>,
                            chunkTables: map<string, map<Cell, ChunkEntry>>, resolution: int,
                            w: string, m: TiledMap, originX: int, originY: int)
    returns (objects': map<string, seq<TileRecord>>, chunkTables': map<string, map<Cell, ChunkEntry>>)
    requires resolution > 0 && TablesValid(worlds, objects, chunkTables, resolution)
    requires w in worlds && m.width > 0
    ensures TablesValid(worlds, objects', chunkTables', resolution)
    ensures objects' == objects[w := objects[w] + RecordsUpTo(m, |m.layerData|, resolution, originX, originY)]
    ensures chunkTables'.Keys == chunkTables.Keys
    ensures forall v :: v in chunkTables && v != w ==> chunkTables'[v] == chunkTables[v]
  {
    var rows, table := ConvertInto(objects[w], chunkTables[w], m, resolution, originX, originY);
    ReplaceTablesValid(worlds, objects, chunkTables, resolution, w, rows, table);
    objects' := objects[w := rows];
    chunkTables' := chunkTables[w := table];
  }

  class Converter {
    /** `this.chunkResolution`, set by `init`. */
    const chunkResolution: int
    /** `converted_worlds`: the worlds whose tables exist. */
    var convertedWorlds: seq<string>
    /** `converted_maps`: `map_name` to `version`. */
    var convertedMaps: map<string, int>
    /** `${world}_objects`: the rows in id order; ids are auto-incremented from 1. */
    var objects: map<string, seq<TileRecord>>
    /** `${world}_chunks`. */
    var chunkTables: map<string, map<Cell, ChunkEntry>>

    ghost predicate Valid()
      reads this
    {
      chunkResolution > 0 && TablesValid(convertedWorlds, objects, chunkTables, chunkResolution)
    }

    /** `init({chunkResolution})` on an empty database. */
    constructor (resolution: int)
      requires resolution > 0
      ensures Valid() && chunkResolution == resolution
      ensures convertedWorlds == [] && convertedMaps == map[] && objects == map[] && chunkTables == map[]
    {
      chunkResolution := resolution;
      convertedWorlds, convertedMaps, objects, chunkTables := [], map[], map[], map[];
    }

    /** `_convertTiledMap` after the fetch: the tile loop, `bulkAdd`, the grouping of the
        new ids by chunk and the packing into the chunk table. The two tables keep
        agreeing. */
    method ConvertTiledMap(worldName: string, m: TiledMap, originX: int, originY: int)
      requires Valid() && worldName in convertedWorlds && m.width > 0
      modifies this
      ensures Valid()
      ensures objects == old(objects)[worldName := old(objects)[worldName]
        + RecordsUpTo(m, |m.layerData|, chunkResolution, originX, originY)]
      ensures chunkTables.Keys == old(chunkTables).Keys
      ensures forall w :: w in chunkTables && w != worldName ==> chunkTables[w] == old(chunkTables)[w]
      ensures convertedWorlds == old(convertedWorlds) && convertedMaps == old(convertedMaps)
    {
      objects, chunkTables := ConvertWorldTables(convertedWorlds, objects, chunkTables, chunkResolution, worldName, m, originX, originY);
    }

    /** `_processMap(map, worldFile)` after the fetch of the map file: converts the map
        when `ShouldConvert` says so and then records the version it was given. */
    method ProcessMap(worldFile: string, entry: MapRef, m: TiledMap)
      requires Valid() && GetPathFileName(worldFile, ".world") in convertedWorlds && m.width > 0
      modifies this
      ensures Valid()
      ensures var key := GetPathFileName(worldFile, ".world") + "-" + entry.fileName;
        var stored := if key in old(convertedMaps) then Some(old(convertedMaps)[key]) else None;
        if ShouldConvert(stored, entry.version) then
          && convertedMaps == old(convertedMaps)[key := StoredVersion(entry.version)]
          && objects == old(objects)[GetPathFileName(worldFile, ".world") := old(objects)[GetPathFileName(worldFile, ".world")]
               + RecordsUpTo(m, |m.layerData|, chunkResolution, entry.x, entry.y)]
          && chunkTables.Keys == old(chunkTables).Keys
          && (forall w :: w in chunkTables && w != GetPathFileName(worldFile, ".world") ==> chunkTables[w] == old(chunkTables)[w])
        else
          convertedMaps == old(convertedMaps) && objects == old(objects) && chunkTables == old(chunkTables)
      ensures var wn := GetPathFileName(worldFile, ".world");
        var step := ProcessMapStep(Progress(old(convertedMaps), []), wn, entry, m, chunkResolution);
        convertedMaps == step.versions && objects == old(objects)[wn := old(objects)[wn] + step.added]
      ensures chunkTables.Keys == old(chunkTables).Keys
      ensures forall w :: w in chunkTables && w != GetPathFileName(worldFile, ".world") ==> chunkTables[w] == old(chunkTables)[w]
      ensures convertedWorlds == old(convertedWorlds)
    {
      var worldName := GetPathFileName(worldFile, ".world");
      var key := worldName + "-" + entry.fileName;
      var stored := if key in convertedMaps then Some(convertedMaps[key]) else None;
      ghost var step := ProcessMapStep(Progress(convertedMaps, []), worldName, entry, m, chunkResolution);
      if ShouldConvert(stored, entry.version) {
        assert step == Progress(convertedMaps[key := StoredVersion(entry.version)], RecordsUpTo(m, |m.layerData|, chunkResolution, entry.x, entry.y));
        ConvertTiledMap(worldName, m, entry.x, entry.y);
        convertedMaps := convertedMaps[key := StoredVersion(entry.version)];
      } else {
        assert step == Progress(convertedMaps, []);
        assert worldName in objects && objects[worldName] + [] == objects[worldName];
      }
    }

    /** `convertWorld(worldFile)` after the fetch: creates the world's tables the first
        time, then processes every map of the world file in order, as `ProcessAll` says. */
    method ConvertWorld(worldFile: string, maps: seq<MapRef>, files: seq<TiledMap>)
      requires Valid() && |files| == |maps|
      requires forall k :: 0 <= k < |files| ==> files[k].width > 0
      modifies this
      ensures Valid()
      ensures var wn := GetPathFileName(worldFile, ".world");
        var p := ProcessAll(old(convertedMaps), wn, maps, files, chunkResolution);
        && convertedMaps == p.versions
        && objects == old(objects)[wn := (if wn in old(objects) then old(objects)[wn] else []) + p.added]
        && convertedWorlds == (if wn in old(convertedWorlds) then old(convertedWorlds) else old(convertedWorlds) + [wn])
        && chunkTables.Keys == old(chunkTables).Keys + {wn}
        && (forall w :: w in old(chunkTables) && w != wn ==> chunkTables[w] == old(chunkTables)[w])
    {
      var worldName := GetPathFileName(worldFile, ".world");
      ghost var base := if worldName in objects then objects[worldName] else [];
      if worldName !in convertedWorlds {
        CreateTables(worldName);
      }
      ghost var created := objects;
      assert created == old(objects)[worldName := base];
      assert chunkTables.Keys == old(chunkTables).Keys + {worldName};
      ghost var p := ProcessAll(old(convertedMaps), worldName, maps, files, chunkResolution);
      UpdateTwice(old(objects), worldName, base, base + p.added);
      ProcessMaps(worldFile, maps, files);
      assert objects == created[worldName := base + p.added];
    }

    /** The first visit of a world: its empty tables and its `converted_worlds` row. */
    method CreateTables(worldName: string)
      requires Valid() && worldName !in convertedWorlds
      modifies this
      ensures Valid()
      ensures convertedWorlds == old(convertedWorlds) + [worldName] && convertedMaps == old(convertedMaps)
      ensures objects == old(objects)[worldName := []] && chunkTables == old(chunkTables)[worldName := map[]]
    {
      objects := objects[worldName := []];
      chunkTables := chunkTables[worldName := map[]];
      convertedWorlds := convertedWorlds + [worldName];
    }

    /** The loop of `convertWorld` over the maps of a world whose tables exist. */
    method ProcessMaps(worldFile: string, maps: seq<MapRef>, files: seq<TiledMap>)
      requires Valid() && |files| == |maps| && GetPathFileName(worldFile, ".world") in convertedWorlds
      requires forall k :: 0 <= k < |files| ==> files[k].width > 0
      modifies this
      ensures Valid()
      ensures var wn := GetPathFileName(worldFile, ".world");
        var p := ProcessAll(old(convertedMaps), wn, maps, files, chunkResolution);
        && convertedMaps == p.versions
        && objects == old(objects)[wn := old(objects)[wn] + p.added]
        && convertedWorlds == old(convertedWorlds)
        && chunkTables.Keys == old(chunkTables).Keys
        && (forall w :: w in old(chunkTables) && w != wn ==> chunkTables[w] == old(chunkTables)[w])
    {
      var worldName := GetPathFileName(worldFile, ".world");
      ghost var base := objects[worldName];
      assert base + [] == base;
      assert objects == objects[worldName := base];
      var k := 0;
      while k < |maps|
        invariant k <= |maps| && Valid() && convertedWorlds == old(convertedWorlds)
        invariant var p := ProcessAll(old(convertedMaps), worldName, maps[..k], files[..k], chunkResolution);
          convertedMaps == p.versions && objects == old(objects)[worldName := base + p.added]
        invariant chunkTables.Keys == old(chunkTables).Keys
        invariant forall w :: w in old(chunkTables) && w != worldName ==> chunkTables[w] == old(chunkTables)[w]
      {
        ghost var p := ProcessAll(old(convertedMaps), worldName, maps[..k], files[..k], chunkResolution);
        ghost var p' := ProcessMapStep(p, worldName, maps[k], files[k], chunkResolution);
        assert maps[..k + 1][..k] == maps[..k] && files[..k + 1][..k] == files[..k];
        assert ProcessAll(old(convertedMaps), worldName, maps[..k + 1], files[..k + 1], chunkResolution) == p';
        ghost var step := ProcessMapStep(Progress(p.versions, []), worldName, maps[k], files[k], chunkResolution);
        StepFromScratch(p, worldName, maps[k], files[k], chunkResolution);
        AppendAssociates(base, p.added, step.added);
        UpdateTwice(old(objects), worldName, base + p.added, base + p'.added);
        ProcessMap(worldFile, maps[k], files[k]);
        k := k + 1;
      }
      assert maps[..k] == maps && files[..k] == files;
    }
  }

  /** What `convertWorld` records over a world's maps: the `converted_maps` versions and
      the object rows appended, map by map in the world file's order. */
  datatype Progress = Progress(versions: map<string, int>, added: seq<TileRecord>)

  /** The `converted_maps` keys of a world's maps: `${worldName}-${fileName}`. */
  function MapKeys(worldName: string, maps: seq<MapRef>): set<string>
  {
    set e | e in maps :: worldName + "-" + e.fileName
  }

  /** The maps of a world file processed in order from the versions `versions`: each map
      that `ShouldConvert` lets through adds its records and stores its version. */
  function ProcessAll(versions: map<string, int>, worldName: string, maps: seq<MapRef>, files: seq<TiledMap>,
                      resolution: int): (p: Progress)
    requires |files| == |maps| && resolution > 0
    requires forall k :: 0 <= k < |files| ==> files[k].width > 0
    decreases |maps|
  {
    if |maps| == 0 then Progress(versions, [])
    else
      var n := |maps| - 1;
      ProcessMapStep(ProcessAll(versions, worldName, maps[..n], files[..n], resolution), worldName, maps[n], files[n], resolution)
  }

  /** A pass stores a version for every map of the world file and leaves the other
      `converted_maps` rows as they were. */
  lemma {:induction false} ProcessAllKeys(versions: map<string, int>, worldName: string, maps: seq<MapRef>,
                                          files: seq<TiledMap>, resolution: int)
    requires |files| == |maps| && resolution > 0
    requires forall k :: 0 <= k < |files| ==> files[k].width > 0
    ensures ProcessAll(versions, worldName, maps, files, resolution).versions.Keys == versions.Keys + MapKeys(worldName, maps)
    ensures forall key :: key in versions && key !in MapKeys(worldName, maps) ==>
      ProcessAll(versions, worldName, maps, files, resolution).versions[key] == versions[key]
    decreases |maps|
  {
    if |maps| > 0 {
      var n := |maps| - 1;
      var p := ProcessAll(versions, worldName, maps[..n], files[..n], resolution);
      var key := worldName + "-" + maps[n].fileName;
      ProcessAllKeys(versions, worldName, maps[..n], files[..n], resolution);
      ProcessMapStepSettles(p, worldName, maps[n], files[n], resolution);
      assert ProcessAll(versions, worldName, maps, files, resolution) == ProcessMapStep(p, worldName, maps[n], files[n], resolution);
      assert MapKeys(worldName, maps) == MapKeys(worldName, maps[..n]) + {key} by {
        assert maps == maps[..n] + [maps[n]];
      }
    }
  }

  /** `_processMap` on one map entry and its file. */
  function ProcessMapStep(p: Progress, worldName: string, e: MapRef, m: TiledMap, resolution: int): Progress
    requires m.width > 0 && resolution > 0
  {
    var key := worldName + "-" + e.fileName;
    var stored := if key in p.versions then Some(p.versions[key]) else None;
    if ShouldConvert(stored, e.version) then
      Progress(p.versions[key := StoredVersion(e.version)], p.added + RecordsUpTo(m, |m.layerData|, resolution, e.x, e.y))
    else p
  }

  /** One map stores a version under its key, never lowers a stored version, leaves the
      other keys alone, and is turned away afterwards. */
  lemma ProcessMapStepSettles(p: Progress, worldName: string, e: MapRef, m: TiledMap, resolution: int)
    requires m.width > 0 && resolution > 0
    ensures ProcessMapStep(p, worldName, e, m, resolution).versions.Keys == p.versions.Keys + {worldName + "-" + e.fileName}
    ensures forall key :: key in p.versions ==> ProcessMapStep(p, worldName, e, m, resolution).versions[key] >= p.versions[key]
    ensures forall key :: key in p.versions && key != worldName + "-" + e.fileName ==>
      ProcessMapStep(p, worldName, e, m, resolution).versions[key] == p.versions[key]
    ensures Settled(ProcessMapStep(p, worldName, e, m, resolution).versions, worldName, e)
  {
    ConvertedOnce(e.version);
  }

  /** One step adds its records after those already added, whatever they are. */
  lemma StepFromScratch(p: Progress, worldName: string, e: MapRef, m: TiledMap, resolution: int)
    requires m.width > 0 && resolution > 0
    ensures var a, b := ProcessMapStep(p, worldName, e, m, resolution), ProcessMapStep(Progress(p.versions, []), worldName, e, m, resolution);
      a.versions == b.versions && a.added == p.added + b.added
  {
    assert p.added + [] == p.added;
  }

  /** Concatenation associates. */
  lemma AppendAssociates<T>(a: seq<T>, b: seq<T>, c: seq<T>)
    ensures a + (b + c) == (a + b) + c
  {
  }

  /** The second of two updates of one key wins. */
  lemma UpdateTwice<K, V>(m: map<K, V>, k: K, a: V, b: V)
    ensures m[k := a][k := b] == m[k := b]
  {
  }

  /** A map whose entry `ShouldConvert` turns away under the versions `versions`. */
  predicate Settled(versions: map<string, int>, worldName: string, e: MapRef)
  {
    var key := worldName + "-" + e.fileName;
    key in versions && !ShouldConvert(Some(versions[key]), e.version)
  }

  /** After a pass over a world's maps, none of them is due for conversion: stored
      versions only grow, and a converted map stores the version that stops it. */
  lemma {:induction false} ProcessAllSettles(versions: map<string, int>, worldName: string, maps: seq<MapRef>,
                                             files: seq<TiledMap>, resolution: int)
    requires |files| == |maps| && resolution > 0
    requires forall k :: 0 <= k < |files| ==> files[k].width > 0
    ensures var p := ProcessAll(versions, worldName, maps, files, resolution);
      forall k :: 0 <= k < |maps| ==> Settled(p.versions, worldName, maps[k])
    decreases |maps|
  {
    if |maps| > 0 {
      var n := |maps| - 1;
      ProcessAllSettles(versions, worldName, maps[..n], files[..n], resolution);
      var p0 := ProcessAll(versions, worldName, maps[..n], files[..n], resolution);
      var p := ProcessAll(versions, worldName, maps, files, resolution);
      assert p == ProcessMapStep(p0, worldName, maps[n], files[n], resolution);
      ProcessMapStepSettles(p0, worldName, maps[n], files[n], resolution);
      forall k | 0 <= k < n ensures Settled(p.versions, worldName, maps[k]) {
        assert maps[..n][k] == maps[k];
        SettledGrows(p0.versions, p.versions, worldName, maps[k]);
      }
    }
  }

  /** A settled map stays settled when its stored version grows. */
  lemma SettledGrows(v0: map<string, int>, v1: map<string, int>, worldName: string, e: MapRef)
    requires Settled(v0, worldName, e)
    requires forall key :: key in v0 ==> key in v1 && v1[key] >= v0[key]
    ensures Settled(v1, worldName, e)
  {
    var key := worldName + "-" + e.fileName;
    assert key in v0;
  }

  /** A pass over maps that are all settled changes nothing. */
  lemma {:induction false} ProcessSettledIsIdle(versions: map<string, int>, worldName: string, maps: seq<MapRef>,
                                                files: seq<TiledMap>, resolution: int)
    requires |files| == |maps| && resolution > 0
    requires forall k :: 0 <= k < |files| ==> files[k].width > 0
    requires forall k :: 0 <= k < |maps| ==> Settled(versions, worldName, maps[k])
    ensures ProcessAll(versions, worldName, maps, files, resolution) == Progress(versions, [])
    decreases |maps|
  {
    if |maps| > 0 {
      var n := |maps| - 1;
      assert forall k :: 0 <= k < n ==> maps[..n][k] == maps[k];
      ProcessSettledIsIdle(versions, worldName, maps[..n], files[..n], resolution);
      assert Settled(versions, worldName, maps[n]);
    }
  }

  /** Converting a world a second time with the same world file adds no rows and stores
      no new version. */
  lemma ProcessAllAgain(versions: map<string, int>, worldName: string, maps: seq<MapRef>,
                        files: seq<TiledMap>, resolution: int)
    requires |files| == |maps| && resolution > 0
    requires forall k :: 0 <= k < |files| ==> files[k].width > 0
    ensures var p := ProcessAll(versions, worldName, maps, files, resolution);
      ProcessAll(p.versions, worldName, maps, files, resolution) == Progress(p.versions, [])
  {
    var p := ProcessAll(versions, worldName, maps, files, resolution);
    ProcessAllSettles(versions, worldName, maps, files, resolution);
    ProcessSettledIsIdle(p.versions, worldName, maps, files, resolution);
  }
}
