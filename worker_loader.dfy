/**
 * The worker's `Loader` (`src/world-loader/WorldLoader/worker.js`): the client position,
 * the chunk creator and the object creator it wires together through its event emitter,
 * and the entry points the worker's `onmessage` calls.
 */
module WorkerLoader {
  import opened Wrappers
  import opened Cells
  import opened WorkerGrid
  import opened WorkerChunks
  import opened WorkerObjects

  class Loader {
    const position: ClientPosition
    const chunks: ChunkCreator
    const objects: ObjectCreator

    ghost predicate Valid()
      reads this, position, chunks, objects, objects.timer
    {
      && objects.creator == chunks
      && objects.Valid()
      && position.chunkSize == chunks.chunkSize
    }

    /** `loader-init`: nothing created, no cell announced yet. */
    constructor(gridSize: nat, chunkSize: int, trailDistance: int)
      requires chunkSize > 0
      ensures Valid() && fresh(position) && fresh(chunks) && fresh(objects) && fresh(objects.timer)
      ensures chunks.gridSize == gridSize && chunks.chunkSize == chunkSize && chunks.trailDistance == trailDistance
      ensures chunks.matrix == None && chunks.resident == [] && position.prev == None && objects.timer.entries == []
    {
      position := new ClientPosition(chunkSize);
      var c := new ChunkCreator(chunkSize, gridSize, trailDistance);
      chunks := c;
      objects := new ObjectCreator(c);
    }

    /** `loader-execute`: snap the client's position; when its cell changed (or the
        loader is stale) re-centre the matrix, evict the chunks outside it and ask for the
        cells it lacks; then run the timer. */
    method Execute(px: int, py: int, now: int) returns (posted: seq<Post>, region: Option<seq<Cell>>)
      requires Valid()
      modifies position, chunks, objects.timer
      ensures Valid()
      ensures position.x <= px < position.x + chunks.chunkSize && position.x % chunks.chunkSize == 0
      ensures position.y <= py < position.y + chunks.chunkSize && position.y % chunks.chunkSize == 0
      ensures position.prev == Some(Cell(position.x, position.y)) && !position.stale
      ensures region.Some? <==> old(position.prev) != Some(Cell(position.x, position.y)) || old(position.stale)
      ensures var t, cs := chunks.trailDistance, chunks.chunkSize;
        var moved := region.Some?;
        var m := if moved then Some(MatrixAround(position.x, position.y, chunks.gridSize, cs)) else old(chunks.matrix);
        var e := if moved then Evict(old(chunks.store), old(chunks.resident), m.value, t, cs)
                 else Eviction(old(chunks.store), old(chunks.resident), []);
        var r := TimerPass(e.store, e.resident, old(objects.timer.entries), now, MatrixOr(m), t, cs);
        && chunks.matrix == m
        && (moved ==> region.value == Missing(MatrixCells(m.value, cs), Keys(e.store, e.resident)))
        && chunks.store == r.store && chunks.resident == r.resident && objects.timer.entries == r.entries
        && posted == e.posted + r.posted
    {
      var notified := position.Execute(px, py);
      posted, region := [], None;
      if notified {
        var evicted, cells := chunks.OnClientChunkChange(position.x, position.y);
        posted, region := evicted, Some(cells);
      }
      var created := objects.Execute(now);
      posted := posted + created;
    }

    /** The continuation of the chunk-table query: the rows become chunks, and the new
        chunks inside the matrix have their objects queried and created. */
    method ChunksArrived(rows: seq<ChunkRow>, db: map<ObjId, GameObject>, now: int)
      returns (posted: seq<Post>, payloads: Option<seq<Payload>>)
      requires Valid() && chunks.matrix.Some?
      modifies chunks, objects.timer
      ensures Valid() && chunks.matrix == old(chunks.matrix)
      ensures |chunks.store| == |old(chunks.store)| + |NewRows(old(Keys(chunks.store, chunks.resident)), rows)|
      ensures var m, t, cs := chunks.matrix.value, chunks.trailDistance, chunks.chunkSize;
        var built := NewRows(old(Keys(chunks.store, chunks.resident)), rows);
        var grown := old(chunks.store) + Made(built, now);
        var ids := WithinIds(|old(chunks.store)|, built, m, t, cs);
        && (forall k :: 0 <= k < |ids| ==> |old(chunks.store)| <= ids[k] < |grown|)
        && var ds := if ids == [] then [] else Drops(grown, ids, m, t, cs);
           && AbortedAt(grown, chunks.store, ds)
           && chunks.resident == WithoutAll(old(chunks.resident) + Span(|old(chunks.store)|, |built|), ds)
           && posted == CleanUps(grown, ds)
           && payloads == QueryOutcome(db, grown, ids, m, t, cs)
           && objects.timer.entries == old(objects.timer.entries) + if payloads.Some? then Starts(payloads.value, now) else []
      ensures payloads.Some? ==> forall k :: 0 <= k < |payloads.value| ==>
        |old(chunks.store)| <= payloads.value[k].chunk < |chunks.store|
    {
      var base := |chunks.store|;
      ghost var built := NewRows(Keys(chunks.store, chunks.resident), rows);
      var newChunks := chunks.InitChunks(rows, now);
      WithinIdsRange(base, built, chunks.matrix.value, chunks.trailDistance, chunks.chunkSize);
      posted, payloads := objects.OnStart(newChunks, db, now);
    }

    /** `loader-set-stale`: destroy the chunk of the key, or every chunk; the next
        `Execute` then re-announces the cell. A key with no chunk throws before the
        position is marked stale. */
    method SetStale(key: Option<Cell>) returns (thrown: bool, posted: seq<Post>)
      requires Valid()
      modifies position, chunks
      ensures Valid() && chunks.matrix == old(chunks.matrix)
      ensures thrown <==> key.Some? && key.value !in old(Keys(chunks.store, chunks.resident))
      ensures thrown ==> && position.stale == old(position.stale)
                         && chunks.store == old(chunks.store) && chunks.resident == old(chunks.resident) && posted == []
      ensures !thrown ==> position.stale && position.prev == old(position.prev)
      ensures position.x == old(position.x) && position.y == old(position.y)
      ensures !thrown && key.Some? ==>
        var id := Find(old(chunks.store), old(chunks.resident), key.value).value;
        && chunks.store == old(chunks.store)[id := old(chunks.store)[id].(aborted := true)]
        && chunks.resident == Without(old(chunks.resident), id)
        && Keys(chunks.store, chunks.resident) == old(Keys(chunks.store, chunks.resident)) - {key.value}
        && posted == DestroyPosts(old(chunks.store), [id])
      ensures key.None? ==>
        && chunks.resident == []
        && posted == DestroyPosts(old(chunks.store), old(chunks.resident))
        && |chunks.store| == |old(chunks.store)|
        && forall k :: 0 <= k < |chunks.store| ==>
             chunks.store[k] == if k in old(chunks.resident) then old(chunks.store)[k].(aborted := true) else old(chunks.store)[k]
    {
      thrown, posted := chunks.SetStale(key);
      if !thrown {
        position.SetStale();
      }
    }
  }
}
