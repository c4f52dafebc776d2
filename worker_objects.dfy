/**
 * The object side of the chunk-streaming worker (`src/world-loader/WorldLoader/worker.js`):
 * the timer that defers work by a delay, the batches in which a chunk's objects are posted
 * to the main thread, and the query that fetches a new chunk's objects and groups them by
 * the chunk they lie in. The clock is an explicit `now`; the object table is a map.
 */
module WorkerObjects {
  import opened Wrappers
  import opened Cells
  import opened WorkerGrid
  import opened WorkerChunks
  import opened TiledConvert

  /** At most this many ids go to one `bulkGet`. */
  const QueryObjectBatchSize: nat := 10000
  /** At most this many objects are posted per timer tick. */
  const CreateObjectBatchSize: nat := 50
  /** The delay of every timer job. */
  const CreateObjectBatchDelay: int := 5

  /** What `onCreateObject` tells the main thread about the object's chunk. */
  function Info(c: Chunk, chunkSize: int): ChunkInfo
  {
    ChunkInfo(c.cell.x, c.cell.y, chunkSize, chunkSize, c.clientKey)
  }

  /** One `onCreateObject` message per object, in order. */
  function Creates(info: ChunkInfo, objects: seq<GameObject>): (r: seq<Post>)
    ensures |r| == |objects|
    ensures forall j :: 0 <= j < |objects| ==> r[j] == CreateObject(info, objects[j])
  {
    if objects == [] then [] else Creates(info, objects[..|objects| - 1]) + [CreateObject(info, objects[|objects| - 1])]
  }

  lemma CreatesAppend(info: ChunkInfo, a: seq<GameObject>, b: seq<GameObject>)
    ensures Creates(info, a + b) == Creates(info, a) + Creates(info, b)
  {
  }

  function Min(a: int, b: int): int
  {
    if a <= b then a else b
  }

  // ---------------------------------------------------------------------------
  // `createGameObjects`

  /** `processBatch`: post the objects from `idx` on, at most `CreateObjectBatchSize` of
      them and none when the chunk is aborted; the batch is the last one when the objects
      are exhausted or the chunk is aborted. */
  method ProcessBatch(info: ChunkInfo, objects: seq<GameObject>, idx: nat, aborted: bool)
    returns (idx': nat, posted: seq<Post>, last: bool)
    requires idx <= |objects|
    ensures idx <= idx' <= |objects|
    ensures idx' == if aborted then idx else Min(|objects|, idx + CreateObjectBatchSize)
    ensures posted == Creates(info, objects[idx..idx'])
    ensures last <==> idx' == |objects| || aborted
  {
    idx', posted := idx, [];
    var batchCount := 0;
    while idx' < |objects| && batchCount < CreateObjectBatchSize && !aborted
      invariant idx <= idx' <= |objects| && batchCount == idx' - idx <= CreateObjectBatchSize
      invariant aborted ==> idx' == idx
      invariant posted == Creates(info, objects[idx..idx'])
    {
      assert objects[idx..idx' + 1] == objects[idx..idx'] + [objects[idx']];
      posted := posted + [CreateObject(info, objects[idx'])];
      idx' := idx' + 1;
      batchCount := batchCount + 1;
    }
    last := idx' >= |objects| || aborted;
  }

  /** The batches of a chunk that is never aborted, from `idx` on: one per tick until the
      objects are exhausted. */
  function Batches(info: ChunkInfo, objects: seq<GameObject>, idx: nat): seq<seq<Post>>
    requires idx <= |objects|
    decreases |objects| - idx
  {
    var next := Min(|objects|, idx + CreateObjectBatchSize);
    [Creates(info, objects[idx..next])] + if next == |objects| then [] else Batches(info, objects, next)
  }

  function Concat(ss: seq<seq<Post>>): seq<Post>
  {
    if ss == [] then [] else ss[0] + Concat(ss[1..])
  }

  /** Unaborted, the batches post every object exactly once and in order. */
  lemma {:induction false} BatchesPostAll(info: ChunkInfo, objects: seq<GameObject>, idx: nat)
    requires idx <= |objects|
    ensures Concat(Batches(info, objects, idx)) == Creates(info, objects[idx..])
    decreases |objects| - idx
  {
    var next := Min(|objects|, idx + CreateObjectBatchSize);
    var head := Creates(info, objects[idx..next]);
    if next == |objects| {
      assert Batches(info, objects, idx) == [head];
      assert Concat([head]) == head + Concat([]);
    } else {
      BatchesPostAll(info, objects, next);
      var rest := Batches(info, objects, next);
      assert Batches(info, objects, idx) == [head] + rest;
      assert ([head] + rest)[1..] == rest;
      assert objects[idx..] == objects[idx..next] + objects[next..];
      CreatesAppend(info, objects[idx..next], objects[next..]);
    }
  }

  /** They take `ceil(n / 50)` ticks for `n` objects, and one tick when there are none. */
  lemma {:induction false} BatchesCount(info: ChunkInfo, objects: seq<GameObject>, idx: nat)
    requires idx <= |objects|
    ensures |Batches(info, objects, idx)|
      == if idx == |objects| then 1 else (|objects| - idx + CreateObjectBatchSize - 1) / CreateObjectBatchSize
    decreases |objects| - idx
  {
    var next := Min(|objects|, idx + CreateObjectBatchSize);
    if next < |objects| {
      BatchesCount(info, objects, next);
    }
  }

  /** No tick posts more than 50 objects. */
  lemma {:induction false} BatchesBounded(info: ChunkInfo, objects: seq<GameObject>, idx: nat)
    requires idx <= |objects|
    ensures forall k :: 0 <= k < |Batches(info, objects, idx)| ==> |Batches(info, objects, idx)[k]| <= CreateObjectBatchSize
    decreases |objects| - idx
  {
    var next := Min(|objects|, idx + CreateObjectBatchSize);
    if next < |objects| {
      BatchesBounded(info, objects, next);
      var rest := Batches(info, objects, next);
      assert forall k :: 1 <= k < |rest| + 1 ==> Batches(info, objects, idx)[k] == rest[k - 1];
    }
  }

  // ---------------------------------------------------------------------------
  // `Timer`

  /** The closure a timer entry runs: the next batch of a chunk's objects, from `next`. */
  datatype Job = Batch(chunk: nat, objects: seq<GameObject>, next: nat)

  /** A timer entry `{ fn, time, timeSet }`. */
  datatype Entry = Entry(job: Job, time: int, timeSet: int)

  /** An entry runs once more than `time` has passed since it was set. */
  predicate Due(e: Entry, now: int)
  {
    now - e.timeSet > e.time
  }

  function DueJobs(es: seq<Entry>, now: int): (r: seq<Job>)
    ensures |r| <= |es|
  {
    if es == [] then [] else (if Due(es[0], now) then [es[0].job] else []) + DueJobs(es[1..], now)
  }

  function Waiting(es: seq<Entry>, now: int): (r: seq<Entry>)
    ensures forall k :: 0 <= k < |r| ==> !Due(r[k], now)
    ensures |r| <= |es|
  {
    if es == [] then [] else (if Due(es[0], now) then [] else [es[0]]) + Waiting(es[1..], now)
  }

  /** A pass splits the entries: every entry either runs or waits. */
  lemma {:induction false} TimerSplit(es: seq<Entry>, now: int)
    ensures |DueJobs(es, now)| + |Waiting(es, now)| == |es|
    ensures forall e :: e in es ==> (e in Waiting(es, now) <==> !Due(e, now))
    ensures forall e :: e in es && Due(e, now) ==> e.job in DueJobs(es, now)
  {
    if es != [] {
      TimerSplit(es[1..], now);
      assert es == [es[0]] + es[1..];
    }
  }

  lemma DueJobsSnoc(es: seq<Entry>, e: Entry, now: int)
    ensures DueJobs(es + [e], now) == DueJobs(es, now) + (if Due(e, now) then [e.job] else [])
    ensures Waiting(es + [e], now) == Waiting(es, now) + (if Due(e, now) then [] else [e])
  {
    DueSnoc(es, e, now);
    WaitingSnoc(es, e, now);
  }

  lemma {:induction false} DueSnoc(es: seq<Entry>, e: Entry, now: int)
    ensures DueJobs(es + [e], now) == DueJobs(es, now) + (if Due(e, now) then [e.job] else [])
  {
    if es == [] {
      assert [e][1..] == [];
    } else {
      assert (es + [e])[1..] == es[1..] + [e];
      DueSnoc(es[1..], e, now);
      Assoc(if Due(es[0], now) then [es[0].job] else [], DueJobs(es[1..], now), if Due(e, now) then [e.job] else []);
    }
  }

  lemma {:induction false} WaitingSnoc(es: seq<Entry>, e: Entry, now: int)
    ensures Waiting(es + [e], now) == Waiting(es, now) + (if Due(e, now) then [] else [e])
  {
    if es == [] {
      assert [e][1..] == [];
    } else {
      assert (es + [e])[1..] == es[1..] + [e];
      WaitingSnoc(es[1..], e, now);
      Assoc(if Due(es[0], now) then [] else [es[0]], Waiting(es[1..], now), if Due(e, now) then [] else [e]);
    }
  }

  /** `Timer`: the pending entries in insertion order. Every job is a fresh closure, so no
      entry ever replaces another in the map. */
  class Timer {
    var entries: seq<Entry>

    constructor()
      ensures entries == []
    {
      entries := [];
    }

    /** `add`: a job that runs once `time` has passed from `now`. */
    method Add(job: Job, time: int, now: int)
      modifies this
      ensures entries == old(entries) + [Entry(job, time, now)]
    {
      entries := entries + [Entry(job, time, now)];
    }

    /** `execute`, its loop: the due entries are taken out, in order, for their jobs to
        run; the others stay. */
    method TakeDue(now: int) returns (due: seq<Job>)
      modifies this
      ensures due == DueJobs(old(entries), now)
      ensures entries == Waiting(old(entries), now)
    {
      var es := entries;
      due := [];
      var kept: seq<Entry> := [];
      var i := 0;
      while i < |es|
        invariant 0 <= i <= |es|
        invariant due == DueJobs(es[..i], now) && kept == Waiting(es[..i], now)
      {
        assert es[..i + 1] == es[..i] + [es[i]];
        DueJobsSnoc(es[..i], es[i], now);
        if Due(es[i], now) {
          due := due + [es[i].job];
        } else {
          kept := kept + [es[i]];
        }
        i := i + 1;
      }
      assert es[..i] == es;
      entries := kept;
    }
  }

  // ---------------------------------------------------------------------------
  // `queryObjects`: fetching

  /** `bulkGet`: the object of each id, `undefined` for an id the table lacks. */
  function Fetched(db: map<ObjId, GameObject>, ids: seq<ObjId>): (r: seq<Option<GameObject>>)
    ensures |r| == |ids|
    ensures forall j :: 0 <= j < |ids| ==> r[j] == if ids[j] in db then Some(db[ids[j]]) else None
  {
    if ids == [] then [] else Fetched(db, ids[..|ids| - 1]) + [if ids[|ids| - 1] in db then Some(db[ids[|ids| - 1]]) else None]
  }

  lemma FetchedAppend(db: map<ObjId, GameObject>, a: seq<ObjId>, b: seq<ObjId>)
    ensures Fetched(db, a + b) == Fetched(db, a) + Fetched(db, b)
  {
  }

  /** The `splice(0, QUERY_OBJECT_BATCH_SIZE)` loop: the ids go to `bulkGet` in slices of
      at most 10000, which together are the ids in order, and the objects come back in
      the same order. */
  method FetchInBatches(db: map<ObjId, GameObject>, ids: seq<ObjId>) returns (got: seq<Option<GameObject>>, slices: seq<seq<ObjId>>)
    ensures got == Fetched(db, ids)
    ensures Flatten(slices) == ids && Packed(slices)
  {
    got, slices := [], [];
    var rest := ids;
    while |rest| > 0
      invariant Fetching(db, ids, got, slices, rest)
    {
      var take := Min(|rest|, QueryObjectBatchSize);
      var batch := rest[..take];
      SliceStep(db, slices, got, rest, take, ids);
      got := got + Fetched(db, batch);
      slices := slices + [batch];
      rest := rest[take..];
    }
    assert Flatten(slices) + [] == Flatten(slices);
    assert got + [] == got;
  }

  /** The loop's state: the slices taken so far and the ids left are the ids, and the
      objects read so far and those of the ids left are all the objects. */
  ghost predicate Fetching(db: map<ObjId, GameObject>, ids: seq<ObjId>, got: seq<Option<GameObject>>, slices: seq<seq<ObjId>>, rest: seq<ObjId>)
  {
    && Flatten(slices) + rest == ids && Packed(slices)
    && got + Fetched(db, rest) == Fetched(db, ids)
  }

  lemma SliceStep(db: map<ObjId, GameObject>, slices: seq<seq<ObjId>>, got: seq<Option<GameObject>>, rest: seq<ObjId>,
                  take: nat, ids: seq<ObjId>)
    requires 0 < take <= |rest| && take <= QueryObjectBatchSize
    requires Fetching(db, ids, got, slices, rest)
    ensures Fetching(db, ids, got + Fetched(db, rest[..take]), slices + [rest[..take]], rest[take..])
  {
    SlicesStep(slices, rest, take, ids);
    FetchedStep(db, got, rest, take, ids);
  }

  lemma SlicesStep(slices: seq<seq<ObjId>>, rest: seq<ObjId>, take: nat, ids: seq<ObjId>)
    requires 0 < take <= |rest| && take <= QueryObjectBatchSize
    requires Flatten(slices) + rest == ids && Packed(slices)
    ensures Flatten(slices + [rest[..take]]) + rest[take..] == ids && Packed(slices + [rest[..take]])
  {
    var batch, after := rest[..take], rest[take..];
    assert rest == batch + after;
    FlattenAppend(slices, batch);
    Assoc(Flatten(slices), batch, after);
  }

  lemma FetchedStep(db: map<ObjId, GameObject>, got: seq<Option<GameObject>>, rest: seq<ObjId>, take: nat, ids: seq<ObjId>)
    requires take <= |rest|
    requires got + Fetched(db, rest) == Fetched(db, ids)
    ensures (got + Fetched(db, rest[..take])) + Fetched(db, rest[take..]) == Fetched(db, ids)
  {
    var batch, after := rest[..take], rest[take..];
    assert rest == batch + after;
    FetchedAppend(db, batch, after);
    Assoc(got, Fetched(db, batch), Fetched(db, after));
  }

  lemma Assoc<T>(a: seq<T>, b: seq<T>, c: seq<T>)
    ensures (a + b) + c == a + (b + c)
  {
  }

  /** The ids a chunk's query reads, as written: only its first slice (`data[0]`). */
  function FirstSlice(data: seq<seq<ObjId>>): seq<ObjId>
  {
    if data == [] then [] else data[0]
  }

  /** The ids the query is evidently meant to read: every slice, in order. */
  function ChunkIds(data: seq<seq<ObjId>>): seq<ObjId>
  {
    Flatten(data)
  }

  /** A chunk the converter packed with more than 10000 ids has its ids in several
      slices, so reading `data[0]` loses at least the ids after the first 10000. */
  lemma FirstSliceLosesObjects(data: seq<seq<ObjId>>)
    requires Packed(data) && |Flatten(data)| > THRESHOLD
    ensures |FirstSlice(data)| <= THRESHOLD < |ChunkIds(data)|
    ensures FirstSlice(data) != ChunkIds(data)
  {
    assert data != [];
  }

  /** A chunk of exactly one slice reads the same either way. */
  lemma FirstSliceOfOneSlice(data: seq<seq<ObjId>>)
    requires |data| == 1
    ensures FirstSlice(data) == ChunkIds(data)
  {
    assert data[..|data| - 1] == [];
    assert Flatten(data) == Flatten([]) + data[0];
  }

  // ---------------------------------------------------------------------------
  // `queryObjects`: the pass over the new chunks

  /** The chunk is still wanted: inside the matrix and not aborted. */
  predicate Live(c: Chunk, m: Matrix, t: int, cs: int)
  {
    WithinMatrix(m, c.cell, t, cs) && !c.aborted
  }

  /** A chunk with ids that is no longer wanted is dropped; one that is wanted is fetched;
      one without ids is skipped. */
  predicate Dropped(c: Chunk, m: Matrix, t: int, cs: int)
  {
    ChunkIds(c.data) != [] && !Live(c, m, t, cs)
  }

  /** The chunks the pass drops, in order. */
  function Drops(store: seq<Chunk>, chunks: seq<nat>, m: Matrix, t: int, cs: int): (r: seq<nat>)
    requires forall k :: 0 <= k < |chunks| ==> chunks[k] < |store|
    ensures forall k :: 0 <= k < |r| ==> r[k] < |store| && Dropped(store[r[k]], m, t, cs)
  {
    if chunks == [] then []
    else
      var last := chunks[|chunks| - 1];
      Drops(store, chunks[..|chunks| - 1], m, t, cs) + if Dropped(store[last], m, t, cs) then [last] else []
  }

  /** The objects the pass fetches, chunk after chunk. */
  function FetchedAll(db: map<ObjId, GameObject>, store: seq<Chunk>, chunks: seq<nat>, m: Matrix, t: int, cs: int): seq<Option<GameObject>>
    requires forall k :: 0 <= k < |chunks| ==> chunks[k] < |store|
  {
    if chunks == [] then []
    else
      var last := store[chunks[|chunks| - 1]];
      FetchedAll(db, store, chunks[..|chunks| - 1], m, t, cs)
        + if ChunkIds(last.data) != [] && Live(last, m, t, cs) then Fetched(db, ChunkIds(last.data)) else []
  }

  /** `createdChunks` after removing each of `ids`. */
  function WithoutAll(resident: seq<nat>, ids: seq<nat>): (r: seq<nat>)
    ensures forall x :: x in ids ==> x !in r
  {
    if ids == [] then resident
    else
      var r := Without(WithoutAll(resident, ids[..|ids| - 1]), ids[|ids| - 1]);
      WithoutAbsentAll(WithoutAll(resident, ids[..|ids| - 1]), ids[|ids| - 1], ids[..|ids| - 1]);
      assert ids == ids[..|ids| - 1] + [ids[|ids| - 1]];
      r
  }

  lemma WithoutAbsentAll(resident: seq<nat>, x: nat, ids: seq<nat>)
    requires forall y :: y in ids ==> y !in resident
    ensures forall y :: y in ids + [x] ==> y !in Without(resident, x)
  {
    WithoutOnlyRemoves(resident, x);
  }

  lemma {:induction false} WithoutOnlyRemoves(resident: seq<nat>, x: nat)
    ensures forall y :: y in Without(resident, x) ==> y in resident && y != x
  {
    if resident != [] {
      WithoutOnlyRemoves(resident[1..], x);
      assert resident == [resident[0]] + resident[1..];
    }
  }

  /** One `cleanUp-chunk` per dropped chunk. */
  function CleanUps(store: seq<Chunk>, ids: seq<nat>): (r: seq<Post>)
    requires forall k :: 0 <= k < |ids| ==> ids[k] < |store|
    ensures |r| == |ids| && forall k :: 0 <= k < |ids| ==> r[k] == CleanUpChunk(store[ids[k]].clientKey)
  {
    if ids == [] then [] else CleanUps(store, ids[..|ids| - 1]) + [CleanUpChunk(store[ids[|ids| - 1]].clientKey)]
  }

  /** `store'` is `store` with exactly the chunks of `ids` aborted. */
  predicate AbortedAt(store: seq<Chunk>, store': seq<Chunk>, ids: seq<nat>)
  {
    |store'| == |store| && forall k :: 0 <= k < |store| ==> store'[k] == if k in ids then store[k].(aborted := true) else store[k]
  }

  ghost predicate QueryState(store: seq<Chunk>, resident: seq<nat>, m: Matrix, t: int, cs: int, chunks: seq<nat>,
                             db: map<ObjId, GameObject>, i: nat,
                             store': seq<Chunk>, resident': seq<nat>, posted: seq<Post>, fetched: seq<Option<GameObject>>)
  {
    && ResidentOk(store, resident) && i <= |chunks|
    && (forall k :: 0 <= k < |chunks| ==> chunks[k] < |store|)
    && AbortedAt(store, store', Drops(store, chunks[..i], m, t, cs))
    && ResidentOk(store', resident')
    && resident' == WithoutAll(resident, Drops(store, chunks[..i], m, t, cs))
    && posted == CleanUps(store, Drops(store, chunks[..i], m, t, cs))
    && fetched == FetchedAll(db, store, chunks[..i], m, t, cs)
  }

  /** Aborting a dropped chunk again changes nothing the pass looks at: the chunk at
      `id` gets the same verdict in the current store as in the first one. */
  lemma SameVerdict(store: seq<Chunk>, store': seq<Chunk>, ids: seq<nat>, id: nat, m: Matrix, t: int, cs: int)
    requires AbortedAt(store, store', ids) && id < |store|
    requires forall k :: 0 <= k < |ids| ==> ids[k] < |store| && Dropped(store[ids[k]], m, t, cs)
    ensures store'[id].cell == store[id].cell && store'[id].data == store[id].data
    ensures store'[id].clientKey == store[id].clientKey
    ensures Live(store'[id], m, t, cs) == Live(store[id], m, t, cs)
  {
    if id in ids {
      var k :| 0 <= k < |ids| && ids[k] == id;
      assert Dropped(store[ids[k]], m, t, cs);
    }
  }

  lemma PrefixStep<T>(s: seq<T>, i: nat)
    requires i < |s|
    ensures s[..i + 1][..i] == s[..i] && s[..i + 1][i] == s[i]
  {
  }

  lemma WholePrefix<T>(s: seq<T>)
    ensures s[..|s|] == s
  {
  }

  lemma DropsStep(store: seq<Chunk>, chunks: seq<nat>, i: nat, m: Matrix, t: int, cs: int)
    requires i < |chunks| && forall k :: 0 <= k < |chunks| ==> chunks[k] < |store|
    ensures Drops(store, chunks[..i + 1], m, t, cs)
      == Drops(store, chunks[..i], m, t, cs) + if Dropped(store[chunks[i]], m, t, cs) then [chunks[i]] else []
  {
    PrefixStep(chunks, i);
  }

  lemma FetchedAllStep(db: map<ObjId, GameObject>, store: seq<Chunk>, chunks: seq<nat>, i: nat, m: Matrix, t: int, cs: int)
    requires i < |chunks| && forall k :: 0 <= k < |chunks| ==> chunks[k] < |store|
    ensures var c := store[chunks[i]];
      FetchedAll(db, store, chunks[..i + 1], m, t, cs)
        == FetchedAll(db, store, chunks[..i], m, t, cs)
           + if ChunkIds(c.data) != [] && Live(c, m, t, cs) then Fetched(db, ChunkIds(c.data)) else []
  {
    PrefixStep(chunks, i);
  }

  lemma QueryStepSkip(store: seq<Chunk>, resident: seq<nat>, m: Matrix, t: int, cs: int, chunks: seq<nat>,
                      db: map<ObjId, GameObject>, i: nat,
                      store': seq<Chunk>, resident': seq<nat>, posted: seq<Post>, fetched: seq<Option<GameObject>>)
    requires QueryState(store, resident, m, t, cs, chunks, db, i, store', resident', posted, fetched) && i < |chunks|
    requires ChunkIds(store'[chunks[i]].data) == []
    ensures QueryState(store, resident, m, t, cs, chunks, db, i + 1, store', resident', posted, fetched)
  {
    SameVerdict(store, store', Drops(store, chunks[..i], m, t, cs), chunks[i], m, t, cs);
    DropsStep(store, chunks, i, m, t, cs);
    FetchedAllStep(db, store, chunks, i, m, t, cs);
    assert Drops(store, chunks[..i], m, t, cs) + [] == Drops(store, chunks[..i], m, t, cs);
    assert fetched + [] == fetched;
  }

  lemma QueryStepFetch(store: seq<Chunk>, resident: seq<nat>, m: Matrix, t: int, cs: int, chunks: seq<nat>,
                       db: map<ObjId, GameObject>, i: nat,
                       store': seq<Chunk>, resident': seq<nat>, posted: seq<Post>, fetched: seq<Option<GameObject>>)
    requires QueryState(store, resident, m, t, cs, chunks, db, i, store', resident', posted, fetched) && i < |chunks|
    requires ChunkIds(store'[chunks[i]].data) != [] && Live(store'[chunks[i]], m, t, cs)
    ensures QueryState(store, resident, m, t, cs, chunks, db, i + 1, store', resident', posted,
                       fetched + Fetched(db, ChunkIds(store'[chunks[i]].data)))
  {
    SameVerdict(store, store', Drops(store, chunks[..i], m, t, cs), chunks[i], m, t, cs);
    DropsStep(store, chunks, i, m, t, cs);
    FetchedAllStep(db, store, chunks, i, m, t, cs);
    assert Drops(store, chunks[..i], m, t, cs) + [] == Drops(store, chunks[..i], m, t, cs);
  }

  lemma QueryStepDrop(store: seq<Chunk>, resident: seq<nat>, m: Matrix, t: int, cs: int, chunks: seq<nat>,
                      db: map<ObjId, GameObject>, i: nat,
                      store': seq<Chunk>, resident': seq<nat>, posted: seq<Post>, fetched: seq<Option<GameObject>>)
    requires QueryState(store, resident, m, t, cs, chunks, db, i, store', resident', posted, fetched) && i < |chunks|
    requires Dropped(store'[chunks[i]], m, t, cs)
    ensures var id := chunks[i];
      QueryState(store, resident, m, t, cs, chunks, db, i + 1, store'[id := store'[id].(aborted := true)],
                 Without(resident', id), posted + [CleanUpChunk(store'[id].clientKey)], fetched)
  {
    var id := chunks[i];
    var ds := Drops(store, chunks[..i], m, t, cs);
    SameVerdict(store, store', ds, id, m, t, cs);
    DropsStep(store, chunks, i, m, t, cs);
    FetchedAllStep(db, store, chunks, i, m, t, cs);
    assert fetched + [] == fetched;
    var aborted := store'[id := store'[id].(aborted := true)];
    assert AbortedAt(store, aborted, ds + [id]);
    Relabel(store', aborted, resident');
    WithoutKeys(aborted, resident', id);
  }

  /** The pass of `queryObjects` over the new chunks: a chunk without ids is skipped, a
      chunk no longer wanted is aborted and dropped from `createdChunks` (posting
      `cleanUp-chunk`), and the objects of every other chunk are fetched. */
  method QueryChunks(store: seq<Chunk>, resident: seq<nat>, m: Matrix, t: int, cs: int, chunks: seq<nat>,
                     db: map<ObjId, GameObject>)
    returns (store': seq<Chunk>, resident': seq<nat>, posted: seq<Post>, fetched: seq<Option<GameObject>>)
    requires ResidentOk(store, resident)
    requires forall k :: 0 <= k < |chunks| ==> chunks[k] < |store|
    ensures AbortedAt(store, store', Drops(store, chunks, m, t, cs))
    ensures ResidentOk(store', resident')
    ensures resident' == WithoutAll(resident, Drops(store, chunks, m, t, cs))
    ensures posted == CleanUps(store, Drops(store, chunks, m, t, cs))
    ensures fetched == FetchedAll(db, store, chunks, m, t, cs)
  {
    store', resident', posted, fetched := store, resident, [], [];
    assert chunks[..0] == [];
    var i := 0;
    while i < |chunks|
      invariant QueryState(store, resident, m, t, cs, chunks, db, i, store', resident', posted, fetched)
    {
      var id := chunks[i];
      var ids := ChunkIds(store'[id].data);
      if ids == [] {
        QueryStepSkip(store, resident, m, t, cs, chunks, db, i, store', resident', posted, fetched);
      } else if !WithinMatrix(m, store'[id].cell, t, cs) || store'[id].aborted {
        QueryStepDrop(store, resident, m, t, cs, chunks, db, i, store', resident', posted, fetched);
        posted := posted + [CleanUpChunk(store'[id].clientKey)];
        store' := store'[id := store'[id].(aborted := true)];
        resident' := Without(resident', id);
      } else {
        QueryStepFetch(store, resident, m, t, cs, chunks, db, i, store', resident', posted, fetched);
        var got, _ := FetchInBatches(db, ids);
        fetched := fetched + got;
      }
      i := i + 1;
    }
    assert chunks[..i] == chunks;
  }

  // ---------------------------------------------------------------------------
  // `queryObjects`: grouping the fetched objects by chunk

  /** An entry of `chunkObjects`: a cell, the chunk `chunks.find` gave for it, and its
      objects in fetch order. */
  datatype Group = Group(cell: Cell, chunk: Option<nat>, objects: seq<GameObject>)

  /** The cell an object lies in: `Math.floor(v / width) * width` on each axis, with the
      chunk size as the width. */
  function CellOf(o: GameObject, cs: int): Cell
    requires cs > 0
  {
    Cell(Snap(o.x, cs), Snap(o.y, cs))
  }

  /** `chunks.find(c => c.x === x && c.y === y)`: the first listed chunk at the cell. */
  function ChunkAt(store: seq<Chunk>, chunks: seq<nat>, c: Cell): (r: Option<nat>)
    requires forall k :: 0 <= k < |chunks| ==> chunks[k] < |store|
    ensures r.Some? ==> r.value in chunks && store[r.value].cell == c
    ensures r.None? ==> forall k :: 0 <= k < |chunks| ==> store[chunks[k]].cell != c
  {
    if chunks == [] then None
    else if store[chunks[0]].cell == c then Some(chunks[0])
    else ChunkAt(store, chunks[1..], c)
  }

  /** `chunkObjects.has(key)`, with the position of the entry. */
  function GroupIndex(gs: seq<Group>, c: Cell): (r: Option<nat>)
    ensures r.Some? ==> r.value < |gs| && gs[r.value].cell == c
    ensures r.None? ==> forall k :: 0 <= k < |gs| ==> gs[k].cell != c
  {
    if gs == [] then None
    else if gs[|gs| - 1].cell == c then Some(|gs| - 1)
    else GroupIndex(gs[..|gs| - 1], c)
  }

  /** One object into the map: appended to its cell's entry, or to a new entry at the end. */
  function Place(gs: seq<Group>, o: GameObject, store: seq<Chunk>, chunks: seq<nat>, cs: int): seq<Group>
    requires cs > 0 && forall k :: 0 <= k < |chunks| ==> chunks[k] < |store|
  {
    var c := CellOf(o, cs);
    match GroupIndex(gs, c)
    case Some(k) => gs[k := gs[k].(objects := gs[k].objects + [o])]
    case None => gs + [Group(c, ChunkAt(store, chunks, c), [o])]
  }

  /** The map after placing every object, in order. */
  function Groups(objs: seq<GameObject>, store: seq<Chunk>, chunks: seq<nat>, cs: int): seq<Group>
    requires cs > 0 && forall k :: 0 <= k < |chunks| ==> chunks[k] < |store|
  {
    if objs == [] then [] else Place(Groups(objs[..|objs| - 1], store, chunks, cs), objs[|objs| - 1], store, chunks, cs)
  }

  /** The objects of `objs` that lie in cell `c`, in order. */
  function WithCell(objs: seq<GameObject>, c: Cell, cs: int): seq<GameObject>
    requires cs > 0
  {
    if objs == [] then []
    else WithCell(objs[..|objs| - 1], c, cs) + if CellOf(objs[|objs| - 1], cs) == c then [objs[|objs| - 1]] else []
  }

  lemma WithCellSnoc(objs: seq<GameObject>, o: GameObject, c: Cell, cs: int)
    requires cs > 0
    ensures WithCell(objs + [o], c, cs) == WithCell(objs, c, cs) + if CellOf(o, cs) == c then [o] else []
  {
    assert (objs + [o])[..|objs|] == objs;
  }

  lemma {:induction false} WithCellNone(objs: seq<GameObject>, c: Cell, cs: int)
    requires cs > 0 && forall k :: 0 <= k < |objs| ==> CellOf(objs[k], cs) != c
    ensures WithCell(objs, c, cs) == []
  {
    if objs != [] {
      WithCellNone(objs[..|objs| - 1], c, cs);
    }
  }

  /** What the map means: one entry per cell, each holding exactly the objects of its
      cell in fetch order and the chunk `find` gives for it, and an entry for the cell
      of every object. */
  ghost predicate GroupsOk(gs: seq<Group>, objs: seq<GameObject>, store: seq<Chunk>, chunks: seq<nat>, cs: int)
    requires cs > 0 && forall k :: 0 <= k < |chunks| ==> chunks[k] < |store|
  {
    && DistinctCells(gs)
    && ObjectsOk(gs, objs, cs)
    && ChunksOk(gs, store, chunks)
    && Covered(gs, objs, cs)
  }

  ghost predicate DistinctCells(gs: seq<Group>)
  {
    forall j, k :: 0 <= j < k < |gs| ==> gs[j].cell != gs[k].cell
  }

  ghost predicate ObjectsOk(gs: seq<Group>, objs: seq<GameObject>, cs: int)
    requires cs > 0
  {
    forall k :: 0 <= k < |gs| ==> gs[k].objects == WithCell(objs, gs[k].cell, cs)
  }

  ghost predicate ChunksOk(gs: seq<Group>, store: seq<Chunk>, chunks: seq<nat>)
    requires forall k :: 0 <= k < |chunks| ==> chunks[k] < |store|
  {
    forall k :: 0 <= k < |gs| ==> gs[k].chunk == ChunkAt(store, chunks, gs[k].cell)
  }

  ghost predicate Covered(gs: seq<Group>, objs: seq<GameObject>, cs: int)
    requires cs > 0
  {
    forall k :: 0 <= k < |objs| ==> GroupIndex(gs, CellOf(objs[k], cs)).Some?
  }

  /** Appending to an existing entry keeps the entries' cells and chunks. */
  lemma AppendKeepsCells(gs: seq<Group>, k: nat, o: GameObject, store: seq<Chunk>, chunks: seq<nat>)
    requires k < |gs| && forall i :: 0 <= i < |chunks| ==> chunks[i] < |store|
    requires DistinctCells(gs) && ChunksOk(gs, store, chunks)
    ensures DistinctCells(gs[k := gs[k].(objects := gs[k].objects + [o])])
    ensures ChunksOk(gs[k := gs[k].(objects := gs[k].objects + [o])], store, chunks)
  {
  }

  /** A new entry for a cell no entry has keeps the cells distinct and the chunks right. */
  lemma NewKeepsCells(gs: seq<Group>, c: Cell, o: GameObject, store: seq<Chunk>, chunks: seq<nat>)
    requires forall i :: 0 <= i < |chunks| ==> chunks[i] < |store|
    requires DistinctCells(gs) && ChunksOk(gs, store, chunks) && GroupIndex(gs, c).None?
    ensures DistinctCells(gs + [Group(c, ChunkAt(store, chunks, c), [o])])
    ensures ChunksOk(gs + [Group(c, ChunkAt(store, chunks, c), [o])], store, chunks)
  {
  }

  /** The entries that hold their cell's objects keep doing so when the object is
      appended to the entry of its own cell. */
  lemma PlacedObjects(gs: seq<Group>, gs': seq<Group>, objs: seq<GameObject>, o: GameObject, cs: int)
    requires cs > 0 && |gs| <= |gs'|
    requires forall j :: 0 <= j < |gs| ==> gs'[j].cell == gs[j].cell
    requires forall j :: 0 <= j < |gs| ==> gs'[j].objects == gs[j].objects + if gs[j].cell == CellOf(o, cs) then [o] else []
    requires forall j :: |gs| <= j < |gs'| ==> gs'[j].objects == [o] && gs'[j].cell == CellOf(o, cs) && WithCell(objs, gs'[j].cell, cs) == []
    requires ObjectsOk(gs, objs, cs)
    ensures ObjectsOk(gs', objs + [o], cs)
  {
    forall j | 0 <= j < |gs'|
      ensures gs'[j].objects == WithCell(objs + [o], gs'[j].cell, cs)
    {
      WithCellSnoc(objs, o, gs'[j].cell, cs);
    }
  }

  /** Every cell that had an entry still has one, and so does the new object's. */
  lemma PlacedCovered(gs: seq<Group>, gs': seq<Group>, objs: seq<GameObject>, o: GameObject, cs: int)
    requires cs > 0 && |gs| <= |gs'|
    requires forall j :: 0 <= j < |gs| ==> gs'[j].cell == gs[j].cell
    requires GroupIndex(gs', CellOf(o, cs)).Some?
    requires Covered(gs, objs, cs)
    ensures Covered(gs', objs + [o], cs)
  {
    forall j | 0 <= j < |objs| + 1
      ensures GroupIndex(gs', CellOf((objs + [o])[j], cs)).Some?
    {
      if j < |objs| {
        assert (objs + [o])[j] == objs[j];
        var d := CellOf(objs[j], cs);
        assert gs'[GroupIndex(gs, d).value].cell == d;
      }
    }
  }

  lemma PlaceFound(gs: seq<Group>, objs: seq<GameObject>, o: GameObject, store: seq<Chunk>, chunks: seq<nat>, cs: int)
    requires cs > 0 && forall k :: 0 <= k < |chunks| ==> chunks[k] < |store|
    requires GroupsOk(gs, objs, store, chunks, cs) && GroupIndex(gs, CellOf(o, cs)).Some?
    ensures GroupsOk(Place(gs, o, store, chunks, cs), objs + [o], store, chunks, cs)
  {
    var c := CellOf(o, cs);
    var k := GroupIndex(gs, c).value;
    var gs' := gs[k := gs[k].(objects := gs[k].objects + [o])];
    assert Place(gs, o, store, chunks, cs) == gs';
    AppendKeepsCells(gs, k, o, store, chunks);
    PlacedObjects(gs, gs', objs, o, cs);
    assert gs'[k].cell == c;
    PlacedCovered(gs, gs', objs, o, cs);
  }

  lemma PlaceNew(gs: seq<Group>, objs: seq<GameObject>, o: GameObject, store: seq<Chunk>, chunks: seq<nat>, cs: int)
    requires cs > 0 && forall k :: 0 <= k < |chunks| ==> chunks[k] < |store|
    requires GroupsOk(gs, objs, store, chunks, cs) && GroupIndex(gs, CellOf(o, cs)).None?
    ensures GroupsOk(Place(gs, o, store, chunks, cs), objs + [o], store, chunks, cs)
  {
    var c := CellOf(o, cs);
    var gs' := gs + [Group(c, ChunkAt(store, chunks, c), [o])];
    assert Place(gs, o, store, chunks, cs) == gs';
    NewKeepsCells(gs, c, o, store, chunks);
    forall k | 0 <= k < |objs| ensures CellOf(objs[k], cs) != c {
      assert GroupIndex(gs, CellOf(objs[k], cs)).Some?;
    }
    WithCellNone(objs, c, cs);
    PlacedObjects(gs, gs', objs, o, cs);
    assert gs'[|gs|].cell == c;
    PlacedCovered(gs, gs', objs, o, cs);
  }

  /** The map `queryObjects` builds is the grouping of the fetched objects by cell. */
  lemma {:induction false} GroupsCorrect(objs: seq<GameObject>, store: seq<Chunk>, chunks: seq<nat>, cs: int)
    requires cs > 0 && forall k :: 0 <= k < |chunks| ==> chunks[k] < |store|
    ensures GroupsOk(Groups(objs, store, chunks, cs), objs, store, chunks, cs)
  {
    if objs != [] {
      var init, o := objs[..|objs| - 1], objs[|objs| - 1];
      GroupsCorrect(init, store, chunks, cs);
      assert objs == init + [o];
      if GroupIndex(Groups(init, store, chunks, cs), CellOf(o, cs)).Some? {
        PlaceFound(Groups(init, store, chunks, cs), init, o, store, chunks, cs);
      } else {
        PlaceNew(Groups(init, store, chunks, cs), init, o, store, chunks, cs);
      }
    }
  }

  /** The fetched objects, when `bulkGet` found every id; reading `x` of an `undefined`
      entry throws, and the query then yields nothing. */
  function Present(all: seq<Option<GameObject>>): (r: Option<seq<GameObject>>)
    ensures r.Some? ==> |r.value| == |all|
  {
    if all == [] then Some([])
    else
      var init := Present(all[..|all| - 1]);
      if init.None? || all[|all| - 1].None? then None else Some(init.value + [all[|all| - 1].value])
  }

  lemma {:induction false} PresentHole(all: seq<Option<GameObject>>, i: nat)
    requires i < |all| && all[i].None?
    ensures Present(all) == None
  {
    if i < |all| - 1 {
      PresentHole(all[..|all| - 1], i);
    }
  }

  /** Every object found, and only those, in fetch order. */
  lemma {:induction false} PresentAll(all: seq<Option<GameObject>>)
    ensures Present(all).Some? <==> forall k :: 0 <= k < |all| ==> all[k].Some?
    ensures Present(all).Some? ==> forall k :: 0 <= k < |all| ==> Present(all).value[k] == all[k].value
  {
    if all != [] {
      var init := all[..|all| - 1];
      PresentAll(init);
    }
  }

  lemma GroupStep(all: seq<Option<GameObject>>, i: nat, done: seq<GameObject>, store: seq<Chunk>, chunks: seq<nat>, cs: int)
    requires cs > 0 && forall k :: 0 <= k < |chunks| ==> chunks[k] < |store|
    requires i < |all| && all[i].Some? && Present(all[..i]) == Some(done)
    ensures Present(all[..i + 1]) == Some(done + [all[i].value])
    ensures Groups(done + [all[i].value], store, chunks, cs) == Place(Groups(done, store, chunks, cs), all[i].value, store, chunks, cs)
  {
    assert all[..i + 1][..i] == all[..i] && all[..i + 1][i] == all[i];
    assert (done + [all[i].value])[..|done|] == done;
  }

  /** The grouping loop of `queryObjects`: each object goes to its cell's entry, made on
      first sight with the chunk `find` gives; an `undefined` object throws. */
  method GroupObjects(all: seq<Option<GameObject>>, store: seq<Chunk>, chunks: seq<nat>, cs: int) returns (r: Option<seq<Group>>)
    requires cs > 0 && forall k :: 0 <= k < |chunks| ==> chunks[k] < |store|
    ensures r == if Present(all).None? then None else Some(Groups(Present(all).value, store, chunks, cs))
  {
    var groups: seq<Group> := [];
    ghost var done: seq<GameObject> := [];
    var i := 0;
    while i < |all|
      invariant i <= |all| && Present(all[..i]) == Some(done)
      invariant groups == Groups(done, store, chunks, cs)
    {
      if all[i].None? {
        PresentHole(all, i);
        return None;
      }
      var o := all[i].value;
      GroupStep(all, i, done, store, chunks, cs);
      ghost var placed := Place(groups, o, store, chunks, cs);
      var c := CellOf(o, cs);
      var has := GroupIndex(groups, c);
      if has.None? {
        groups := groups + [Group(c, ChunkAt(store, chunks, c), [o])];
      } else {
        var k := has.value;
        groups := groups[k := groups[k].(objects := groups[k].objects + [o])];
      }
      assert groups == placed;
      done := done + [o];
      i := i + 1;
    }
    WholePrefix(all);
    r := Some(groups);
  }

  /** A chunk and the objects to create in it. */
  datatype Payload = Payload(chunk: nat, objects: seq<GameObject>)

  /** `payload.chunk.data = []` for every entry: an entry whose cell has no chunk in the
      list throws, and the query then yields nothing. */
  function Payloads(gs: seq<Group>): (r: Option<seq<Payload>>)
    ensures r.Some? <==> forall k :: 0 <= k < |gs| ==> gs[k].chunk.Some?
    ensures r.Some? ==> |r.value| == |gs| && forall k :: 0 <= k < |gs| ==> r.value[k] == Payload(gs[k].chunk.value, gs[k].objects)
  {
    if gs == [] then Some([])
    else
      var rest := Payloads(gs[1..]);
      if gs[0].chunk.None? || rest.None? then None
      else Some([Payload(gs[0].chunk.value, gs[0].objects)] + rest.value)
  }

  /** Aborting chunks keeps every cell, so the grouping is the same. */
  lemma {:induction false} GroupsSameCells(objs: seq<GameObject>, store: seq<Chunk>, store': seq<Chunk>, chunks: seq<nat>, cs: int, ds: seq<nat>)
    requires cs > 0 && forall k :: 0 <= k < |chunks| ==> chunks[k] < |store|
    requires AbortedAt(store, store', ds)
    ensures Groups(objs, store', chunks, cs) == Groups(objs, store, chunks, cs)
  {
    assert forall c :: ChunkAt(store', chunks, c) == ChunkAt(store, chunks, c) by {
      forall c ensures ChunkAt(store', chunks, c) == ChunkAt(store, chunks, c) {
        ChunkAtSameCells(store, store', chunks, c, ds);
      }
    }
    if objs != [] {
      GroupsSameCells(objs[..|objs| - 1], store, store', chunks, cs, ds);
    }
  }

  lemma {:induction false} ChunkAtSameCells(store: seq<Chunk>, store': seq<Chunk>, chunks: seq<nat>, c: Cell, ds: seq<nat>)
    requires forall k :: 0 <= k < |chunks| ==> chunks[k] < |store|
    requires AbortedAt(store, store', ds)
    ensures ChunkAt(store', chunks, c) == ChunkAt(store, chunks, c)
  {
    if chunks != [] {
      assert store'[chunks[0]].cell == store[chunks[0]].cell;
      ChunkAtSameCells(store, store', chunks[1..], c, ds);
    }
  }

  /** The payloads of the groups name chunks of the list. */
  lemma PayloadChunks(objs: seq<GameObject>, store: seq<Chunk>, chunks: seq<nat>, cs: int)
    requires cs > 0 && forall k :: 0 <= k < |chunks| ==> chunks[k] < |store|
    requires Payloads(Groups(objs, store, chunks, cs)).Some?
    ensures var ps := Payloads(Groups(objs, store, chunks, cs)).value;
      forall k :: 0 <= k < |ps| ==> ps[k].chunk in chunks && store[ps[k].chunk].cell == Groups(objs, store, chunks, cs)[k].cell
  {
    GroupsCorrect(objs, store, chunks, cs);
  }

  // ---------------------------------------------------------------------------
  // `ObjectCreator`

  /** Every timer job names a chunk that exists and a position within its objects. */
  ghost predicate JobsOk(es: seq<Entry>, n: nat)
  {
    forall k :: 0 <= k < |es| ==> es[k].job.chunk < n && es[k].job.next <= |es[k].job.objects|
  }

  lemma {:induction false} DueJobsOk(es: seq<Entry>, now: int, n: nat)
    requires JobsOk(es, n)
    ensures forall j :: 0 <= j < |DueJobs(es, now)| ==> DueJobs(es, now)[j].chunk < n && DueJobs(es, now)[j].next <= |DueJobs(es, now)[j].objects|
  {
    if es != [] {
      DueJobsOk(es[1..], now, n);
    }
  }

  lemma {:induction false} WaitingOk(es: seq<Entry>, now: int, n: nat)
    requires JobsOk(es, n)
    ensures JobsOk(Waiting(es, now), n)
  {
    if es != [] {
      WaitingOk(es[1..], now, n);
    }
  }

  /** The first batch of each payload, due after the delay from `now`. */
  function Starts(ps: seq<Payload>, now: int): (r: seq<Entry>)
    ensures |r| == |ps|
    ensures forall k :: 0 <= k < |ps| ==> r[k] == Entry(Batch(ps[k].chunk, ps[k].objects, 0), CreateObjectBatchDelay, now)
  {
    if ps == [] then [] else Starts(ps[..|ps| - 1], now) + [Entry(Batch(ps[|ps| - 1].chunk, ps[|ps| - 1].objects, 0), CreateObjectBatchDelay, now)]
  }

  /** The outcome of a query: the payloads to create, or nothing when the list was
      empty or the query threw. */
  function QueryOutcome(db: map<ObjId, GameObject>, store: seq<Chunk>, chunks: seq<nat>, m: Matrix, t: int, cs: int): Option<seq<Payload>>
    requires cs > 0 && forall k :: 0 <= k < |chunks| ==> chunks[k] < |store|
  {
    if chunks == [] then None
    else
      var objs := Present(FetchedAll(db, store, chunks, m, t, cs));
      if objs.None? then None else Payloads(Groups(objs.value, store, chunks, cs))
  }

  /** `queryObjects` on the chunk creator's state: the pass over the chunks, the
      grouping, and the chunk of each group. */
  method QueryObjects(store: seq<Chunk>, resident: seq<nat>, m: Matrix, t: int, cs: int, chunks: seq<nat>,
                      db: map<ObjId, GameObject>)
    returns (store': seq<Chunk>, resident': seq<nat>, posted: seq<Post>, payloads: Option<seq<Payload>>)
    requires ResidentOk(store, resident) && cs > 0
    requires forall k :: 0 <= k < |chunks| ==> chunks[k] < |store|
    ensures var ds := if chunks == [] then [] else Drops(store, chunks, m, t, cs);
      && AbortedAt(store, store', ds) && ResidentOk(store', resident')
      && resident' == WithoutAll(resident, ds)
      && posted == CleanUps(store, ds)
    ensures payloads == QueryOutcome(db, store, chunks, m, t, cs)
    ensures payloads.Some? ==> forall k :: 0 <= k < |payloads.value| ==> payloads.value[k].chunk in chunks
  {
    store', resident', posted, payloads := store, resident, [], None;
    if chunks == [] {
      assert AbortedAt(store, store, []);
      return;
    }
    var fetched;
    store', resident', posted, fetched := QueryChunks(store, resident, m, t, cs, chunks, db);
    var groups := GroupObjects(fetched, store', chunks, cs);
    if groups.None? {
      return;
    }
    ghost var objs := Present(fetched).value;
    GroupsSameCells(objs, store, store', chunks, cs, Drops(store, chunks, m, t, cs));
    payloads := Payloads(groups.value);
    if payloads.Some? {
      PayloadChunks(objs, store, chunks, cs);
    }
  }

  // ---------------------------------------------------------------------------
  // A pass of the timer as a value

  /** What a timer job leaves: the arena and `createdChunks`, the posts, whether the
      chunk's creation finished, and the entry set for its next batch. */
  datatype JobResult = JobResult(store: seq<Chunk>, resident: seq<nat>, posted: seq<Post>, finished: bool, requeued: seq<Entry>)

  /** The job of a chunk's batch: post the batch; when it was the last one (or the chunk
      was aborted) `onChunkReady` runs, otherwise the rest is set one delay from `now`. */
  function JobOutcome(store: seq<Chunk>, resident: seq<nat>, job: Job, now: int, m: Matrix, t: int, cs: int): (r: JobResult)
    requires WorkerChunks.IdsIn(store, resident) && job.chunk < |store| && job.next <= |job.objects|
    ensures |r.store| == |store| && WorkerChunks.IdsIn(r.store, r.resident)
  {
    var c := store[job.chunk];
    var idx := if c.aborted then job.next else Min(|job.objects|, job.next + CreateObjectBatchSize);
    var creates := Creates(Info(c, cs), job.objects[job.next..idx]);
    if idx == |job.objects| || c.aborted then
      var e := Ready(store, resident, job.chunk, m, t, cs);
      JobResult(e.store, e.resident, creates + e.posted, true, [])
    else
      JobResult(store, resident, creates, false, [Entry(Batch(job.chunk, job.objects, idx), CreateObjectBatchDelay, now)])
  }

  /** A job posts the creation of the next batch of at most `CreateObjectBatchSize`
      objects (none once the chunk is aborted). When objects remain, the rest is set
      again one delay from `now` and nothing else changes; when the batch was the last
      or the chunk is aborted, nothing is set again, the chunk is settled and every
      chunk left in `createdChunks` is inside the matrix. */
  lemma JobOutcomeFacts(store: seq<Chunk>, resident: seq<nat>, job: Job, now: int, m: Matrix, t: int, cs: int)
    requires WorkerChunks.IdsIn(store, resident) && job.chunk < |store| && job.next <= |job.objects|
    ensures var c := store[job.chunk];
      var idx := if c.aborted then job.next else Min(|job.objects|, job.next + CreateObjectBatchSize);
      var creates := Creates(Info(c, cs), job.objects[job.next..idx]);
      var r := JobOutcome(store, resident, job, now, m, t, cs);
      && idx - job.next <= CreateObjectBatchSize
      && (r.finished <==> idx == |job.objects| || c.aborted)
      && |creates| <= |r.posted| && r.posted[..|creates|] == creates
      && (!r.finished ==>
            && r.posted == creates && r.store == store && r.resident == resident
            && r.requeued == [Entry(Batch(job.chunk, job.objects, idx), CreateObjectBatchDelay, now)])
      && (r.finished ==> r.requeued == [] && r.store[job.chunk].settled)
    ensures JobOutcome(store, resident, job, now, m, t, cs).finished ==>
      forall k :: 0 <= k < |JobOutcome(store, resident, job, now, m, t, cs).resident| ==>
        WithinMatrix(m, JobOutcome(store, resident, job, now, m, t, cs).store[JobOutcome(store, resident, job, now, m, t, cs).resident[k]].cell, t, cs)
  {
    var c := store[job.chunk];
    var idx := if c.aborted then job.next else Min(|job.objects|, job.next + CreateObjectBatchSize);
    var creates := Creates(Info(c, cs), job.objects[job.next..idx]);
    if idx == |job.objects| || c.aborted {
      ReadySettles(store, resident, job.chunk, m, t, cs);
      var e := Ready(store, resident, job.chunk, m, t, cs);
      assert (creates + e.posted)[..|creates|] == creates;
    }
  }

  /** The jobs of a pass, run in order. */
  datatype Pass = Pass(store: seq<Chunk>, resident: seq<nat>, posted: seq<Post>, finished: seq<nat>, requeued: seq<Entry>)

  /** Valid jobs for an arena of `n` chunks. */
  predicate JobsFit(jobs: seq<Job>, n: nat)
  {
    forall j :: 0 <= j < |jobs| ==> jobs[j].chunk < n && jobs[j].next <= |jobs[j].objects|
  }

  /** The jobs due in one pass of the timer, run one after the other. */
  function RunAll(store: seq<Chunk>, resident: seq<nat>, jobs: seq<Job>, now: int, m: Matrix, t: int, cs: int): (p: Pass)
    requires WorkerChunks.IdsIn(store, resident) && JobsFit(jobs, |store|)
    ensures |p.store| == |store| && WorkerChunks.IdsIn(p.store, p.resident)
    ensures forall j :: 0 <= j < |p.finished| ==> p.finished[j] < |store|
    decreases |jobs|
  {
    if jobs == [] then Pass(store, resident, [], [], [])
    else
      var n := |jobs| - 1;
      var p := RunAll(store, resident, jobs[..n], now, m, t, cs);
      var r := JobOutcome(p.store, p.resident, jobs[n], now, m, t, cs);
      Pass(r.store, r.resident, p.posted + r.posted, p.finished + (if r.finished then [jobs[n].chunk] else []),
           p.requeued + r.requeued)
  }

  /** What runs once a chunk's creation resolves: a chunk no longer live is aborted,
      leaves `createdChunks` and has its objects destroyed. */
  function AfterCreateOutcome(store: seq<Chunk>, resident: seq<nat>, i: nat, m: Matrix, t: int, cs: int): (e: Eviction)
    requires i < |store|
    ensures |e.store| == |store|
  {
    var c := store[i];
    if Live(c, m, t, cs) then Eviction(store, resident, [])
    else Eviction(store[i := c.(aborted := true)], Without(resident, i), [CleanUpChunk(c.clientKey), ObjectDestroy(c.clientKey)])
  }

  /** `AfterCreateOutcome` for each finished chunk, in the order they finished. */
  function AfterAll(store: seq<Chunk>, resident: seq<nat>, finished: seq<nat>, m: Matrix, t: int, cs: int): (e: Eviction)
    requires forall j :: 0 <= j < |finished| ==> finished[j] < |store|
    ensures |e.store| == |store|
    decreases |finished|
  {
    if finished == [] then Eviction(store, resident, [])
    else
      var n := |finished| - 1;
      var e := AfterAll(store, resident, finished[..n], m, t, cs);
      var f := AfterCreateOutcome(e.store, e.resident, finished[n], m, t, cs);
      Eviction(f.store, f.resident, e.posted + f.posted)
  }

  /** What a pass of the timer leaves. */
  datatype TimerResult = TimerResult(store: seq<Chunk>, resident: seq<nat>, posted: seq<Post>, entries: seq<Entry>)

  /** `execute` at `now`: the due jobs run in order, the finished chunks get their
      `AfterCreate`, the entries not due wait, followed by the batches set meanwhile. */
  function TimerPass(store: seq<Chunk>, resident: seq<nat>, entries: seq<Entry>, now: int, m: Matrix, t: int, cs: int): (r: TimerResult)
    requires WorkerChunks.IdsIn(store, resident) && JobsOk(entries, |store|)
    ensures |r.store| == |store|
  {
    DueJobsOk(entries, now, |store|);
    var run := RunAll(store, resident, DueJobs(entries, now), now, m, t, cs);
    var after := AfterAll(run.store, run.resident, run.finished, m, t, cs);
    TimerResult(after.store, after.resident, run.posted + after.posted, Waiting(entries, now) + run.requeued)
  }

  /** Entries set during a pass are one delay from `now`, so none of them is due at
      `now`; the entries that were not due keep their place in front. */
  lemma TimerPassEntries(store: seq<Chunk>, resident: seq<nat>, entries: seq<Entry>, now: int, m: Matrix, t: int, cs: int)
    requires WorkerChunks.IdsIn(store, resident) && JobsOk(entries, |store|)
    ensures var r := TimerPass(store, resident, entries, now, m, t, cs);
      && r.entries[..|Waiting(entries, now)|] == Waiting(entries, now)
      && (forall k :: 0 <= k < |r.entries| ==> !Due(r.entries[k], now))
      && |r.entries| <= |entries| + |DueJobs(entries, now)|
  {
    DueJobsOk(entries, now, |store|);
    RunAllRequeued(store, resident, DueJobs(entries, now), now, m, t, cs);
  }

  /** Each job of a pass sets at most one entry, one delay from `now`. */
  lemma {:induction false} RunAllRequeued(store: seq<Chunk>, resident: seq<nat>, jobs: seq<Job>, now: int, m: Matrix, t: int, cs: int)
    requires WorkerChunks.IdsIn(store, resident) && JobsFit(jobs, |store|)
    ensures var p := RunAll(store, resident, jobs, now, m, t, cs);
      && |p.requeued| <= |jobs|
      && forall k :: 0 <= k < |p.requeued| ==> p.requeued[k].timeSet == now && p.requeued[k].time == CreateObjectBatchDelay
    decreases |jobs|
  {
    if jobs != [] {
      var n := |jobs| - 1;
      assert JobsFit(jobs[..n], |store|);
      RunAllRequeued(store, resident, jobs[..n], now, m, t, cs);
    }
  }

  /** `ObjectCreator`: the chunk creator it shares with the loader and its timer. */
  class ObjectCreator {
    const creator: ChunkCreator
    const timer: Timer

    ghost predicate Valid()
      reads this, creator, timer
    {
      creator.Valid() && JobsOk(timer.entries, |creator.store|)
    }

    constructor(creator: ChunkCreator)
      requires creator.Valid()
      ensures this.creator == creator && fresh(timer) && timer.entries == [] && Valid()
    {
      this.creator := creator;
      timer := new Timer();
    }

    /** `onStart`, once the new chunks are known: query their objects, then start the
        creation of each chunk's objects one delay from `now`. */
    method OnStart(chunks: seq<nat>, db: map<ObjId, GameObject>, now: int) returns (posted: seq<Post>, payloads: Option<seq<Payload>>)
      requires Valid() && creator.matrix.Some?
      requires forall k :: 0 <= k < |chunks| ==> chunks[k] < |creator.store|
      modifies creator, timer
      ensures Valid() && creator.matrix == old(creator.matrix)
      ensures var m, t, cs := creator.matrix.value, creator.trailDistance, creator.chunkSize;
        var ds := if chunks == [] then [] else Drops(old(creator.store), chunks, m, t, cs);
        && AbortedAt(old(creator.store), creator.store, ds)
        && creator.resident == WithoutAll(old(creator.resident), ds)
        && posted == CleanUps(old(creator.store), ds)
        && payloads == QueryOutcome(db, old(creator.store), chunks, m, t, cs)
      ensures timer.entries == old(timer.entries) + if payloads.Some? then Starts(payloads.value, now) else []
      ensures payloads.Some? ==> forall k :: 0 <= k < |payloads.value| ==> payloads.value[k].chunk in chunks
    {
      var store', resident';
      store', resident', posted, payloads :=
        QueryObjects(creator.store, creator.resident, creator.matrix.value, creator.trailDistance, creator.chunkSize, chunks, db);
      creator.store, creator.resident := store', resident';
      if payloads.Some? {
        Schedule(payloads.value, now);
      }
    }

    /** The `forEach` that calls `createGameObjects` on each payload: its first batch is
        put on the timer. */
    method Schedule(ps: seq<Payload>, now: int)
      requires Valid() && forall k :: 0 <= k < |ps| ==> ps[k].chunk < |creator.store|
      modifies timer
      ensures Valid() && timer.entries == old(timer.entries) + Starts(ps, now)
    {
      var i := 0;
      while i < |ps|
        invariant i <= |ps| && Valid()
        invariant timer.entries == old(timer.entries) + Starts(ps[..i], now)
      {
        assert ps[..i + 1][..i] == ps[..i];
        timer.Add(Batch(ps[i].chunk, ps[i].objects, 0), CreateObjectBatchDelay, now);
        i := i + 1;
      }
      assert ps[..i] == ps;
    }
  
    /** A timer job: the next batch of a chunk's objects. When the batch is not the
        last, the rest goes back on the timer; when it is, the chunk is ready and
        `onChunkReady` runs. */
    method RunJob(job: Job, now: int) returns (posted: seq<Post>, finished: bool)
      requires Valid() && job.chunk < |creator.store| && job.next <= |job.objects|
      modifies creator, timer
      ensures Valid() && creator.matrix == old(creator.matrix) && |creator.store| == |old(creator.store)|
      ensures creator.matrix.Some?
      ensures var r := JobOutcome(old(creator.store), old(creator.resident), job, now, creator.matrix.value, creator.trailDistance, creator.chunkSize);
        && creator.store == r.store && creator.resident == r.resident && posted == r.posted && finished == r.finished
        && timer.entries == old(timer.entries) + r.requeued
    {
      var c := creator.store[job.chunk];
      var idx, creates, last := ProcessBatch(Info(c, creator.chunkSize), job.objects, job.next, c.aborted);
      posted, finished := creates, last;
      if !last {
        timer.Add(Batch(job.chunk, job.objects, idx), CreateObjectBatchDelay, now);
      } else {
        var ready := creator.OnChunkReady(job.chunk);
        posted := creates + ready;
      }
    }

    /** What runs once `createGameObjects` resolves: a chunk that has left the matrix or
        was aborted meanwhile is aborted, removed from `createdChunks` (by identity, so
        a newer chunk with the same key stays) and its objects destroyed. */
    method AfterCreate(i: nat) returns (posted: seq<Post>)
      requires Valid() && i < |creator.store|
      modifies creator
      ensures Valid() && creator.matrix == old(creator.matrix) && creator.matrix.Some?
      ensures |creator.store| == |old(creator.store)|
      ensures var c := old(creator.store)[i];
        if Live(c, creator.matrix.value, creator.trailDistance, creator.chunkSize) then
          creator.store == old(creator.store) && creator.resident == old(creator.resident) && posted == []
        else
          && creator.store == old(creator.store)[i := c.(aborted := true)]
          && creator.resident == Without(old(creator.resident), i)
          && posted == [CleanUpChunk(c.clientKey), ObjectDestroy(c.clientKey)]
      ensures Eviction(creator.store, creator.resident, posted)
        == AfterCreateOutcome(old(creator.store), old(creator.resident), i, creator.matrix.value, creator.trailDistance, creator.chunkSize)
    {
      posted := [];
      var c := creator.store[i];
      if !WithinMatrix(creator.matrix.value, c.cell, creator.trailDistance, creator.chunkSize) || c.aborted {
        creator.Abort(i);
        var cleanUp := creator.DeReference(i);
        posted := cleanUp + [ObjectDestroy(c.clientKey)];
      }
    }

    /** `execute`: every job due at `now` runs, in the order it was set; the jobs set
        meanwhile wait for a later pass. Once the pass is over, the chunks whose
        creation finished get their `AfterCreate`, in the order they finished. */
    method Execute(now: int) returns (posted: seq<Post>)
      requires Valid()
      modifies creator, timer
      ensures Valid() && creator.matrix == old(creator.matrix) && |creator.store| == |old(creator.store)|
      ensures var r := TimerPass(old(creator.store), old(creator.resident), old(timer.entries), now,
                                 MatrixOr(creator.matrix), creator.trailDistance, creator.chunkSize);
        creator.store == r.store && creator.resident == r.resident && posted == r.posted && timer.entries == r.entries
    {
      DueJobsOk(timer.entries, now, |creator.store|);
      WaitingOk(timer.entries, now, |creator.store|);
      var due := timer.TakeDue(now);
      var finished;
      posted, finished := RunDue(due, now);
      var after := FinishAll(finished);
      posted := posted + after;
    }

    /** The loop of `execute` over the due jobs. */
    method RunDue(due: seq<Job>, now: int) returns (posted: seq<Post>, finished: seq<nat>)
      requires Valid() && JobsFit(due, |creator.store|)
      modifies creator, timer
      ensures Valid() && creator.matrix == old(creator.matrix) && |creator.store| == |old(creator.store)|
      ensures var p := RunAll(old(creator.store), old(creator.resident), due, now,
                              MatrixOr(creator.matrix), creator.trailDistance, creator.chunkSize);
        && creator.store == p.store && creator.resident == p.resident && posted == p.posted
        && finished == p.finished && timer.entries == old(timer.entries) + p.requeued
    {
      ghost var m, t, cs := MatrixOr(creator.matrix), creator.trailDistance, creator.chunkSize;
      finished, posted := [], [];
      var i := 0;
      while i < |due|
        invariant i <= |due| && Valid() && creator.matrix == old(creator.matrix) && |creator.store| == |old(creator.store)|
        invariant creator.trailDistance == t && creator.chunkSize == cs
        invariant var p := RunAll(old(creator.store), old(creator.resident), due[..i], now, m, t, cs);
          && creator.store == p.store && creator.resident == p.resident && posted == p.posted
          && finished == p.finished && timer.entries == old(timer.entries) + p.requeued
      {
        assert due[..i + 1][..i] == due[..i];
        var p, done := RunJob(due[i], now);
        posted := posted + p;
        if done {
          finished := finished + [due[i].chunk];
        }
        i := i + 1;
      }
      assert due[..i] == due;
    }

    /** The `AfterCreate` of each chunk whose creation finished in the pass. */
    method FinishAll(finished: seq<nat>) returns (posted: seq<Post>)
      requires Valid() && forall j :: 0 <= j < |finished| ==> finished[j] < |creator.store|
      modifies creator
      ensures Valid() && creator.matrix == old(creator.matrix) && |creator.store| == |old(creator.store)|
      ensures var e := AfterAll(old(creator.store), old(creator.resident), finished,
                                MatrixOr(creator.matrix), creator.trailDistance, creator.chunkSize);
        creator.store == e.store && creator.resident == e.resident && posted == e.posted
    {
      ghost var m, t, cs := MatrixOr(creator.matrix), creator.trailDistance, creator.chunkSize;
      posted := [];
      var j := 0;
      while j < |finished|
        invariant j <= |finished| && Valid() && creator.matrix == old(creator.matrix) && |creator.store| == |old(creator.store)|
        invariant creator.trailDistance == t && creator.chunkSize == cs
        invariant var e := AfterAll(old(creator.store), old(creator.resident), finished[..j], m, t, cs);
          creator.store == e.store && creator.resident == e.resident && posted == e.posted
      {
        assert finished[..j + 1][..j] == finished[..j];
        var p := AfterCreate(finished[j]);
        posted := posted + p;
        j := j + 1;
      }
      assert finished[..j] == finished;
    }
  }
}
