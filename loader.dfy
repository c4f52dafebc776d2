/**
 * The main-thread side of the world loader (`src/world-loader/WorldLoader/index.js`): the
 * map of chunks the game has objects in, keyed by the worker's `clientKey`, the teardown of
 * a chunk's objects in timed batches, the worker's readiness, and `WorldAPI.execute`,
 * which forwards the client's position only to ready workers. Messages to a worker are an
 * outbox; the game's callbacks are parameters.
 */
module MainLoader {
  import opened Wrappers
  import opened Cells
  import opened WorkerChunks

  /** The handle of a game object the `onCreateObject` callback made. */
  type Sprite = nat

  /** A record of `chunks`: the chunk as the worker described it, and the game objects the
      callback pushed onto its `objects`. */
  datatype Record = Record(info: ChunkInfo, objects: seq<Sprite>)

  /** A message to the worker. */
  datatype Outgoing =
    | WorldDbInit
    | LoaderInit
    | LoaderExecute(x: int, y: int)
    | LoaderSetStale(key: Option<Cell>)

  function Min(a: int, b: int): int
  {
    if a <= b then a else b
  }

  // ---------------------------------------------------------------------------
  // `destroyInBatches`

  /** The batch size and delay the `handleObjectDestroy` case passes. */
  const DestroyBatchSize: nat := 50
  const DestroyBatchDelay: nat := 5

  /** One run of `processBatch`: `fn` on the objects from `idx` on, at most `batchSize` of
      them, in order; another run follows while objects remain. */
  method DestroyBatch(objects: seq<Sprite>, idx: nat, batchSize: nat) returns (idx': nat, destroyed: seq<Sprite>, more: bool)
    requires idx <= |objects|
    ensures idx' == Min(|objects|, idx + batchSize)
    ensures destroyed == objects[idx..idx']
    ensures more <==> idx' < |objects|
  {
    idx', destroyed := idx, [];
    var processedInBatch := 0;
    while idx' < |objects| && processedInBatch < batchSize
      invariant idx <= idx' <= |objects| && processedInBatch == idx' - idx <= batchSize
      invariant destroyed == objects[idx..idx']
    {
      assert objects[idx..idx' + 1] == objects[idx..idx'] + [objects[idx']];
      destroyed := destroyed + [objects[idx']];
      idx' := idx' + 1;
      processedInBatch := processedInBatch + 1;
    }
    more := idx' < |objects|;
  }

  /** The runs of `processBatch` from `idx` on: one per delay until the objects are
      exhausted. */
  function Rounds(objects: seq<Sprite>, idx: nat, batchSize: nat): seq<seq<Sprite>>
    requires idx <= |objects| && batchSize > 0
    decreases |objects| - idx
  {
    var next := Min(|objects|, idx + batchSize);
    [objects[idx..next]] + if next == |objects| then [] else Rounds(objects, next, batchSize)
  }

  /** `destroyInBatches` as a whole: nothing for a chunk without objects, otherwise the
      rounds from the first object. */
  function Teardown(objects: seq<Sprite>, batchSize: nat): seq<seq<Sprite>>
    requires batchSize > 0
  {
    if objects == [] then [] else Rounds(objects, 0, batchSize)
  }

  function Concat(ss: seq<seq<Sprite>>): seq<Sprite>
  {
    if ss == [] then [] else ss[0] + Concat(ss[1..])
  }

  /** Every object is destroyed exactly once, in index order. */
  lemma {:induction false} RoundsDestroyAll(objects: seq<Sprite>, idx: nat, batchSize: nat)
    requires idx <= |objects| && batchSize > 0
    ensures Concat(Rounds(objects, idx, batchSize)) == objects[idx..]
    decreases |objects| - idx
  {
    var next := Min(|objects|, idx + batchSize);
    var head := objects[idx..next];
    if next == |objects| {
      assert Rounds(objects, idx, batchSize) == [head];
      ConcatCons(head, []);
    } else {
      RoundsDestroyAll(objects, next, batchSize);
      var rest := Rounds(objects, next, batchSize);
      assert Rounds(objects, idx, batchSize) == [head] + rest;
      ConcatCons(head, rest);
      SliceSplit(objects, idx, next);
    }
  }

  lemma ConcatCons(head: seq<Sprite>, rest: seq<seq<Sprite>>)
    ensures Concat([head] + rest) == head + Concat(rest)
  {
    assert ([head] + rest)[1..] == rest;
  }

  lemma SliceSplit(objects: seq<Sprite>, i: nat, j: nat)
    requires i <= j <= |objects|
    ensures objects[i..] == objects[i..j] + objects[j..]
  {
  }

  /** No round destroys more than `batchSize` objects, and only the last is short. */
  lemma {:induction false} RoundsBounded(objects: seq<Sprite>, idx: nat, batchSize: nat)
    requires idx <= |objects| && batchSize > 0
    ensures forall k :: 0 <= k < |Rounds(objects, idx, batchSize)| ==> |Rounds(objects, idx, batchSize)[k]| <= batchSize
    ensures forall k :: 0 <= k < |Rounds(objects, idx, batchSize)| - 1 ==> |Rounds(objects, idx, batchSize)[k]| == batchSize
    decreases |objects| - idx
  {
    var next := Min(|objects|, idx + batchSize);
    var head := objects[idx..next];
    if next < |objects| {
      RoundsBounded(objects, next, batchSize);
      var rest := Rounds(objects, next, batchSize);
      assert Rounds(objects, idx, batchSize) == [head] + rest;
      assert |head| == batchSize;
      var rs := [head] + rest;
      forall k | 1 <= k < |rs|
        ensures rs[k] == rest[k - 1]
      {
      }
    } else {
      assert Rounds(objects, idx, batchSize) == [head];
    }
  }

  /** The teardown of a chunk: nothing when it has no objects, else all of them once,
      in order. */
  lemma TeardownDestroysAll(objects: seq<Sprite>, batchSize: nat)
    requires batchSize > 0
    ensures Concat(Teardown(objects, batchSize)) == objects
    ensures objects == [] <==> Teardown(objects, batchSize) == []
  {
    if objects != [] {
      RoundsDestroyAll(objects, 0, batchSize);
      assert objects[0..] == objects;
    }
  }

  /** A teardown waiting for its delay: the objects and the index of the next batch. */
  datatype DestroyJob = DestroyJob(objects: seq<Sprite>, next: nat)

  /** Every waiting teardown has objects left to destroy. */
  ghost predicate JobsOk(jobs: seq<DestroyJob>)
  {
    forall k :: 0 <= k < |jobs| ==> jobs[k].next < |jobs[k].objects|
  }

  // ---------------------------------------------------------------------------
  // `Loader`

  /** `Loader`: the records of the chunks the game has objects in, whether the worker is
      ready, the teardowns waiting for their delay, and the messages sent to the worker. */
  class Loader {
    var chunks: map<ClientKey, Record>
    var workerReady: bool
    var destroying: seq<DestroyJob>
    var outbox: seq<Outgoing>

    /** The worker is ready only once it has been sent `loader-init`. */
    ghost predicate Valid()
      reads this
    {
      (workerReady ==> LoaderInit in outbox) && JobsOk(destroying)
    }

    /** The constructor: an empty map, a worker not yet ready and told to open the
        world's database. */
    constructor()
      ensures Valid() && chunks == map[] && !workerReady && destroying == [] && outbox == [WorldDbInit]
    {
      chunks := map[];
      workerReady := false;
      destroying := [];
      outbox := [WorldDbInit];
    }

    /** `onCreateObject`: the chunk's record is made on its first object and reused
        after; the callback may push the game object it made onto the record. */
    method OnCreateObject(info: ChunkInfo, made: Option<Sprite>) returns (record: Record)
      requires Valid()
      modifies this
      ensures Valid() && workerReady == old(workerReady) && destroying == old(destroying) && outbox == old(outbox)
      ensures var before := if info.key in old(chunks) then old(chunks)[info.key] else Record(info, []);
        && record == before
        && chunks == old(chunks)[info.key := before.(objects := before.objects + if made.Some? then [made.value] else [])]
    {
      record := if info.key in chunks then chunks[info.key] else Record(info, []);
      var objects := record.objects;
      if made.Some? {
        objects := objects + [made.value];
      }
      chunks := chunks[info.key := record.(objects := objects)];
      assert record.objects + (if made.Some? then [made.value] else []) == objects;
    }

    /** `handleObjectDestroy`: an unknown key does nothing (the chunk's creation was
        aborted before any object); a known chunk has its first batch of objects
        destroyed at once, the rest waiting for the delay, and leaves the map. */
    method OnHandleObjectDestroy(key: ClientKey) returns (destroyed: seq<Sprite>)
      requires Valid()
      modifies this
      ensures Valid() && workerReady == old(workerReady) && outbox == old(outbox)
      ensures key !in old(chunks) ==> chunks == old(chunks) && destroying == old(destroying) && destroyed == []
      ensures key in old(chunks) ==>
        var objects := old(chunks)[key].objects;
        var next := Min(|objects|, DestroyBatchSize);
        && chunks == old(chunks) - {key}
        && destroyed == (if objects == [] then [] else Teardown(objects, DestroyBatchSize)[0])
        && destroying == old(destroying) + if next < |objects| then [DestroyJob(objects, next)] else []
    {
      destroyed := [];
      if key !in chunks {
        return;
      }
      var objects := chunks[key].objects;
      if objects != [] {
        var next, first, more := DestroyBatch(objects, 0, DestroyBatchSize);
        destroyed := first;
        if more {
          destroying := destroying + [DestroyJob(objects, next)];
        }
      }
      chunks := chunks - {key};
    }

    /** The delay of a waiting teardown is over: its next batch is destroyed, and the
        rest waits again while objects remain. */
    method ResumeDestroy(j: nat) returns (destroyed: seq<Sprite>)
      requires Valid() && j < |destroying|
      modifies this
      ensures Valid() && chunks == old(chunks) && workerReady == old(workerReady) && outbox == old(outbox)
      ensures var job := old(destroying)[j];
        var next := Min(|job.objects|, job.next + DestroyBatchSize);
        && destroyed == job.objects[job.next..next]
        && destroying == old(destroying[..j] + destroying[j + 1..]) + if next < |job.objects| then [DestroyJob(job.objects, next)] else []
    {
      var job := destroying[j];
      var next, batch, more := DestroyBatch(job.objects, job.next, DestroyBatchSize);
      destroyed := batch;
      destroying := destroying[..j] + destroying[j + 1..];
      if more {
        destroying := destroying + [DestroyJob(job.objects, next)];
      }
    }

    /** `worker-ready`: the worker is ready and is sent `loader-init`. */
    method OnWorkerReady()
      requires Valid()
      modifies this
      ensures Valid() && workerReady && outbox == old(outbox) + [LoaderInit]
      ensures chunks == old(chunks) && destroying == old(destroying)
    {
      workerReady := true;
      outbox := outbox + [LoaderInit];
    }

    /** `worker.onerror` as written: a plain `function`, whose `this` is the worker, so
        the flag it clears is the worker's and the loader stays as it was. */
    method OnWorkerError()
      requires Valid()
      ensures Valid()
    {
    }

    /** `worker.onerror` as evidently intended: the loader stops counting the worker as
        ready, so `WorldAPI.execute` no longer posts to it. */
    method OnWorkerErrorIntended()
      requires Valid()
      modifies this
      ensures Valid() && !workerReady
      ensures chunks == old(chunks) && destroying == old(destroying) && outbox == old(outbox)
    {
      workerReady := false;
    }

    /** `setStale(chunkKey)`. A falsy key (`undefined` or `""`) makes the worker drop
        every chunk; `None` stands for both. */
    method SetStale(key: Option<Cell>)
      requires Valid()
      modifies this
      ensures Valid() && outbox == old(outbox) + [LoaderSetStale(key)]
      ensures chunks == old(chunks) && workerReady == old(workerReady) && destroying == old(destroying)
    {
      outbox := outbox + [LoaderSetStale(key)];
    }
  }

  /** A worker error leaves a ready loader ready when handled as written, and not
      ready when handled as intended. */
  method ErrorKeepsWorkerReady() returns (asWritten: bool, intended: bool)
    ensures asWritten && !intended
  {
    var l := new Loader();
    l.OnWorkerReady();
    l.OnWorkerError();
    asWritten := l.workerReady;
    l.OnWorkerErrorIntended();
    intended := l.workerReady;
  }

  // ---------------------------------------------------------------------------
  // `WorldAPI`

  /** The loaders that `execute` posts to: those whose worker is ready, in order. */
  function ReadyIndices(ready: seq<bool>): (r: seq<nat>)
    ensures forall k :: 0 <= k < |r| ==> r[k] < |ready| && ready[r[k]]
    ensures forall j :: 0 <= j < |ready| && ready[j] ==> j in r
    ensures forall i, j :: 0 <= i < j < |r| ==> r[i] < r[j]
  {
    if ready == [] then []
    else ReadyIndices(ready[..|ready| - 1]) + if ready[|ready| - 1] then [|ready| - 1] else []
  }

  /** `WorldAPI`: the loaders it made. */
  class WorldAPI {
    var loaders: seq<Loader>

    /** Each loader is a distinct object, since `createLoader` always makes a new one. */
    ghost predicate Valid()
      reads this, loaders
    {
      (forall i, j :: 0 <= i < j < |loaders| ==> loaders[i] != loaders[j])
      && forall i :: 0 <= i < |loaders| ==> loaders[i].Valid()
    }

    /** Whether each loader's worker is ready, in order. */
    ghost function Readiness(): (ready: seq<bool>)
      reads this, loaders
      ensures |ready| == |loaders| && forall k :: 0 <= k < |loaders| ==> ready[k] == loaders[k].workerReady
    {
      var ls := loaders;
      seq(|ls|, k requires 0 <= k < |ls| reads ls => ls[k].workerReady)
    }

    constructor()
      ensures Valid() && loaders == []
    {
      loaders := [];
    }

    /** `createLoader`: a new loader, appended. */
    method CreateLoader() returns (l: Loader)
      requires Valid()
      modifies this
      ensures Valid() && fresh(l) && loaders == old(loaders) + [l]
      ensures l.chunks == map[] && !l.workerReady && l.outbox == [WorldDbInit]
    {
      l := new Loader();
      loaders := loaders + [l];
    }

    /** `execute`: `loader-execute` with the position to each loader whose worker is
        ready; no message to the others. */
    method Execute(x: int, y: int)
      requires Valid()
      modifies set l | l in loaders
      ensures Valid()
      ensures forall i :: 0 <= i < |loaders| ==>
        && loaders[i].workerReady == old(loaders[i].workerReady)
        && loaders[i].outbox == old(loaders[i].outbox) + (if old(loaders[i].workerReady) then [LoaderExecute(x, y)] else [])
        && loaders[i].chunks == old(loaders[i].chunks) && loaders[i].destroying == old(loaders[i].destroying)
      ensures forall i :: 0 <= i < |loaders| ==>
        (loaders[i].outbox != old(loaders[i].outbox) <==> i in ReadyIndices(old(Readiness())))
    {
      var i := 0;
      while i < |loaders|
        invariant i <= |loaders| && Valid()
        invariant forall j :: 0 <= j < |loaders| ==>
          && loaders[j].workerReady == old(loaders[j].workerReady)
          && loaders[j].chunks == old(loaders[j].chunks) && loaders[j].destroying == old(loaders[j].destroying)
        invariant forall j :: 0 <= j < i ==>
          loaders[j].outbox == old(loaders[j].outbox) + if old(loaders[j].workerReady) then [LoaderExecute(x, y)] else []
        invariant forall j :: i <= j < |loaders| ==> loaders[j].outbox == old(loaders[j].outbox)
      {
        var l := loaders[i];
        if l.workerReady {
          l.outbox := l.outbox + [LoaderExecute(x, y)];
        }
        i := i + 1;
      }
    }
  }
}
