/**
 * The worker's chunk bookkeeping (`ChunkCreator` and `Chunk` in
 * `src/world-loader/WorldLoader/worker.js`). Every chunk object ever constructed lives in
 * an arena `store`, indexed by a chunk id; `createdChunks`, the map from a chunk key to its
 * chunk in insertion order, is the sequence `resident` of chunk ids, no two with the same
 * key. A chunk that leaves `createdChunks` stays in the arena, as the source's object does
 * for whoever still holds it. Messages posted to the main thread are returned as `Post`s.
 */
module WorkerChunks {
  import opened Wrappers
  import opened Cells
  import opened WorkerGrid

  type ObjId = int

  /** `clientKey`, `${key}-${Date.now()}`: the chunk's key and the clock when it was made. */
  datatype ClientKey = ClientKey(cell: Cell, stamp: int)

  /** A row of the world's chunk table: `position`/`xOff`/`yOff` and the id slices `data`. */
  datatype ChunkRow = ChunkRow(cell: Cell, data: seq<seq<ObjId>>)

  datatype Chunk = Chunk(cell: Cell, clientKey: ClientKey, data: seq<seq<ObjId>>, aborted: bool, settled: bool)

  /** A row of the world's object table, as far as the worker reads it. */
  datatype GameObject = GameObject(id: ObjId, x: int, y: int)

  /** The chunk description sent with every created object. */
  datatype ChunkInfo = ChunkInfo(x: int, y: int, width: int, height: int, key: ClientKey)

  /** The messages the worker posts: `cleanUp-chunk`, `handleObjectDestroy`,
      `onChunksAllReady` and `onCreateObject`. */
  datatype Post =
    | CleanUpChunk(key: ClientKey)
    | ObjectDestroy(key: ClientKey)
    | ChunksAllReady
    | CreateObject(chunk: ChunkInfo, object: GameObject)

  predicate IdsIn(store: seq<Chunk>, ids: seq<nat>)
  {
    forall k :: 0 <= k < |ids| ==> ids[k] < |store|
  }

  /** `createdChunks` is a map: no two resident chunks share a key. */
  predicate ResidentOk(store: seq<Chunk>, resident: seq<nat>)
  {
    && IdsIn(store, resident)
    && forall a, b :: 0 <= a < b < |resident| ==> store[resident[a]].cell != store[resident[b]].cell
  }

  /** The keys of `createdChunks`. */
  function Keys(store: seq<Chunk>, ids: seq<nat>): set<Cell>
    requires IdsIn(store, ids)
  {
    set k | 0 <= k < |ids| :: store[ids[k]].cell
  }

  lemma IdsInTail(store: seq<Chunk>, ids: seq<nat>)
    requires IdsIn(store, ids) && ids != []
    ensures ids[0] < |store| && IdsIn(store, ids[1..]) && ids == [ids[0]] + ids[1..]
  {
  }

  lemma KeysCons(store: seq<Chunk>, x: nat, s: seq<nat>)
    requires x < |store| && IdsIn(store, s)
    ensures IdsIn(store, [x] + s) && Keys(store, [x] + s) == {store[x].cell} + Keys(store, s)
  {
    var r := [x] + s;
    assert forall k :: 0 < k < |r| ==> r[k] == s[k - 1];
    assert forall k :: 0 <= k < |s| ==> s[k] == ([x] + s)[k + 1];
    assert store[r[0]].cell in Keys(store, r);
    forall c | c in Keys(store, [x] + s)
      ensures c in {store[x].cell} + Keys(store, s)
    {
      var k :| 0 <= k < |[x] + s| && store[([x] + s)[k]].cell == c;
      if k > 0 {
        assert store[s[k - 1]].cell == c;
      }
    }
    forall c | c in Keys(store, s)
      ensures c in Keys(store, [x] + s)
    {
      var k :| 0 <= k < |s| && store[s[k]].cell == c;
      assert store[([x] + s)[k + 1]].cell == c;
    }
  }

  lemma KeysSnoc(store: seq<Chunk>, s: seq<nat>, x: nat)
    requires x < |store| && IdsIn(store, s)
    ensures IdsIn(store, s + [x]) && Keys(store, s + [x]) == Keys(store, s) + {store[x].cell}
  {
    assert forall k :: 0 <= k < |s| ==> s[k] == (s + [x])[k];
    assert store[(s + [x])[|s|]].cell == store[x].cell;
  }

  lemma ResidentOkCons(store: seq<Chunk>, x: nat, s: seq<nat>)
    requires x < |store| && IdsIn(store, s)
    ensures ResidentOk(store, [x] + s) <==> ResidentOk(store, s) && store[x].cell !in Keys(store, s)
  {
    if ResidentOk(store, [x] + s) {
      ResidentOkTail(store, x, s);
    }
    if ResidentOk(store, s) && store[x].cell !in Keys(store, s) {
      ResidentOkPrepend(store, x, s);
    }
  }

  lemma ResidentOkTail(store: seq<Chunk>, x: nat, s: seq<nat>)
    requires x < |store| && IdsIn(store, s) && ResidentOk(store, [x] + s)
    ensures ResidentOk(store, s) && store[x].cell !in Keys(store, s)
  {
    var r := [x] + s;
    assert forall k :: 0 <= k < |s| ==> s[k] == r[k + 1];
    forall a, b | 0 <= a < b < |s|
      ensures store[s[a]].cell != store[s[b]].cell
    {
      assert store[r[a + 1]].cell != store[r[b + 1]].cell;
    }
    forall k | 0 <= k < |s|
      ensures store[s[k]].cell != store[x].cell
    {
      assert store[r[0]].cell != store[r[k + 1]].cell;
    }
  }

  lemma ResidentOkPrepend(store: seq<Chunk>, x: nat, s: seq<nat>)
    requires x < |store| && ResidentOk(store, s) && store[x].cell !in Keys(store, s)
    ensures ResidentOk(store, [x] + s)
  {
    var r := [x] + s;
    assert forall k :: 0 <= k < |s| ==> s[k] == r[k + 1];
    forall a, b | 0 <= a < b < |r|
      ensures store[r[a]].cell != store[r[b]].cell
    {
      if a == 0 {
        assert store[s[b - 1]].cell in Keys(store, s);
      } else {
        assert store[s[a - 1]].cell != store[s[b - 1]].cell;
      }
    }
  }

  lemma ResidentOkSnoc(store: seq<Chunk>, s: seq<nat>, x: nat)
    requires ResidentOk(store, s) && x < |store| && store[x].cell !in Keys(store, s)
    ensures ResidentOk(store, s + [x])
  {
    var r := s + [x];
    assert forall k :: 0 <= k < |s| ==> s[k] == r[k];
    forall a, b | 0 <= a < b < |r|
      ensures store[r[a]].cell != store[r[b]].cell
    {
      if b == |s| {
        assert store[s[a]].cell in Keys(store, s);
      }
    }
  }

  /** The chunk a key names in `createdChunks`, if any. */
  function Find(store: seq<Chunk>, ids: seq<nat>, key: Cell): (r: Option<nat>)
    requires IdsIn(store, ids)
    ensures r.Some? <==> key in Keys(store, ids)
    ensures r.Some? ==> r.value in ids && store[r.value].cell == key
  {
    if ids == [] then None
    else
      IdsInTail(store, ids);
      KeysCons(store, ids[0], ids[1..]);
      if store[ids[0]].cell == key then Some(ids[0]) else Find(store, ids[1..], key)
  }

  // ---------------------------------------------------------------------------
  // Leaving `createdChunks`

  /** `deReference`, as the rest of this model performs it: the chunk itself leaves
      `createdChunks`. */
  function Without(ids: seq<nat>, x: nat): (r: seq<nat>)
    ensures x !in r && |r| <= |ids|
  {
    if ids == [] then [] else (if ids[0] == x then [] else [ids[0]]) + Without(ids[1..], x)
  }

  /** `deReference` as written: `createdChunks.delete(this.key)` removes whichever chunk
      now holds this chunk's key. */
  function WithoutKey(store: seq<Chunk>, ids: seq<nat>, key: Cell): (r: seq<nat>)
    requires IdsIn(store, ids)
    ensures IdsIn(store, r) && key !in Keys(store, r)
  {
    if ids == [] then []
    else
      IdsInTail(store, ids);
      var p := WithoutKey(store, ids[1..], key);
      if store[ids[0]].cell == key then p
      else KeysCons(store, ids[0], p); [ids[0]] + p
  }

  lemma {:induction false} WithoutAbsent(ids: seq<nat>, x: nat)
    requires x !in ids
    ensures Without(ids, x) == ids
  {
    if ids != [] {
      WithoutAbsent(ids[1..], x);
    }
  }

  lemma {:induction false} WithoutAppend(a: seq<nat>, b: seq<nat>, x: nat)
    ensures Without(a + b, x) == Without(a, x) + Without(b, x)
  {
    if a == [] {
      assert a + b == b;
    } else {
      assert (a + b)[1..] == a[1..] + b;
      WithoutAppend(a[1..], b, x);
    }
  }

  /** For a chunk that is still resident the two agree: the stored key is its own. */
  lemma {:induction false} DeReferenceResident(store: seq<Chunk>, ids: seq<nat>, x: nat)
    requires ResidentOk(store, ids) && x in ids
    ensures WithoutKey(store, ids, store[x].cell) == Without(ids, x)
  {
    IdsInTail(store, ids);
    ResidentOkCons(store, ids[0], ids[1..]);
    KeysCons(store, ids[0], ids[1..]);
    if ids[0] == x {
      assert store[x].cell !in Keys(store, ids[1..]);
      WithoutKeyAbsent(store, ids[1..], store[x].cell);
      assert x !in ids[1..] by {
        forall k | 0 <= k < |ids[1..]|
          ensures ids[1..][k] != x
        {
          assert store[ids[1..][k]].cell in Keys(store, ids[1..]);
        }
      }
      WithoutAbsent(ids[1..], x);
    } else {
      assert store[ids[0]].cell != store[x].cell by {
        var k :| 0 <= k < |ids| && ids[k] == x;
        assert store[ids[0]].cell != store[ids[k]].cell;
      }
      DeReferenceResident(store, ids[1..], x);
    }
  }

  lemma {:induction false} WithoutKeyAbsent(store: seq<Chunk>, ids: seq<nat>, key: Cell)
    requires IdsIn(store, ids) && key !in Keys(store, ids)
    ensures WithoutKey(store, ids, key) == ids
  {
    if ids != [] {
      IdsInTail(store, ids);
      KeysCons(store, ids[0], ids[1..]);
      WithoutKeyAbsent(store, ids[1..], key);
    }
  }

  /** A chunk that has already left `createdChunks` while a newer chunk took its key: the
      as-written `deReference` of the old chunk drops the newer one. */
  lemma StaleDeReferenceDropsNewer()
    ensures var k := Cell(0, 0);
      var old0 := Chunk(k, ClientKey(k, 1), [], true, true);
      var new1 := Chunk(k, ClientKey(k, 2), [], false, false);
      && ResidentOk([old0, new1], [1])
      && WithoutKey([old0, new1], [1], old0.cell) == []
      && Without([1], 0) == [1]
  {
    var k := Cell(0, 0);
    var store := [Chunk(k, ClientKey(k, 1), [], true, true), Chunk(k, ClientKey(k, 2), [], false, false)];
    assert WithoutKey(store, [1][1..], k) == [];
  }

  // ---------------------------------------------------------------------------
  // Evicting chunks outside the matrix

  /** The ids whose chunk is inside (`inside`) or outside the matrix, in order. */
  function Select(store: seq<Chunk>, ids: seq<nat>, m: Matrix, t: int, cs: int, inside: bool): (r: seq<nat>)
    requires IdsIn(store, ids)
    ensures IdsIn(store, r)
    ensures forall k :: 0 <= k < |r| ==> WithinMatrix(m, store[r[k]].cell, t, cs) == inside
  {
    if ids == [] then []
    else
      IdsInTail(store, ids);
      var p := Select(store, ids[1..], m, t, cs, inside);
      if WithinMatrix(m, store[ids[0]].cell, t, cs) == inside then [ids[0]] + p else p
  }

  /** Selecting keeps `createdChunks` a map. */
  lemma {:induction false} SelectResidentOk(store: seq<Chunk>, ids: seq<nat>, m: Matrix, t: int, cs: int, inside: bool)
    requires ResidentOk(store, ids)
    ensures ResidentOk(store, Select(store, ids, m, t, cs, inside))
    ensures Keys(store, Select(store, ids, m, t, cs, inside)) <= Keys(store, ids)
  {
    if ids != [] {
      IdsInTail(store, ids);
      ResidentOkCons(store, ids[0], ids[1..]);
      KeysCons(store, ids[0], ids[1..]);
      SelectResidentOk(store, ids[1..], m, t, cs, inside);
      var p := Select(store, ids[1..], m, t, cs, inside);
      if WithinMatrix(m, store[ids[0]].cell, t, cs) == inside {
        ResidentOkCons(store, ids[0], p);
        KeysCons(store, ids[0], p);
      }
    }
  }

  /** What `abort(); deReference(); handleObjectDestroy(chunk)` posts for each chunk. */
  function DestroyPosts(store: seq<Chunk>, ids: seq<nat>): seq<Post>
    requires IdsIn(store, ids)
  {
    if ids == [] then []
    else
      IdsInTail(store, ids);
      [CleanUpChunk(store[ids[0]].clientKey), ObjectDestroy(store[ids[0]].clientKey)] + DestroyPosts(store, ids[1..])
  }

  /** `store` with the chunks of `ids` that are outside the matrix aborted. */
  predicate AbortedOutside(store: seq<Chunk>, store': seq<Chunk>, ids: seq<nat>, m: Matrix, t: int, cs: int)
  {
    && |store'| == |store|
    && forall k :: 0 <= k < |store| ==>
         store'[k] == if k in ids && !WithinMatrix(m, store[k].cell, t, cs) then store[k].(aborted := true) else store[k]
  }

  lemma {:induction false} SelectAbsent(store: seq<Chunk>, ids: seq<nat>, m: Matrix, t: int, cs: int, inside: bool, y: nat)
    requires IdsIn(store, ids) && y !in ids
    ensures y !in Select(store, ids, m, t, cs, inside)
  {
    if ids != [] {
      IdsInTail(store, ids);
      SelectAbsent(store, ids[1..], m, t, cs, inside, y);
    }
  }

  lemma {:induction false} SelectAppend(store: seq<Chunk>, a: seq<nat>, b: seq<nat>, m: Matrix, t: int, cs: int, inside: bool)
    requires IdsIn(store, a) && IdsIn(store, b)
    ensures IdsIn(store, a + b)
    ensures Select(store, a + b, m, t, cs, inside) == Select(store, a, m, t, cs, inside) + Select(store, b, m, t, cs, inside)
  {
    if a == [] {
      assert a + b == b;
    } else {
      IdsInTail(store, a);
      SelectAppend(store, a[1..], b, m, t, cs, inside);
      assert (a + b) == [a[0]] + (a[1..] + b);
      KeysCons(store, a[0], a[1..] + b);
      assert (a + b)[1..] == a[1..] + b;
    }
  }

  lemma {:induction false} DestroyPostsAppend(store: seq<Chunk>, a: seq<nat>, b: seq<nat>)
    requires IdsIn(store, a) && IdsIn(store, b)
    ensures IdsIn(store, a + b)
    ensures DestroyPosts(store, a + b) == DestroyPosts(store, a) + DestroyPosts(store, b)
  {
    if a == [] {
      assert a + b == b;
    } else {
      IdsInTail(store, a);
      DestroyPostsAppend(store, a[1..], b);
      assert (a + b) == [a[0]] + (a[1..] + b);
      DestroyPostsCons(store, a[0], a[1..] + b);
    }
  }

  /** The state of the eviction loop after the first `i` chunks of the map: `kept` are
      those that stay, `resident'` is the map so far. */
  ghost predicate EvictState(store: seq<Chunk>, resident: seq<nat>, m: Matrix, t: int, cs: int, i: nat,
                             kept: seq<nat>, store': seq<Chunk>, resident': seq<nat>, posted: seq<Post>, allSettled: bool)
  {
    && ResidentOk(store, resident) && i <= |resident|
    && kept == Select(store, resident[..i], m, t, cs, true)
    && resident' == kept + resident[i..]
    && posted == DestroyPosts(store, Select(store, resident[..i], m, t, cs, false))
    && AbortedOutside(store, store', resident[..i], m, t, cs)
    && (allSettled <==> forall k :: 0 <= k < |kept| ==> store[kept[k]].settled)
  }

  /** Selecting from the first `i + 1` chunks of the map. */
  lemma SelectNext(store: seq<Chunk>, resident: seq<nat>, i: nat, m: Matrix, t: int, cs: int, inside: bool)
    requires IdsIn(store, resident) && i < |resident|
    ensures Select(store, resident[..i + 1], m, t, cs, inside)
      == Select(store, resident[..i], m, t, cs, inside)
         + (if WithinMatrix(m, store[resident[i]].cell, t, cs) == inside then [resident[i]] else [])
  {
    assert resident[..i + 1] == resident[..i] + [resident[i]];
    SelectAppend(store, resident[..i], [resident[i]], m, t, cs, inside);
    assert [resident[i]][1..] == [];
  }

  /** Resident ids are distinct, since their keys are. */
  lemma ResidentDistinct(store: seq<Chunk>, resident: seq<nat>, i: nat)
    requires ResidentOk(store, resident) && i < |resident|
    ensures resident[i] !in resident[..i] && resident[i] !in resident[i + 1..]
  {
    forall k | 0 <= k < |resident| && k != i
      ensures resident[k] != resident[i]
    {
      if k < i {
        assert store[resident[k]].cell != store[resident[i]].cell;
      } else {
        assert store[resident[i]].cell != store[resident[k]].cell;
      }
    }
  }

  lemma SelectAt(store: seq<Chunk>, ids: seq<nat>, i: nat, m: Matrix, t: int, cs: int, inside: bool)
    requires IdsIn(store, ids) && i < |ids|
    ensures Select(store, ids[i..], m, t, cs, inside)
      == (if WithinMatrix(m, store[ids[i]].cell, t, cs) == inside then [ids[i]] else []) + Select(store, ids[i + 1..], m, t, cs, inside)
  {
    assert ids[i..][0] == ids[i] && ids[i..][1..] == ids[i + 1..];
  }

  lemma DestroyPostsCons(store: seq<Chunk>, x: nat, s: seq<nat>)
    requires x < |store| && IdsIn(store, s)
    ensures IdsIn(store, [x] + s)
    ensures DestroyPosts(store, [x] + s)
      == [CleanUpChunk(store[x].clientKey), ObjectDestroy(store[x].clientKey)] + DestroyPosts(store, s)
  {
    KeysCons(store, x, s);
    assert ([x] + s)[1..] == s;
  }

  lemma AbortedStep(store: seq<Chunk>, store': seq<Chunk>, resident: seq<nat>, i: nat, m: Matrix, t: int, cs: int)
    requires ResidentOk(store, resident) && i < |resident|
    requires AbortedOutside(store, store', resident[..i], m, t, cs)
    ensures store'[resident[i]] == store[resident[i]]
    ensures var id := resident[i];
      AbortedOutside(store, if WithinMatrix(m, store[id].cell, t, cs) then store' else store'[id := store[id].(aborted := true)],
                     resident[..i + 1], m, t, cs)
  {
    ResidentDistinct(store, resident, i);
    assert resident[..i + 1] == resident[..i] + [resident[i]];
  }

  lemma WithoutStep(kept: seq<nat>, rest: seq<nat>, x: nat)
    requires x !in kept && x !in rest
    ensures Without(kept + ([x] + rest), x) == kept + rest
  {
    WithoutAppend(kept, [x] + rest, x);
    assert ([x] + rest)[1..] == rest;
    assert Without([x] + rest, x) == Without(rest, x);
    WithoutAbsent(kept, x);
    WithoutAbsent(rest, x);
  }

  lemma KeptSnoc(store: seq<Chunk>, kept: seq<nat>, id: nat, allSettled: bool)
    requires IdsIn(store, kept) && id < |store|
    requires allSettled <==> forall k :: 0 <= k < |kept| ==> store[kept[k]].settled
    ensures IdsIn(store, kept + [id])
    ensures allSettled && store[id].settled <==> forall k :: 0 <= k < |kept + [id]| ==> store[(kept + [id])[k]].settled
  {
    assert forall k :: 0 <= k < |kept| ==> (kept + [id])[k] == kept[k];
    assert (kept + [id])[|kept|] == id;
  }

  /** The map order around the `i`-th chunk, with `kept` before it. */
  lemma SplitAt(kept: seq<nat>, resident: seq<nat>, i: nat)
    requires i < |resident|
    ensures kept + resident[i..] == kept + ([resident[i]] + resident[i + 1..])
    ensures kept + resident[i..] == (kept + [resident[i]]) + resident[i + 1..]
  {
    assert resident[i..] == [resident[i]] + resident[i + 1..];
  }

  /** The selections after a chunk outside the matrix. */
  lemma SelectNextOut(store: seq<Chunk>, resident: seq<nat>, i: nat, m: Matrix, t: int, cs: int)
    requires IdsIn(store, resident) && i < |resident| && !WithinMatrix(m, store[resident[i]].cell, t, cs)
    ensures Select(store, resident[..i + 1], m, t, cs, true) == Select(store, resident[..i], m, t, cs, true)
    ensures Select(store, resident[..i + 1], m, t, cs, false) == Select(store, resident[..i], m, t, cs, false) + [resident[i]]
  {
    SelectNext(store, resident, i, m, t, cs, true);
    SelectNext(store, resident, i, m, t, cs, false);
    assert Select(store, resident[..i], m, t, cs, true) + [] == Select(store, resident[..i], m, t, cs, true);
  }

  /** The selections after a chunk inside the matrix. */
  lemma SelectNextIn(store: seq<Chunk>, resident: seq<nat>, i: nat, m: Matrix, t: int, cs: int)
    requires IdsIn(store, resident) && i < |resident| && WithinMatrix(m, store[resident[i]].cell, t, cs)
    ensures Select(store, resident[..i + 1], m, t, cs, true) == Select(store, resident[..i], m, t, cs, true) + [resident[i]]
    ensures Select(store, resident[..i + 1], m, t, cs, false) == Select(store, resident[..i], m, t, cs, false)
  {
    SelectNext(store, resident, i, m, t, cs, true);
    SelectNext(store, resident, i, m, t, cs, false);
    assert Select(store, resident[..i], m, t, cs, false) + [] == Select(store, resident[..i], m, t, cs, false);
  }

  /** The posts after destroying one more chunk. */
  lemma DestroyPostsSnoc(store: seq<Chunk>, s: seq<nat>, x: nat)
    requires IdsIn(store, s) && x < |store|
    ensures IdsIn(store, s + [x])
    ensures DestroyPosts(store, s + [x])
      == DestroyPosts(store, s) + [CleanUpChunk(store[x].clientKey), ObjectDestroy(store[x].clientKey)]
  {
    DestroyPostsCons(store, x, []);
    DestroyPostsAppend(store, s, [x]);
  }

  /** One step of the eviction loop on a chunk outside the matrix. */
  lemma EvictStepOut(store: seq<Chunk>, resident: seq<nat>, m: Matrix, t: int, cs: int, i: nat,
                     kept: seq<nat>, store': seq<Chunk>, resident': seq<nat>, posted: seq<Post>, allSettled: bool)
    requires EvictState(store, resident, m, t, cs, i, kept, store', resident', posted, allSettled) && i < |resident|
    requires !WithinMatrix(m, store[resident[i]].cell, t, cs)
    ensures var id := resident[i];
      var c := store[id];
      EvictState(store, resident, m, t, cs, i + 1, kept, store'[id := c.(aborted := true)], Without(resident', id),
                 posted + [CleanUpChunk(c.clientKey), ObjectDestroy(c.clientKey)], allSettled)
  {
    var id := resident[i];
    ResidentDistinct(store, resident, i);
    AbortedStep(store, store', resident, i, m, t, cs);
    SelectNextOut(store, resident, i, m, t, cs);
    SelectAbsent(store, resident[..i], m, t, cs, true, id);
    SplitAt(kept, resident, i);
    WithoutStep(kept, resident[i + 1..], id);
    DestroyPostsSnoc(store, Select(store, resident[..i], m, t, cs, false), id);
  }

  /** One step of the eviction loop on a chunk inside the matrix. */
  lemma EvictStepIn(store: seq<Chunk>, resident: seq<nat>, m: Matrix, t: int, cs: int, i: nat,
                    kept: seq<nat>, store': seq<Chunk>, resident': seq<nat>, posted: seq<Post>, allSettled: bool)
    requires EvictState(store, resident, m, t, cs, i, kept, store', resident', posted, allSettled) && i < |resident|
    requires WithinMatrix(m, store[resident[i]].cell, t, cs)
    ensures var id := resident[i];
      EvictState(store, resident, m, t, cs, i + 1, kept + [id], store', resident', posted, allSettled && store[id].settled)
  {
    var id := resident[i];
    AbortedStep(store, store', resident, i, m, t, cs);
    SelectNextIn(store, resident, i, m, t, cs);
    KeptSnoc(store, kept, id, allSettled);
    SplitAt(kept, resident, i);
  }

  /** The eviction loop of `onClientChunkChange` and `onChunkReady`: every chunk of
      `createdChunks` outside the matrix is aborted, dereferenced and destroyed, in map order;
      the others stay, and `allSettled` says whether all of those are settled. */
  method EvictOutside(store: seq<Chunk>, resident: seq<nat>, m: Matrix, t: int, cs: int)
    returns (store': seq<Chunk>, resident': seq<nat>, posted: seq<Post>, allSettled: bool)
    requires ResidentOk(store, resident)
    ensures resident' == Select(store, resident, m, t, cs, true)
    ensures ResidentOk(store', resident')
    ensures forall k :: 0 <= k < |resident'| ==> WithinMatrix(m, store'[resident'[k]].cell, t, cs)
    ensures posted == DestroyPosts(store, Select(store, resident, m, t, cs, false))
    ensures AbortedOutside(store, store', resident, m, t, cs)
    ensures allSettled <==> forall k :: 0 <= k < |resident'| ==> store'[resident'[k]].settled
  {
    store', resident', posted, allSettled := store, resident, [], true;
    ghost var kept: seq<nat> := [];
    var i := 0;
    while i < |resident|
      invariant EvictState(store, resident, m, t, cs, i, kept, store', resident', posted, allSettled)
    {
      var id := resident[i];
      AbortedStep(store, store', resident, i, m, t, cs);
      var c := store'[id];
      if !WithinMatrix(m, c.cell, t, cs) {
        EvictStepOut(store, resident, m, t, cs, i, kept, store', resident', posted, allSettled);
        store' := store'[id := c.(aborted := true)];
        resident' := Without(resident', id);
        posted := posted + [CleanUpChunk(c.clientKey), ObjectDestroy(c.clientKey)];
      } else {
        EvictStepIn(store, resident, m, t, cs, i, kept, store', resident', posted, allSettled);
        kept := kept + [id];
        allSettled := allSettled && c.settled;
      }
      i := i + 1;
    }
    EvictDone(store, resident, m, t, cs, i, kept, store', resident', posted, allSettled);
  }

  lemma EvictDone(store: seq<Chunk>, resident: seq<nat>, m: Matrix, t: int, cs: int, i: nat,
                  kept: seq<nat>, store': seq<Chunk>, resident': seq<nat>, posted: seq<Post>, allSettled: bool)
    requires EvictState(store, resident, m, t, cs, i, kept, store', resident', posted, allSettled) && i == |resident|
    ensures AbortedOutside(store, store', resident, m, t, cs)
    ensures resident' == Select(store, resident, m, t, cs, true)
    ensures posted == DestroyPosts(store, Select(store, resident, m, t, cs, false))
    ensures ResidentOk(store', resident')
    ensures forall k :: 0 <= k < |resident'| ==> store'[resident'[k]] == store[resident'[k]]
    ensures allSettled <==> forall k :: 0 <= k < |resident'| ==> store'[resident'[k]].settled
  {
    assert resident[i..] == [];
    assert resident[..i] == resident;
    SelectResidentOk(store, resident, m, t, cs, true);
  }

  /** `setStale()` without a key destroys every chunk: eviction against a matrix that holds
      nothing. */
  const Nowhere: Matrix := Matrix(0, 0, 0, 0)

  lemma {:induction false} SelectNowhere(store: seq<Chunk>, ids: seq<nat>, cs: int)
    requires IdsIn(store, ids)
    ensures Select(store, ids, Nowhere, 1, cs, true) == []
    ensures Select(store, ids, Nowhere, 1, cs, false) == ids
  {
    if ids != [] {
      IdsInTail(store, ids);
      SelectNowhere(store, ids[1..], cs);
    }
  }

  // ---------------------------------------------------------------------------
  // Eviction and `onChunkReady` as values

  /** The arena, `createdChunks` and the posts after an eviction. */
  datatype Eviction = Eviction(store: seq<Chunk>, resident: seq<nat>, posted: seq<Post>)

  /** `store` with the chunks of `ids` outside the matrix aborted. */
  function Evicted(store: seq<Chunk>, ids: seq<nat>, m: Matrix, t: int, cs: int): (r: seq<Chunk>)
    ensures AbortedOutside(store, r, ids, m, t, cs)
  {
    seq(|store|, k requires 0 <= k < |store| =>
      if k in ids && !WithinMatrix(m, store[k].cell, t, cs) then store[k].(aborted := true) else store[k])
  }

  /** `AbortedOutside` fixes the arena it describes. */
  lemma AbortedOutsideIsEvicted(store: seq<Chunk>, store': seq<Chunk>, ids: seq<nat>, m: Matrix, t: int, cs: int)
    requires AbortedOutside(store, store', ids, m, t, cs)
    ensures store' == Evicted(store, ids, m, t, cs)
  {
  }

  /** The eviction loop: the chunks of `createdChunks` outside the matrix are aborted and
      leave it, in map order, each with its two posts. */
  function Evict(store: seq<Chunk>, resident: seq<nat>, m: Matrix, t: int, cs: int): (e: Eviction)
    requires IdsIn(store, resident)
    ensures |e.store| == |store| && IdsIn(e.store, e.resident)
    ensures forall k :: 0 <= k < |e.resident| ==> WithinMatrix(m, e.store[e.resident[k]].cell, t, cs)
  {
    Eviction(Evicted(store, resident, m, t, cs), Select(store, resident, m, t, cs, true),
             DestroyPosts(store, Select(store, resident, m, t, cs, false)))
  }

  /** Every chunk of `ids` is settled. */
  predicate AllSettled(store: seq<Chunk>, ids: seq<nat>)
    requires IdsIn(store, ids)
  {
    forall k :: 0 <= k < |ids| ==> store[ids[k]].settled
  }

  /** `onChunkReady(i)`: the chunk is settled, the chunks outside the matrix are evicted,
      and `onChunksAllReady` follows when every chunk left is settled. */
  function Ready(store: seq<Chunk>, resident: seq<nat>, i: nat, m: Matrix, t: int, cs: int): (e: Eviction)
    requires IdsIn(store, resident) && i < |store|
    ensures |e.store| == |store| && IdsIn(e.store, e.resident)
  {
    var settled := store[i := store[i].(settled := true)];
    assert IdsIn(settled, resident);
    var ev := Evict(settled, resident, m, t, cs);
    ev.(posted := ev.posted + if AllSettled(ev.store, ev.resident) then [ChunksAllReady] else [])
  }

  /** A ready chunk that is still in the matrix is settled afterwards, and every chunk
      left in `createdChunks` is inside the matrix. */
  lemma ReadySettles(store: seq<Chunk>, resident: seq<nat>, i: nat, m: Matrix, t: int, cs: int)
    requires IdsIn(store, resident) && i < |store|
    ensures Ready(store, resident, i, m, t, cs).store[i].settled
    ensures forall k :: 0 <= k < |Ready(store, resident, i, m, t, cs).resident| ==>
      WithinMatrix(m, Ready(store, resident, i, m, t, cs).store[Ready(store, resident, i, m, t, cs).resident[k]].cell, t, cs)
    ensures var e := Ready(store, resident, i, m, t, cs);
      e.posted != [] && e.posted[|e.posted| - 1] == ChunksAllReady <==> AllSettled(e.store, e.resident)
  {
    var settled := store[i := store[i].(settled := true)];
    assert IdsIn(settled, resident);
    var ev := Evict(settled, resident, m, t, cs);
    DestroyPostsNeverReady(settled, Select(settled, resident, m, t, cs, false));
  }

  /** The destroy posts never include `onChunksAllReady`. */
  lemma {:induction false} DestroyPostsNeverReady(store: seq<Chunk>, ids: seq<nat>)
    requires IdsIn(store, ids)
    ensures ChunksAllReady !in DestroyPosts(store, ids)
  {
    if ids != [] {
      IdsInTail(store, ids);
      DestroyPostsNeverReady(store, ids[1..]);
    }
  }

  /** The arena the matrix `m` does not name: `None` before the first cell is known. */
  function MatrixOr(m: Option<Matrix>): Matrix
  {
    if m.Some? then m.value else Nowhere
  }

  // ---------------------------------------------------------------------------
  // Creating chunks from the chunk table's rows

  /** The chunk `new Chunk(row)` builds at clock `now`. */
  function NewChunk(row: ChunkRow, now: int): Chunk
  {
    Chunk(row.cell, ClientKey(row.cell, now), row.data, false, false)
  }

  /** The rows `initChunks` builds a chunk for: each row whose key is not yet in
      `createdChunks`, where each row built adds its key. */
  function NewRows(keys: set<Cell>, rows: seq<ChunkRow>): seq<ChunkRow>
    decreases |rows|
  {
    if rows == [] then []
    else if rows[0].cell in keys then NewRows(keys, rows[1..])
    else [rows[0]] + NewRows(keys + {rows[0].cell}, rows[1..])
  }

  /** The chunks built for `rows`, in order. */
  function Made(rows: seq<ChunkRow>, now: int): (r: seq<Chunk>)
    ensures |r| == |rows| && forall j :: 0 <= j < |rows| ==> r[j] == NewChunk(rows[j], now)
  {
    if rows == [] then [] else [NewChunk(rows[0], now)] + Made(rows[1..], now)
  }

  /** The ids `base, base + 1, ...` of `n` new chunks. */
  function Span(base: nat, n: nat): (r: seq<nat>)
    ensures |r| == n && forall j :: 0 <= j < n ==> r[j] == base + j
  {
    if n == 0 then [] else Span(base, n - 1) + [base + n - 1]
  }

  /** Of the chunks built for `rows`, numbered from `base`, those inside the matrix. */
  function WithinIds(base: nat, rows: seq<ChunkRow>, m: Matrix, t: int, cs: int): seq<nat>
    decreases |rows|
  {
    if rows == [] then []
    else (if WithinMatrix(m, rows[0].cell, t, cs) then [base] else []) + WithinIds(base + 1, rows[1..], m, t, cs)
  }

  /** The ids returned name new chunks, and a new chunk is returned exactly when it
      lies in the matrix. */
  lemma {:induction false} WithinIdsRange(base: nat, rows: seq<ChunkRow>, m: Matrix, t: int, cs: int)
    ensures forall k :: 0 <= k < |WithinIds(base, rows, m, t, cs)| ==>
      base <= WithinIds(base, rows, m, t, cs)[k] < base + |rows|
    decreases |rows|
  {
    if rows != [] {
      WithinIdsRange(base + 1, rows[1..], m, t, cs);
    }
  }

  lemma {:induction false} WithinIdsMember(base: nat, rows: seq<ChunkRow>, m: Matrix, t: int, cs: int, j: nat)
    requires j < |rows|
    ensures base + j in WithinIds(base, rows, m, t, cs) <==> WithinMatrix(m, rows[j].cell, t, cs)
    decreases |rows|
  {
    WithinIdsRange(base + 1, rows[1..], m, t, cs);
    if j > 0 {
      WithinIdsMember(base + 1, rows[1..], m, t, cs, j - 1);
    }
  }

  function RowCells(rows: seq<ChunkRow>): set<Cell>
  {
    set j | 0 <= j < |rows| :: rows[j].cell
  }

  lemma RowCellsSnoc(rows: seq<ChunkRow>, r: ChunkRow)
    ensures RowCells(rows + [r]) == RowCells(rows) + {r.cell}
  {
    var all := rows + [r];
    assert all[|rows|] == r;
    assert forall j :: 0 <= j < |rows| ==> rows[j] == all[j];
  }

  lemma RowCellsCons(r: ChunkRow, rows: seq<ChunkRow>)
    ensures RowCells([r] + rows) == {r.cell} + RowCells(rows)
  {
    var all := [r] + rows;
    assert all[0] == r;
    assert forall j :: 0 <= j < |rows| ==> rows[j] == all[j + 1];
    forall c | c in RowCells(all) ensures c in {r.cell} + RowCells(rows) {
      var j :| 0 <= j < |all| && all[j].cell == c;
      if j > 0 {
        assert rows[j - 1].cell == c;
      }
    }
  }

  /** The keys added: every row's key ends up in `createdChunks`. */
  lemma {:induction false} NewRowsCover(keys: set<Cell>, rows: seq<ChunkRow>)
    ensures keys + RowCells(NewRows(keys, rows)) == keys + RowCells(rows)
    decreases |rows|
  {
    if rows != [] {
      var r := rows[0];
      var tail := rows[1..];
      assert rows == [r] + tail;
      RowCellsCons(r, tail);
      if r.cell in keys {
        NewRowsCover(keys, tail);
      } else {
        NewRowsCover(keys + {r.cell}, tail);
        RowCellsCons(r, NewRows(keys + {r.cell}, tail));
      }
    }
  }

  /** Each key is added once, and none that was there already. */
  lemma {:induction false} NewRowsFresh(keys: set<Cell>, rows: seq<ChunkRow>)
    ensures forall j :: 0 <= j < |NewRows(keys, rows)| ==> NewRows(keys, rows)[j].cell !in keys
    ensures forall a, b :: 0 <= a < b < |NewRows(keys, rows)| ==> NewRows(keys, rows)[a].cell != NewRows(keys, rows)[b].cell
    decreases |rows|
  {
    if rows != [] {
      var r := rows[0];
      var tail := rows[1..];
      if r.cell in keys {
        NewRowsFresh(keys, tail);
      } else {
        NewRowsFresh(keys + {r.cell}, tail);
        var p := NewRows(keys + {r.cell}, tail);
        var all := [r] + p;
        assert NewRows(keys, rows) == all;
        assert forall j :: 0 < j < |all| ==> all[j] == p[j - 1];
      }
    }
  }

  /** Growing the arena changes nothing the map refers to. */
  lemma Grow(store: seq<Chunk>, resident: seq<nat>, c: Chunk)
    requires ResidentOk(store, resident)
    ensures ResidentOk(store + [c], resident)
    ensures Keys(store + [c], resident) == Keys(store, resident)
  {
    assert forall k :: 0 <= k < |store| ==> (store + [c])[k] == store[k];
  }

  /** A chunk appended to the arena and to the map adds exactly its key. */
  lemma NewEntry(store: seq<Chunk>, resident: seq<nat>, c: Chunk)
    requires ResidentOk(store, resident) && c.cell !in Keys(store, resident)
    ensures ResidentOk(store + [c], resident + [|store|])
    ensures Keys(store + [c], resident + [|store|]) == Keys(store, resident) + {c.cell}
  {
    Grow(store, resident, c);
    ResidentOkSnoc(store + [c], resident, |store|);
    KeysSnoc(store + [c], resident, |store|);
  }

  /** The state of `initChunks` after `i` rows: `done` are the rows built so far. */
  ghost predicate InitState(store: seq<Chunk>, resident: seq<nat>, m: Matrix, t: int, cs: int, rows: seq<ChunkRow>, now: int,
                            i: nat, done: seq<ChunkRow>, store': seq<Chunk>, resident': seq<nat>, inMatrix: seq<nat>)
  {
    && InitArena(store, resident, m, t, cs, now, done, store', resident', inMatrix)
    && InitRows(Keys(store, resident), rows, i, done, Keys(store', resident'))
  }

  /** The arena and the map after building the chunks of `done`. */
  ghost predicate InitArena(store: seq<Chunk>, resident: seq<nat>, m: Matrix, t: int, cs: int, now: int,
                            done: seq<ChunkRow>, store': seq<Chunk>, resident': seq<nat>, inMatrix: seq<nat>)
  {
    && ResidentOk(store, resident)
    && ResidentOk(store', resident')
    && store' == store + Made(done, now)
    && resident' == resident + Span(|store|, |done|)
    && inMatrix == WithinIds(|store|, done, m, t, cs)
    && Keys(store', resident') == Keys(store, resident) + RowCells(done)
  }

  /** The rows built so far, then those the rest of the rows will build, are those the
      whole of the rows builds. */
  ghost predicate InitRows(keys: set<Cell>, rows: seq<ChunkRow>, i: nat, done: seq<ChunkRow>, keys': set<Cell>)
  {
    i <= |rows| && NewRows(keys, rows) == done + NewRows(keys', rows[i..])
  }

  lemma RowsStepNew(keys: set<Cell>, rows: seq<ChunkRow>, i: nat, done: seq<ChunkRow>, keys': set<Cell>)
    requires InitRows(keys, rows, i, done, keys') && i < |rows| && rows[i].cell !in keys'
    ensures InitRows(keys, rows, i + 1, done + [rows[i]], keys' + {rows[i].cell})
  {
    var row := rows[i];
    RowsAt(keys', rows, i);
    assert done + ([row] + NewRows(keys' + {row.cell}, rows[i + 1..]))
      == (done + [row]) + NewRows(keys' + {row.cell}, rows[i + 1..]);
  }

  lemma ArenaStep(store: seq<Chunk>, resident: seq<nat>, m: Matrix, t: int, cs: int, now: int,
                  done: seq<ChunkRow>, store': seq<Chunk>, resident': seq<nat>, inMatrix: seq<nat>, row: ChunkRow)
    requires InitArena(store, resident, m, t, cs, now, done, store', resident', inMatrix)
    requires row.cell !in Keys(store', resident')
    ensures |store'| == |store| + |done|
    ensures var id := |store'|;
      InitArena(store, resident, m, t, cs, now, done + [row], store' + [NewChunk(row, now)], resident' + [id],
                inMatrix + if WithinMatrix(m, row.cell, t, cs) then [id] else [])
  {
    var c, id := NewChunk(row, now), |store'|;
    ArenaKeysStep(store, resident, done, store', resident', row, now);
    ArenaSeqsStep(store, resident, done, store', resident', row, now);
    WithinIdsSnoc(|store|, done, row, m, t, cs);
  }

  /** The map part of one step of `initChunks`: the new chunk joins under a new key. */
  lemma ArenaKeysStep(store: seq<Chunk>, resident: seq<nat>, done: seq<ChunkRow>, store': seq<Chunk>,
                      resident': seq<nat>, row: ChunkRow, now: int)
    requires ResidentOk(store, resident) && ResidentOk(store', resident')
    requires Keys(store', resident') == Keys(store, resident) + RowCells(done)
    requires row.cell !in Keys(store', resident')
    ensures ResidentOk(store' + [NewChunk(row, now)], resident' + [|store'|])
    ensures Keys(store' + [NewChunk(row, now)], resident' + [|store'|]) == Keys(store, resident) + RowCells(done + [row])
  {
    NewEntry(store', resident', NewChunk(row, now));
    RowCellsSnoc(done, row);
  }

  /** The arena part of one step of `initChunks`: one more chunk made and registered. */
  lemma ArenaSeqsStep(store: seq<Chunk>, resident: seq<nat>, done: seq<ChunkRow>, store': seq<Chunk>,
                      resident': seq<nat>, row: ChunkRow, now: int)
    requires store' == store + Made(done, now) && resident' == resident + Span(|store|, |done|)
    ensures |store'| == |store| + |done|
    ensures store' + [NewChunk(row, now)] == store + Made(done + [row], now)
    ensures resident' + [|store'|] == resident + Span(|store|, |done + [row]|)
  {
    MadeSnoc(done, row, now);
    SnocAssoc(store, Made(done, now), NewChunk(row, now));
    SpanSnoc(|store|, |done|);
    SnocAssoc(resident, Span(|store|, |done|), |store'|);
  }

  lemma SpanSnoc(base: nat, n: nat)
    ensures Span(base, n + 1) == Span(base, n) + [base + n]
  {
  }

  lemma {:induction false} WithinIdsSnoc(base: nat, rows: seq<ChunkRow>, r: ChunkRow, m: Matrix, t: int, cs: int)
    ensures WithinIds(base, rows + [r], m, t, cs)
      == WithinIds(base, rows, m, t, cs) + (if WithinMatrix(m, r.cell, t, cs) then [base + |rows|] else [])
    decreases |rows|
  {
    if rows == [] {
      assert [r][1..] == [];
    } else {
      assert (rows + [r])[1..] == rows[1..] + [r];
      WithinIdsSnoc(base + 1, rows[1..], r, m, t, cs);
    }
  }

  lemma SnocAssoc<T>(a: seq<T>, b: seq<T>, x: T)
    ensures (a + b) + [x] == a + (b + [x])
  {
  }

  lemma MadeSnoc(rows: seq<ChunkRow>, r: ChunkRow, now: int)
    ensures Made(rows + [r], now) == Made(rows, now) + [NewChunk(r, now)]
  {
  }

  lemma RowsAt(keys: set<Cell>, rows: seq<ChunkRow>, i: nat)
    requires i < |rows|
    ensures NewRows(keys, rows[i..])
      == if rows[i].cell in keys then NewRows(keys, rows[i + 1..]) else [rows[i]] + NewRows(keys + {rows[i].cell}, rows[i + 1..])
  {
    assert rows[i..][0] == rows[i] && rows[i..][1..] == rows[i + 1..];
  }

  /** A row whose key is already in the map builds nothing. */
  lemma InitStepKnown(store: seq<Chunk>, resident: seq<nat>, m: Matrix, t: int, cs: int, rows: seq<ChunkRow>, now: int,
                      i: nat, done: seq<ChunkRow>, store': seq<Chunk>, resident': seq<nat>, inMatrix: seq<nat>)
    requires InitState(store, resident, m, t, cs, rows, now, i, done, store', resident', inMatrix) && i < |rows|
    requires rows[i].cell in Keys(store', resident')
    ensures InitState(store, resident, m, t, cs, rows, now, i + 1, done, store', resident', inMatrix)
  {
    RowsAt(Keys(store', resident'), rows, i);
  }

  /** A row whose key is new builds a chunk with the next id and enters the map. */
  lemma InitStepNew(store: seq<Chunk>, resident: seq<nat>, m: Matrix, t: int, cs: int, rows: seq<ChunkRow>, now: int,
                    i: nat, done: seq<ChunkRow>, store': seq<Chunk>, resident': seq<nat>, inMatrix: seq<nat>)
    requires InitState(store, resident, m, t, cs, rows, now, i, done, store', resident', inMatrix) && i < |rows|
    requires rows[i].cell !in Keys(store', resident')
    ensures |store'| == |store| + |done|
    ensures var id := |store'|;
      InitState(store, resident, m, t, cs, rows, now, i + 1, done + [rows[i]],
                store' + [NewChunk(rows[i], now)], resident' + [id],
                inMatrix + if WithinMatrix(m, rows[i].cell, t, cs) then [id] else [])
  {
    ArenaStep(store, resident, m, t, cs, now, done, store', resident', inMatrix, rows[i]);
    NewEntry(store', resident', NewChunk(rows[i], now));
    RowsStepNew(Keys(store, resident), rows, i, done, Keys(store', resident'));
  }

  /** `initChunks`: builds a chunk, registered in `createdChunks`, for every row whose key
      is not there yet, and returns the new chunks that are inside the matrix. */
  method CreateChunks(store: seq<Chunk>, resident: seq<nat>, m: Matrix, t: int, cs: int, rows: seq<ChunkRow>, now: int)
    returns (store': seq<Chunk>, resident': seq<nat>, inMatrix: seq<nat>)
    requires ResidentOk(store, resident)
    ensures ResidentOk(store', resident')
    ensures store' == store + Made(NewRows(Keys(store, resident), rows), now)
    ensures resident' == resident + Span(|store|, |store'| - |store|)
    ensures inMatrix == WithinIds(|store|, NewRows(Keys(store, resident), rows), m, t, cs)
    ensures Keys(store', resident') == Keys(store, resident) + RowCells(rows)
  {
    store', resident', inMatrix := store, resident, [];
    ghost var done: seq<ChunkRow> := [];
    var i := 0;
    while i < |rows|
      invariant InitState(store, resident, m, t, cs, rows, now, i, done, store', resident', inMatrix)
    {
      var row := rows[i];
      if Find(store', resident', row.cell).None? {
        InitStepNew(store, resident, m, t, cs, rows, now, i, done, store', resident', inMatrix);
        var id := |store'|;
        store' := store' + [NewChunk(row, now)];
        resident' := resident' + [id];
        if WithinMatrix(m, row.cell, t, cs) {
          inMatrix := inMatrix + [id];
        } else {
          inMatrix := inMatrix + [];
        }
        done := done + [row];
      } else {
        InitStepKnown(store, resident, m, t, cs, rows, now, i, done, store', resident', inMatrix);
      }
      i := i + 1;
    }
    InitDone(store, resident, m, t, cs, rows, now, i, done, store', resident', inMatrix);
  }

  lemma InitDone(store: seq<Chunk>, resident: seq<nat>, m: Matrix, t: int, cs: int, rows: seq<ChunkRow>, now: int,
                 i: nat, done: seq<ChunkRow>, store': seq<Chunk>, resident': seq<nat>, inMatrix: seq<nat>)
    requires InitState(store, resident, m, t, cs, rows, now, i, done, store', resident', inMatrix) && i == |rows|
    ensures done == NewRows(Keys(store, resident), rows)
    ensures |store'| - |store| == |done|
    ensures Keys(store', resident') == Keys(store, resident) + RowCells(rows)
  {
    NewRowsCover(Keys(store, resident), rows);
    assert rows[i..] == [];
    assert done + [] == done;
  }

  /** Flags changed, keys kept: the map is the same map. */
  lemma Relabel(store: seq<Chunk>, store': seq<Chunk>, resident: seq<nat>)
    requires ResidentOk(store, resident) && |store'| == |store|
    requires forall k :: 0 <= k < |store| ==> store'[k].cell == store[k].cell
    ensures ResidentOk(store', resident) && Keys(store', resident) == Keys(store, resident)
  {
  }

  /** Removing a chunk removes its key and no other. */
  lemma {:induction false} WithoutKeys(store: seq<Chunk>, resident: seq<nat>, x: nat)
    requires ResidentOk(store, resident) && x < |store|
    ensures ResidentOk(store, Without(resident, x))
    ensures Keys(store, Without(resident, x))
      == Keys(store, resident) - (if x in resident then {store[x].cell} else {})
  {
    if resident != [] {
      IdsInTail(store, resident);
      var r0 := resident[0];
      var tail := resident[1..];
      ResidentOkCons(store, r0, tail);
      KeysCons(store, r0, tail);
      WithoutKeys(store, tail, x);
      if r0 == x {
        assert x !in tail by {
          forall k | 0 <= k < |tail| ensures tail[k] != x {
            assert store[tail[k]].cell in Keys(store, tail);
          }
        }
        WithoutAbsent(tail, x);
        assert Without(resident, x) == tail;
      } else {
        var w := Without(tail, x);
        assert Without(resident, x) == [r0] + w;
        ResidentOkCons(store, r0, w);
        KeysCons(store, r0, w);
        if x in resident {
          assert x in tail;
          assert store[x].cell != store[r0].cell by {
            var k :| 0 <= k < |tail| && tail[k] == x;
            assert store[resident[0]].cell != store[resident[k + 1]].cell;
          }
        }
      }
    }
  }

  /** The walk of `createRegionChunks` over the matrix `m`, column by column. */
  method RegionCells(store: seq<Chunk>, resident: seq<nat>, m: Matrix, cs: int) returns (cells: seq<Cell>)
    requires IdsIn(store, resident) && cs > 0
    ensures cells == Missing(MatrixCells(m, cs), Keys(store, resident))
  {
    ghost var keys := Keys(store, resident);
    ghost var ys := Lattice(m.y1, m.y2, cs);
    ghost var total := Missing(MatrixCells(m, cs), keys);
    cells := [];
    var x := m.x1;
    while x < m.x2
      invariant cells + Missing(Grid(Lattice(x, m.x2, cs), ys), keys) == total
      decreases m.x2 - x
    {
      GridAdvance(cells, x, m.x2, cs, ys, keys, total);
      ghost var rest := Missing(Grid(Lattice(x + cs, m.x2, cs), ys), keys);
      var y := m.y1;
      while y < m.y2
        invariant cells + Missing(Column(x, Lattice(y, m.y2, cs)), keys) + rest == total
        decreases m.y2 - y
      {
        var has := Find(store, resident, Cell(x, y));
        var next := if has.None? then [Cell(x, y)] else [];
        ColumnAdvance(cells, next, x, y, m.y2, cs, keys, rest, total);
        cells := cells + next;
        y := y + cs;
      }
      ColumnEnd(cells, x, y, m.y2, cs, keys, rest, total);
      x := x + cs;
    }
    GridEnd(cells, x, m.x2, cs, ys, keys, total);
  }

  /** `ChunkCreator`: the matrix around the client, every chunk ever made, and
      `createdChunks`. */
  class ChunkCreator {
    const chunkSize: int
    const gridSize: nat
    const trailDistance: int
    var matrix: Option<Matrix>
    var store: seq<Chunk>
    var resident: seq<nat>

    ghost predicate Valid()
      reads this
    {
      && chunkSize > 0
      && ResidentOk(store, resident)
      && (matrix.None? ==> store == [])
    }

    constructor(chunkSize: int, gridSize: nat, trailDistance: int)
      requires chunkSize > 0
      ensures Valid() && matrix == None && store == [] && resident == []
      ensures this.chunkSize == chunkSize && this.gridSize == gridSize && this.trailDistance == trailDistance
    {
      this.chunkSize := chunkSize;
      this.gridSize := gridSize;
      this.trailDistance := trailDistance;
      matrix := None;
      store := [];
      resident := [];
    }

    /** `onClientChunkChange`, up to the query of the chunk table: centre the matrix on the
        client's cell, evict every chunk outside it, and list the matrix cells that have no
        chunk, which is what the chunk table is then asked for. */
    method OnClientChunkChange(cx: int, cy: int) returns (posted: seq<Post>, region: seq<Cell>)
      requires Valid()
      modifies this
      ensures Valid() && matrix == Some(MatrixAround(cx, cy, gridSize, chunkSize))
      ensures resident == Select(old(store), old(resident), matrix.value, trailDistance, chunkSize, true)
      ensures forall k :: 0 <= k < |resident| ==> WithinMatrix(matrix.value, store[resident[k]].cell, trailDistance, chunkSize)
      ensures AbortedOutside(old(store), store, old(resident), matrix.value, trailDistance, chunkSize)
      ensures posted == DestroyPosts(old(store), Select(old(store), old(resident), matrix.value, trailDistance, chunkSize, false))
      ensures region == Missing(MatrixCells(matrix.value, chunkSize), Keys(store, resident))
      ensures Eviction(store, resident, posted) == Evict(old(store), old(resident), matrix.value, trailDistance, chunkSize)
    {
      var m := MatrixAround(cx, cy, gridSize, chunkSize);
      var store', resident', evicted, _ := EvictOutside(store, resident, m, trailDistance, chunkSize);
      AbortedOutsideIsEvicted(store, store', resident, m, trailDistance, chunkSize);
      matrix, store, resident := Some(m), store', resident';
      posted := evicted;
      region := CreateRegionChunks();
    }

    /** `createRegionChunks`: the cells of the matrix, column by column, whose key is not
        in `createdChunks`. */
    method CreateRegionChunks() returns (cells: seq<Cell>)
      requires Valid() && matrix.Some?
      ensures cells == Missing(MatrixCells(matrix.value, chunkSize), Keys(store, resident))
    {
      cells := RegionCells(store, resident, matrix.value, chunkSize);
    }

    /** `initChunks`, once the chunk table answers with `rows`: a chunk for every row whose
        key is not in `createdChunks` yet (made at clock `now`), and the new chunks inside
        the matrix, which go on to have their objects created. */
    method InitChunks(rows: seq<ChunkRow>, now: int) returns (inMatrix: seq<nat>)
      requires Valid() && matrix.Some?
      modifies this
      ensures Valid() && matrix == old(matrix)
      ensures store == old(store) + Made(NewRows(old(Keys(store, resident)), rows), now)
      ensures resident == old(resident) + Span(|old(store)|, |store| - |old(store)|)
      ensures Keys(store, resident) == old(Keys(store, resident)) + RowCells(rows)
      ensures inMatrix == WithinIds(|old(store)|, NewRows(old(Keys(store, resident)), rows), matrix.value, trailDistance, chunkSize)
    {
      var store', resident', made := CreateChunks(store, resident, matrix.value, trailDistance, chunkSize, rows, now);
      store, resident := store', resident';
      inMatrix := made;
    }

    /** `onChunkReady`: settle the chunk, evict every chunk now outside the matrix, and
        post `onChunksAllReady` when every chunk left is settled. */
    method OnChunkReady(i: nat) returns (posted: seq<Post>)
      requires Valid() && i < |store|
      modifies this
      ensures Valid() && matrix == old(matrix) && matrix.Some?
      ensures var settled := old(store)[i := old(store)[i].(settled := true)];
        && resident == Select(settled, old(resident), matrix.value, trailDistance, chunkSize, true)
        && AbortedOutside(settled, store, old(resident), matrix.value, trailDistance, chunkSize)
        && posted == DestroyPosts(settled, Select(settled, old(resident), matrix.value, trailDistance, chunkSize, false))
                     + (if forall k :: 0 <= k < |resident| ==> store[resident[k]].settled then [ChunksAllReady] else [])
      ensures Eviction(store, resident, posted) == Ready(old(store), old(resident), i, matrix.value, trailDistance, chunkSize)
    {
      var m := matrix.value;
      var settled := store[i := store[i].(settled := true)];
      Relabel(store, settled, resident);
      var store', resident', evicted, allSettled := EvictOutside(settled, resident, m, trailDistance, chunkSize);
      AbortedOutsideIsEvicted(settled, store', resident, m, trailDistance, chunkSize);
      store, resident := store', resident';
      posted := evicted + if allSettled then [ChunksAllReady] else [];
    }

    /** `setStale`: with a key, destroy that chunk (a key not in `createdChunks` throws,
        since the lookup gives `undefined`); without one, destroy every chunk. */
    method SetStale(key: Option<Cell>) returns (thrown: bool, posted: seq<Post>)
      requires Valid()
      modifies this
      ensures Valid() && matrix == old(matrix)
      ensures thrown <==> key.Some? && key.value !in old(Keys(store, resident))
      ensures thrown ==> store == old(store) && resident == old(resident) && posted == []
      ensures !thrown && key.Some? ==>
        var id := Find(old(store), old(resident), key.value).value;
        && store == old(store)[id := old(store)[id].(aborted := true)]
        && resident == Without(old(resident), id)
        && Keys(store, resident) == old(Keys(store, resident)) - {key.value}
        && posted == DestroyPosts(old(store), [id])
      ensures key.None? ==>
        && resident == []
        && posted == DestroyPosts(old(store), old(resident))
        && |store| == |old(store)|
        && forall k :: 0 <= k < |store| ==> store[k] == if k in old(resident) then old(store)[k].(aborted := true) else old(store)[k]
    {
      thrown, posted := false, [];
      if key.Some? {
        var found := Find(store, resident, key.value);
        if found.None? {
          thrown := true;
          return;
        }
        var id := found.value;
        var c := store[id];
        var aborted := store[id := c.(aborted := true)];
        Relabel(store, aborted, resident);
        WithoutKeys(aborted, resident, id);
        DestroyPostsCons(store, id, []);
        store, resident := aborted, Without(resident, id);
        posted := [CleanUpChunk(c.clientKey), ObjectDestroy(c.clientKey)];
      } else {
        SelectNowhere(store, resident, chunkSize);
        var store', resident', destroyed, _ := EvictOutside(store, resident, Nowhere, 1, chunkSize);
        store, resident := store', resident';
        posted := destroyed;
      }
    }

    /** `abort`: the chunk's work stops at its next check. */
    method Abort(i: nat)
      requires Valid() && i < |store|
      modifies this
      ensures Valid() && matrix == old(matrix) && resident == old(resident)
      ensures store == old(store)[i := old(store)[i].(aborted := true)]
    {
      Relabel(store, store[i := store[i].(aborted := true)], resident);
      store := store[i := store[i].(aborted := true)];
    }

    /** `deReference`: the chunk leaves `createdChunks`, a newer chunk with the same key
        stays, and the main thread is told to clean the chunk up. */
    method DeReference(i: nat) returns (posted: seq<Post>)
      requires Valid() && i < |store|
      modifies this
      ensures Valid() && matrix == old(matrix) && store == old(store)
      ensures resident == Without(old(resident), i)
      ensures Keys(store, resident) == old(Keys(store, resident)) - (if i in old(resident) then {store[i].cell} else {})
      ensures posted == [CleanUpChunk(store[i].clientKey)]
    {
      WithoutKeys(store, resident, i);
      resident := Without(resident, i);
      posted := [CleanUpChunk(store[i].clientKey)];
    }
  }
}
