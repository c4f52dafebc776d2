/**
 * `EventEmitter` (src/world-loader/EventEmitter.js): per event type, an array of
 * listeners in subscription order.
 *
 * A listener function is known by its identity, a `ListenerId`; JavaScript compares
 * functions by reference, and so does `indexOf` in `unsubscribe`. The wrapper that
 * `subscribeOnce` pushes is a fresh closure nobody else holds, so it never equals a
 * listener passed to `unsubscribe`: it is `Once(target)`. Calling a listener is
 * foreign code; the emitter records each call in `calls`.
 */
module Events {
  import opened Wrappers

  type ListenerId = nat

  datatype Listener = Plain(id: ListenerId) | Once(target: ListenerId)

  /** One listener invocation: `data` is `None` when it was called without arguments. */
  datatype Call<D> = Call(listener: ListenerId, data: Option<D>)

  /** What `subscribe` returns: calling it unsubscribes that listener from that type. */
  datatype Unsubscriber<E> = Unsubscriber(eventType: E, listener: ListenerId)

  /** `listenersOfType.splice(listenersOfType.indexOf(f), 1)` when `f` is present. */
  function RemoveFirst(l: seq<Listener>, f: ListenerId): (r: seq<Listener>)
    ensures multiset(r) == multiset(l) - multiset{Plain(f)}
    ensures Plain(f) !in l ==> r == l
    ensures Plain(f) in l ==> |r| == |l| - 1
  {
    if |l| == 0 then []
    else if l[0] == Plain(f) then
      assert l == [l[0]] + l[1..];
      l[1..]
    else
      assert l == [l[0]] + l[1..];
      [l[0]] + RemoveFirst(l[1..], f)
  }

  /** The array of one event type, `[]` when it was never subscribed to. */
  function ListenersOf<E>(m: map<E, seq<Listener>>, t: E): seq<Listener>
  {
    if t in m then m[t] else []
  }

  /** `notify`'s `for...of` from index `i` on: the array iterator re-reads the live
      array's length each step, and a wrapper's `unsubscribe` splices that array.
      Returns the calls made and the array left behind. */
  function Dispatch<D>(l: seq<Listener>, i: nat, data: D): (res: (seq<Call<D>>, seq<Listener>))
    decreases |l| - i
  {
    if i >= |l| then ([], l)
    else
      var step := Invoke(l, i, data);
      var rest := Dispatch(step.1, i + 1, data);
      ([step.0] + rest.0, rest.1)
  }

  /** Calling `l[i]`: a plain listener gets the data; a wrapper calls its listener
      without arguments and then unsubscribes that listener from the array. */
  function Invoke<D>(l: seq<Listener>, i: nat, data: D): (step: (Call<D>, seq<Listener>))
    requires i < |l|
    ensures |step.1| <= |l|
  {
    match l[i]
    case Plain(f) => (Call(f, Some(data)), l)
    case Once(f) => (Call(f, None), RemoveFirst(l, f))
  }

  /** The calls made by plain listeners, in order, each with the data. */
  function PlainCalls<D>(l: seq<Listener>, data: D): (cs: seq<Call<D>>)
    requires forall x :: x in l ==> x.Plain?
    ensures |cs| == |l|
    ensures forall k :: 0 <= k < |l| ==> cs[k] == Call(l[k].id, Some(data))
  {
    if |l| == 0 then [] else [Call(l[0].id, Some(data))] + PlainCalls(l[1..], data)
  }

  /** Without `subscribeOnce` wrappers, `notify` calls every listener once, in
      subscription order, with the data, and leaves the array as it was. */
  lemma {:induction false} DispatchPlain<D>(l: seq<Listener>, i: nat, data: D)
    requires i <= |l| && forall x :: x in l ==> x.Plain?
    ensures Dispatch(l, i, data) == (PlainCalls(l[i..], data), l)
    decreases |l| - i
  {
    if i < |l| {
      DispatchPlain(l, i + 1, data);
      assert l[i..][1..] == l[i + 1..];
    }
  }

  /** The wrappers in a listener array. */
  function Onces(l: seq<Listener>): (r: seq<Listener>)
    ensures forall x :: x in r ==> x in l && x.Once?
    ensures forall x :: x in l && x.Once? ==> x in r
  {
    if |l| == 0 then [] else (if l[0].Once? then [l[0]] else []) + Onces(l[1..])
  }

  lemma {:induction false} OncesOfRemoveFirst(l: seq<Listener>, f: ListenerId)
    ensures Onces(RemoveFirst(l, f)) == Onces(l)
  {
    if |l| > 0 && l[0] != Plain(f) {
      OncesOfRemoveFirst(l[1..], f);
      assert ([l[0]] + RemoveFirst(l[1..], f))[1..] == RemoveFirst(l[1..], f);
    }
  }

  /** As written, a `subscribeOnce` wrapper never leaves the array: `notify` keeps every
      wrapper, so the once-listener is called again on every later `notify`. */
  lemma {:induction false} DispatchKeepsOnces<D>(l: seq<Listener>, i: nat, data: D)
    ensures Onces(Dispatch(l, i, data).1) == Onces(l)
    decreases |l| - i
  {
    if i < |l| {
      match l[i]
      case Plain(f) =>
        DispatchKeepsOnces(l, i + 1, data);
      case Once(f) =>
        DispatchKeepsOnces(RemoveFirst(l, f), i + 1, data);
        OncesOfRemoveFirst(l, f);
    }
  }

  /** `subscribeOnce(t, f)` then two `notify(t, d)`: `f` is called twice, without the data. */
  lemma OnceListenerFiresTwice(f: ListenerId, d: int)
    ensures var first := Dispatch([Once(f)], 0, d);
      && first.0 == [Call(f, None)] && first.1 == [Once(f)]
      && Dispatch(first.1, 0, d).0 == [Call(f, None)]
  {
    assert RemoveFirst([Once(f)], f) == [Once(f)];
    assert Dispatch([Once(f)], 1, d) == ([], [Once(f)]);
    assert Dispatch([Once(f)], 0, d).0 == [Call(f, None)] + [];
  }

  /** The behaviour `subscribeOnce` is named for: the wrapper takes itself out of the
      array before calling its listener with the data, and iteration resumes at the
      listener that followed it. */
  function DispatchOnce<D>(l: seq<Listener>, i: nat, data: D): (res: (seq<Call<D>>, seq<Listener>))
    decreases |l| - i
  {
    if i >= |l| then ([], l)
    else
      match l[i]
      case Plain(f) =>
        var rest := DispatchOnce(l, i + 1, data);
        ([Call(f, Some(data))] + rest.0, rest.1)
      case Once(f) =>
        var rest := DispatchOnce(l[..i] + l[i + 1..], i, data);
        ([Call(f, Some(data))] + rest.0, rest.1)
  }

  /** After a corrected `notify` from index 0 no wrapper is left, so a once-listener is
      called by at most one `notify`; the plain listeners stay, in order. */
  lemma {:induction false} DispatchOnceRemovesOnces<D>(l: seq<Listener>, i: nat, data: D)
    requires i <= |l| && forall k :: 0 <= k < i ==> l[k].Plain?
    ensures var r := DispatchOnce(l, i, data).1;
      && (forall x :: x in r ==> x.Plain?)
      && (forall x :: x in l && x.Plain? ==> x in r)
    decreases |l| - i
  {
    if i < |l| {
      match l[i]
      case Plain(f) =>
        DispatchOnceRemovesOnces(l, i + 1, data);
      case Once(f) =>
        var l' := l[..i] + l[i + 1..];
        forall x | x in l && x.Plain? ensures x in l' {
          var k :| 0 <= k < |l| && l[k] == x;
          if k < i { assert l'[k] == x; } else { assert l'[k - 1] == x; }
        }
        DispatchOnceRemovesOnces(l', i, data);
    }
  }

  /** The corrected dispatch agrees with the one as written when there is no wrapper. */
  lemma {:induction false} DispatchOnceAgreesWithoutOnces<D>(l: seq<Listener>, i: nat, data: D)
    requires i <= |l| && forall x :: x in l ==> x.Plain?
    ensures DispatchOnce(l, i, data) == Dispatch(l, i, data)
    decreases |l| - i
  {
    if i < |l| {
      DispatchOnceAgreesWithoutOnces(l, i + 1, data);
    }
  }

  /** Subscribing a new listener and calling the returned unsubscriber restores the array. */
  lemma SubscribeThenUnsubscribe(l: seq<Listener>, f: ListenerId)
    requires Plain(f) !in l
    ensures RemoveFirst(l + [Plain(f)], f) == l
  {
    RemoveFirstNotInPrefix(l, [Plain(f)], f);
  }

  lemma {:induction false} RemoveFirstNotInPrefix(l: seq<Listener>, w: seq<Listener>, f: ListenerId)
    requires Plain(f) !in l && |w| > 0 && w[0] == Plain(f)
    ensures RemoveFirst(l + w, f) == l + w[1..]
  {
    if |l| > 0 {
      assert (l + w)[1..] == l[1..] + w;
      RemoveFirstNotInPrefix(l[1..], w, f);
      assert l == [l[0]] + l[1..];
    } else {
      assert l + w == w;
    }
  }

  /** A listener subscribed twice is called twice per `notify`. */
  lemma DuplicateSubscriptionCalledTwice(f: ListenerId, d: int)
    ensures Dispatch([Plain(f), Plain(f)], 0, d).0 == [Call(f, Some(d)), Call(f, Some(d))]
  {
    var l := [Plain(f), Plain(f)];
    assert Dispatch(l, 2, d).0 == [];
    assert Dispatch(l, 1, d).0 == [Call(f, Some(d))];
  }

  /** The loop of `notify` over one array: the calls it makes and the array it leaves. */
  method RunListeners<D>(l: seq<Listener>, data: D) returns (made: seq<Call<D>>, cur: seq<Listener>)
    ensures made == Dispatch(l, 0, data).0 && cur == Dispatch(l, 0, data).1
  {
    var i := 0;
    cur, made := l, [];
    while i < |cur|
      invariant i <= |cur| + 1
      invariant Dispatch(l, 0, data).0 == made + Dispatch(cur, i, data).0
      invariant Dispatch(l, 0, data).1 == Dispatch(cur, i, data).1
      decreases |cur| + 1 - i
    {
      var c, next;
      match cur[i] {
        case Plain(f) =>
          c, next := Call(f, Some(data)), cur;
        case Once(f) =>
          c, next := Call(f, None), RemoveFirst(cur, f);
      }
      assert (c, next) == Invoke(cur, i, data);
      ghost var rest := Dispatch(next, i + 1, data);
      assert made + ([c] + rest.0) == (made + [c]) + rest.0;
      made, cur, i := made + [c], next, i + 1;
    }
    assert Dispatch(cur, i, data) == ([], cur);
  }

  class Emitter<E(==), D> {
    /** `this.listeners`: one array per event type. */
    var listeners: map<E, seq<Listener>>
    /** Every listener invocation so far, in order. */
    var calls: seq<Call<D>>

    constructor ()
      ensures listeners == map[] && calls == []
    {
      listeners := map[];
      calls := [];
    }

    /** `subscribe(t, f)`: appends `f` to the array of `t`, creating it when missing. */
    method Subscribe(t: E, f: ListenerId) returns (u: Unsubscriber<E>)
      modifies this
      ensures listeners == old(listeners)[t := ListenersOf(old(listeners), t) + [Plain(f)]]
      ensures calls == old(calls)
      ensures u == Unsubscriber(t, f)
    {
      listeners := listeners[t := ListenersOf(listeners, t) + [Plain(f)]];
      u := Unsubscriber(t, f);
    }

    /** `subscribeOnce(t, f)`: appends a wrapper that calls `f` and then unsubscribes `f`. */
    method SubscribeOnce(t: E, f: ListenerId)
      modifies this
      ensures listeners == old(listeners)[t := ListenersOf(old(listeners), t) + [Once(f)]]
      ensures calls == old(calls)
    {
      listeners := listeners[t := ListenersOf(listeners, t) + [Once(f)]];
    }

    /** `unsubscribe(t, f)`: removes the first `f` of type `t`; an unknown type stays unknown. */
    method Unsubscribe(t: E, f: ListenerId)
      modifies this
      ensures t in old(listeners) ==> listeners == old(listeners)[t := RemoveFirst(old(listeners)[t], f)]
      ensures t !in old(listeners) ==> listeners == old(listeners)
      ensures calls == old(calls)
    {
      if t in listeners {
        listeners := listeners[t := RemoveFirst(listeners[t], f)];
      }
    }

    /** Calling the function `subscribe` returned. */
    method CallUnsubscriber(u: Unsubscriber<E>)
      modifies this
      ensures u.eventType in old(listeners) ==>
        listeners == old(listeners)[u.eventType := RemoveFirst(old(listeners)[u.eventType], u.listener)]
      ensures u.eventType !in old(listeners) ==> listeners == old(listeners)
      ensures calls == old(calls)
    {
      Unsubscribe(u.eventType, u.listener);
    }

    /** `notify(t, data)`: the `for...of` loop over the live array. */
    method Notify(t: E, data: D)
      modifies this
      ensures t in old(listeners) ==>
        && listeners == old(listeners)[t := Dispatch(old(listeners)[t], 0, data).1]
        && calls == old(calls) + Dispatch(old(listeners)[t], 0, data).0
      ensures t !in old(listeners) ==> listeners == old(listeners) && calls == old(calls)
    {
      if t in listeners {
        var made, cur := RunListeners(listeners[t], data);
        listeners := listeners[t := cur];
        calls := calls + made;
      }
    }
  }
}
