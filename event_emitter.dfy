/**
 * `EventEmitter`: a map from event names to sets of callbacks (a JavaScript `Set` keeps
 * insertion order and holds each callback once), a `disposed` flag that makes every
 * operation inert, and `once` subscriptions made of a wrapper that unsubscribes itself
 * before calling the callback.
 */
module EventEmitting {
  import opened JsSet

  /**
   * A registered callback, identified as JavaScript identifies functions: a callback passed
   * to `on` is its handle; the wrapper `once` creates is a new function (its token) that
   * calls the callback `inner`.
   */
  datatype Callback = Plain(handle: nat) | OnceWrapper(token: nat, inner: nat)

  /** The function `on` and `once` return: `() => {}` or `() => this.off(event, callback)`. */
  datatype Unsubscribe = NoOp | OffOf(event: string, callback: Callback)

  /** No event has an empty set, and no set holds a callback twice. */
  predicate Registry(events: map<string, seq<Callback>>)
  {
    forall e :: e in events ==> events[e] != [] && NoDuplicates(events[e])
  }

  /** Storing a set under a key, or deleting the key when the set is empty. */
  function Put(events: map<string, seq<Callback>>, e: string, cbs: seq<Callback>): map<string, seq<Callback>>
  {
    if cbs == [] then events - {e} else events[e := cbs]
  }

  /** The registry after `on(e, cb)`. */
  function OnMap(events: map<string, seq<Callback>>, e: string, cb: Callback): (r: map<string, seq<Callback>>)
    ensures e in r && cb in r[e]
    ensures forall other :: other != e ==> (other in r <==> other in events) && (other in events ==> r[other] == events[other])
  {
    events[e := Added(if e in events then events[e] else [], cb)]
  }

  /** The registry after `off(e, cb)`: the callback deleted, the key deleted when its set is left empty. */
  function OffMap(events: map<string, seq<Callback>>, e: string, cb: Callback): (r: map<string, seq<Callback>>)
    ensures forall other :: other != e ==> (other in r <==> other in events) && (other in events ==> r[other] == events[other])
  {
    if e in events then Put(events, e, Removed(events[e], cb)) else events
  }

  /** The plain callbacks of a set, in order: what is left once every `once` wrapper has removed itself. */
  function PlainOnly(cbs: seq<Callback>): seq<Callback>
  {
    if cbs == [] then []
    else PlainOnly(cbs[..|cbs| - 1]) + (if cbs[|cbs| - 1].Plain? then [cbs[|cbs| - 1]] else [])
  }

  /** The plain callbacks are exactly the callbacks that are not wrappers. */
  lemma {:induction false} PlainOnlyMembers(cbs: seq<Callback>)
    ensures forall x :: x in PlainOnly(cbs) <==> x in cbs && x.Plain?
  {
    if cbs != [] {
      var init, last := cbs[..|cbs| - 1], cbs[|cbs| - 1];
      PlainOnlyMembers(init);
      assert cbs == init + [last];
    }
  }

  /** The callbacks `emit` calls, in set order: a wrapper calls its inner callback. */
  function Handles(cbs: seq<Callback>): (hs: seq<nat>)
    ensures |hs| == |cbs|
  {
    seq(|cbs|, i requires 0 <= i < |cbs| => if cbs[i].Plain? then cbs[i].handle else cbs[i].inner)
  }

  /** The registry after `emit(e, data)`: the event's `once` wrappers are gone. */
  function EmitMap(events: map<string, seq<Callback>>, e: string): map<string, seq<Callback>>
  {
    if e in events then Put(events, e, PlainOnly(events[e])) else events
  }

  /** `on` keeps the registry free of empty sets and duplicates. */
  lemma OnKeepsRegistry(events: map<string, seq<Callback>>, e: string, cb: Callback)
    requires Registry(events)
    ensures Registry(OnMap(events, e, cb))
  {
  }

  /** `off` keeps the registry free of empty sets and duplicates: a set it empties loses its key. */
  lemma OffKeepsRegistry(events: map<string, seq<Callback>>, e: string, cb: Callback)
    requires Registry(events)
    ensures Registry(OffMap(events, e, cb))
    ensures e in OffMap(events, e, cb) ==> cb !in OffMap(events, e, cb)[e]
  {
    if e in events {
      RemovedNoDuplicates(events[e], cb);
      RemovedMembers(events[e], cb);
    }
  }

  /** Subscribing the same callback twice stores it once. */
  lemma OnTwice(events: map<string, seq<Callback>>, e: string, cb: Callback)
    ensures OnMap(OnMap(events, e, cb), e, cb) == OnMap(events, e, cb)
  {
  }

  /** Unsubscribing a callback that `on` has just added restores the registry. */
  lemma OnThenOff(events: map<string, seq<Callback>>, e: string, cb: Callback)
    requires Registry(events)
    requires e in events ==> cb !in events[e]
    ensures OffMap(OnMap(events, e, cb), e, cb) == events
  {
    var before := if e in events then events[e] else [];
    RemovedMiddle(before, cb, []);
    assert before + [cb] + [] == before + [cb];
    assert before + [] == before;
  }

  /**
   * After an emit, no `once` wrapper of the event is registered any more, so none can run
   * again; the plain callbacks stay.
   */
  lemma EmitDropsOnce(events: map<string, seq<Callback>>, e: string)
    requires Registry(events)
    ensures var after := EmitMap(events, e);
      && Registry(after)
      && (e in after ==> forall x :: x in after[e] <==> x in events[e] && x.Plain?)
      && forall other :: other != e ==> (other in after <==> other in events) && (other in events ==> after[other] == events[other])
  {
    if e in events {
      PlainOnlyNoDuplicates(events[e]);
      PlainOnlyMembers(events[e]);
    }
  }

  lemma {:induction false} PlainOnlyNoDuplicates(cbs: seq<Callback>)
    requires NoDuplicates(cbs)
    ensures NoDuplicates(PlainOnly(cbs))
  {
    if cbs != [] {
      var init, last := cbs[..|cbs| - 1], cbs[|cbs| - 1];
      PlainOnlyNoDuplicates(init);
      PlainOnlyMembers(init);
      assert cbs == init + [last];
      assert last !in init;
    }
  }

  lemma PlainOnlySnoc(cbs: seq<Callback>, i: nat)
    requires i < |cbs|
    ensures PlainOnly(cbs[..i + 1]) == PlainOnly(cbs[..i]) + (if cbs[i].Plain? then [cbs[i]] else [])
  {
    assert cbs[..i + 1][..i] == cbs[..i];
  }

  lemma HandlesSnoc(cbs: seq<Callback>, i: nat)
    requires i < |cbs|
    ensures Handles(cbs[..i + 1]) == Handles(cbs[..i]) + [if cbs[i].Plain? then cbs[i].handle else cbs[i].inner]
  {
  }

  /** The set part-way through an emit: the plain callbacks before position i, and every callback from i on. */
  function Midway(cbs: seq<Callback>, i: nat): seq<Callback>
    requires i <= |cbs|
  {
    PlainOnly(cbs[..i]) + cbs[i..]
  }

  /** One callback further: a plain one stays, a wrapper removes itself. */
  lemma MidwayStep(cbs: seq<Callback>, i: nat)
    requires NoDuplicates(cbs) && i < |cbs|
    ensures cbs[i] in Midway(cbs, i)
    ensures Midway(cbs, i + 1) == if cbs[i].Plain? then Midway(cbs, i) else Removed(Midway(cbs, i), cbs[i])
  {
    var a, x, b := PlainOnly(cbs[..i]), cbs[i], cbs[i + 1..];
    assert cbs[i..] == [x] + b;
    PlainOnlySnoc(cbs, i);
    assert Midway(cbs, i) == a + [x] + b;
    if !x.Plain? {
      PlainOnlyMembers(cbs[..i]);
      assert x !in cbs[..i];
      assert x !in b by {
        forall k | 0 <= k < |b| ensures b[k] != x {
          assert b[k] == cbs[i + 1 + k];
        }
      }
      RemovedMiddle(a, x, b);
    }
  }

  /** A wrapper's `off` during an emit leaves the registry with the set one position further on. */
  lemma OffMidway(start: map<string, seq<Callback>>, e: string, cbs: seq<Callback>, i: nat)
    requires NoDuplicates(cbs) && i < |cbs| && cbs[i].OnceWrapper?
    ensures OffMap(Put(start, e, Midway(cbs, i)), e, cbs[i]) == Put(start, e, Midway(cbs, i + 1))
  {
    MidwayStep(cbs, i);
    var m := Put(start, e, Midway(cbs, i));
    assert e in m && m[e] == Midway(cbs, i);
  }

  class EventEmitter {
    var events: map<string, seq<Callback>>
    var disposed: bool
    /** Tokens of the wrappers `once` has created so far: each new wrapper is a new function. */
    var nextToken: nat

    ghost predicate Valid()
      reads this
    {
      && Registry(events)
      && (disposed ==> events == map[])
      && forall e, cb :: e in events && cb in events[e] && cb.OnceWrapper? ==> cb.token < nextToken
    }

    /** `new EventEmitter()`. */
    constructor()
      ensures Valid() && events == map[] && !disposed
    {
      events := map[];
      disposed := false;
      nextToken := 0;
    }

    /** `on(event, callback)`. */
    method On(event: string, callback: Callback) returns (u: Unsubscribe)
      requires Valid()
      requires callback.OnceWrapper? ==> callback.token < nextToken
      modifies this
      ensures Valid() && disposed == old(disposed) && nextToken == old(nextToken)
      ensures old(disposed) ==> events == old(events) && u == NoOp
      ensures !old(disposed) ==> events == OnMap(old(events), event, callback) && u == OffOf(event, callback)
    {
      if disposed {
        return NoOp;
      }
      var cbs := if event in events then events[event] else [];
      events := events[event := Added(cbs, callback)];
      return OffOf(event, callback);
    }

    /** `off(event, callback)`. */
    method Off(event: string, callback: Callback)
      requires Valid()
      modifies this
      ensures Valid() && disposed == old(disposed) && nextToken == old(nextToken)
      ensures old(disposed) ==> events == old(events)
      ensures !old(disposed) ==> events == OffMap(old(events), event, callback)
    {
      if disposed {
        return;
      }
      if event in events {
        var cbs := Removed(events[event], callback);
        RemovedNoDuplicates(events[event], callback);
        RemovedMembers(events[event], callback);
        if |cbs| == 0 {
          events := events - {event};
        } else {
          events := events[event := cbs];
        }
      }
    }

    /** Calling the function an `on` or `once` returned. */
    method Unsubscribing(u: Unsubscribe)
      requires Valid()
      modifies this
      ensures Valid() && disposed == old(disposed) && nextToken == old(nextToken)
      ensures u.NoOp? || old(disposed) ==> events == old(events)
      ensures u.OffOf? && !old(disposed) ==> events == OffMap(old(events), u.event, u.callback)
    {
      if u.OffOf? {
        Off(u.event, u.callback);
      }
    }

    /**
     * `emit(event, data)`: calls every callback of the event's set with data, in set order,
     * and returns which callbacks ran; each `once` wrapper unsubscribes itself before its
     * callback runs.
     */
    method Emit(event: string) returns (calls: seq<nat>)
      requires Valid()
      modifies this
      ensures Valid() && disposed == old(disposed) && nextToken == old(nextToken)
      ensures old(disposed) || event !in old(events) ==> events == old(events) && calls == []
      ensures !old(disposed) && event in old(events) ==>
        events == EmitMap(old(events), event) && calls == Handles(old(events)[event])
    {
      calls := [];
      if disposed || event !in events {
        return;
      }
      var cbs := events[event];
      ghost var start := events;
      assert cbs[..0] == [] && cbs[0..] == cbs;
      assert Midway(cbs, 0) == cbs;
      assert events == Put(start, event, cbs);
      for i := 0 to |cbs|
        invariant Valid() && !disposed && nextToken == old(nextToken)
        invariant events == Put(start, event, Midway(cbs, i))
        invariant calls == Handles(cbs[..i])
      {
        var callback := cbs[i];
        HandlesSnoc(cbs, i);
        if callback.OnceWrapper? {
          OffMidway(start, event, cbs, i);
          Off(event, callback);
          calls := calls + [callback.inner];
        } else {
          MidwayStep(cbs, i);
          calls := calls + [callback.handle];
        }
      }
      assert cbs[..|cbs|] == cbs && cbs[|cbs|..] == [];
      assert Midway(cbs, |cbs|) == PlainOnly(cbs);
    }

    /** `once(event, callback)`: registers a new wrapper for the callback. */
    method Once(event: string, callback: nat) returns (u: Unsubscribe)
      requires Valid()
      modifies this
      ensures Valid() && disposed == old(disposed)
      ensures old(disposed) ==> events == old(events) && u == NoOp
      ensures !old(disposed) ==>
        var wrapper := OnceWrapper(old(nextToken), callback);
        && (event in old(events) ==> wrapper !in old(events)[event])
        && events == OnMap(old(events), event, wrapper) && u == OffOf(event, wrapper)
    {
      if disposed {
        return NoOp;
      }
      var wrapper := OnceWrapper(nextToken, callback);
      if event in events {
        assert wrapper !in events[event];
      }
      nextToken := nextToken + 1;
      u := On(event, wrapper);
    }

    /**
     * `dispose()`: sets the flag and drops every event. The map is then `null`, so a second
     * `dispose()` throws (`thrown`) when it calls `clear()` on it, and changes nothing.
     */
    method Dispose() returns (thrown: bool)
      requires Valid()
      modifies this
      ensures Valid() && disposed && events == map[] && nextToken == old(nextToken)
      ensures thrown <==> old(disposed)
    {
      thrown := disposed;
      disposed := true;
      events := map[];
    }

    /** `clearEvent(event)`: deletes only that event. */
    method ClearEvent(event: string)
      requires Valid()
      modifies this
      ensures Valid() && disposed == old(disposed) && nextToken == old(nextToken)
      ensures old(disposed) ==> events == old(events)
      ensures !old(disposed) ==> events == old(events) - {event}
    {
      if disposed {
        return;
      }
      if event in events {
        events := events - {event};
      }
    }

    /** `clearAllEvents()`. */
    method ClearAllEvents()
      requires Valid()
      modifies this
      ensures Valid() && disposed == old(disposed) && nextToken == old(nextToken)
      ensures old(disposed) ==> events == old(events)
      ensures !old(disposed) ==> events == map[]
    {
      if disposed {
        return;
      }
      events := map[];
    }
  }
}
