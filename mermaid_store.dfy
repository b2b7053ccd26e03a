/**
 * `createMermaidStore`: a state object (a diagram string and a settings object), a version
 * counted up by every accepted update, and a set of subscribers told of the state when they
 * subscribe and after every accepted update. An update is merged over the state with object
 * spread and then validated; one that fails validation throws and changes nothing.
 */
module MermaidStore {
  import opened Wrappers
  import opened JsSet

  /**
   * A JavaScript value as far as the store looks at it: objects and functions are
   * references, told apart by a handle.
   */
  datatype Value = Undefined | Null | Bool(b: bool) | Number(n: int) | Str(s: string) | Object(obj: nat) | Function(fn: nat)

  /** An object's own enumerable properties. */
  type State = map<string, Value>

  /** The `typeof` operator: `null` is an "object", a function is not. */
  function TypeOf(v: Value): string
  {
    match v
    case Undefined => "undefined"
    case Null => "object"
    case Bool(_) => "boolean"
    case Number(_) => "number"
    case Str(_) => "string"
    case Object(_) => "object"
    case Function(_) => "function"
  }

  /** A property read: a missing property reads as `undefined`. */
  function Get(s: State, key: string): Value
  {
    if key in s then s[key] else Undefined
  }

  /** `{ ...state, ...patch }`: every property of the patch, and the state's others. */
  function Merge(state: State, patch: State): State
  {
    state + patch
  }

  /** `validateState(newState)`: `true`, or the error it throws, the diagram checked first. */
  function Validate(s: State): Result<bool, string>
  {
    if TypeOf(Get(s, "diagram")) != "string" then Err("Diagram must be a string")
    else if TypeOf(Get(s, "settings")) != "object" then Err("Settings must be an object")
    else Ok(true)
  }

  /** The argument of `setState`: an object to merge, or a function of the current state. */
  datatype Update = Patch(fields: State) | Updater(f: State -> State)

  /** The object an update contributes: the patch, or what the function returns for the state. */
  function Contribution(u: Update, state: State): State
  {
    match u
    case Patch(fields) => fields
    case Updater(f) => f(state)
  }

  /** What `setState` makes of the state: the merged state when it validates, or the error thrown. */
  function SetOutcome(state: State, u: Update): Result<State, string>
  {
    var updated := Merge(state, Contribution(u, state));
    match Validate(updated)
    case Ok(_) => Ok(updated)
    case Err(msg) => Err(msg)
  }

  /** The default initial state `{ diagram: '', settings: {} }`. */
  const DefaultState: State := map["diagram" := Str(""), "settings" := Object(0)]

  /** One call of a subscriber with the state and the version. */
  datatype Notification = Notification(callback: nat, state: State, version: nat)

  /** The calls `subscribers.forEach(...)` makes, in subscription order. */
  function Notifications(subscribers: seq<nat>, state: State, version: nat): (r: seq<Notification>)
    ensures |r| == |subscribers|
  {
    seq(|subscribers|, i requires 0 <= i < |subscribers| => Notification(subscribers[i], state, version))
  }

  /** `getSnapshot()`'s result. */
  datatype Snapshot = Snapshot(state: State, version: nat, subscriberCount: nat)

  /** The function `subscribe` returns: `() => {}`, or `() => subscribers.delete(callback)`. */
  datatype Unsubscribe = NoOp | Delete(callback: nat)

  /**
   * A state validates exactly when its diagram is a string and its settings are an object or
   * `null` (a function, a missing property or any primitive is refused), and the diagram's
   * error wins when both are wrong.
   */
  lemma ValidateMeaning(s: State)
    ensures Validate(s).Ok? <==> Get(s, "diagram").Str? && (Get(s, "settings").Object? || Get(s, "settings").Null?)
    ensures !Get(s, "diagram").Str? ==> Validate(s) == Err("Diagram must be a string")
    ensures Get(s, "diagram").Str? && !(Get(s, "settings").Object? || Get(s, "settings").Null?) ==>
      Validate(s) == Err("Settings must be an object")
  {
  }

  /** A merged state reads the patch's value where the patch has the property, and the old value elsewhere. */
  lemma MergeGet(state: State, patch: State, key: string)
    ensures Get(Merge(state, patch), key) == if key in patch then patch[key] else Get(state, key)
    ensures Merge(state, patch).Keys == state.Keys + patch.Keys
  {
  }

  /** Merging the same patch twice gives the state merging it once gives. */
  lemma MergeIdempotent(state: State, patch: State)
    ensures Merge(Merge(state, patch), patch) == Merge(state, patch)
  {
  }

  /** A patch that touches neither the diagram nor the settings keeps a valid state valid. */
  lemma PatchKeepsValid(state: State, patch: State)
    requires Validate(state).Ok?
    requires "diagram" !in patch && "settings" !in patch
    ensures SetOutcome(state, Patch(patch)) == Ok(Merge(state, patch))
  {
    MergeGet(state, patch, "diagram");
    MergeGet(state, patch, "settings");
  }

  /** The default state validates. */
  lemma DefaultStateValid()
    ensures Validate(DefaultState) == Ok(true)
  {
    assert Get(DefaultState, "diagram") == Str("");
    assert Get(DefaultState, "settings") == Object(0);
  }

  /** An accepted update's state validates and keeps every property of the state before it that the update does not set. */
  lemma SetOutcomeMeaning(state: State, u: Update, key: string)
    ensures SetOutcome(state, u).Ok? ==> Validate(SetOutcome(state, u).value).Ok?
    ensures SetOutcome(state, u).Ok? && key !in Contribution(u, state) ==>
      Get(SetOutcome(state, u).value, key) == Get(state, key)
    ensures SetOutcome(state, u).Err? <==> Validate(Merge(state, Contribution(u, state))).Err?
  {
    MergeGet(state, Contribution(u, state), key);
  }

  /** The store `createMermaidStore(initialState)` returns, with its closure variables as fields. */
  class Store {
    var subscribers: seq<nat>
    var state: State
    var isDisposed: bool
    var stateVersion: nat

    /**
     * The subscribers form a set, a disposed store has none, and every state that an update
     * installed (any version after 0) passed validation; the initial state is not validated.
     */
    ghost predicate Valid()
      reads this
    {
      && NoDuplicates(subscribers)
      && (isDisposed ==> subscribers == [])
      && (stateVersion > 0 ==> Validate(state).Ok?)
    }

    /** `createMermaidStore(initialState)`: a copy of the initial state at version 0, no subscribers. */
    constructor(initialState: State)
      ensures Valid()
      ensures state == initialState && stateVersion == 0 && subscribers == [] && !isDisposed
    {
      subscribers := [];
      state := initialState;
      isDisposed := false;
      stateVersion := 0;
    }

    /** `subscribe(callback)`: adds the callback and calls it at once with the state and the version. */
    method Subscribe(callback: nat) returns (notes: seq<Notification>, u: Unsubscribe)
      requires Valid()
      modifies this
      ensures Valid() && state == old(state) && stateVersion == old(stateVersion) && isDisposed == old(isDisposed)
      ensures old(isDisposed) ==> subscribers == old(subscribers) && notes == [] && u == NoOp
      ensures !old(isDisposed) ==>
        && subscribers == Added(old(subscribers), callback)
        && notes == [Notification(callback, state, stateVersion)]
        && u == Delete(callback)
    {
      if isDisposed {
        return [], NoOp;
      }
      subscribers := Added(subscribers, callback);
      notes := [Notification(callback, state, stateVersion)];
      u := Delete(callback);
    }

    /** Calling the function `subscribe` returned: it deletes the callback, even after `dispose`. */
    method Unsubscribing(u: Unsubscribe)
      requires Valid()
      modifies this
      ensures Valid() && state == old(state) && stateVersion == old(stateVersion) && isDisposed == old(isDisposed)
      ensures u.NoOp? ==> subscribers == old(subscribers)
      ensures u.Delete? ==> subscribers == Removed(old(subscribers), u.callback)
      ensures u.Delete? ==> forall c :: c in subscribers <==> c in old(subscribers) && c != u.callback
    {
      if u.Delete? {
        RemovedNoDuplicates(subscribers, u.callback);
        RemovedMembers(subscribers, u.callback);
        if isDisposed {
          assert Removed(subscribers, u.callback) == [];
        }
        subscribers := Removed(subscribers, u.callback);
      }
    }

    /**
     * `setState(newState)`: merges the update over the state; a merged state that validates
     * becomes the state at the next version and every subscriber is called with it, in
     * subscription order; one that does not throws (`thrown`) and nothing changes.
     */
    method SetState(update: Update) returns (notes: seq<Notification>, thrown: Option<string>)
      requires Valid()
      modifies this
      ensures Valid() && subscribers == old(subscribers) && isDisposed == old(isDisposed)
      ensures old(isDisposed) ==> state == old(state) && stateVersion == old(stateVersion) && notes == [] && thrown == None
      ensures !old(isDisposed) ==>
        match SetOutcome(old(state), update)
        case Ok(next) =>
          && state == next && stateVersion == old(stateVersion) + 1
          && notes == Notifications(subscribers, state, stateVersion) && thrown == None
        case Err(msg) =>
          && state == old(state) && stateVersion == old(stateVersion)
          && notes == [] && thrown == Some(msg)
    {
      notes, thrown := [], None;
      if isDisposed {
        return;
      }
      var updatedState := Merge(state, Contribution(update, state));
      var check := Validate(updatedState);
      if check.Err? {
        thrown := Some(check.error);
        return;
      }
      state := updatedState;
      stateVersion := stateVersion + 1;
      for i := 0 to |subscribers|
        invariant notes == Notifications(subscribers[..i], state, stateVersion)
      {
        notes := notes + [Notification(subscribers[i], state, stateVersion)];
      }
      assert subscribers[..|subscribers|] == subscribers;
    }

    /** `dispose()`: sets the flag and clears the subscribers; the state and the version stay. */
    method Dispose()
      requires Valid()
      modifies this
      ensures Valid() && isDisposed && subscribers == []
      ensures state == old(state) && stateVersion == old(stateVersion)
    {
      isDisposed := true;
      subscribers := [];
    }

    /** `getSnapshot()`: a copy of the state, the version and the number of subscribers. */
    method GetSnapshot() returns (snap: Snapshot)
      ensures snap == Snapshot(state, stateVersion, |subscribers|)
    {
      snap := Snapshot(state, stateVersion, |subscribers|);
    }

    /** `getState()`: a copy of the state. */
    method GetState() returns (s: State)
      ensures s == state
    {
      s := state;
    }
  }

  /** Merging two patches one after the other merges their union, the second one's values winning. */
  lemma TwoUpdates(state: State, p: State, q: State)
    requires SetOutcome(state, Patch(p)).Ok? && SetOutcome(Merge(state, p), Patch(q)).Ok?
    ensures SetOutcome(Merge(state, p), Patch(q)).value == Merge(state, p + q)
  {
  }
}
