/**
 * The application-wide event bus (`CallbackManager`, app/callback/callbacks.py):
 * a dictionary from event keys to lists of callbacks, shared through a
 * single instance.  `trigger` hands every callback of an event to a thread
 * pool; the model records each submission, in order.
 */
module EventBus {
  import opened Wrappers

  /** The members of `EventName`, plus the two app-list events that app_details_class.py triggers. */
  datatype EventName =
    | AccountSessionExpired | AccountLoggedIn | AccountLoggedError | AccountLoggedOut
    | QrCodeReady | QrCodeTimeout | RequestConfirmationDevice | RequestConfirmationEmail
    | AppIdAdded | AppIdRemoved

  /** An event key: an `EventName`, or the name of a config setting (config_manager.py triggers by key name). */
  datatype EventKey = Event(name: EventName) | Setting(key: string)

  /** A callback, told apart by identity. */
  datatype Handler = Handler(id: nat)

  /** A value handed to callbacks: Python scalars, or a reference to an object such as an account. */
  datatype Value = NoneValue | BoolValue(b: bool) | IntValue(i: int) | StrValue(s: string) | Ref(obj: object)

  /** One `executor.submit(callback, *args, **kwargs)`. */
  datatype Call = Call(handler: Handler, args: seq<Value>, kwargs: map<string, Value>)

  /** The submissions for the handlers `hs`, one each, in list order, all with the same arguments. */
  function Calls(hs: seq<Handler>, args: seq<Value>, kwargs: map<string, Value>): (r: seq<Call>)
    ensures |r| == |hs|
    ensures forall i :: 0 <= i < |hs| ==> r[i] == Call(hs[i], args, kwargs)
  {
    if hs == [] then [] else Calls(hs[..|hs| - 1], args, kwargs) + [Call(hs[|hs| - 1], args, kwargs)]
  }

  /** What `trigger` submits for `key`: its callbacks' calls, or nothing for a key never registered. */
  function Triggered(callbacks: map<EventKey, seq<Handler>>, key: EventKey, args: seq<Value>, kwargs: map<string, Value>): (r: seq<Call>)
    ensures key !in callbacks ==> r == []
    ensures key in callbacks ==> |r| == |callbacks[key]|
  {
    if key in callbacks then Calls(callbacks[key], args, kwargs) else []
  }

  /** `list.remove(x)`: drops the first occurrence of `x`, if any. */
  function RemoveFirst<T(==)>(xs: seq<T>, x: T): (r: seq<T>)
    ensures x in xs ==> |r| == |xs| - 1 && multiset(r) == multiset(xs) - multiset{x}
    ensures x !in xs ==> r == xs
  {
    if xs == [] then []
    else if xs[0] == x then
      assert xs == [xs[0]] + xs[1..];
      xs[1..]
    else
      assert xs == [xs[0]] + xs[1..];
      [xs[0]] + RemoveFirst(xs[1..], x)
  }

  /** Removing what was just appended gives back the list when it was not there before. */
  lemma {:induction false} RemoveAppended<T>(xs: seq<T>, x: T)
    requires x !in xs
    ensures RemoveFirst(xs + [x], x) == xs
  {
    if xs != [] {
      assert (xs + [x])[1..] == xs[1..] + [x];
      RemoveAppended(xs[1..], x);
    }
  }

  /** With duplicates, removing takes out the earlier copy and keeps the one just appended. */
  lemma {:induction false} RemoveAppendedDuplicate<T>(xs: seq<T>, x: T)
    requires x in xs
    ensures RemoveFirst(xs + [x], x) == RemoveFirst(xs, x) + [x]
  {
    assert (xs + [x])[0] == xs[0];
    if xs[0] != x {
      assert (xs + [x])[1..] == xs[1..] + [x];
      RemoveAppendedDuplicate(xs[1..], x);
    } else {
      assert (xs + [x])[1..] == xs[1..] + [x];
    }
  }

  /** The lists after `register`: the handler appended, the list created on first use. */
  function Registered(callbacks: map<EventKey, seq<Handler>>, key: EventKey, h: Handler): (r: map<EventKey, seq<Handler>>)
    ensures key in r && |r[key]| > 0 && r[key][|r[key]| - 1] == h
    ensures key in callbacks ==> r[key] == callbacks[key] + [h]
    ensures key !in callbacks ==> r[key] == [h]
    ensures forall k :: k != key ==> (k in r <==> k in callbacks) && (k in callbacks ==> r[k] == callbacks[k])
  {
    callbacks[key := (if key in callbacks then callbacks[key] else []) + [h]]
  }

  /**
   * `unregister` as written: `list.remove` on a known key raises `ValueError`
   * (`None` here) when the handler is not in the list.
   */
  function UnregisteredAsWritten(callbacks: map<EventKey, seq<Handler>>, key: EventKey, h: Handler): (r: Option<map<EventKey, seq<Handler>>>)
    ensures r.None? <==> key in callbacks && h !in callbacks[key]
    ensures key !in callbacks ==> r == Some(callbacks)
    ensures key in callbacks && h in callbacks[key] ==>
      r == Some(callbacks[key := RemoveFirst(callbacks[key], h)])
  {
    if key !in callbacks then Some(callbacks)
    else if h !in callbacks[key] then None
    else Some(callbacks[key := RemoveFirst(callbacks[key], h)])
  }

  /** `unregister` as its test expects it: a handler that is not registered is no error and changes nothing. */
  function Unregistered(callbacks: map<EventKey, seq<Handler>>, key: EventKey, h: Handler): (r: map<EventKey, seq<Handler>>)
    ensures key in callbacks && h in callbacks[key] ==>
      r == callbacks[key := RemoveFirst(callbacks[key], h)]
    ensures !(key in callbacks && h in callbacks[key]) ==> r == callbacks
  {
    if key in callbacks then callbacks[key := RemoveFirst(callbacks[key], h)] else callbacks
  }

  /** Unregistering a callback from an event whose list does not hold it raises, although the key exists. */
  lemma UnregisterMissingRaises(h: Handler, other: Handler)
    requires h != other
    ensures UnregisteredAsWritten(map[Event(AccountLoggedIn) := [other]], Event(AccountLoggedIn), h).None?
  {
  }

  /** The corrected removal agrees with the written one wherever the written one does not raise, and never raises. */
  lemma UnregisteredAgrees(callbacks: map<EventKey, seq<Handler>>, key: EventKey, h: Handler)
    ensures UnregisteredAsWritten(callbacks, key, h).Some? ==>
      UnregisteredAsWritten(callbacks, key, h).value == Unregistered(callbacks, key, h)
  {
  }

  /** Register then unregister of a new handler leaves the lists as they were, except that the key now exists. */
  lemma RegisterThenUnregister(callbacks: map<EventKey, seq<Handler>>, key: EventKey, h: Handler)
    requires key in callbacks ==> h !in callbacks[key]
    ensures Unregistered(Registered(callbacks, key, h), key, h)
      == callbacks[key := if key in callbacks then callbacks[key] else []]
  {
    var before := if key in callbacks then callbacks[key] else [];
    RemoveAppended(before, h);
  }

  class CallbackManager {
    /** `_callbacks`. */
    var callbacks: map<EventKey, seq<Handler>>
    /** Every call handed to the executor so far, in order. */
    var submitted: seq<Call>

    constructor ()
      ensures callbacks == map[] && submitted == []
    {
      callbacks := map[];
      submitted := [];
    }

    /** `register`: appends, duplicates allowed. */
    method Register(key: EventKey, h: Handler)
      modifies this
      ensures callbacks == Registered(old(callbacks), key, h)
      ensures submitted == old(submitted)
    {
      if key !in callbacks {
        callbacks := callbacks[key := []];
      }
      callbacks := callbacks[key := callbacks[key] + [h]];
    }

    /** `unregister`, with the missing-handler case as its test expects it (see `UnregisterAsWritten`). */
    method Unregister(key: EventKey, h: Handler)
      modifies this
      ensures callbacks == Unregistered(old(callbacks), key, h)
      ensures submitted == old(submitted)
    {
      if key in callbacks {
        callbacks := callbacks[key := RemoveFirst(callbacks[key], h)];
      }
    }

    /** `unregister` as written: `raised` when the key exists but the handler is not in its list. */
    method UnregisterAsWritten(key: EventKey, h: Handler) returns (raised: bool)
      modifies this
      ensures raised <==> UnregisteredAsWritten(old(callbacks), key, h).None?
      ensures !raised ==> callbacks == UnregisteredAsWritten(old(callbacks), key, h).value
      ensures raised ==> callbacks == old(callbacks)
      ensures submitted == old(submitted)
    {
      raised := false;
      if key in callbacks {
        if h in callbacks[key] {
          callbacks := callbacks[key := RemoveFirst(callbacks[key], h)];
        } else {
          raised := true;
        }
      }
    }

    /** `trigger`: every callback of the key is submitted, in list order, with the same arguments. */
    method Trigger(key: EventKey, args: seq<Value>, kwargs: map<string, Value>)
      modifies this
      ensures callbacks == old(callbacks)
      ensures submitted == old(submitted) + Triggered(callbacks, key, args, kwargs)
    {
      if key in callbacks {
        var hs := callbacks[key];
        var i := 0;
        while i < |hs|
          invariant 0 <= i <= |hs| && callbacks == old(callbacks)
          invariant submitted == old(submitted) + Calls(hs[..i], args, kwargs)
        {
          assert hs[..i + 1][..i] == hs[..i];
          submitted := submitted + [Call(hs[i], args, kwargs)];
          i := i + 1;
        }
        assert hs[..i] == hs;
      }
    }
  }

  /** A handler registered last is the last one a trigger submits to. */
  lemma TriggerAfterRegister(callbacks: map<EventKey, seq<Handler>>, key: EventKey, h: Handler, args: seq<Value>, kwargs: map<string, Value>)
    ensures Triggered(Registered(callbacks, key, h), key, args, kwargs)
      == Triggered(callbacks, key, args, kwargs) + [Call(h, args, kwargs)]
  {
    var before := if key in callbacks then callbacks[key] else [];
    assert (before + [h])[..|before|] == before;
  }

  /** The class attribute `_instance` that makes every construction share one manager. */
  class Singleton {
    var instance: CallbackManager?

    constructor ()
      ensures instance == null
    {
      instance := null;
    }

    /** `CallbackManager()` (`__new__`): the first call creates the manager, every later call returns it. */
    method Get() returns (m: CallbackManager)
      modifies this
      ensures instance == m
      ensures old(instance) != null ==> m == old(instance)
      ensures old(instance) == null ==> fresh(m) && m.callbacks == map[] && m.submitted == []
    {
      if instance == null {
        instance := new CallbackManager();
      }
      m := instance;
    }
  }
}
