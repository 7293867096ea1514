/**
 * A publish/subscribe registry: for each event name, the listeners registered
 * for it, in registration order. Listeners are opaque function handles,
 * compared by identity; what they do when called is not part of the model.
 */
module Trigger {
  import opened Values

  type Listener = nat

  /** One listener invocation made by `fire`. */
  datatype Call = Call(listener: Listener, args: seq<Value>)

  /** The list `s` with every occurrence of `f` taken out. */
  function Without(s: seq<Listener>, f: Listener): (r: seq<Listener>)
    ensures multiset(r) == multiset(s)[f := 0]
    ensures |r| <= |s|
  {
    if s == [] then []
    else
      assert s == [s[0]] + s[1..];
      if s[0] == f then Without(s[1..], f) else [s[0]] + Without(s[1..], f)
  }

  /** Removal works piecewise, so the listeners that stay keep their relative
      order. */
  lemma {:induction false} WithoutAppend(s: seq<Listener>, t: seq<Listener>, f: Listener)
    ensures Without(s + t, f) == Without(s, f) + Without(t, f)
  {
    if s == [] {
      assert s + t == t;
    } else {
      assert (s + t)[1..] == s[1..] + t;
      WithoutAppend(s[1..], t, f);
    }
  }

  /** Removing a listener that is not registered changes nothing. */
  lemma {:induction false} WithoutAbsent(s: seq<Listener>, f: Listener)
    requires f !in s
    ensures Without(s, f) == s
  {
    if s != [] {
      WithoutAbsent(s[1..], f);
    }
  }

  /** The listeners registered for `event`; none when it has no entry. */
  function Registered(listeners: map<string, seq<Listener>>, event: string): seq<Listener>
  {
    if event in listeners then listeners[event] else []
  }

  /** An event with no listeners has no entry. */
  predicate Normalised(listeners: map<string, seq<Listener>>)
  {
    forall e :: e in listeners ==> listeners[e] != []
  }

  /** The registry after taking `f` out of `event`'s list: the entry is
      dropped when its list becomes empty. */
  function Unregister(listeners: map<string, seq<Listener>>, event: string, f: Listener): (r: map<string, seq<Listener>>)
    requires Normalised(listeners)
    ensures Normalised(r)
    ensures Registered(r, event) == Without(Registered(listeners, event), f)
    ensures forall e :: e != event ==> Registered(r, e) == Registered(listeners, e)
  {
    var rest := Without(Registered(listeners, event), f);
    if rest == [] then listeners - {event} else listeners[event := rest]
  }

  class Trigger {
    var listeners: map<string, seq<Listener>>

    ghost predicate Valid()
      reads this
    {
      Normalised(listeners)
    }

    constructor ()
      ensures Valid() && listeners == map[]
    {
      listeners := map[];
    }

    /** Registers `fn` for `event`, after every listener already registered
        for it. */
    method On(event: Value, fn: Value) returns (r: Outcome)
      requires Valid()
      modifies this
      ensures Valid()
      ensures !event.Str? ==> r == Fail(NotAString("event"))
      ensures event.Str? && !fn.Func? ==> r == Fail(NotAFunction("fn"))
      ensures r.Fail? ==> listeners == old(listeners)
      ensures r.Pass? <==> event.Str? && fn.Func?
      ensures r.Pass? ==> Registered(listeners, event.text) == Registered(old(listeners), event.text) + [fn.handle]
      ensures forall e :: r.Pass? && e != event.text ==> Registered(listeners, e) == Registered(old(listeners), e)
      ensures r.Pass? ==> listeners.Keys == old(listeners).Keys + {event.text}
    {
      if !event.Str? {
        return Fail(NotAString("event"));
      }
      if !fn.Func? {
        return Fail(NotAFunction("fn"));
      }
      var e := event.text;
      if e !in listeners {
        listeners := listeners[e := []];
      }
      listeners := listeners[e := listeners[e] + [fn.handle]];
      r := Pass;
    }

    /** Unregisters `fn` (every occurrence of it) for `event`, or every
        listener of `event` when `fn` is undefined. */
    method Off(event: Value, fn: Value) returns (r: Outcome)
      requires Valid()
      modifies this
      ensures Valid()
      ensures !event.Str? ==> r == Fail(NotAString("event"))
      ensures event.Str? && !(fn.Undefined? || fn.Func?) ==> r == Fail(NotAFunction("fn"))
      ensures r.Pass? <==> event.Str? && (fn.Undefined? || fn.Func?)
      ensures r.Fail? ==> listeners == old(listeners)
      ensures r.Pass? && event.text !in old(listeners) ==> listeners == old(listeners)
      ensures r.Pass? && fn.Undefined? ==> listeners == old(listeners) - {event.text}
      ensures r.Pass? && fn.Func? ==> listeners == Unregister(old(listeners), event.text, fn.handle)
    {
      if !event.Str? {
        return Fail(NotAString("event"));
      }
      if !fn.Undefined? && !fn.Func? {
        return Fail(NotAFunction("fn"));
      }
      r := Pass;
      var e := event.text;
      if e !in listeners {
        return;
      }
      if fn.Func? {
        var rest := Without(listeners[e], fn.handle);
        listeners := listeners[e := rest];
        if rest == [] {
          listeners := listeners - {e};
        }
        assert listeners == Unregister(old(listeners), e, fn.handle);
      } else {
        listeners := listeners - {e};
      }
    }

    /** The calls that firing `event` with `args` makes when no listener
        throws: each listener registered when `fire` starts, in registration
        order, with `args`. */
    method Fire(event: Value, args: seq<Value>) returns (r: Result<seq<Call>>)
      ensures r.Failure? <==> !event.Str?
      ensures r.Failure? ==> r.error == NotAString("event")
      ensures r.Success? ==> |r.value| == |Registered(listeners, event.text)|
      ensures r.Success? ==> forall i :: 0 <= i < |r.value| ==>
                r.value[i] == Call(Registered(listeners, event.text)[i], args)
    {
      if !event.Str? {
        return Failure(NotAString("event"));
      }
      if event.text !in listeners {
        return Success([]);
      }
      var snapshot := listeners[event.text];
      var calls := [];
      var i := 0;
      while i < |snapshot|
        invariant 0 <= i <= |snapshot|
        invariant |calls| == i
        invariant forall j :: 0 <= j < i ==> calls[j] == Call(snapshot[j], args)
      {
        calls := calls + [Call(snapshot[i], args)];
        i := i + 1;
      }
      r := Success(calls);
    }
  }
}
