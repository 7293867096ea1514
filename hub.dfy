/**
 * The hub: it hands out connection ids, routes requests, received messages
 * and disconnects to the identified connection, and keeps the table of
 * registered object factories.
 */
module Hub {
  import opened Values
  import Connection

  /** The function `instantiate` ends up calling: a registered factory, or
      a member that every plain JavaScript object inherits. */
  datatype Target = Registered(handle: nat) | Inherited(name: string)

  /** One factory invocation made by `instantiate`. */
  datatype FactoryCall = FactoryCall(target: Target, context: Value)

  /** The names under which every plain JavaScript object already holds a
      function, through its prototype. */
  const InheritedMembers: set<string> := {
    "constructor", "hasOwnProperty", "isPrototypeOf", "propertyIsEnumerable",
    "toLocaleString", "toString", "valueOf",
    "__defineGetter__", "__defineSetter__", "__lookupGetter__", "__lookupSetter__"
  }

  /** `instantiate` as written: the factory table is a plain object, so a
      name that was never registered but names an inherited member finds
      that member, and it is called in place of a factory. */
  function InstantiateAsWritten(factories: map<string, nat>, name: string, context: Value): (r: Result<FactoryCall>)
    ensures r.Failure? <==> name !in factories && name !in InheritedMembers
    ensures r.Failure? ==> r.error == NoSuchFactory(name)
    ensures name in factories ==> r == Success(FactoryCall(Registered(factories[name]), context))
    ensures name !in factories && name in InheritedMembers ==>
      r == Success(FactoryCall(Inherited(name), context))
  {
    if name in factories then Success(FactoryCall(Registered(factories[name]), context))
    else if name in InheritedMembers then Success(FactoryCall(Inherited(name), context))
    else Failure(NoSuchFactory(name))
  }

  /** `instantiate` as intended: only a registered factory is ever called. */
  function Instantiate(factories: map<string, nat>, name: string, context: Value): (r: Result<FactoryCall>)
    ensures r.Failure? <==> name !in factories
    ensures r.Failure? ==> r.error == NoSuchFactory(name)
    ensures r.Success? ==> r.value.target == Registered(factories[name]) && r.value.context == context
  {
    if name in factories then Success(FactoryCall(Registered(factories[name]), context))
    else Failure(NoSuchFactory(name))
  }

  /** The two agree everywhere except on unregistered inherited names. */
  lemma InstantiateAgrees(factories: map<string, nat>, name: string, context: Value)
    ensures InstantiateAsWritten(factories, name, context) == Instantiate(factories, name, context)
        <==> name in factories || name !in InheritedMembers
  {
  }

  /** With no factory registered, `instantiate("toString", c)` calls the
      inherited `toString` instead of failing with "no such object factory". */
  lemma InheritedNameResolves(context: Value)
    ensures InstantiateAsWritten(map[], "toString", context) == Success(FactoryCall(Inherited("toString"), context))
    ensures Instantiate(map[], "toString", context) == Failure(NoSuchFactory("toString"))
  {
  }

  class Hub {
    var nextID: nat
    var connections: map<int, Connection.Connection>
    var factories: map<string, nat>
    ghost var Repr: set<object>

    /** Every connection id was handed out by `connect`; the connections
        are valid and share no state with each other or with the hub. */
    ghost predicate Valid()
      reads this, Repr
    {
      && this in Repr
      && (forall id :: id in connections ==> 0 <= id < nextID)
      && (forall id :: id in connections ==>
            && connections[id] in Repr
            && connections[id].Repr <= Repr
            && this !in connections[id].Repr
            && connections[id].Valid())
      && (forall i, j :: i in connections && j in connections && i != j ==>
            connections[i].Repr !! connections[j].Repr)
    }

    constructor ()
      ensures Valid() && fresh(Repr)
      ensures nextID == 0 && connections == map[] && factories == map[]
    {
      nextID := 0;
      connections := map[];
      factories := map[];
      Repr := {this};
    }

    /** Registers `fn` as the factory named `name`, replacing any factory
        registered under that name before. */
    method Factory(name: Value, fn: Value) returns (r: Outcome)
      requires Valid()
      modifies this
      ensures Valid() && Repr == old(Repr)
      ensures !name.Str? ==> r == Fail(NotAString("name"))
      ensures name.Str? && !fn.Func? ==> r == Fail(NotAFunction("fn"))
      ensures r.Pass? <==> name.Str? && fn.Func?
      ensures r.Fail? ==> factories == old(factories)
      ensures r.Pass? ==> factories == old(factories)[name.text := fn.handle]
      ensures connections == old(connections) && nextID == old(nextID)
    {
      if !name.Str? {
        return Fail(NotAString("name"));
      }
      if !fn.Func? {
        return Fail(NotAFunction("fn"));
      }
      factories := factories[name.text := fn.handle];
      r := Pass;
    }

    /** Accepts a new connection and returns its id, which no connection
        has had before. */
    method Connect(data: Value) returns (id: nat)
      requires Valid()
      modifies this
      ensures Valid() && fresh(Repr - old(Repr))
      ensures id == old(nextID) && nextID == old(nextID) + 1
      ensures id !in old(connections)
      ensures connections.Keys == old(connections).Keys + {id}
      ensures forall i :: i in old(connections) ==> connections[i] == old(connections)[i]
      ensures fresh(connections[id]) && connections[id].data == data
      ensures connections[id].messages.Contents == [] && connections[id].messages.nextID == 0
      ensures connections[id].deferredResponse == Connection.Idle
      ensures connections[id].deferredCount == 0 && connections[id].rejected == []
      ensures factories == old(factories)
    {
      var c := new Connection.Connection(data);
      id := nextID;
      nextID, connections, Repr := nextID + 1, connections[id := c], Repr + c.Repr;
    }

    /** The connection with the given id, or "no such connection". */
    function GetConnection(id: int): (r: Result<Connection.Connection>)
      reads this
      ensures r.Failure? <==> id !in connections
      ensures r.Failure? ==> r.error == NoSuchConnection(id)
      ensures r.Success? ==> r.value == connections[id]
    {
      if id in connections then Success(connections[id]) else Failure(NoSuchConnection(id))
    }

    /** Disconnects the identified connection and forgets it. */
    method Disconnect(id: int) returns (r: Outcome)
      requires Valid()
      modifies this
      ensures Valid() && Repr == old(Repr)
      ensures r.Fail? <==> id !in old(connections)
      ensures r.Fail? ==> r.error == NoSuchConnection(id) && connections == old(connections)
      ensures r.Pass? ==> connections == old(connections) - {id}
      ensures nextID == old(nextID) && factories == old(factories)
    {
      var c := GetConnection(id);
      if c.Failure? {
        return Fail(c.error);
      }
      c.value.Disconnect();
      connections := connections - {id};
      r := Pass;
    }

    /** Hands a message received from a client to its connection. */
    method Receive(id: int, message: Value) returns (r: Outcome)
      requires Valid()
      ensures r.Fail? <==> id !in connections
      ensures r.Fail? ==> r.error == NoSuchConnection(id)
    {
      var c := GetConnection(id);
      if c.Failure? {
        return Fail(c.error);
      }
      c.value.Receive(message);
      r := Pass;
    }

    /** Forwards a client's request for its pending messages to its
        connection; no other connection is touched. */
    method Request(id: int) returns (r: Result<Connection.Response>)
      requires Valid()
      modifies if id in connections then {connections[id]} else {}
      ensures Valid()
      ensures r.Failure? <==> id !in connections
      ensures r.Failure? ==> r.error == NoSuchConnection(id)
      ensures connections == old(connections) && nextID == old(nextID) && factories == old(factories)
      ensures r.Success? ==> connections[id].messages.Contents == old(connections[id].messages.Contents)
      ensures r.Success? ==>
        connections[id].rejected == old(connections[id].rejected) +
          (if old(connections[id].deferredResponse).Pending?
           then [old(connections[id].deferredResponse).deferred] else [])
      ensures r.Success? ==> old(connections[id].messages.Contents) == [] ==>
        && r.value == Connection.Suspended(old(connections[id].deferredCount))
        && connections[id].deferredResponse == Connection.Pending(old(connections[id].deferredCount))
        && connections[id].deferredCount == old(connections[id].deferredCount) + 1
      ensures r.Success? ==> old(connections[id].messages.Contents) != [] ==>
        && r.value == Connection.Immediate(old(connections[id].messages.Contents))
        && connections[id].deferredResponse == Connection.Idle
        && connections[id].deferredCount == old(connections[id].deferredCount)
    {
      var c := GetConnection(id);
      if c.Failure? {
        return Failure(c.error);
      }
      var response := c.value.Request();
      r := Success(response);
    }
  }

  /** A connection's first request through the hub suspends with deferred
      response 0; disconnecting it makes the next request on its id fail. */
  method ConnectRequestDisconnect(data: Value)
    returns (first: Result<Connection.Response>, afterDisconnect: Result<Connection.Response>)
    ensures first == Success(Connection.Suspended(0))
    ensures afterDisconnect.Failure?
  {
    var h := new Hub();
    var id := h.Connect(data);
    first := h.Request(id);
    var d := h.Disconnect(id);
    afterDisconnect := h.Request(id);
  }
}
