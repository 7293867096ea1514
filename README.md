# jsro delivery core in Dafny

This project models the per-client delivery core of jsro, a JavaScript
remote-object server. The core has four stateful parts, one module each:

- `MessageQueue` (`message_queue.dfy`): the per-connection outbound queue.
  It is a singly linked list of nodes with `first`/`last` pointers and an id
  counter. `enqueue` tags each message with the next id. `clear(id)` trims
  the list through the item with that id. `toArray` takes an ordered
  snapshot of `{id, message}` pairs. The class keeps the list's nodes and
  their entries as ghost sequences. Its operations are proved against pure
  functions on those sequences. A trace model (`Step`/`Run` over enqueue and
  acknowledge operations) carries the properties that span many calls:
  ordering, ids never reused, and contents without acknowledgments.
- `Trigger` (`trigger.dfy`): the event registry. It maps each event name to
  the ordered list of its listeners. `on` appends, `off` removes one listener
  or all of them, and `fire` returns the calls it makes, in order. An event
  whose list becomes empty is dropped.
- `Connection` (`connection.dfy`): one client connection. It owns a message
  queue and a long-poll slot holding at most one outstanding deferred
  response. Deferred responses are numbered in creation order. A rejection
  is recorded in a trace.
- `Hub` (`hub.dfy`): allocates connection ids and routes `disconnect`,
  `receive` and `request` to the identified connection, failing on unknown
  ids. It also keeps the table of named object factories used by
  `instantiate`.

`Values` (`values.dfy`) holds the JavaScript values that cross the public
boundary: a string, a function handle, `undefined`, or anything else. It
also holds the errors the core throws. Listeners, factories and connection
data are opaque values. The model says which one is called, with what
arguments, and never what it does.

## Model

| member | source | states |
|---|---|---|
| MessageQueue.FindId | messageQueue.js:44-47 | the walk in `clear` stops at the first item from the start position that carries the id, and every item it passes has another id; if it runs off the end, no item from there on carries the id |
| MessageQueue.Removed | messageQueue.js:43-55 | `clear(id)` removes nothing exactly when no item carries the id; otherwise it removes a prefix ending with the first item that carries it |
| MessageQueue.RemovedFirst | messageQueue.js:44-50 | when the first item carrying the id is at position k, `clear` removes exactly k + 1 items |
| MessageQueue.SuffixOrdered | messageQueue.js:50 | dropping a prefix keeps the remaining ids strictly increasing and below the counter |
| MessageQueue.OrderedAppend | messageQueue.js:21-36 | appending an item tagged with the counter, then advancing the counter, keeps ids strictly increasing and below the counter |
| MessageQueue.ClearThroughOrdered | messageQueue.js:43-55 | `clear` keeps ids strictly increasing and below the counter |
| MessageQueue.ClearIdempotent | tests/messageQueue.js:80-94 | clearing through the same id twice leaves what clearing once leaves |
| MessageQueue.ClearAt | tests/messageQueue.js:63-78 | clearing through the id of the i-th of n items removes it and every earlier item, leaving the n - 1 - i later items in order |
| MessageQueue.ClearAbsent | tests/messageQueue.js:96-108 | clearing through an id no item carries leaves the queue unchanged |
| MessageQueue.StepInvariant | messageQueue.js:21-55 | one enqueue or clear keeps the history invariant: ids ordered, every queued id was issued, every issued id below the counter |
| MessageQueue.RunInvariant | messageQueue.js:15-55 | after any sequence of enqueues and clears from a fresh queue, the history invariant holds |
| MessageQueue.NextIdFresh | messageQueue.js:24 | after any history, the id the next enqueue hands out was never issued before, even if its items have been cleared, and the counter goes up by one |
| MessageQueue.RunAppends | tests/messageQueue.js:11-32 | with no clears, the snapshot is exactly the enqueued messages, in order, numbered 0, 1, 2, ... |
| MessageQueue.SuffixChain | messageQueue.js:50-53 | the items after a trimmed prefix still form a linked chain matching the remaining entries |
| MessageQueue.Node.constructor | messageQueue.js:23-27 | a new list item holds the id and message and points nowhere |
| MessageQueue.Queue.constructor | messageQueue.js:4-15 | a fresh queue is empty, with both pointers null and the counter at 0 |
| MessageQueue.Queue.Enqueue | messageQueue.js:21-36 | the message is appended at the tail with the old counter as its id, the counter goes up by one, and the list invariant (`first` null exactly when `last` is, `last` the final item of the chain, ids ordered) is kept |
| MessageQueue.Queue.Clear | messageQueue.js:43-55 | the contents become what `Removed` says is left, the counter is unchanged, and the list invariant is kept |
| MessageQueue.Queue.UnlinkThrough | messageQueue.js:48-54 | unlinking through the first item carrying the id moves `first` past it and resets `last` when the list empties |
| MessageQueue.Queue.ToArray | messageQueue.js:61-76 | the snapshot is the queue's entries in list order, and the queue is not changed |
| Trigger.Without | trigger.js:54-56 | filtering out a listener removes every occurrence of it and keeps every other listener, with its multiplicity |
| Trigger.WithoutAppend | trigger.js:54-56 | filtering works piecewise, so the remaining listeners keep their relative order |
| Trigger.WithoutAbsent | tests/trigger.js:100-108 | filtering out a listener that is not registered changes nothing |
| Trigger.Unregister | trigger.js:52-59 | taking a listener out of one event changes only that event's list, and an emptied list leaves the event absent |
| Trigger.Trigger.constructor | trigger.js:5-12 | a new trigger has no listeners |
| Trigger.Trigger.On | trigger.js:19-31 | a non-string event or non-function listener fails and changes nothing; otherwise the listener is appended to the event's list and no other event changes |
| Trigger.Trigger.Off | trigger.js:39-64 | a non-string event, or a listener that is neither a function nor undefined, fails; an event with no listeners is left alone; an undefined listener drops the event; a function is filtered out as in `Unregister` |
| Trigger.Trigger.Fire | trigger.js:72-91 | a non-string event fails; otherwise the calls are exactly the event's listeners at call time, in registration order, each given the arguments |
| Connection.Connection.constructor | connection.js:11-21 | a new connection keeps its data, has an empty queue with counter 0, no outstanding deferred response, and no rejections |
| Connection.Connection.Receive | connection.js:23-25 | receiving a message changes nothing |
| Connection.Connection.Request | connection.js:32-51 | an outstanding deferred response is rejected first; a non-empty queue is returned as it is and the slot is cleared; an empty queue creates one new outstanding deferred response; the queue is untouched; superseded deferred responses are rejected once each, in creation order |
| Connection.Connection.Disconnect | connection.js:53-55 | disconnecting changes nothing |
| Connection.FirstRequests | connection.js:32-51 | on a fresh connection, even after a message is received, the first request suspends, and a second one rejects the first and suspends |
| Hub.InstantiateAsWritten | hub.js:85-90 | as written: a registered name calls its factory with the context; an unregistered name fails unless it names an inherited member, whose inherited function is called instead |
| Hub.Instantiate | hub.js:85-90 | `instantiate` fails with "no such object factory" exactly when the name is unregistered; otherwise it calls the registered factory with the context |
| Hub.InstantiateAgrees | hub.js:85-90 | the as-written and intended `instantiate` agree except on unregistered inherited member names |
| Hub.InheritedNameResolves | hub.js:86-89 | with no factories, the as-written `instantiate("toString", c)` reaches the inherited `toString` where the intended one fails |
| Hub.Hub.constructor | hub.js:7-20 | a new hub has counter 0, no connections and no factories |
| Hub.Hub.Factory | hub.js:28-36 | a non-string name or non-function fails and changes nothing; otherwise the function is stored under the name, replacing any earlier one, and connections are untouched |
| Hub.Hub.Connect | hub.js:43-47 | the new id is the old counter, which goes up by one, so ids are never reused; exactly one fresh connection is added under it, with the given data, an empty queue at counter 0, no outstanding deferred response and no rejections; existing entries are unchanged |
| Hub.Hub.GetConnection | hub.js:98-104 | looking up an id yields its connection, or fails with "no such connection" exactly when there is none |
| Hub.Hub.Disconnect | hub.js:53-56 | an unknown id fails and changes nothing; otherwise the connection is disconnected and its entry removed, so later calls on the id fail |
| Hub.Hub.Receive | hub.js:63-65 | fails exactly on an unknown id; otherwise the message goes to that connection |
| Hub.Hub.Request | hub.js:72-74 | fails exactly on an unknown id, changing nothing; otherwise it does what that connection's `request` does: the outstanding deferred response is appended to `rejected`, an empty queue suspends with a new outstanding deferred response and a non-empty one is returned as it is with the slot cleared, and the queue is untouched; the hub's table and every other connection are unchanged |
| Hub.ConnectRequestDisconnect | hub.js:43-74 | through a fresh hub, a new connection's first request suspends with deferred response 0, and after `disconnect` a request on its id fails |

## Left out

- The HTTP transport in `index.js` is not modelled: routing, body parsing, status codes and inactivity timers.
- `Gruntfile.js` is build tooling and is not modelled.
- Promises are not modelled as asynchronous. A deferred response is a number in the connection's slot, and rejecting it appends that number to `rejected`. Its resolution, and the rejection message, are not modelled, because nothing in this source resolves a deferred response.
- Factories, listeners and connection data are opaque handles. What a factory returns, and what a listener does when called, is not modelled. The `this` value a listener is called with (the global object) is not modelled either.
- `connection.create` stores its `data` argument nowhere and never reads it; the model keeps it as the constant `Connection.Connection.data` only to record what the hub passes, and nothing depends on it.
- `connection.create` takes an `instantiate` function but never uses it, so the model's `Connection.Connection.constructor` has no such parameter.
- Connection dispatch is not modelled because `receive` and `disconnect` have empty bodies in this source. This covers creating and invoking objects, pushing events, acknowledgment by `request`, and resolving a waiting poll on enqueue.
- `tests/messages.js` exercises a `messages.js`; messages.js is not part of this model.
- Numbers are unbounded integers. The JavaScript counters lose precision above 2^53, which the model does not capture.
- Ids are integers. `clear` compares with `!==`, so an acknowledgment that is not a number matches no item; the model treats it like an absent id. The hub's connection table is a JavaScript array, where a string such as `"1"` also finds connection 1. The model accepts integer ids only.
- Trigger.Trigger.On: the registry is a plain object, so for an inherited member name such as `"toString"` the source's `listeners[event]` is an inherited function and `push` throws a TypeError. The model appends as for any other name.
- Trigger.Trigger.Off: for an inherited member name with a function listener, the source's `filter` throws a TypeError; the model leaves the registry unchanged.
- Trigger.Trigger.Fire: the calls listed are the ones made when no listener throws. In the source, `forEach` stops at the first listener that throws and the exception leaves `fire`, so the listeners after it are never called.
- Trigger.Trigger.Fire: for an inherited member name, the source's `slice` throws a TypeError; the model returns no calls.
- A factory registered under `__proto__` replaces the factory table's prototype instead of adding an entry. The model treats it as an ordinary name and leaves `__proto__` out of the inherited member names.

## Findings

| source | as written | input that shows it | evidently intended | confidence | as-written member | corrected member |
|---|---|---|---|---|---|---|
| hub.js:85-90 | the factory table is a plain object, so `factories[name]` also finds members every object inherits | `instantiate("toString", ctx)` with no factory registered calls the inherited `toString` instead of throwing "no such object factory: toString" | only registered names resolve; every other name fails | not executed | Hub.InstantiateAsWritten, Hub.InheritedNameResolves | Hub.Instantiate, Hub.InstantiateAgrees |
