/**
 * One client connection: the queue of messages waiting to go to the client
 * and the single outstanding long-poll request (a deferred response) that
 * is waiting for the queue to fill.
 *
 * A deferred response is modelled by its creation number: the n-th deferred
 * response a connection creates is number n. Rejecting one is recorded by
 * appending its number to `rejected`; the promise machinery itself is not
 * modelled.
 */
module Connection {
  import opened Values
  import MessageQueue

  /** The connection's deferred response, if one is outstanding. */
  datatype Slot = Idle | Pending(deferred: nat)

  /** What `request` hands back: the pending messages at once, or the
      promise of deferred response number `deferred`. */
  datatype Response =
    | Immediate(messages: seq<MessageQueue.Entry<Value>>)
    | Suspended(deferred: nat)

  class Connection {
    const data: Value            // recorded as passed by the hub; never read
    const messages: MessageQueue.Queue<Value>
    var deferredResponse: Slot
    var deferredCount: nat       // deferred responses created so far
    var rejected: seq<nat>       // deferred responses rejected, in order
    ghost var Repr: set<object>

    /** At most one deferred response is outstanding; every superseded one
        is rejected exactly once, in the order they were created; the one
        outstanding has not been rejected. */
    ghost predicate Valid()
      reads this, Repr
    {
      && this in Repr
      && messages in Repr
      && messages.Repr <= Repr
      && this !in messages.Repr
      && messages.Valid()
      && (forall i :: 0 <= i < |rejected| ==> rejected[i] < deferredCount)
      && (forall i, j :: 0 <= i < j < |rejected| ==> rejected[i] < rejected[j])
      && (deferredResponse.Pending? ==>
            && deferredResponse.deferred < deferredCount
            && forall i :: 0 <= i < |rejected| ==> rejected[i] < deferredResponse.deferred)
      && |rejected| + (if deferredResponse.Pending? then 1 else 0) == deferredCount
    }

    constructor (data: Value)
      ensures Valid() && fresh(Repr)
      ensures this.data == data
      ensures messages.Contents == [] && messages.nextID == 0
      ensures deferredResponse == Idle && deferredCount == 0 && rejected == []
    {
      this.data := data;
      var q := new MessageQueue.Queue<Value>();
      messages := q;
      deferredResponse := Idle;
      deferredCount := 0;
      rejected := [];
      Repr := {this} + q.Repr;
    }

    /** Accepts a message from the client. It has no effect: the
        connection and its queue are left as they were. */
    method Receive(message: Value)
      requires Valid()
      ensures Valid()
      ensures messages.Contents == old(messages.Contents)
    {
    }

    /** Asks for the messages waiting to go to the client. An outstanding
        deferred response is rejected first. A non-empty queue is handed
        back at once, unchanged; an empty one yields a new deferred
        response, which becomes the outstanding one. */
    method Request() returns (r: Response)
      requires Valid()
      modifies this
      ensures Valid() && Repr == old(Repr)
      ensures messages.Contents == old(messages.Contents)
      ensures rejected == old(rejected) +
        (if old(deferredResponse).Pending? then [old(deferredResponse).deferred] else [])
      ensures old(messages.Contents) == [] ==>
        && r == Suspended(old(deferredCount))
        && deferredResponse == Pending(old(deferredCount))
        && deferredCount == old(deferredCount) + 1
      ensures old(messages.Contents) != [] ==>
        && r == Immediate(old(messages.Contents))
        && deferredResponse == Idle
        && deferredCount == old(deferredCount)
    {
      if deferredResponse.Pending? {
        rejected := rejected + [deferredResponse.deferred];
      }
      var pendingMessages := messages.ToArray();
      if |pendingMessages| == 0 {
        deferredResponse := Pending(deferredCount);
        r := Suspended(deferredCount);
        deferredCount := deferredCount + 1;
      } else {
        deferredResponse := Idle;
        r := Immediate(pendingMessages);
      }
    }

    /** Closes the connection. It has no effect on the connection's state. */
    method Disconnect()
      requires Valid()
      ensures Valid()
      ensures messages.Contents == old(messages.Contents)
    {
    }
  }

  /** Nothing in the connection feeds its queue, so a connection's first
      request, made right after it is created, is always suspended, and a
      second request rejects the first one's deferred response. */
  method FirstRequests(data: Value, message: Value)
    returns (first: Response, second: Response, rejected: seq<nat>, outstanding: Slot)
    ensures first == Suspended(0) && second == Suspended(1)
    ensures rejected == [0] && outstanding == Pending(1)
  {
    var c := new Connection(data);
    c.Receive(message);
    first := c.Request();
    assert c.messages.Contents == [] && c.deferredCount == 1;
    second := c.Request();
    rejected, outstanding := c.rejected, c.deferredResponse;
  }
}
