/** The table of packets awaiting an acknowledgement (connection/ack.go). */
module AckTable {
  import opened Wrappers
  import opened FlowControl

  class AckQueue<T> {
    var messages: map<Id, T>

    constructor ()
      ensures messages == map[]
    {
      messages := map[];
    }

    method Store(id: Id, pkt: T, replace: bool) returns (stored: bool)
      modifies this
      ensures stored <==> id !in old(messages) || replace
      ensures messages == if stored then old(messages)[id := pkt] else old(messages)
    {
      if id in messages && !replace {
        return false;
      }
      messages := messages[id := pkt];
      stored := true;
    }

    /** The first half of `release`: the packet the callback is given, if any. */
    method Load(id: Id) returns (pkt: Option<T>)
      ensures pkt == if id in messages then Some(messages[id]) else None
    {
      pkt := if id in messages then Some(messages[id]) else None;
    }

    /** The second half, after the callback has returned. */
    method Delete(id: Id)
      modifies this
      ensures messages == old(messages) - {id}
    {
      messages := messages - {id};
    }
  }
}
