/** The part of the writer and of the acknowledgement handler that drives the
    QoS 1 and QoS 2 handshakes, as the source performs it on shared objects.
    Each method is one atomic step of module Outbound. */
module Writer {
  import opened Wrappers
  import opened FlowControl
  import opened AckTable
  import Outbound
  import Handover

  class Writer {
    const flow: Flow
    const pubOut: AckQueue<Outbound.Entry>
    var qos12Messages: seq<nat>
    var pubrelMessages: seq<Id>
    var reader: Outbound.Reader
    var unAckSent: int
    /** What the routine is in the middle of. */
    ghost var hand: Outbound.Hand
    ghost var wire: set<Id>
    ghost var dropped: set<Id>
    ghost var ledger: seq<Outbound.Place>
    ghost var qos2: seq<bool>
    ghost var owner: map<Id, nat>
    ghost var phase: map<Id, Outbound.Phase>

    ghost predicate Valid()
      reads this, flow
    {
      flow.Valid()
    }

    ghost function View(): Outbound.Window
      reads this, flow, pubOut
    {
      Outbound.Window(flow.quota, Low(flow.counter), flow.inUse, qos12Messages, pubOut.messages, pubrelMessages,
                      dropped, wire, hand, reader, unAckSent, ledger, qos2, owner, phase)
    }

    /** The history fields take the values they have in `w`. */
    ghost method Record(w: Outbound.Window)
      modifies this`hand, this`wire, this`dropped, this`ledger, this`qos2, this`owner, this`phase
      ensures hand == w.hand && wire == w.wire && dropped == w.dropped && ledger == w.ledger && qos2 == w.qos2
      ensures owner == w.owner && phase == w.phase
    {
      hand, wire, dropped, ledger := w.hand, w.wire, w.dropped, w.ledger;
      qos2, owner, phase := w.qos2, w.owner, w.phase;
    }

    constructor (receiveMax: nat)
      ensures Valid() && fresh(flow) && fresh(pubOut) && View() == Outbound.Fresh(receiveMax)
    {
      flow := new Flow(receiveMax);
      pubOut := new AckQueue<Outbound.Entry>();
      qos12Messages, pubrelMessages, reader, unAckSent := [], [], Outbound.Idle, 0;
      hand, wire, dropped, ledger, qos2, owner, phase := Outbound.Empty, {}, {}, [], [], map[], map[];
    }

    /** sendQoS12; `serial` stands for the packet. */
    method SendQoS12(isQoS2: bool, serial: nat)
      requires Valid() && serial == |ledger|
      modifies this
      ensures Valid() && View() == Outbound.Step(old(View()), Outbound.Accept(isQoS2))
    {
      ghost var next := Outbound.Step(View(), Outbound.Accept(isQoS2));
      qos12Messages := qos12Messages + [serial];
      Record(next);
    }

    /** qos12PopPacket, up to the decrement in acquire; false when the queue is empty
        or there is no quota. */
    method SeekQoS12() returns (ok: bool)
      requires Valid() && hand == Outbound.Empty
      modifies this, flow
      ensures Valid() && (ok <==> old(qos12Messages) != [] && old(flow.quota) > 0)
      ensures ok ==> Outbound.Enabled(old(View()), Outbound.Seek)
      ensures View() == if ok then Outbound.Step(old(View()), Outbound.Seek) else old(View())
    {
      if qos12Messages == [] {
        return false;
      }
      ok := flow.QuotaAvailable();
      if ok {
        ghost var next := Outbound.Step(View(), Outbound.Seek);
        var _, _ := flow.DecNZ([]);
        Record(next);
      }
    }

    /** ... to Remove: the identifier and the packet it is given to. */
    method TakeQoS12() returns (id: Id, serial: nat)
      requires Valid() && hand.Seeking? && flow.inUse <= hand.seen && qos12Messages != [] && |flow.inUse| < MAX_ID
      modifies this, flow
      ensures Valid() && hand == Outbound.Holds(id, serial)
      ensures Outbound.Enabled(old(View()), Outbound.Acquire(id))
      ensures View() == Outbound.Step(old(View()), Outbound.Acquire(id))
    {
      ghost var was := View();
      FreeIdExists(flow.inUse, 1);
      id := flow.Find();
      serial := qos12Messages[0];
      assert Outbound.Enabled(was, Outbound.Acquire(id));
      qos12Messages := qos12Messages[1..];
      Record(Outbound.Step(was, Outbound.Acquire(id)));
    }

    /** ... to the end, and the write. */
    method StoreQoS12(id: Id, serial: nat, expired: bool)
      requires Valid() && hand == Outbound.Holds(id, serial)
      modifies this, pubOut
      ensures Valid() && View() == Outbound.Step(old(View()), Outbound.Store(expired))
    {
      ghost var next := Outbound.Step(View(), Outbound.Store(expired));
      var _ := pubOut.Store(id, Outbound.Publish(serial), true);
      unAckSent := unAckSent + 1;
      Record(next);
    }

    /** All of it without interruption; None when there is nothing to send. */
    method PopQoS12(expired: bool) returns (r: Option<Id>)
      requires Valid() && hand == Outbound.Empty && flow.quota + |flow.inUse| <= MAX_ID
      modifies this, flow, pubOut
      ensures Valid()
      ensures r == None <==> old(qos12Messages) == [] || old(flow.quota) == 0
      ensures r == None ==> View() == old(View())
      ensures r.Some? ==>
        var es := [Outbound.Seek, Outbound.Acquire(r.value), Outbound.Store(expired)];
        Outbound.ValidRun(old(View()), es) && View() == Outbound.Run(old(View()), es)
    {
      ghost var was := View();
      var ok := SeekQoS12();
      if !ok {
        return None;
      }
      ghost var w1 := View();
      var id, serial := TakeQoS12();
      ghost var w2 := View();
      StoreQoS12(id, serial, expired);
      r := Some(id);
      Outbound.RunOfThree(was, Outbound.Seek, Outbound.Acquire(id), Outbound.Store(expired));
    }

    /** The PUBREL part of popPackets, and the write. */
    method PopPubrel() returns (r: Option<Id>)
      requires Valid() && hand == Outbound.Empty
      modifies this, pubOut
      ensures Valid()
      ensures r == None <==> old(pubrelMessages) == []
      ensures r == None ==> View() == old(View())
      ensures r.Some? ==> r.value == old(pubrelMessages)[0]
      ensures r.Some? ==> View() == Outbound.Step(old(View()), Outbound.TransmitRel)
    {
      if pubrelMessages == [] {
        return None;
      }
      ghost var next := Outbound.Step(View(), Outbound.TransmitRel);
      var id := pubrelMessages[0];
      r := Some(id);
      pubrelMessages := pubrelMessages[1..];
      var _ := pubOut.Store(id, Outbound.Pubrel, true);
      unAckSent := unAckSent + 1;
      Record(next);
    }

    /** onAck for PUBACK and PUBCOMP, up to the end of the callback onReleaseOut.
        Returns whether the writer must be woken. */
    method OnAckCallback(id: Id) returns (signal: bool)
      requires Valid() && reader == Outbound.Idle
      modifies this, flow
      ensures Valid() && View() == Outbound.Step(old(View()), Outbound.Release(id))
      ensures signal <==> id in pubOut.messages && old(flow.quota) == 0
    {
      ghost var next := Outbound.Step(View(), Outbound.Release(id));
      signal := false;
      var orig := pubOut.Load(id);
      if orig.Some? {
        signal := flow.Release(id);
        reader := Outbound.Closing(id);
      }
      Record(next);
    }

    /** onAck for PUBACK and PUBCOMP, after the callback. */
    method OnAckDelete()
      requires Valid() && reader.Closing?
      modifies this, pubOut
      ensures Valid() && View() == Outbound.Step(old(View()), Outbound.Delete)
    {
      ghost var next := Outbound.Step(View(), Outbound.Delete);
      pubOut.Delete(reader.id);
      unAckSent := unAckSent - 1;
      reader := Outbound.Idle;
      Record(next);
    }

    /** onAck for PUBREC; `failing` is a version 5 reason code of 0x80 or more.
        Returns whether the writer must be woken. */
    method OnPubrec(id: Id, failing: bool) returns (signal: bool)
      requires Valid() && reader == Outbound.Idle
      modifies this, flow, pubOut
      ensures Valid() && View() == Outbound.Step(old(View()), Outbound.Pubrec(id, failing))
      ensures signal <==> failing && old(flow.quota) == 0
    {
      signal := false;
      ghost var next := Outbound.Step(View(), Outbound.Pubrec(id, failing));
      var orig := pubOut.Load(id);
      if orig.Some? {
        pubOut.Delete(id);
        unAckSent := unAckSent - 1;
      }
      if failing {
        signal := flow.Release(id);
      } else {
        reader := Outbound.Answering(id);
      }
      Record(next);
    }

    /** send, for the PUBREL that OnPubrec built. */
    method SendPubrel(fits: bool)
      requires Valid() && reader.Answering?
      modifies this
      ensures Valid() && View() == Outbound.Step(old(View()), Outbound.Answer(fits))
    {
      ghost var next := Outbound.Step(View(), Outbound.Answer(fits));
      if fits {
        pubrelMessages := pubrelMessages + [reader.id];
      }
      reader := Outbound.Idle;
      Record(next);
    }

    /** getQueuedPackets, of a connection that closes: empties the QoS 1/2 queue, the
        PUBREL queue and `pubOut`.  `unfit` and `failing` are the publishes and the
        identifiers for which packetEncode returns nothing. */
    method GetQueuedPackets(unfit: set<nat>, failing: set<Id>)
      returns (qos12: seq<Option<nat>>, all: seq<Handover.Unacked>, unAck: seq<Option<Handover.Unacked>>)
      modifies this`qos12Messages, this`pubrelMessages, this`unAckSent, pubOut
      ensures qos12Messages == [] && pubrelMessages == [] && pubOut.messages == map[]
      ensures unAckSent == old(unAckSent) - |old(pubOut.messages)|
      ensures Handover.Hands(old(View()), unfit, failing, qos12, all, unAck)
    {
      ghost var n := |pubrelMessages|;
      qos12 := DrainQueued(unfit);
      var rels := DrainRels();
      var table := DrainTable();
      all := rels + table;
      assert all[..n] == rels && all[n..] == table;
      unAck := seq(|all|, i requires 0 <= i < |all| => if all[i].id in failing then None else Some(all[i]));
    }

    method DrainQueued(unfit: set<nat>) returns (qos12: seq<Option<nat>>)
      modifies this`qos12Messages
      ensures qos12Messages == [] && Handover.HandsQueued(old(qos12Messages), unfit, qos12)
    {
      qos12 := [];
      ghost var queued := qos12Messages;
      while qos12Messages != []
        invariant |qos12| + |qos12Messages| == |queued| && qos12Messages == queued[|qos12|..]
        invariant Handover.HandsQueued(queued[..|qos12|], unfit, qos12)
        decreases |qos12Messages|
      {
        var m := qos12Messages[0];
        qos12Messages := qos12Messages[1..];
        qos12 := qos12 + [if m in unfit then None else Some(m)];
      }
      assert queued[..|qos12|] == queued;
    }

    method DrainRels() returns (unAck: seq<Handover.Unacked>)
      modifies this`pubrelMessages
      ensures pubrelMessages == [] && Handover.HandsRels(old(pubrelMessages), unAck)
    {
      unAck := [];
      ghost var rels := pubrelMessages;
      while pubrelMessages != []
        invariant |unAck| + |pubrelMessages| == |rels| && pubrelMessages == rels[|unAck|..]
        invariant Handover.HandsRels(rels[..|unAck|], unAck)
        decreases |pubrelMessages|
      {
        var id := pubrelMessages[0];
        pubrelMessages := pubrelMessages[1..];
        unAck := unAck + [Handover.Unacked(id, Outbound.Pubrel)];
      }
      assert rels[..|unAck|] == rels;
    }

    /** The Range over `pubOut`, in whatever order it yields the entries. */
    method DrainTable() returns (unAck: seq<Handover.Unacked>)
      modifies this`unAckSent, pubOut
      ensures pubOut.messages == map[] && unAckSent == old(unAckSent) - |old(pubOut.messages)|
      ensures Handover.HandsTable(old(pubOut.messages), unAck)
    {
      unAck := [];
      ghost var was := pubOut.messages;
      while pubOut.messages != map[]
        invariant forall id :: id in pubOut.messages ==> id in was && pubOut.messages[id] == was[id]
        invariant unAckSent == old(unAckSent) - |was| + |pubOut.messages|
        invariant Handover.HandsTable(was - pubOut.messages.Keys, unAck)
        decreases |pubOut.messages|
      {
        var id :| id in pubOut.messages;
        Outbound.DropSize(pubOut.messages, id);
        Handover.HandsOneMore(was, pubOut.messages, unAck, id);
        unAck := unAck + [Handover.Unacked(id, pubOut.messages[id])];
        unAckSent := unAckSent - 1;
        pubOut.Delete(id);
      }
      assert was - pubOut.messages.Keys == was;
    }
  }
}
