/** What a closing connection hands over to persistence (getQueuedPackets of
    connection/writer.go), against the history of every accepted publish. */
module Handover {
  import opened Wrappers
  import opened FlowControl
  import opened Outbound

  /** An unacknowledged packet. */
  datatype Unacked = Unacked(id: Id, entry: Entry)

  /** `qos12` are the queued publishes in order, with a gap for each one that is unfit:
      expired, or not encodable. */
  ghost predicate HandsQueued(queued: seq<nat>, unfit: set<nat>, qos12: seq<Option<nat>>) {
    |qos12| == |queued| && forall i :: 0 <= i < |queued| ==>
      qos12[i] == if queued[i] in unfit then None else Some(queued[i])
  }

  /** `unAck` are the queued PUBRELs in order, ... */
  ghost predicate HandsRels(relQueue: seq<Id>, unAck: seq<Unacked>) {
    |unAck| == |relQueue| && forall i :: 0 <= i < |relQueue| ==> unAck[i] == Unacked(relQueue[i], Pubrel)
  }

  /** ... and the entries of `pubOut` in any order. */
  ghost predicate HandsTable(pubOut: map<Id, Entry>, unAck: seq<Unacked>) {
    && (forall i, j :: 0 <= i < j < |unAck| ==> unAck[i].id != unAck[j].id)
    && (forall i :: 0 <= i < |unAck| ==> unAck[i].id in pubOut && unAck[i].entry == pubOut[unAck[i].id])
    && (forall id :: id in pubOut ==> Unacked(id, pubOut[id]) in unAck)
  }

  ghost predicate HandsUnacked(relQueue: seq<Id>, pubOut: map<Id, Entry>, unAck: seq<Unacked>) {
    && |unAck| >= |relQueue|
    && HandsRels(relQueue, unAck[..|relQueue|])
    && HandsTable(pubOut, unAck[|relQueue|..])
  }

  /** ... with a gap for each one that is not encodable. */
  ghost predicate Encodes(all: seq<Unacked>, failing: set<Id>, unAck: seq<Option<Unacked>>) {
    |unAck| == |all| && forall i :: 0 <= i < |all| ==>
      unAck[i] == if all[i].id in failing then None else Some(all[i])
  }

  /** What a connection in state `w` hands over. */
  ghost predicate Hands(w: Window, unfit: set<nat>, failing: set<Id>, qos12: seq<Option<nat>>, all: seq<Unacked>,
                        unAck: seq<Option<Unacked>>)
  {
    HandsQueued(w.queued, unfit, qos12) && HandsUnacked(w.relQueue, w.pubOut, all) && Encodes(all, failing, unAck)
  }

  lemma HandsOneMore(was: map<Id, Entry>, left: map<Id, Entry>, unAck: seq<Unacked>, id: Id)
    requires forall q :: q in left ==> q in was && left[q] == was[q]
    requires HandsTable(was - left.Keys, unAck) && id in left
    ensures HandsTable(was - (left - {id}).Keys, unAck + [Unacked(id, left[id])])
  {
    var more := unAck + [Unacked(id, left[id])];
    var done := was - (left - {id}).Keys;
    forall q | q in done ensures Unacked(q, done[q]) in more {
      if q == id {
        assert more[|unAck|] == Unacked(id, left[id]);
      } else {
        var before := was - left.Keys;
        assert q in before && Unacked(q, before[q]) in unAck;
        var i :| 0 <= i < |unAck| && unAck[i] == Unacked(q, before[q]);
        assert more[i] == unAck[i];
      }
    }
  }

  /** Where a handshake's packet is, by its phase. */
  ghost predicate Placed(phase: map<Id, Phase>, relQueue: seq<Id>, pubOut: map<Id, Entry>) {
    && NoDup(relQueue)
    && (forall id :: id in relQueue <==> id in phase && phase[id] == RelQueued)
    && (forall id :: id in pubOut <==> id in phase && (phase[id] == Sent || phase[id] == RelSent))
  }

  lemma HandedAt(phase: map<Id, Phase>, relQueue: seq<Id>, pubOut: map<Id, Entry>, unAck: seq<Unacked>, i: nat)
    requires Placed(phase, relQueue, pubOut) && HandsUnacked(relQueue, pubOut, unAck) && i < |unAck|
    ensures var id := unAck[i].id;
      id in phase && if i < |relQueue| then phase[id] == RelQueued && unAck[i].entry == Pubrel
                     else (phase[id] == Sent || phase[id] == RelSent) && id in pubOut && unAck[i].entry == pubOut[id]
  {
    var n := |relQueue|;
    if i < n {
      assert unAck[i] == unAck[..n][i];
      assert relQueue[i] in relQueue;
    } else {
      assert unAck[i] == unAck[n..][i - n];
    }
  }

  lemma HandedFor(phase: map<Id, Phase>, relQueue: seq<Id>, pubOut: map<Id, Entry>, unAck: seq<Unacked>, id: Id)
    returns (i: nat)
    requires Placed(phase, relQueue, pubOut) && HandsUnacked(relQueue, pubOut, unAck)
    requires id in phase && (phase[id] == RelQueued || phase[id] == Sent || phase[id] == RelSent)
    ensures i < |unAck| && unAck[i].id == id
  {
    var n := |relQueue|;
    if phase[id] == RelQueued {
      i :| 0 <= i < n && relQueue[i] == id;
      assert unAck[i] == unAck[..n][i];
    } else {
      var rest, e := unAck[n..], Unacked(id, pubOut[id]);
      assert e in rest;
      var k :| 0 <= k < |rest| && rest[k] == e;
      i := n + k;
    }
  }

  lemma HandedOnce(phase: map<Id, Phase>, relQueue: seq<Id>, pubOut: map<Id, Entry>, unAck: seq<Unacked>,
                   i: nat, j: nat)
    requires Placed(phase, relQueue, pubOut) && HandsUnacked(relQueue, pubOut, unAck) && i < j < |unAck|
    ensures unAck[i].id != unAck[j].id
  {
    var n := |relQueue|;
    HandedAt(phase, relQueue, pubOut, unAck, i);
    HandedAt(phase, relQueue, pubOut, unAck, j);
    if j < n {
      assert unAck[i] == unAck[..n][i] && unAck[j] == unAck[..n][j];
    } else if i >= n {
      assert unAck[i] == unAck[n..][i - n] && unAck[j] == unAck[n..][j - n];
    }
  }

  /** ... and what it is, with the reader at rest. */
  ghost predicate AtRest(owner: map<Id, nat>, phase: map<Id, Phase>, relQueue: seq<Id>, pubOut: map<Id, Entry>,
                         dropped: set<Id>)
  {
    && Placed(phase, relQueue, pubOut) && phase.Keys == owner.Keys
    && (forall id :: id in phase ==>
          phase[id] != RelBuilt && phase[id] != Held && (phase[id] == RelDropped <==> id in dropped))
    && (forall id :: id in phase && phase[id] == Sent ==> pubOut[id] == Publish(owner[id]))
    && (forall id :: id in phase && phase[id] == RelSent ==> pubOut[id] == Pubrel)
  }

  lemma InvAtRest(w: Window, max: nat)
    requires Inv(w, max) && w.reader == Idle && w.hand == Empty
    ensures AtRest(w.owner, w.phase, w.relQueue, w.pubOut, w.dropped)
  {
    forall id ensures id in w.relQueue <==> id in w.phase && w.phase[id] == RelQueued {
      if id in w.relQueue {
        var i :| 0 <= i < |w.relQueue| && w.relQueue[i] == id;
      }
    }
  }

  /** The handshakes under way are handed over once each, by the packet that comes
      next in them, except those whose PUBREL was dropped for its size. */
  lemma HandoverUnacked(owner: map<Id, nat>, phase: map<Id, Phase>, relQueue: seq<Id>, pubOut: map<Id, Entry>,
                        dropped: set<Id>, unAck: seq<Unacked>)
    requires AtRest(owner, phase, relQueue, pubOut, dropped) && HandsUnacked(relQueue, pubOut, unAck)
    ensures forall i: nat, j: nat :: i < j < |unAck| ==> unAck[i].id != unAck[j].id
    ensures forall i: nat :: i < |unAck| ==>
      var id := unAck[i].id;
      id in owner && id in phase && unAck[i].entry == if phase[id] == Sent then Publish(owner[id]) else Pubrel
    ensures forall id :: id in owner ==> ((exists i: nat :: i < |unAck| && unAck[i].id == id) <==> id !in dropped)
  {
    forall i: nat, j: nat | i < j < |unAck| ensures unAck[i].id != unAck[j].id {
      HandedOnce(phase, relQueue, pubOut, unAck, i, j);
    }
    forall i: nat | i < |unAck|
      ensures unAck[i].id in phase && unAck[i].id !in dropped
      ensures unAck[i].entry == if phase[unAck[i].id] == Sent then Publish(owner[unAck[i].id]) else Pubrel
    {
      HandedAt(phase, relQueue, pubOut, unAck, i);
    }
    forall id | id in owner && id !in dropped ensures exists i: nat :: i < |unAck| && unAck[i].id == id {
      var i := HandedFor(phase, relQueue, pubOut, unAck, id);
    }
  }

  lemma HandoverQueued(queued: seq<nat>, ledger: seq<Place>, unfit: set<nat>, qos12: seq<Option<nat>>)
    requires QueueInv(queued, ledger) && HandsQueued(queued, unfit, qos12)
    ensures forall s: nat :: s < |ledger| ==> (Some(s) in qos12 <==> ledger[s] == Queued && s !in unfit)
    ensures forall i, j :: 0 <= i < j < |qos12| && qos12[i].Some? ==> qos12[i] != qos12[j]
  {
    forall s: nat | s < |ledger| && ledger[s] == Queued && s !in unfit ensures Some(s) in qos12 {
      var i :| 0 <= i < |queued| && queued[i] == s;
      assert qos12[i] == Some(s);
    }
  }

  /** Publish `s` is among the packets handed over, as itself or as its PUBREL. */
  ghost predicate HandedOver(place: Place, qos12: seq<Option<nat>>, unAck: seq<Option<Unacked>>, s: nat) {
    || Some(s) in qos12
    || exists i: nat :: i < |unAck| && unAck[i].Some? && place == Flying(unAck[i].value.id)
  }

  /** Publish `s` must be: it is neither completed nor refused, and neither has it
      expired in the queue, nor was its PUBREL dropped, nor does encoding it fail. */
  predicate Due(place: Place, s: nat, unfit: set<nat>, failing: set<Id>, dropped: set<Id>) {
    match place
    case Queued => s !in unfit
    case Flying(id) => id !in dropped && id !in failing
    case _ => false
  }

  lemma EncodedFor(all: seq<Unacked>, failing: set<Id>, unAck: seq<Option<Unacked>>, id: Id)
    requires Encodes(all, failing, unAck)
    ensures (exists i: nat :: i < |unAck| && unAck[i].Some? && unAck[i].value.id == id) <==>
            id !in failing && exists i: nat :: i < |all| && all[i].id == id
  {
    if id !in failing {
      if i: nat :| i < |all| && all[i].id == id {
        assert unAck[i].Some? && unAck[i].value.id == id;
      }
    }
    if i: nat :| i < |unAck| && unAck[i].Some? && unAck[i].value.id == id {
      assert all[i].id == id;
    }
  }

  lemma DueIsHanded(place: Place, s: nat, unfit: set<nat>, failing: set<Id>, dropped: set<Id>, qos12: seq<Option<nat>>,
                    all: seq<Unacked>, unAck: seq<Option<Unacked>>)
    requires Encodes(all, failing, unAck)
    requires Some(s) in qos12 <==> place == Queued && s !in unfit
    requires place.Flying? ==> ((exists i: nat :: i < |all| && all[i].id == place.id) <==> place.id !in dropped)
    ensures HandedOver(place, qos12, unAck, s) <==> Due(place, s, unfit, failing, dropped)
  {
    if place.Flying? {
      EncodedFor(all, failing, unAck, place.id);
    }
  }

  lemma EncodedOnce(all: seq<Unacked>, failing: set<Id>, unAck: seq<Option<Unacked>>)
    requires Encodes(all, failing, unAck)
    requires forall i: nat, j: nat :: i < j < |all| ==> all[i].id != all[j].id
    ensures Once(unAck)
  {
    forall i: nat, j: nat | i < j < |unAck| && unAck[i].Some? && unAck[j].Some?
      ensures unAck[i].value.id != unAck[j].value.id
    {
      assert unAck[i].value == all[i] && unAck[j].value == all[j];
    }
  }

  /** No identifier occurs twice. */
  ghost predicate Once(unAck: seq<Option<Unacked>>) {
    forall i: nat, j: nat :: i < j < |unAck| && unAck[i].Some? && unAck[j].Some? ==>
      unAck[i].value.id != unAck[j].value.id
  }

  /** Exactly the publishes that are due are handed over, each once. */
  ghost predicate Complete(ledger: seq<Place>, dropped: set<Id>, unfit: set<nat>, failing: set<Id>,
                           qos12: seq<Option<nat>>, unAck: seq<Option<Unacked>>)
  {
    && (forall s: nat :: s < |ledger| ==>
          (HandedOver(ledger[s], qos12, unAck, s) <==> Due(ledger[s], s, unfit, failing, dropped)))
    && (forall i, j :: 0 <= i < j < |qos12| && qos12[i].Some? ==> qos12[i] != qos12[j])
    && Once(unAck)
  }

  lemma HandoverOf(inUse: set<Id>, ledger: seq<Place>, owner: map<Id, nat>, queued: seq<nat>, phase: map<Id, Phase>,
                   relQueue: seq<Id>, pubOut: map<Id, Entry>, dropped: set<Id>,
                   unfit: set<nat>, failing: set<Id>, qos12: seq<Option<nat>>, all: seq<Unacked>,
                   unAck: seq<Option<Unacked>>)
    requires OwnerInv(inUse, ledger, owner) && QueueInv(queued, ledger)
    requires AtRest(owner, phase, relQueue, pubOut, dropped)
    requires HandsQueued(queued, unfit, qos12) && HandsUnacked(relQueue, pubOut, all) && Encodes(all, failing, unAck)
    ensures Complete(ledger, dropped, unfit, failing, qos12, unAck)
  {
    HandoverQueued(queued, ledger, unfit, qos12);
    HandoverUnacked(owner, phase, relQueue, pubOut, dropped, all);
    EncodedOnce(all, failing, unAck);
    forall s: nat | s < |ledger|
      ensures HandedOver(ledger[s], qos12, unAck, s) <==> Due(ledger[s], s, unfit, failing, dropped)
    {
      DueIsHanded(ledger[s], s, unfit, failing, dropped, qos12, all, unAck);
    }
  }

  /** Nothing gets lost when a connection closes: after every run without a collision,
      with both goroutines at rest, the hand-over is complete. */
  lemma HandoverComplete(max: nat, es: seq<Event>, unfit: set<nat>, failing: set<Id>, qos12: seq<Option<nat>>,
                         all: seq<Unacked>, unAck: seq<Option<Unacked>>)
    requires ValidRun(Fresh(max), es) && CollisionFree(Fresh(max), es)
    requires var w := Run(Fresh(max), es);
      w.reader == Idle && w.hand == Empty && Hands(w, unfit, failing, qos12, all, unAck)
    ensures var w := Run(Fresh(max), es); Complete(w.ledger, w.dropped, unfit, failing, qos12, unAck)
  {
    RunKeepsInv(Fresh(max), es, max);
    var w := Run(Fresh(max), es);
    InvAtRest(w, max);
    HandoverOf(w.inUse, w.ledger, w.owner, w.queued, w.phase, w.relQueue, w.pubOut, w.dropped,
               unfit, failing, qos12, all, unAck);
  }
}
