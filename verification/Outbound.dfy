/** The sending half of the QoS 1 and QoS 2 handshakes: the packet-identifier
    window, the `pubOut` table and the acknowledgement handlers
    (connection/writer.go, connection/ack.go, connection/connection.go).

    The transmit routine and the reader goroutine interleave.  The atomic steps
    are: a publish is queued; the routine takes a unit of the quota, then finds an
    identifier for the oldest publish, then stores it in `pubOut`; it pops a
    PUBREL; the reader handles a PUBACK or PUBCOMP, which `ackQueue.release` does
    in two parts (first the callback that frees the identifier, then the deletion
    from `pubOut`); the reader handles a PUBREC and then sends the PUBREL it built. */
module Outbound {
  import opened Wrappers
  import opened FlowControl

  /** What `pubOut` holds for an identifier.  Publishes are numbered in the
      order in which the writer accepted them. */
  datatype Entry = Publish(serial: nat) | Pubrel

  /** What the reader goroutine is in the middle of. */
  datatype Reader = Idle | Closing(id: Id) | Answering(id: Id)

  /** What the routine is in the middle of: looking for an identifier, with `seen` the
      identifiers that were in use when it began, or holding a publish that has its
      identifier and is not yet stored. */
  datatype Hand = Empty | Seeking(seen: set<Id>) | Holds(id: Id, serial: nat)

  /** How far the handshake for an identifier has come. */
  datatype Phase = Held | Sent | RelBuilt | RelQueued | RelDropped | RelSent

  /** Where an accepted publish is. */
  datatype Place = Queued | Flying(id: Id) | Completed | Refused

  /** The window.  `wire` are the identifiers whose packet in `pubOut` has been
      written to the connection.  The last four fields are history: the place of
      every accepted publish and whether it is QoS 2, the publish each identifier
      was given to, and the phase of its handshake. */
  datatype Window = Window(
    quota: nat,
    counter: nat,
    inUse: set<Id>,
    queued: seq<nat>,
    pubOut: map<Id, Entry>,
    relQueue: seq<Id>,
    dropped: set<Id>,
    wire: set<Id>,
    hand: Hand,
    reader: Reader,
    unacked: int,
    ledger: seq<Place>,
    qos2: seq<bool>,
    owner: map<Id, nat>,
    phase: map<Id, Phase>)

  datatype Event =
    | Accept(qos2: bool)
    | Seek
    | Acquire(id: Id)
    | Store(expired: bool)
    | TransmitRel
    | Release(id: Id)
    | Delete
    | Pubrec(id: Id, failing: bool)
    | Answer(fits: bool)

  function Fresh(max: nat): Window {
    Window(max, 0, {}, [], map[], [], {}, {}, Empty, Idle, 0, [], [], map[], map[])
  }

  /** The identifiers that the loop of `acquire` passes on its way to `id`. */
  predicate Passes(counter: nat, f: Id, id: Id) {
    f != 0 && Distance(Low(counter), f) < Distance(Low(counter), id)
  }

  /** The guards of the code.  The loop of `acquire` settles on a free identifier and
      has found all those it passed in use, though the reader may have freed some of
      them meanwhile. */
  ghost predicate Enabled(w: Window, e: Event) {
    match e
    case Accept(_) => true
    case Seek => w.hand == Empty && |w.queued| > 0 && w.quota > 0
    case Acquire(id) =>
      && w.hand.Seeking? && |w.queued| > 0 && Free(w.inUse, id)
      && forall f: Id :: Passes(w.counter, f, id) ==> f in w.hand.seen
    case Store(_) => w.hand.Holds?
    case TransmitRel => w.hand == Empty && |w.relQueue| > 0
    case Release(_) => w.reader == Idle
    case Delete => w.reader.Closing?
    case Pubrec(_, _) => w.reader == Idle
    case Answer(_) => w.reader.Answering?
  }

  /** `flow.release`, and the history that goes with it. */
  function GiveBack(w: Window, id: Id, place: Place): Window {
    w.(owner := w.owner - {id}, phase := w.phase - {id}, inUse := w.inUse - {id}, quota := w.quota + 1,
       ledger := if id in w.owner && w.owner[id] < |w.ledger| then w.ledger[w.owner[id] := place] else w.ledger)
  }

  /** The entry of `pubOut` for `id` goes away. */
  function Forget(w: Window, id: Id): Window {
    w.(pubOut := w.pubOut - {id}, wire := w.wire - {id}, unacked := w.unacked - 1)
  }

  function Step(w: Window, e: Event): Window
    requires Enabled(w, e)
  {
    match e
    case Accept(q) =>
      w.(queued := w.queued + [|w.ledger|], qos2 := w.qos2 + [q], ledger := w.ledger + [Queued])
    case Seek =>
      // qos12PopPacket up to the decrement in acquire
      w.(quota := w.quota - 1, hand := Seeking(w.inUse))
    case Acquire(id) =>
      // ... to Remove
      var s := w.queued[0];
      w.(counter := id, inUse := w.inUse + {id}, queued := w.queued[1..],
         hand := Holds(id, s), owner := w.owner[id := s], phase := w.phase[id := Held],
         ledger := if s < |w.ledger| then w.ledger[s := Flying(id)] else w.ledger)
    case Store(expired) =>
      // the rest of it, and the routine's write; an expired publish is not written
      var Holds(id, s) := w.hand;
      w.(hand := Empty, pubOut := w.pubOut[id := Publish(s)], unacked := w.unacked + 1,
         wire := if expired then w.wire - {id} else w.wire + {id}, phase := w.phase[id := Sent])
    case TransmitRel =>
      var id := w.relQueue[0];
      w.(relQueue := w.relQueue[1..], pubOut := w.pubOut[id := Pubrel], phase := w.phase[id := RelSent],
         unacked := w.unacked + 1, wire := w.wire + {id})
    case Release(id) =>
      // PUBACK or PUBCOMP: ackQueue.release up to and including the callback
      if id in w.pubOut then GiveBack(w, id, Completed).(reader := Closing(id)) else w
    case Delete =>
      Forget(w, w.reader.id).(reader := Idle)
    case Pubrec(id, failing) =>
      var v := if id in w.pubOut then Forget(w, id) else w;
      if failing then GiveBack(v, id, Refused)
      else v.(phase := v.phase[id := RelBuilt], reader := Answering(id))
    case Answer(fits) =>
      // send drops a packet larger than the negotiated maximum
      var id := w.reader.id;
      if fits then w.(relQueue := w.relQueue + [id], phase := w.phase[id := RelQueued], reader := Idle)
      else w.(dropped := w.dropped + {id}, phase := w.phase[id := RelDropped], reader := Idle)
  }

  /** A peer that acknowledges only what it has been sent, in the right phase. */
  ghost predicate Disciplined(w: Window, e: Event) {
    match e
    case Release(id) =>
      && id in w.pubOut && id in w.wire
      && (w.pubOut[id].Publish? ==> w.pubOut[id].serial < |w.qos2| && !w.qos2[w.pubOut[id].serial])
    case Pubrec(id, _) =>
      && id in w.pubOut && id in w.wire && w.pubOut[id].Publish?
      && w.pubOut[id].serial < |w.qos2| && w.qos2[w.pubOut[id].serial]
    case _ => true
  }

  /** The routine stores a publish under an identifier that is between the two
      halves of its release. */
  predicate Collides(w: Window, e: Event) {
    e.Store? && w.hand.Holds? && w.reader == Closing(w.hand.id)
  }

  // ------------------------------------------------------------------
  // The invariant, one part per group of fields

  /** Identifiers in use and publishes under way correspond one to one. */
  ghost predicate OwnerInv(inUse: set<Id>, ledger: seq<Place>, owner: map<Id, nat>) {
    && owner.Keys == inUse && 0 !in inUse
    && (forall id :: id in owner ==> owner[id] < |ledger| && ledger[owner[id]] == Flying(id))
    && (forall s :: 0 <= s < |ledger| && ledger[s].Flying? ==> ledger[s].id in owner && owner[ledger[s].id] == s)
  }

  /** The queue holds the publishes that have no identifier yet, each once. */
  ghost predicate QueueInv(queued: seq<nat>, ledger: seq<Place>) {
    && NoDup(queued)
    && (forall i :: 0 <= i < |queued| ==> queued[i] < |ledger| && ledger[queued[i]] == Queued)
    && (forall s :: 0 <= s < |ledger| && ledger[s] == Queued ==> s in queued)
  }

  /** A PUBREL between PUBREC and transmission is in exactly one place. */
  ghost predicate RelInv(phase: map<Id, Phase>, relQueue: seq<Id>, dropped: set<Id>, reader: Reader) {
    && NoDup(relQueue)
    && (forall i :: 0 <= i < |relQueue| ==> relQueue[i] in phase && phase[relQueue[i]] == RelQueued)
    && (forall id :: id in phase && phase[id] == RelQueued ==> id in relQueue)
    && (forall id :: id in dropped <==> id in phase && phase[id] == RelDropped)
    && (reader.Answering? ==> reader.id in phase && phase[reader.id] == RelBuilt)
    && (forall id :: id in phase && phase[id] == RelBuilt ==> reader.Answering? && reader.id == id)
  }

  /** `pubOut` holds exactly what awaits an acknowledgement, and an entry whose
      identifier has just been given back. */
  ghost predicate TableInv(pubOut: map<Id, Entry>, wire: set<Id>, owner: map<Id, nat>, phase: map<Id, Phase>,
                           reader: Reader)
  {
    && owner.Keys == phase.Keys
    && wire <= pubOut.Keys
    && (reader.Closing? ==> reader.id in pubOut && (reader.id in phase ==> phase[reader.id] == Held))
    && (forall id :: id in pubOut ==> id in owner || (reader.Closing? && reader.id == id))
    && (forall id :: id in phase && phase[id] == Sent ==> id in pubOut && pubOut[id] == Publish(owner[id]))
    && (forall id :: id in phase && phase[id] == RelSent ==> id in pubOut && pubOut[id] == Pubrel && id in wire)
    && (forall id :: id in phase && id in pubOut ==> phase[id] == Sent || phase[id] == RelSent || reader == Closing(id))
  }

  /** The routine holds exactly the publish that is in the phase Held. */
  ghost predicate HandInv(hand: Hand, owner: map<Id, nat>, phase: map<Id, Phase>) {
    && (hand.Holds? ==> hand.id in phase && phase[hand.id] == Held && hand.id in owner && owner[hand.id] == hand.serial)
    && (forall id :: id in phase && phase[id] == Held ==> hand.Holds? && hand.id == id)
  }

  /** The unit of quota taken for an identifier yet to be found. */
  function Reserved(hand: Hand): nat { if hand.Seeking? then 1 else 0 }

  ghost predicate CountInv(w: Window, max: nat) {
    && w.quota + Reserved(w.hand) + |w.inUse| == max && w.unacked == |w.pubOut| && |w.qos2| == |w.ledger|
    && (w.hand.Seeking? ==> |w.queued| > 0 && w.inUse <= w.hand.seen)
  }

  ghost predicate Inv(w: Window, max: nat) {
    && OwnerInv(w.inUse, w.ledger, w.owner)
    && QueueInv(w.queued, w.ledger)
    && RelInv(w.phase, w.relQueue, w.dropped, w.reader)
    && TableInv(w.pubOut, w.wire, w.owner, w.phase, w.reader)
    && HandInv(w.hand, w.owner, w.phase)
    && CountInv(w, max)
  }

  // ------------------------------------------------------------------
  // Each group of fields under the changes the steps make

  lemma OwnerWaits(inUse: set<Id>, ledger: seq<Place>, owner: map<Id, nat>, queued: seq<nat>)
    requires OwnerInv(inUse, ledger, owner) && QueueInv(queued, ledger)
    ensures OwnerInv(inUse, ledger + [Queued], owner) && QueueInv(queued + [|ledger|], ledger + [Queued])
  {
    assert |ledger| in queued + [|ledger|] by {
      assert (queued + [|ledger|])[|queued|] == |ledger|;
    }
    forall s | 0 <= s < |ledger| && ledger[s] == Queued ensures s in queued + [|ledger|] {
      assert s in queued;
    }
  }

  lemma OwnerTakes(inUse: set<Id>, ledger: seq<Place>, owner: map<Id, nat>, queued: seq<nat>, id: Id)
    requires OwnerInv(inUse, ledger, owner) && QueueInv(queued, ledger)
    requires |queued| > 0 && id != 0 && id !in inUse
    ensures var l := ledger[queued[0] := Flying(id)];
      OwnerInv(inUse + {id}, l, owner[id := queued[0]]) && QueueInv(queued[1..], l)
  {
    var l := ledger[queued[0] := Flying(id)];
    assert ledger[queued[0]] == Queued;
    forall s | 0 <= s < |l| && l[s] == Queued ensures s in queued[1..] {
      assert s in queued && s != queued[0];
    }
  }

  lemma OwnerGives(inUse: set<Id>, ledger: seq<Place>, owner: map<Id, nat>, queued: seq<nat>, id: Id, place: Place)
    requires OwnerInv(inUse, ledger, owner) && QueueInv(queued, ledger)
    requires id in owner && (place == Completed || place == Refused)
    ensures var l := ledger[owner[id] := place];
      OwnerInv(inUse - {id}, l, owner - {id}) && QueueInv(queued, l)
  {
    var l := ledger[owner[id] := place];
    assert forall j :: j in owner && j != id ==> owner[j] != owner[id];
  }

  lemma RelKeeps(phase: map<Id, Phase>, relQueue: seq<Id>, dropped: set<Id>, reader: Reader, id: Id)
    requires RelInv(phase, relQueue, dropped, reader)
    requires id in phase ==> phase[id] == Held || phase[id] == Sent || phase[id] == RelSent
    ensures RelInv(phase - {id}, relQueue, dropped, reader)
    ensures RelInv(phase[id := Held], relQueue, dropped, reader)
    ensures RelInv(phase[id := Sent], relQueue, dropped, reader)
    ensures reader == Idle ==> RelInv(phase - {id}, relQueue, dropped, Closing(id))
    ensures reader == Idle ==> RelInv(phase[id := RelBuilt], relQueue, dropped, Answering(id))
  {
  }

  lemma RelGoes(phase: map<Id, Phase>, relQueue: seq<Id>, dropped: set<Id>, reader: Reader)
    requires RelInv(phase, relQueue, dropped, reader) && |relQueue| > 0
    ensures RelInv(phase[relQueue[0] := RelSent], relQueue[1..], dropped, reader)
  {
    forall id | id in phase && phase[id] == RelQueued && id != relQueue[0] ensures id in relQueue[1..] {
      assert id in relQueue;
    }
  }

  lemma RelAnswers(phase: map<Id, Phase>, relQueue: seq<Id>, dropped: set<Id>, id: Id)
    requires RelInv(phase, relQueue, dropped, Answering(id))
    ensures RelInv(phase[id := RelQueued], relQueue + [id], dropped, Idle)
    ensures RelInv(phase[id := RelDropped], relQueue, dropped + {id}, Idle)
  {
  }

  lemma TableHolds(pubOut: map<Id, Entry>, wire: set<Id>, owner: map<Id, nat>, phase: map<Id, Phase>, reader: Reader,
                   id: Id, s: nat)
    requires TableInv(pubOut, wire, owner, phase, reader) && id !in owner
    ensures TableInv(pubOut, wire, owner[id := s], phase[id := Held], reader)
  {
  }

  lemma TableTakes(pubOut: map<Id, Entry>, wire: set<Id>, owner: map<Id, nat>, phase: map<Id, Phase>, reader: Reader,
                   id: Id, expired: bool)
    requires TableInv(pubOut, wire, owner, phase, reader) && id in phase && phase[id] == Held && reader != Closing(id)
    ensures id !in pubOut
    ensures TableInv(pubOut[id := Publish(owner[id])], if expired then wire - {id} else wire + {id}, owner,
                     phase[id := Sent], reader)
  {
  }

  lemma TableGives(pubOut: map<Id, Entry>, wire: set<Id>, owner: map<Id, nat>, phase: map<Id, Phase>, id: Id)
    requires TableInv(pubOut, wire, owner, phase, Idle) && id in pubOut
    ensures TableInv(pubOut, wire, owner - {id}, phase - {id}, Closing(id))
    ensures TableInv(pubOut - {id}, wire - {id}, owner - {id}, phase - {id}, Idle)
    ensures TableInv(pubOut - {id}, wire - {id}, owner, phase[id := RelBuilt], Answering(id))
  {
  }

  lemma TableCloses(pubOut: map<Id, Entry>, wire: set<Id>, owner: map<Id, nat>, phase: map<Id, Phase>, id: Id)
    requires TableInv(pubOut, wire, owner, phase, Closing(id))
    ensures TableInv(pubOut - {id}, wire - {id}, owner, phase, Idle)
  {
  }

  lemma TableSends(pubOut: map<Id, Entry>, wire: set<Id>, owner: map<Id, nat>, phase: map<Id, Phase>, reader: Reader,
                   id: Id)
    requires TableInv(pubOut, wire, owner, phase, reader) && id in phase && id !in pubOut && phase[id] != Held
    ensures TableInv(pubOut[id := Pubrel], wire + {id}, owner, phase[id := RelSent], reader)
  {
  }

  lemma TableAnswers(pubOut: map<Id, Entry>, wire: set<Id>, owner: map<Id, nat>, phase: map<Id, Phase>,
                     id: Id, p: Phase)
    requires TableInv(pubOut, wire, owner, phase, Answering(id)) && id in phase && id !in pubOut
    requires p == RelQueued || p == RelDropped
    ensures TableInv(pubOut, wire, owner, phase[id := p], Idle)
  {
  }

  lemma HandFills(owner: map<Id, nat>, phase: map<Id, Phase>, id: Id, s: nat)
    requires forall q :: q in phase ==> phase[q] != Held
    ensures HandInv(Holds(id, s), owner[id := s], phase[id := Held])
  {
  }

  lemma HandEmpties(hand: Hand, owner: map<Id, nat>, phase: map<Id, Phase>)
    requires HandInv(hand, owner, phase) && hand.Holds?
    ensures HandInv(Empty, owner, phase[hand.id := Sent])
  {
  }

  lemma HandKeeps(hand: Hand, owner: map<Id, nat>, phase: map<Id, Phase>, id: Id, p: Phase)
    requires HandInv(hand, owner, phase) && (id in phase ==> phase[id] != Held) && p != Held
    ensures HandInv(hand, owner - {id}, phase - {id})
    ensures HandInv(hand, owner, phase[id := p])
  {
  }

  // ------------------------------------------------------------------
  // Every step keeps the invariant

  lemma DropSize(m: map<Id, Entry>, id: Id)
    requires id in m
    ensures |m - {id}| == |m| - 1
  {
    assert (m - {id}).Keys == m.Keys - {id};
  }

  lemma AddSize(m: map<Id, Entry>, id: Id, e: Entry)
    requires id !in m
    ensures |m[id := e]| == |m| + 1
  {
    assert m[id := e].Keys == m.Keys + {id};
  }

  lemma SeekStep(w: Window, max: nat)
    requires Inv(w, max) && Enabled(w, Seek)
    ensures Inv(Step(w, Seek), max)
  {
  }

  lemma AcquireStep(w: Window, id: Id, max: nat)
    requires Inv(w, max) && Enabled(w, Acquire(id))
    ensures Inv(Step(w, Acquire(id)), max)
  {
    var v, s := Step(w, Acquire(id)), w.queued[0];
    assert OwnerInv(v.inUse, v.ledger, v.owner) && QueueInv(v.queued, v.ledger) by {
      OwnerTakes(w.inUse, w.ledger, w.owner, w.queued, id);
    }
    assert RelInv(v.phase, v.relQueue, v.dropped, v.reader) by {
      RelKeeps(w.phase, w.relQueue, w.dropped, w.reader, id);
    }
    assert TableInv(v.pubOut, v.wire, v.owner, v.phase, v.reader) by {
      TableHolds(w.pubOut, w.wire, w.owner, w.phase, w.reader, id, s);
    }
    assert HandInv(v.hand, v.owner, v.phase) by {
      HandFills(w.owner, w.phase, id, s);
    }
  }

  lemma StoreTable(w: Window, expired: bool)
    requires TableInv(w.pubOut, w.wire, w.owner, w.phase, w.reader) && HandInv(w.hand, w.owner, w.phase)
    requires w.hand.Holds? && w.reader != Closing(w.hand.id)
    ensures var v := Step(w, Store(expired));
      TableInv(v.pubOut, v.wire, v.owner, v.phase, v.reader) && |v.pubOut| == |w.pubOut| + 1
  {
    TableTakes(w.pubOut, w.wire, w.owner, w.phase, w.reader, w.hand.id, expired);
    AddSize(w.pubOut, w.hand.id, Publish(w.hand.serial));
  }

  lemma StoreRest(w: Window, expired: bool)
    requires RelInv(w.phase, w.relQueue, w.dropped, w.reader) && HandInv(w.hand, w.owner, w.phase) && w.hand.Holds?
    ensures var v := Step(w, Store(expired));
      RelInv(v.phase, v.relQueue, v.dropped, v.reader) && HandInv(v.hand, v.owner, v.phase)
  {
    RelKeeps(w.phase, w.relQueue, w.dropped, w.reader, w.hand.id);
    HandEmpties(w.hand, w.owner, w.phase);
  }

  lemma StoreStep(w: Window, expired: bool, max: nat)
    requires Inv(w, max) && Enabled(w, Store(expired)) && !Collides(w, Store(expired))
    ensures Inv(Step(w, Store(expired)), max)
  {
    var v := Step(w, Store(expired));
    StoreTable(w, expired);
    StoreRest(w, expired);
    assert CountInv(v, max);
    assert OwnerInv(v.inUse, v.ledger, v.owner) && QueueInv(v.queued, v.ledger);
  }

  lemma TransmitRelTable(w: Window)
    requires TableInv(w.pubOut, w.wire, w.owner, w.phase, w.reader)
    requires RelInv(w.phase, w.relQueue, w.dropped, w.reader) && Enabled(w, TransmitRel)
    ensures var v := Step(w, TransmitRel);
      TableInv(v.pubOut, v.wire, v.owner, v.phase, v.reader) && |v.pubOut| == |w.pubOut| + 1
  {
    var id := w.relQueue[0];
    assert w.phase[id] == RelQueued;
    TableSends(w.pubOut, w.wire, w.owner, w.phase, w.reader, id);
    AddSize(w.pubOut, id, Pubrel);
  }

  lemma TransmitRelRest(w: Window)
    requires RelInv(w.phase, w.relQueue, w.dropped, w.reader) && HandInv(w.hand, w.owner, w.phase)
    requires Enabled(w, TransmitRel)
    ensures var v := Step(w, TransmitRel);
      RelInv(v.phase, v.relQueue, v.dropped, v.reader) && HandInv(v.hand, v.owner, v.phase)
  {
    RelGoes(w.phase, w.relQueue, w.dropped, w.reader);
    HandKeeps(w.hand, w.owner, w.phase, w.relQueue[0], RelSent);
  }

  lemma TransmitRelStep(w: Window, max: nat)
    requires Inv(w, max) && Enabled(w, TransmitRel)
    ensures Inv(Step(w, TransmitRel), max)
  {
    var v := Step(w, TransmitRel);
    assert TableInv(v.pubOut, v.wire, v.owner, v.phase, v.reader) && |v.pubOut| == |w.pubOut| + 1 by {
      TransmitRelTable(w);
    }
    assert RelInv(v.phase, v.relQueue, v.dropped, v.reader) && HandInv(v.hand, v.owner, v.phase) by {
      TransmitRelRest(w);
    }
    assert CountInv(v, max);
    assert OwnerInv(v.inUse, v.ledger, v.owner) && QueueInv(v.queued, v.ledger);
  }

  lemma GiveBackOwner(w: Window, id: Id, place: Place, max: nat)
    requires OwnerInv(w.inUse, w.ledger, w.owner) && QueueInv(w.queued, w.ledger) && CountInv(w, max)
    requires id in w.owner && (place == Completed || place == Refused)
    ensures var v := GiveBack(w, id, place);
      OwnerInv(v.inUse, v.ledger, v.owner) && QueueInv(v.queued, v.ledger) && CountInv(v, max)
  {
    OwnerGives(w.inUse, w.ledger, w.owner, w.queued, id, place);
  }

  lemma ReleaseStep(w: Window, id: Id, max: nat)
    requires Inv(w, max) && w.reader == Idle && id in w.pubOut
    ensures Inv(Step(w, Release(id)), max)
  {
    var v := Step(w, Release(id));
    assert CountInv(v, max) && OwnerInv(v.inUse, v.ledger, v.owner) && QueueInv(v.queued, v.ledger) by {
      GiveBackOwner(w, id, Completed, max);
    }
    assert RelInv(v.phase, v.relQueue, v.dropped, v.reader) by {
      RelKeeps(w.phase, w.relQueue, w.dropped, w.reader, id);
    }
    assert TableInv(v.pubOut, v.wire, v.owner, v.phase, v.reader) by {
      TableGives(w.pubOut, w.wire, w.owner, w.phase, id);
    }
    assert HandInv(v.hand, v.owner, v.phase) by {
      HandKeeps(w.hand, w.owner, w.phase, id, RelSent);
    }
  }

  lemma DeleteStep(w: Window, max: nat)
    requires Inv(w, max) && Enabled(w, Delete)
    ensures Inv(Step(w, Delete), max)
  {
    var v, id := Step(w, Delete), w.reader.id;
    assert TableInv(v.pubOut, v.wire, v.owner, v.phase, v.reader) by {
      TableCloses(w.pubOut, w.wire, w.owner, w.phase, id);
    }
    DropSize(w.pubOut, id);
  }

  lemma RefusedStep(w: Window, id: Id, max: nat)
    requires Inv(w, max) && w.reader == Idle && id in w.pubOut
    ensures Inv(Step(w, Pubrec(id, true)), max)
  {
    var u, v := Forget(w, id), Step(w, Pubrec(id, true));
    assert v == GiveBack(u, id, Refused);
    assert CountInv(u, max) by {
      DropSize(w.pubOut, id);
    }
    assert CountInv(v, max) && OwnerInv(v.inUse, v.ledger, v.owner) && QueueInv(v.queued, v.ledger) by {
      GiveBackOwner(u, id, Refused, max);
    }
    assert RelInv(v.phase, v.relQueue, v.dropped, v.reader) by {
      RelKeeps(w.phase, w.relQueue, w.dropped, w.reader, id);
    }
    assert TableInv(v.pubOut, v.wire, v.owner, v.phase, v.reader) by {
      TableGives(w.pubOut, w.wire, w.owner, w.phase, id);
    }
    assert HandInv(v.hand, v.owner, v.phase) by {
      HandKeeps(w.hand, w.owner, w.phase, id, RelSent);
    }
  }

  lemma PubrecStep(w: Window, id: Id, max: nat)
    requires Inv(w, max) && w.reader == Idle && id in w.pubOut
    ensures Inv(Step(w, Pubrec(id, false)), max)
  {
    var v := Step(w, Pubrec(id, false));
    DropSize(w.pubOut, id);
    assert RelInv(v.phase, v.relQueue, v.dropped, v.reader) by {
      RelKeeps(w.phase, w.relQueue, w.dropped, w.reader, id);
    }
    assert TableInv(v.pubOut, v.wire, v.owner, v.phase, v.reader) by {
      TableGives(w.pubOut, w.wire, w.owner, w.phase, id);
    }
    assert HandInv(v.hand, v.owner, v.phase) by {
      HandKeeps(w.hand, w.owner, w.phase, id, RelBuilt);
    }
  }

  lemma AnswerStep(w: Window, fits: bool, max: nat)
    requires Inv(w, max) && Enabled(w, Answer(fits))
    ensures Inv(Step(w, Answer(fits)), max)
  {
    var v, id := Step(w, Answer(fits)), w.reader.id;
    assert RelInv(v.phase, v.relQueue, v.dropped, v.reader) by {
      RelAnswers(w.phase, w.relQueue, w.dropped, id);
    }
    assert TableInv(v.pubOut, v.wire, v.owner, v.phase, v.reader) by {
      TableAnswers(w.pubOut, w.wire, w.owner, w.phase, id, v.phase[id]);
    }
    assert HandInv(v.hand, v.owner, v.phase) by {
      HandKeeps(w.hand, w.owner, w.phase, id, if fits then RelQueued else RelDropped);
    }
  }

  lemma AcceptStep(w: Window, q: bool, max: nat)
    requires Inv(w, max)
    ensures Inv(Step(w, Accept(q)), max)
  {
    OwnerWaits(w.inUse, w.ledger, w.owner, w.queued);
  }

  lemma StepKeepsInv(w: Window, e: Event, max: nat)
    requires Inv(w, max) && Enabled(w, e) && Disciplined(w, e) && !Collides(w, e)
    ensures Inv(Step(w, e), max)
  {
    match e
    case Accept(q) => AcceptStep(w, q, max);
    case Seek => SeekStep(w, max);
    case Acquire(id) => AcquireStep(w, id, max);
    case Store(expired) => StoreStep(w, expired, max);
    case TransmitRel => TransmitRelStep(w, max);
    case Release(id) => ReleaseStep(w, id, max);
    case Delete => DeleteStep(w, max);
    case Pubrec(id, failing) =>
      if failing {
        RefusedStep(w, id, max);
      } else {
        PubrecStep(w, id, max);
      }
    case Answer(fits) => AnswerStep(w, fits, max);
  }

  lemma CollisionBreaksInv(w: Window, e: Event, max: nat)
    requires Inv(w, max) && Enabled(w, e) && Collides(w, e)
    ensures !TableInv(Step(w, e).pubOut, Step(w, e).wire, Step(w, e).owner, Step(w, e).phase, Step(w, e).reader)
  {
    assert Step(w, e).phase[w.hand.id] == Sent;
  }

  /** Of the steps taken against a disciplined peer, exactly the collisions break
      the invariant. */
  lemma StepExact(w: Window, e: Event, max: nat)
    requires Inv(w, max) && Enabled(w, e) && Disciplined(w, e)
    ensures Inv(Step(w, e), max) <==> !Collides(w, e)
  {
    if Collides(w, e) {
      CollisionBreaksInv(w, e, max);
    } else {
      StepKeepsInv(w, e, max);
    }
  }

  // ------------------------------------------------------------------
  // Runs

  /** A run against a disciplined peer. */
  ghost predicate ValidRun(w: Window, es: seq<Event>)
    decreases |es|
  {
    |es| == 0 || (Enabled(w, es[0]) && Disciplined(w, es[0]) && ValidRun(Step(w, es[0]), es[1..]))
  }

  ghost function Run(w: Window, es: seq<Event>): Window
    requires ValidRun(w, es)
    decreases |es|
  {
    if |es| == 0 then w else Run(Step(w, es[0]), es[1..])
  }

  lemma RunCons(w: Window, e: Event, es: seq<Event>)
    requires Enabled(w, e) && Disciplined(w, e) && ValidRun(Step(w, e), es)
    ensures ValidRun(w, [e] + es) && Run(w, [e] + es) == Run(Step(w, e), es)
  {
    assert ([e] + es)[1..] == es;
  }

  lemma RunOfThree(w: Window, a: Event, b: Event, c: Event)
    requires Enabled(w, a) && Disciplined(w, a)
    requires Enabled(Step(w, a), b) && Disciplined(Step(w, a), b)
    requires Enabled(Step(Step(w, a), b), c) && Disciplined(Step(Step(w, a), b), c)
    ensures ValidRun(w, [a, b, c]) && Run(w, [a, b, c]) == Step(Step(Step(w, a), b), c)
  {
    var u, v := Step(w, a), Step(Step(w, a), b);
    RunCons(v, c, []);
    RunCons(u, b, [c] + []);
    RunCons(w, a, [b] + ([c] + []));
    assert [a, b, c] == [a] + ([b] + ([c] + []));
  }

  ghost predicate CollisionFree(w: Window, es: seq<Event>)
    requires ValidRun(w, es)
    decreases |es|
  {
    |es| == 0 || (!Collides(w, es[0]) && CollisionFree(Step(w, es[0]), es[1..]))
  }

  lemma {:induction false} RunSnoc(w: Window, es: seq<Event>, e: Event)
    requires ValidRun(w, es) && CollisionFree(w, es)
    requires Enabled(Run(w, es), e) && Disciplined(Run(w, es), e) && !Collides(Run(w, es), e)
    ensures ValidRun(w, es + [e]) && CollisionFree(w, es + [e]) && Run(w, es + [e]) == Step(Run(w, es), e)
    decreases |es|
  {
    if |es| == 0 {
      assert es + [e] == [e] && [e][1..] == [];
    } else {
      assert (es + [e])[1..] == es[1..] + [e];
      RunSnoc(Step(w, es[0]), es[1..], e);
    }
  }

  lemma {:induction false} RunKeepsInv(w: Window, es: seq<Event>, max: nat)
    requires Inv(w, max) && ValidRun(w, es) && CollisionFree(w, es)
    ensures Inv(Run(w, es), max)
    decreases |es|
  {
    if |es| > 0 {
      StepExact(w, es[0], max);
      RunKeepsInv(Step(w, es[0]), es[1..], max);
    }
  }

  /** The publish numbered `s` is where its history says and nowhere else. */
  ghost predicate OnePlace(w: Window, s: nat)
    requires s < |w.ledger|
  {
    && (s in w.queued <==> w.ledger[s] == Queued)
    && (forall id :: id in w.owner && w.owner[id] == s <==> w.ledger[s] == Flying(id))
    && (forall id :: id in w.pubOut && w.reader != Closing(id) && w.pubOut[id] == Publish(s) ==>
          w.ledger[s] == Flying(id))
    && (w.ledger[s].Flying? ==>
          var id := w.ledger[s].id;
          && id in w.inUse && id in w.phase
          && (w.phase[id] == Held <==> w.hand == Holds(id, s))
          && (w.phase[id] == Sent <==> id in w.pubOut && w.pubOut[id] == Publish(s) && w.reader != Closing(id))
          && (w.phase[id] == RelBuilt <==> w.reader == Answering(id))
          && (w.phase[id] == RelQueued <==> id in w.relQueue)
          && (w.phase[id] == RelDropped <==> id in w.dropped)
          && (w.phase[id] == RelSent <==> id in w.pubOut && w.pubOut[id] == Pubrel && w.reader != Closing(id)))
  }

  lemma InvMeansOnePlace(w: Window, s: nat, max: nat)
    requires Inv(w, max) && s < |w.ledger|
    ensures OnePlace(w, s)
  {
  }

  /** Every accepted publish is in exactly one place, the quota, the unit taken for an
      identifier being looked for, and the identifiers in use add up to the negotiated Receive Maximum, and the
      unacknowledged-packets metric is the size of `pubOut`. */
  ghost predicate Conserved(w: Window, max: nat) {
    && w.quota + Reserved(w.hand) + |w.inUse| == max
    && w.unacked == |w.pubOut|
    && forall s: nat :: s < |w.ledger| ==> OnePlace(w, s)
  }

  lemma InvMeansConserved(w: Window, max: nat)
    requires Inv(w, max)
    ensures Conserved(w, max)
  {
    forall s: nat | s < |w.ledger| ensures OnePlace(w, s) {
      InvMeansOnePlace(w, s, max);
    }
  }

  /** Conservation: on a fresh connection, against a peer that acknowledges only
      what is outstanding, and while no identifier is taken in the middle of its
      release. */
  lemma Conservation(max: nat, es: seq<Event>)
    requires ValidRun(Fresh(max), es) && CollisionFree(Fresh(max), es)
    ensures Conserved(Run(Fresh(max), es), max)
  {
    RunKeepsInv(Fresh(max), es, max);
    InvMeansConserved(Run(Fresh(max), es), max);
  }

  /** Every state on the way is conserved. */
  ghost predicate AlwaysConserved(w: Window, es: seq<Event>, max: nat)
    requires ValidRun(w, es)
    decreases |es|
  {
    Conserved(w, max) && (|es| == 0 || AlwaysConserved(Step(w, es[0]), es[1..], max))
  }

  lemma CollisionMiscounts(w: Window, e: Event, max: nat)
    requires w.unacked == |w.pubOut| && TableInv(w.pubOut, w.wire, w.owner, w.phase, w.reader)
    requires Enabled(w, e) && Collides(w, e)
    ensures !Conserved(Step(w, e), max)
  {
    assert Step(w, e).pubOut.Keys == w.pubOut.Keys;
    assert Step(w, e).unacked != |Step(w, e).pubOut|;
  }

  lemma {:induction false} ConservedFrom(w: Window, es: seq<Event>, max: nat)
    requires Inv(w, max) && ValidRun(w, es)
    ensures AlwaysConserved(w, es, max) <==> CollisionFree(w, es)
    decreases |es|
  {
    InvMeansConserved(w, max);
    if |es| > 0 {
      var v := Step(w, es[0]);
      if Collides(w, es[0]) {
        CollisionMiscounts(w, es[0], max);
      } else {
        StepExact(w, es[0], max);
        ConservedFrom(v, es[1..], max);
      }
    }
  }

  /** ... and not beyond: a run is conserved throughout if and only if no
      identifier is taken in the middle of its release. */
  lemma ConservedExactly(max: nat, es: seq<Event>)
    requires ValidRun(Fresh(max), es)
    ensures AlwaysConserved(Fresh(max), es, max) <==> CollisionFree(Fresh(max), es)
  {
    ConservedFrom(Fresh(max), es, max);
  }

  /** In a run so far free of collisions, `pubOut.store(.., true)` replaces an
      entry exactly when it collides. */
  lemma OverwritesExactly(max: nat, es: seq<Event>, e: Event)
    requires ValidRun(Fresh(max), es) && CollisionFree(Fresh(max), es)
    requires Enabled(Run(Fresh(max), es), e)
    ensures var w := Run(Fresh(max), es);
      && (e.Store? ==> (w.hand.id in w.pubOut <==> Collides(w, e)))
      && (e == TransmitRel ==> w.relQueue[0] !in w.pubOut)
  {
    RunKeepsInv(Fresh(max), es, max);
    StoreMeets(Run(Fresh(max), es), max);
  }

  lemma StoreMeets(w: Window, max: nat)
    requires Inv(w, max)
    ensures w.hand.Holds? ==> (w.hand.id in w.pubOut <==> w.reader == Closing(w.hand.id))
    ensures |w.relQueue| > 0 ==> w.relQueue[0] !in w.pubOut
  {
    HeldMeets(w.pubOut, w.wire, w.owner, w.phase, w.reader, w.hand);
    RelMeets(w.pubOut, w.wire, w.owner, w.phase, w.reader, w.relQueue, w.dropped);
  }

  lemma HeldMeets(pubOut: map<Id, Entry>, wire: set<Id>, owner: map<Id, nat>, phase: map<Id, Phase>, reader: Reader,
                  hand: Hand)
    requires TableInv(pubOut, wire, owner, phase, reader) && HandInv(hand, owner, phase)
    ensures hand.Holds? ==> (hand.id in pubOut <==> reader == Closing(hand.id))
  {
  }

  lemma RelMeets(pubOut: map<Id, Entry>, wire: set<Id>, owner: map<Id, nat>, phase: map<Id, Phase>, reader: Reader,
                 relQueue: seq<Id>, dropped: set<Id>)
    requires TableInv(pubOut, wire, owner, phase, reader) && RelInv(phase, relQueue, dropped, reader)
    ensures |relQueue| > 0 ==> relQueue[0] !in pubOut
  {
    assert |relQueue| > 0 ==> phase[relQueue[0]] == RelQueued;
  }

  /** Acknowledgements for what is not outstanding: a PUBACK or PUBCOMP does nothing; a
      successful PUBREC is answered all the same; and a failing one raises the quota, so
      that it adds up no longer, if and only if its identifier is not in use. */
  lemma UnknownAcks(w: Window, id: Id, max: nat)
    requires w.quota + Reserved(w.hand) + |w.inUse| == max && w.reader == Idle && id !in w.pubOut
    ensures Step(w, Release(id)) == w
    ensures Step(w, Pubrec(id, false)).reader == Answering(id) && Step(w, Pubrec(id, false)).quota == w.quota
    ensures var v := Step(w, Pubrec(id, true));
      v.quota == w.quota + 1 && (v.quota + Reserved(v.hand) + |v.inUse| == max <==> id in w.inUse)
  {
    assert |w.inUse - {id}| == if id in w.inUse then |w.inUse| - 1 else |w.inUse| by {
      if id !in w.inUse {
        assert w.inUse - {id} == w.inUse;
      }
    }
  }

  /** With the Receive Maximum in the range of section 3.1.2.11.3 of MQTT 5.0, a unit
      of quota taken always means that `acquire` has an identifier to settle on. */
  lemma NextIdExists(w: Window, max: nat) returns (id: Id)
    requires Inv(w, max) && max <= MAX_ID && w.hand.Seeking?
    ensures Enabled(w, Acquire(id))
  {
    FreeIdExists(w.inUse, w.quota + 1);
    var any: Id :| Free(w.inUse, any);
    id := NearestFree(w.counter, w.inUse, any);
  }

  lemma {:induction false} NearestFree(counter: nat, inUse: set<Id>, any: Id) returns (id: Id)
    requires Free(inUse, any)
    ensures Free(inUse, id) && forall f: Id :: Passes(counter, f, id) ==> f in inUse
    decreases Distance(Low(counter), any)
  {
    if f: Id :| Free(inUse, f) && Passes(counter, f, any) {
      id := NearestFree(counter, inUse, f);
    } else {
      id := any;
    }
  }
}
