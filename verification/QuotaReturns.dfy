/** Which packet identifiers, and with them units of the send quota, come back to a
    connection (connection/writer.go, connection/connection.go). */
module QuotaReturns {
  import opened Wrappers
  import opened FlowControl
  import opened Outbound

  // ------------------------------------------------------------------
  // Identifiers that never come back

  /** Neither goroutine is in the middle of anything with `id`. */
  predicate Untouched(w: Window, id: Id) {
    (w.reader == Idle || w.reader.id != id) && (w.hand.Holds? ==> w.hand.id != id)
  }

  /** `id` is in use, but no queue or table leads to it. */
  predicate Parked(w: Window, id: Id) {
    id in w.inUse && id !in w.pubOut && id !in w.relQueue && Untouched(w, id)
  }

  /** A publish sits in `pubOut` under `id` without having been written. */
  predicate Unsent(w: Window, id: Id) {
    && id in w.inUse && id in w.pubOut && w.pubOut[id].Publish? && id !in w.wire && id !in w.relQueue
    && Untouched(w, id)
  }

  lemma ParkedStep(w: Window, id: Id, e: Event)
    requires Parked(w, id) && Enabled(w, e) && Disciplined(w, e)
    ensures Parked(Step(w, e), id)
  {
  }

  lemma {:induction false} ParkedForever(w: Window, id: Id, es: seq<Event>)
    requires Parked(w, id) && ValidRun(w, es)
    ensures Parked(Run(w, es), id)
    decreases |es|
  {
    if |es| > 0 {
      ParkedStep(w, id, es[0]);
      ParkedForever(Step(w, es[0]), id, es[1..]);
    }
  }

  lemma UnsentStep(w: Window, id: Id, e: Event)
    requires Unsent(w, id) && Enabled(w, e) && Disciplined(w, e)
    ensures Unsent(Step(w, e), id) && Step(w, e).pubOut[id] == w.pubOut[id]
  {
  }

  lemma {:induction false} UnsentForever(w: Window, id: Id, es: seq<Event>)
    requires Unsent(w, id) && ValidRun(w, es)
    ensures Unsent(Run(w, es), id) && Run(w, es).pubOut[id] == w.pubOut[id]
    decreases |es|
  {
    if |es| > 0 {
      UnsentStep(w, id, es[0]);
      UnsentForever(Step(w, es[0]), id, es[1..]);
    }
  }

  /** An expired publish is given an identifier and stored, but not written, so
      nothing will ever acknowledge it: it holds one unit of the quota for the
      rest of the connection. */
  lemma ExpiredHoldsQuota(w: Window, es: seq<Event>, max: nat)
    requires Inv(w, max) && Enabled(w, Store(true)) && !Collides(w, Store(true))
    requires ValidRun(Step(w, Store(true)), es)
    ensures var v := Run(Step(w, Store(true)), es);
      Unsent(v, w.hand.id) && v.pubOut[w.hand.id] == Publish(w.hand.serial)
  {
    RelQueueHolds(w, w.hand.id, max);
    UnsentForever(Step(w, Store(true)), w.hand.id, es);
  }

  lemma RelQueueHolds(w: Window, id: Id, max: nat)
    requires Inv(w, max)
    ensures id in w.relQueue <==> id in w.phase && w.phase[id] == RelQueued
  {
    if id in w.relQueue {
      var i :| 0 <= i < |w.relQueue| && w.relQueue[i] == id;
    }
  }

  /** So does a publish whose PUBREL was dropped for its size. */
  lemma DroppedHoldsQuota(w: Window, id: Id, es: seq<Event>, max: nat)
    requires Inv(w, max) && id in w.dropped && ValidRun(w, es)
    ensures Parked(Run(w, es), id)
  {
    assert w.phase[id] == RelDropped;
    RelQueueHolds(w, id, max);
    ParkedForever(w, id, es);
  }

  // ------------------------------------------------------------------
  // ... and all others can

  /** Some continuation against a disciplined peer takes `id` out of use. */
  ghost predicate ComesBack(w: Window, id: Id) {
    exists es :: ValidRun(w, es) && id !in Run(w, es).inUse
  }

  /** The publish under `id` was not written, or its PUBREL was dropped. */
  predicate Stuck(w: Window, id: Id) {
    id in w.dropped || (id in w.phase && w.phase[id] == Sent && id !in w.wire)
  }

  lemma BackNow(w: Window, id: Id, e: Event)
    requires Enabled(w, e) && Disciplined(w, e) && id !in Step(w, e).inUse
    ensures ComesBack(w, id)
  {
    RunCons(w, e, []);
  }

  lemma BackLater(w: Window, id: Id, e: Event)
    requires Enabled(w, e) && Disciplined(w, e) && ComesBack(Step(w, e), id)
    ensures ComesBack(w, id)
  {
    var es :| ValidRun(Step(w, e), es) && id !in Run(Step(w, e), es).inUse;
    RunCons(w, e, es);
  }

  lemma RelSentBack(w: Window, id: Id)
    requires w.reader == Idle && id in w.pubOut && w.pubOut[id] == Pubrel && id in w.wire
    ensures ComesBack(w, id)
  {
    BackNow(w, id, Release(id));
  }

  /** A queued PUBREL is sent after those before it, and then acknowledged. */
  lemma {:induction false} RelQueuedBack(w: Window, i: nat, max: nat)
    requires Inv(w, max) && w.reader == Idle && w.hand == Empty && i < |w.relQueue|
    ensures ComesBack(w, w.relQueue[i])
    decreases i
  {
    var id, v := w.relQueue[i], Step(w, TransmitRel);
    if i > 0 {
      assert v.relQueue[i - 1] == id;
      TransmitRelStep(w, max);
      RelQueuedBack(v, i - 1, max);
    } else {
      RelSentBack(v, id);
    }
    BackLater(w, id, TransmitRel);
  }

  lemma SentBack(w: Window, id: Id, max: nat)
    requires Inv(w, max) && w.reader == Idle && w.hand == Empty && id in w.phase && w.phase[id] == Sent && id in w.wire
    ensures ComesBack(w, id)
  {
    assert w.pubOut[id] == Publish(w.owner[id]) && w.owner[id] < |w.qos2|;
    if w.qos2[w.owner[id]] {
      var u := Step(w, Pubrec(id, false));
      StepExact(w, Pubrec(id, false), max);
      var v := Step(u, Answer(true));
      StepExact(u, Answer(true), max);
      assert v.relQueue[|w.relQueue|] == id;
      RelQueuedBack(v, |w.relQueue|, max);
      BackLater(u, id, Answer(true));
      BackLater(w, id, Pubrec(id, false));
    } else {
      BackNow(w, id, Release(id));
    }
  }

  lemma RestingBack(w: Window, id: Id, max: nat)
    requires Inv(w, max) && w.reader == Idle && w.hand == Empty && id in w.owner && !Stuck(w, id)
    ensures ComesBack(w, id)
  {
    assert id in w.phase && w.phase[id] != Held && w.phase[id] != RelBuilt && w.phase[id] != RelDropped;
    if w.phase[id] == RelQueued {
      var i :| 0 <= i < |w.relQueue| && w.relQueue[i] == id;
      RelQueuedBack(w, i, max);
    } else if w.phase[id] == RelSent {
      RelSentBack(w, id);
    } else {
      SentBack(w, id, max);
    }
  }

  /** The routine finishes what it is in the middle of ... */
  lemma HoldingBack(w: Window, id: Id, max: nat)
    requires Inv(w, max) && w.reader == Idle && w.hand.Holds? && id in w.owner && !Stuck(w, id)
    ensures ComesBack(w, id)
  {
    StepExact(w, Store(false), max);
    RestingBack(Step(w, Store(false)), id, max);
    BackLater(w, id, Store(false));
  }

  lemma IdleBack(w: Window, id: Id, max: nat)
    requires Inv(w, max) && max <= MAX_ID && w.reader == Idle && id in w.owner && !Stuck(w, id)
    ensures ComesBack(w, id)
  {
    match w.hand
    case Empty => RestingBack(w, id, max);
    case Holds(_, _) => HoldingBack(w, id, max);
    case Seeking(_) =>
      var next := NextIdExists(w, max);
      AcquireStep(w, next, max);
      HoldingBack(Step(w, Acquire(next)), id, max);
      BackLater(w, id, Acquire(next));
  }

  /** ... and so does the reader. */
  lemma BusyBack(w: Window, id: Id, max: nat)
    requires Inv(w, max) && max <= MAX_ID && id in w.owner && !Stuck(w, id)
    ensures ComesBack(w, id)
  {
    if w.reader == Idle {
      IdleBack(w, id, max);
    } else {
      var e := if w.reader.Closing? then Delete else Answer(true);
      StepExact(w, e, max);
      ReaderMoves(w, id);
      IdleBack(Step(w, e), id, max);
      BackLater(w, id, e);
    }
  }

  lemma ReaderMoves(w: Window, id: Id)
    requires RelInv(w.phase, w.relQueue, w.dropped, w.reader)
    requires TableInv(w.pubOut, w.wire, w.owner, w.phase, w.reader)
    requires w.reader != Idle && id in w.owner && !Stuck(w, id)
    ensures var v := Step(w, if w.reader.Closing? then Delete else Answer(true));
      v.reader == Idle && id in v.owner && !Stuck(v, id)
  {
    if w.reader.Closing? {
      assert id == w.reader.id ==> w.phase[id] == Held;
    } else {
      assert Step(w, Answer(true)).phase[w.reader.id] == RelQueued;
    }
  }

  lemma SentIsUnsent(w: Window, id: Id, max: nat)
    requires Inv(w, max) && id in w.phase && w.phase[id] == Sent && id !in w.wire
    ensures Unsent(w, id)
  {
    RelQueueHolds(w, id, max);
  }

  lemma StuckForever(w: Window, id: Id, es: seq<Event>, max: nat)
    requires Inv(w, max) && id in w.owner && Stuck(w, id) && ValidRun(w, es)
    ensures id in Run(w, es).inUse
  {
    if id in w.dropped {
      DroppedHoldsQuota(w, id, es, max);
    } else {
      SentIsUnsent(w, id, max);
      UnsentForever(w, id, es);
    }
  }

  /** The quota a publish has taken can come back if and only if the publish was
      written (or still may be) and its PUBREL was not dropped for its size. */
  lemma ComesBackExactly(max: nat, es: seq<Event>, id: Id)
    requires max <= MAX_ID && ValidRun(Fresh(max), es) && CollisionFree(Fresh(max), es)
    requires id in Run(Fresh(max), es).inUse
    ensures var w := Run(Fresh(max), es); ComesBack(w, id) <==> !Stuck(w, id)
  {
    var w := Run(Fresh(max), es);
    RunKeepsInv(Fresh(max), es, max);
    if Stuck(w, id) {
      forall more | ValidRun(w, more) ensures id in Run(w, more).inUse {
        StuckForever(w, id, more, max);
      }
    } else {
      BusyBack(w, id, max);
    }
  }
}
