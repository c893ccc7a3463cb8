/** The race between the transmit routine and the two halves of `ackQueue.release`
    (connection/writer.go, connection/ack.go): what it costs, when it cannot happen,
    and that it does happen. */
module Collisions {
  import opened Wrappers
  import opened FlowControl
  import opened Outbound
  import opened QuotaReturns

  // ------------------------------------------------------------------
  // What a collision costs

  /** Publish `s` has been given `id`, and nothing else is on record for either. */
  ghost predicate Recorded(w: Window, id: Id, s: nat) {
    && s < |w.ledger| && w.ledger[s] == Flying(id)
    && (forall j :: j in w.owner && j != id ==> w.owner[j] != s) && s !in w.queued
    && (forall i :: 0 <= i < |w.queued| ==> w.queued[i] < |w.ledger|)
  }

  /** Publish `s` is lost: no queue or table leads to it. */
  ghost predicate Lost(w: Window, id: Id, s: nat) {
    Parked(w, id) && Recorded(w, id, s)
  }

  /** Publish `s` is about to be: the reader will delete its entry. */
  ghost predicate Doomed(w: Window, id: Id, s: nat) {
    && w.reader == Closing(id) && id in w.inUse && id !in w.relQueue && (w.hand.Holds? ==> w.hand.id != id)
    && Recorded(w, id, s)
  }

  lemma RecordedStep(w: Window, id: Id, s: nat, e: Event)
    requires Recorded(w, id, s) && id in w.inUse && Enabled(w, e)
    requires e == Release(id) ==> id !in w.pubOut
    requires e.Pubrec? ==> e.id != id
    ensures Recorded(Step(w, e), id, s)
  {
  }

  lemma LostStep(w: Window, id: Id, s: nat, e: Event)
    requires (Lost(w, id, s) || Doomed(w, id, s)) && Enabled(w, e) && Disciplined(w, e)
    ensures Lost(Step(w, e), id, s) || Doomed(Step(w, e), id, s)
    ensures Lost(w, id, s) || e == Delete ==> Lost(Step(w, e), id, s)
  {
    RecordedStep(w, id, s, e);
    if Lost(w, id, s) {
      ParkedStep(w, id, e);
    }
  }

  /** A lost publish stays lost: it is never acknowledged and its identifier is
      never given back. */
  lemma {:induction false} LostForever(w: Window, id: Id, s: nat, es: seq<Event>)
    requires (Lost(w, id, s) || Doomed(w, id, s)) && ValidRun(w, es)
    ensures Lost(Run(w, es), id, s) || Doomed(Run(w, es), id, s)
    ensures Lost(w, id, s) || Delete in es ==> Lost(Run(w, es), id, s)
    decreases |es|
  {
    if |es| > 0 {
      LostStep(w, id, s, es[0]);
      LostForever(Step(w, es[0]), id, s, es[1..]);
    }
  }

  /** A collision loses the publish that is stored, as soon as the reader goes on. */
  lemma CollisionLoses(w: Window, expired: bool, max: nat, es: seq<Event>)
    requires Inv(w, max) && Enabled(w, Store(expired)) && Collides(w, Store(expired))
    requires ValidRun(Step(w, Store(expired)), es) && Delete in es
    ensures Lost(Run(Step(w, Store(expired)), es), w.hand.id, w.hand.serial)
  {
    RelQueueHolds(w, w.hand.id, max);
    HeldIsRecorded(w);
    CollisionDooms(w, expired);
    LostForever(Step(w, Store(expired)), w.hand.id, w.hand.serial, es);
  }

  lemma CollisionDooms(w: Window, expired: bool)
    requires w.hand.Holds? && w.reader == Closing(w.hand.id) && w.hand.id in w.inUse && w.hand.id !in w.relQueue
    requires Recorded(w, w.hand.id, w.hand.serial)
    ensures Doomed(Step(w, Store(expired)), w.hand.id, w.hand.serial)
  {
  }

  lemma HeldIsRecorded(w: Window)
    requires OwnerInv(w.inUse, w.ledger, w.owner) && QueueInv(w.queued, w.ledger)
    requires HandInv(w.hand, w.owner, w.phase) && w.hand.Holds?
    ensures Recorded(w, w.hand.id, w.hand.serial)
  {
  }

  /** How many publishes are given an identifier. */
  function Acquires(es: seq<Event>): nat {
    if |es| == 0 then 0 else (if es[0].Acquire? then 1 else 0) + Acquires(es[1..])
  }

  // ------------------------------------------------------------------
  // Where collisions cannot happen

  /** All identifiers so far are at most `n`, and the counter is. */
  ghost predicate Young(w: Window, n: nat) {
    && n <= MAX_ID && w.counter == n
    && (forall id :: id in w.inUse ==> id <= n)
    && (forall id :: id in w.pubOut ==> id <= n)
    && (forall i :: 0 <= i < |w.relQueue| ==> w.relQueue[i] <= n)
    && (w.reader != Idle ==> w.reader.id <= n)
    && (w.hand.Seeking? ==> forall id :: id in w.hand.seen ==> id <= n)
    && (w.hand.Holds? ==> w.hand.id !in w.pubOut && w.hand.id <= n && w.reader != Closing(w.hand.id))
  }

  lemma YoungStep(w: Window, e: Event, n: nat)
    requires Young(w, n) && Enabled(w, e) && Disciplined(w, e) && (e.Acquire? ==> n < MAX_ID)
    ensures !Collides(w, e) && Young(Step(w, e), if e.Acquire? then n + 1 else n)
  {
    if e.Acquire? {
      var next: Id := n + 1;
      assert Distance(Low(n), next) == 1;
      assert !Passes(n, next, e.id);
    }
  }

  lemma {:induction false} YoungRun(w: Window, es: seq<Event>, n: nat)
    requires Young(w, n) && ValidRun(w, es) && n + Acquires(es) <= MAX_ID
    ensures CollisionFree(w, es)
    decreases |es|
  {
    if |es| > 0 {
      YoungStep(w, es[0], n);
      YoungRun(Step(w, es[0]), es[1..], if es[0].Acquire? then n + 1 else n);
    }
  }

  /** A connection that transmits at most 65535 publishes has no collision, whatever
      its Receive Maximum. */
  lemma FewPublishes(max: nat, es: seq<Event>)
    requires ValidRun(Fresh(max), es) && Acquires(es) <= MAX_ID
    ensures CollisionFree(Fresh(max), es)
  {
    YoungRun(Fresh(max), es, 0);
  }

  /** With Receive Maximum 1 the counter is at the one identifier in use, or at the one
      just given back. */
  ghost predicate Solo(w: Window) {
    && w.inUse <= {w.counter}
    && (w.reader.Closing? ==> w.inUse == if w.reader.id == w.counter then {} else {w.counter})
    && (w.hand.Seeking? ==> w.hand.seen == {})
  }

  lemma SoloSeeks(w: Window, e: Event)
    requires w.quota + Reserved(w.hand) + |w.inUse| == 1 && Solo(w) && Enabled(w, e) && (e == Seek || e.Acquire?)
    ensures Solo(Step(w, e))
  {
    assert w.inUse == {};
    if e.Acquire? {
      var next: Id := if Low(w.counter) == MAX_ID then 1 else Low(w.counter) + 1;
      assert Distance(Low(w.counter), next) == 1;
      assert !Passes(w.counter, next, e.id);
    }
  }

  lemma SoloStep(w: Window, e: Event)
    requires w.quota + Reserved(w.hand) + |w.inUse| == 1 && HandInv(w.hand, w.owner, w.phase) && w.owner.Keys == w.inUse
    requires w.reader == Idle ==> w.pubOut.Keys <= w.owner.Keys
    requires Solo(w) && Enabled(w, e) && Disciplined(w, e)
    ensures !Collides(w, e) && Solo(Step(w, e))
  {
    if e == Seek || e.Acquire? {
      SoloSeeks(w, e);
    }
  }

  lemma {:induction false} SoloRun(w: Window, es: seq<Event>)
    requires Inv(w, 1) && Solo(w) && ValidRun(w, es)
    ensures CollisionFree(w, es)
    decreases |es|
  {
    if |es| > 0 {
      SoloStep(w, es[0]);
      StepExact(w, es[0], 1);
      SoloRun(Step(w, es[0]), es[1..]);
    }
  }

  /** Nor has a connection with Receive Maximum 1. */
  lemma ReceiveMaximumOne(es: seq<Event>)
    requires ValidRun(Fresh(1), es)
    ensures CollisionFree(Fresh(1), es)
  {
    SoloRun(Fresh(1), es);
  }

  // ------------------------------------------------------------------
  // Where they do

  ghost predicate Calm(w: Window, es: seq<Event>) {
    ValidRun(w, es) && CollisionFree(w, es)
  }

  ghost predicate CalmStep(w: Window, e: Event) {
    Enabled(w, e) && Disciplined(w, e) && !Collides(w, e)
  }

  lemma {:induction false} AcquiresSnoc(es: seq<Event>, e: Event)
    ensures Acquires(es + [e]) == Acquires(es) + if e.Acquire? then 1 else 0
  {
    if |es| == 0 {
      assert es + [e] == [e] && [e][1..] == [];
    } else {
      assert (es + [e])[1..] == es[1..] + [e];
      AcquiresSnoc(es[1..], e);
    }
  }

  lemma RunAppend(w: Window, es: seq<Event>, e: Event)
    requires Calm(w, es) && CalmStep(Run(w, es), e)
    ensures Calm(w, es + [e]) && Run(w, es + [e]) == Step(Run(w, es), e)
    ensures Acquires(es + [e]) == Acquires(es) + if e.Acquire? then 1 else 0
  {
    RunSnoc(w, es, e);
    AcquiresSnoc(es, e);
  }

  /** With Receive Maximum 2: publish 0 has been outstanding under identifier 1
      while publishes 1 to k - 1 were sent and acknowledged. */
  ghost function AfterRounds(k: nat): Window
    requires 1 <= k <= MAX_ID
  {
    Window(1, k, {1}, [], map[1 := Publish(0)], [], {}, {1}, Empty, Idle, 1,
           [Flying(1)] + seq(k - 1, _ => Completed), seq(k, _ => false), map[1 := 0], map[1 := Sent])
  }

  lemma PassesNothing(k: nat, f: Id)
    requires k < MAX_ID
    ensures !Passes(k, f, k + 1) && !Passes(MAX_ID, f, 1)
  {
  }

  /** The start of a round: one more publish gets the next identifier. */
  lemma RoundStarts(k: nat)
    requires 1 <= k < MAX_ID
    ensures var w1 := Step(AfterRounds(k), Accept(false));
      && CalmStep(w1, Seek) && CalmStep(Step(w1, Seek), Acquire(k + 1))
  {
    var w1 := Step(AfterRounds(k), Accept(false));
    var next: Id := k + 1;
    assert w1.queued == [k];
    forall f: Id ensures !Passes(k, f, next) {
      PassesNothing(k, f);
    }
  }

  lemma RoundEnds(k: nat)
    requires 1 <= k < MAX_ID
    requires CalmStep(Step(AfterRounds(k), Accept(false)), Seek)
    requires CalmStep(Step(Step(AfterRounds(k), Accept(false)), Seek), Acquire(k + 1))
    ensures var w3 := Step(Step(Step(AfterRounds(k), Accept(false)), Seek), Acquire(k + 1));
      && CalmStep(w3, Store(false))
      && var w4 := Step(w3, Store(false));
      && CalmStep(w4, Release(k + 1))
      && var w5 := Step(w4, Release(k + 1));
      && CalmStep(w5, Delete) && Step(w5, Delete) == AfterRounds(k + 1)
  {
    var w1 := Step(AfterRounds(k), Accept(false));
    assert w1.queued == [k];
    var w3 := Step(Step(w1, Seek), Acquire(k + 1));
    var w4 := Step(w3, Store(false));
    var w5 := Step(w4, Release(k + 1));
    var w6, t := Step(w5, Delete), AfterRounds(k + 1);
    assert w6.ledger == t.ledger;
    assert w6.qos2 == t.qos2;
    assert w6.pubOut == t.pubOut && w6.owner == t.owner && w6.phase == t.phase;
    assert w6.inUse == t.inUse && w6.wire == t.wire;
    assert w6.queued == t.queued;
  }

  lemma FirstPublish() returns (es: seq<Event>)
    ensures Calm(Fresh(2), es) && Run(Fresh(2), es) == AfterRounds(1) && Acquires(es) == 1
  {
    var w := Fresh(2);
    es := [];
    RunAppend(w, es, Accept(false));
    es := es + [Accept(false)];
    assert Run(w, es).queued == [0];
    RunAppend(w, es, Seek);
    es := es + [Seek];
    forall f: Id ensures !Passes(0, f, 1) {
      PassesNothing(0, f);
    }
    RunAppend(w, es, Acquire(1));
    es := es + [Acquire(1)];
    RunAppend(w, es, Store(false));
    es := es + [Store(false)];
    var v, t := Run(w, es), AfterRounds(1);
    assert v.ledger == t.ledger && v.qos2 == t.qos2 && v.queued == t.queued;
    assert v.pubOut == t.pubOut && v.owner == t.owner && v.phase == t.phase;
    assert v.inUse == t.inUse && v.wire == t.wire;
  }

  lemma {:induction false} ReachRounds(k: nat) returns (es: seq<Event>)
    requires 1 <= k <= MAX_ID
    ensures Calm(Fresh(2), es) && Run(Fresh(2), es) == AfterRounds(k) && Acquires(es) == k
  {
    if k == 1 {
      es := FirstPublish();
    } else {
      es := ReachRounds(k - 1);
      RoundStarts(k - 1);
      RoundEnds(k - 1);
      RunAppend(Fresh(2), es, Accept(false));
      es := es + [Accept(false)];
      RunAppend(Fresh(2), es, Seek);
      es := es + [Seek];
      RunAppend(Fresh(2), es, Acquire(k));
      es := es + [Acquire(k)];
      RunAppend(Fresh(2), es, Store(false));
      es := es + [Store(false)];
      RunAppend(Fresh(2), es, Release(k));
      es := es + [Release(k)];
      RunAppend(Fresh(2), es, Delete);
      es := es + [Delete];
    }
  }

  /** A collision is reachable on a fresh connection with Receive Maximum 2 and a
      disciplined peer, by the first publish beyond those of FewPublishes: publish 0
      is acknowledged just when the identifier cycle has come round, and the routine
      takes and stores identifier 1 before the reader deletes its entry. */
  lemma CollisionReachable() returns (es: seq<Event>)
    ensures ValidRun(Fresh(2), es) && CollisionFree(Fresh(2), es) && Acquires(es) == MAX_ID + 1
    ensures var w := Run(Fresh(2), es); Enabled(w, Store(false)) && Collides(w, Store(false))
  {
    es := ReachRounds(MAX_ID);
    RunAppend(Fresh(2), es, Accept(false));
    es := es + [Accept(false)];
    RunAppend(Fresh(2), es, Release(1));
    es := es + [Release(1)];
    RunAppend(Fresh(2), es, Seek);
    es := es + [Seek];
    forall f: Id ensures !Passes(MAX_ID, f, 1) {
      PassesNothing(0, f);
    }
    RunAppend(Fresh(2), es, Acquire(1));
    es := es + [Acquire(1)];
  }
}
