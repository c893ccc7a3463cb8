/** The handshakes of the sending half told on the events of a run: which packets from
    the peer and which steps of the writer a publish goes through, and in which order
    (connection/writer.go, connection/connection.go; section 4.3 of MQTT 5.0). */
module Handshake {
  import opened Wrappers
  import opened FlowControl
  import opened Outbound

  // ------------------------------------------------------------------
  // Runs with all their states

  ghost predicate StepsTo(w: Window, e: Event, v: Window) {
    Enabled(w, e) && Disciplined(w, e) && !Collides(w, e) && v == Step(w, e)
  }

  /** A run free of collisions; `ws[i]` is the state before event `i`. */
  ghost predicate Trace(ws: seq<Window>, es: seq<Event>) {
    |ws| == |es| + 1 && forall i {:trigger es[i]} :: 0 <= i < |es| ==> StepsTo(ws[i], es[i], ws[i + 1])
  }

  /** ... on a fresh connection. */
  ghost predicate FreshTrace(ws: seq<Window>, es: seq<Event>, max: nat) {
    Trace(ws, es) && ws[0] == Fresh(max)
  }

  /** Every run is one. */
  lemma {:induction false} TraceOf(w: Window, es: seq<Event>) returns (ws: seq<Window>)
    requires ValidRun(w, es) && CollisionFree(w, es)
    ensures Trace(ws, es) && ws[0] == w && ws[|es|] == Run(w, es)
    decreases |es|
  {
    if |es| == 0 {
      ws := [w];
    } else {
      var rest := TraceOf(Step(w, es[0]), es[1..]);
      ws := [w] + rest;
      forall i | 0 <= i < |es| ensures StepsTo(ws[i], es[i], ws[i + 1]) {
        if i > 0 {
          assert es[1..][i - 1] == es[i];
        }
      }
    }
  }

  lemma {:induction false} TraceIsRun(ws: seq<Window>, es: seq<Event>, n: nat)
    requires Trace(ws, es) && n <= |es|
    ensures ValidRun(ws[0], es[..n]) && CollisionFree(ws[0], es[..n]) && Run(ws[0], es[..n]) == ws[n]
  {
    if n > 0 {
      TraceIsRun(ws, es, n - 1);
      var e := es[n - 1];
      assert StepsTo(ws[n - 1], e, ws[n]);
      RunSnoc(ws[0], es[..n - 1], e);
      assert es[..n] == es[..n - 1] + [e];
    }
  }

  lemma TraceInv(ws: seq<Window>, es: seq<Event>, max: nat, n: nat)
    requires FreshTrace(ws, es, max) && n <= |es|
    ensures Inv(ws[n], max)
  {
    TraceIsRun(ws, es, n);
    RunKeepsInv(Fresh(max), es[..n], max);
  }

  // ------------------------------------------------------------------
  // Publishes leave the queue in the order in which they were accepted

  /** The QoS of the publishes accepted among the first `n` events, in order. */
  function Accepted(es: seq<Event>, n: nat): seq<bool>
    requires n <= |es|
  {
    if n == 0 then []
    else Accepted(es, n - 1) + (if es[n - 1].Accept? then [es[n - 1].qos2] else [])
  }

  /** The queue is the last publishes accepted, in order. */
  ghost predicate LastAccepted(queued: seq<nat>, count: nat) {
    |queued| <= count && forall i :: 0 <= i < |queued| ==> queued[i] == count - |queued| + i
  }

  lemma QueueStep(w: Window, e: Event)
    requires LastAccepted(w.queued, |w.ledger|) && |w.qos2| == |w.ledger| && Enabled(w, e)
    ensures var v := Step(w, e);
      && LastAccepted(v.queued, |v.ledger|)
      && v.qos2 == w.qos2 + (if e.Accept? then [e.qos2] else []) && |v.qos2| == |v.ledger|
  {
  }

  lemma {:induction false} QueueTold(ws: seq<Window>, es: seq<Event>, max: nat, n: nat)
    requires FreshTrace(ws, es, max) && n <= |es|
    ensures LastAccepted(ws[n].queued, |ws[n].ledger|)
    ensures ws[n].qos2 == Accepted(es, n) && |ws[n].ledger| == |Accepted(es, n)|
  {
    if n > 0 {
      QueueTold(ws, es, max, n - 1);
      assert StepsTo(ws[n - 1], es[n - 1], ws[n]);
      QueueStep(ws[n - 1], es[n - 1]);
    }
  }

  /** First in, first out: the publishes on record are those accepted, in order and with
      their QoS, and none leaves the queue before an earlier one. */
  lemma FirstInFirstOut(ws: seq<Window>, es: seq<Event>, max: nat, n: nat, s: nat, t: nat)
    requires FreshTrace(ws, es, max) && n <= |es| && s < t < |ws[n].ledger|
    ensures ws[n].qos2 == Accepted(es, n) && |ws[n].ledger| == |Accepted(es, n)|
    ensures ws[n].ledger[t] != Queued ==> ws[n].ledger[s] != Queued
  {
    QueueTold(ws, es, max, n);
    TraceInv(ws, es, max, n);
    var w := ws[n];
    if w.ledger[s] == Queued {
      var i :| 0 <= i < |w.queued| && w.queued[i] == s;
      assert w.queued[i + (t - s)] == t;
    }
  }

  // ------------------------------------------------------------------
  // What one event does to a publish

  /** Publish `s` is under way with `id`, which is in use. */
  ghost predicate Holding(w: Window, id: Id, s: nat) {
    s < |w.ledger| && w.ledger[s] == Flying(id) && id in w.inUse
  }

  /** How an event changes the place of publish `s`. */
  function PlaceAfter(w: Window, e: Event, s: nat): Place
    requires s < |w.ledger|
  {
    match e
    case Acquire(id) => if |w.queued| > 0 && w.queued[0] == s then Flying(id) else w.ledger[s]
    case Release(id) => if w.ledger[s] == Flying(id) then Completed else w.ledger[s]
    case Pubrec(id, true) => if w.ledger[s] == Flying(id) then Refused else w.ledger[s]
    case _ => w.ledger[s]
  }

  lemma GiveBackPlace(w: Window, id: Id, place: Place, s: nat)
    requires OwnerInv(w.inUse, w.ledger, w.owner) && s < |w.ledger| && id in w.owner
    ensures GiveBack(w, id, place).ledger[s] == if w.ledger[s] == Flying(id) then place else w.ledger[s]
  {
  }

  lemma PlaceStep(w: Window, e: Event, s: nat)
    requires OwnerInv(w.inUse, w.ledger, w.owner) && s < |w.ledger| && Enabled(w, e)
    requires e.Release? || e.Pubrec? ==> e.id in w.owner && e.id in w.pubOut
    ensures s < |Step(w, e).ledger| && Step(w, e).ledger[s] == PlaceAfter(w, e, s)
  {
    if e.Release? {
      GiveBackPlace(w, e.id, Completed, s);
    } else if e.Pubrec? {
      GiveBackPlace(Forget(w, e.id), e.id, Refused, s);
    }
  }

  /** How an event changes the phase of a handshake that goes on. */
  function PhaseAfter(w: Window, e: Event, id: Id): Phase
    requires id in w.phase
  {
    match e
    case Store(_) => if w.hand.Holds? && w.hand.id == id then Sent else w.phase[id]
    case Pubrec(q, false) => if q == id then RelBuilt else w.phase[id]
    case Answer(fits) =>
      if w.reader == Answering(id) then (if fits then RelQueued else RelDropped) else w.phase[id]
    case TransmitRel => if |w.relQueue| > 0 && w.relQueue[0] == id then RelSent else w.phase[id]
    case _ => w.phase[id]
  }

  lemma PhaseStep(w: Window, e: Event, id: Id)
    requires Enabled(w, e) && id in w.phase && id in Step(w, e).phase && (e.Acquire? ==> e.id != id)
    ensures Step(w, e).phase[id] == PhaseAfter(w, e, id)
  {
  }

  // ------------------------------------------------------------------
  // The story of a publish

  /** Event `i` is a successful PUBREC for `id`, and publish `s` has been under way with
      it from then to state `n`. */
  ghost predicate Received(ws: seq<Window>, es: seq<Event>, id: Id, s: nat, i: nat, n: nat)
    requires |ws| == |es| + 1
  {
    && i < n <= |es| && es[i] == Pubrec(id, false)
    && forall m {:trigger ws[m]} :: i <= m <= n ==> Holding(ws[m], id, s)
  }

  /** ... then event `a` sent the PUBREL that answers it, or dropped it, ... */
  ghost predicate Answered(ws: seq<Window>, es: seq<Event>, id: Id, s: nat, i: nat, a: nat, fits: bool, n: nat)
    requires |ws| == |es| + 1
  {
    Received(ws, es, id, s, i, n) && i < a < n && es[a] == Answer(fits) && ws[a].reader == Answering(id)
  }

  /** ... and event `j` transmitted it. */
  ghost predicate Transmitted(ws: seq<Window>, es: seq<Event>, id: Id, s: nat, i: nat, a: nat, j: nat, n: nat)
    requires |ws| == |es| + 1
  {
    && Answered(ws, es, id, s, i, a, true, n)
    && a < j < n && es[j] == TransmitRel && |ws[j].relQueue| > 0 && ws[j].relQueue[0] == id
  }

  /** The publish has come to where it is at state `n` by these events and in this order. */
  ghost predicate Story(ws: seq<Window>, es: seq<Event>, n: nat, s: nat)
    requires |ws| == |es| + 1 && n <= |es| && s < |ws[n].ledger| == |ws[n].qos2|
  {
    match ws[n].ledger[s]
    case Queued => true
    case Flying(id) => id in ws[n].phase && FlyingStory(ws, es, n, s, id)
    case Completed =>
      if ws[n].qos2[s]
      then exists id, i: nat, a: nat, j: nat, k: nat ::
             k < n && es[k] == Release(id) && Transmitted(ws, es, id, s, i, a, j, k)
      else exists id, k: nat :: k < n && es[k] == Release(id) && Holding(ws[k], id, s)
    case Refused => exists id, k: nat :: k < n && es[k] == Pubrec(id, true) && Holding(ws[k], id, s)
  }

  ghost predicate FlyingStory(ws: seq<Window>, es: seq<Event>, n: nat, s: nat, id: Id)
    requires |ws| == |es| + 1 && n <= |es| && id in ws[n].phase
  {
    match ws[n].phase[id]
    case Held => true
    case Sent => true
    case RelBuilt => exists i: nat :: Received(ws, es, id, s, i, n)
    case RelQueued => exists i: nat, a: nat :: Answered(ws, es, id, s, i, a, true, n)
    case RelDropped => exists i: nat, a: nat :: Answered(ws, es, id, s, i, a, false, n)
    case RelSent => exists i: nat, a: nat, j: nat :: Transmitted(ws, es, id, s, i, a, j, n)
  }

  lemma ReceivedGoesOn(ws: seq<Window>, es: seq<Event>, id: Id, s: nat, i: nat, n: nat)
    requires |ws| == |es| + 1 && n < |es| && Received(ws, es, id, s, i, n) && Holding(ws[n + 1], id, s)
    ensures Received(ws, es, id, s, i, n + 1)
  {
  }

  /** What the invariant says of one handshake. */
  ghost predicate Consistent(w: Window, id: Id, s: nat) {
    && id in w.phase && s < |w.qos2|
    && (w.reader == Answering(id) ==> w.phase[id] == RelBuilt)
    && (|w.relQueue| > 0 && w.relQueue[0] == id ==> w.phase[id] == RelQueued)
    && (id in w.pubOut && w.reader == Idle ==> w.phase[id] == RelSent || w.pubOut[id] == Publish(s))
  }

  /** ... and of all of them. */
  ghost predicate Sound(w: Window) {
    && OwnerInv(w.inUse, w.ledger, w.owner) && |w.qos2| == |w.ledger|
    && (w.reader == Idle ==> w.pubOut.Keys <= w.owner.Keys)
    && (|w.queued| > 0 ==> w.queued[0] < |w.ledger| && w.ledger[w.queued[0]] == Queued)
    && (forall s: nat :: s < |w.ledger| && w.ledger[s].Flying? ==> Consistent(w, w.ledger[s].id, s))
  }

  lemma InvConsistent(w: Window, max: nat, s: nat)
    requires Inv(w, max) && s < |w.ledger| && w.ledger[s].Flying?
    ensures Consistent(w, w.ledger[s].id, s)
  {
  }

  lemma InvSound(w: Window, max: nat)
    requires Inv(w, max)
    ensures Sound(w)
  {
    forall s: nat | s < |w.ledger| && w.ledger[s].Flying? ensures Consistent(w, w.ledger[s].id, s) {
      InvConsistent(w, max, s);
    }
  }

  lemma TraceSound(ws: seq<Window>, es: seq<Event>, max: nat, n: nat)
    requires FreshTrace(ws, es, max) && n <= |es|
    ensures Sound(ws[n])
  {
    TraceInv(ws, es, max, n);
    InvSound(ws[n], max);
  }

  lemma FlyingStep(ws: seq<Window>, es: seq<Event>, n: nat, s: nat, id: Id)
    requires |ws| == |es| + 1 && n < |es| && StepsTo(ws[n], es[n], ws[n + 1])
    requires Holding(ws[n], id, s) && Holding(ws[n + 1], id, s) && Consistent(ws[n], id, s) && id in ws[n + 1].phase
    requires FlyingStory(ws, es, n, s, id)
    ensures FlyingStory(ws, es, n + 1, s, id)
  {
    var w, e := ws[n], es[n];
    PhaseStep(w, e, id);
    if e == Pubrec(id, false) {
      assert Received(ws, es, id, s, n, n + 1);
    } else if e.Answer? && w.reader == Answering(id) {
      var i: nat :| Received(ws, es, id, s, i, n);
      ReceivedGoesOn(ws, es, id, s, i, n);
      assert Answered(ws, es, id, s, i, n, e.fits, n + 1);
    } else if e == TransmitRel && w.relQueue[0] == id {
      var i: nat, a: nat :| Answered(ws, es, id, s, i, a, true, n);
      ReceivedGoesOn(ws, es, id, s, i, n);
      assert Transmitted(ws, es, id, s, i, a, n, n + 1);
    } else {
      FlyingGoesOn(ws, es, n, s, id);
    }
  }

  lemma FlyingGoesOn(ws: seq<Window>, es: seq<Event>, n: nat, s: nat, id: Id)
    requires |ws| == |es| + 1 && n < |es| && Holding(ws[n + 1], id, s)
    requires id in ws[n].phase && id in ws[n + 1].phase && FlyingStory(ws, es, n, s, id)
    requires ws[n + 1].phase[id] == ws[n].phase[id] || ws[n + 1].phase[id] == Sent
    ensures FlyingStory(ws, es, n + 1, s, id)
  {
    if ws[n + 1].phase[id] == ws[n].phase[id] {
      match ws[n].phase[id]
      case RelBuilt =>
        var i: nat :| Received(ws, es, id, s, i, n);
        ReceivedGoesOn(ws, es, id, s, i, n);
      case RelQueued =>
        var i: nat, a: nat :| Answered(ws, es, id, s, i, a, true, n);
        ReceivedGoesOn(ws, es, id, s, i, n);
        assert Answered(ws, es, id, s, i, a, true, n + 1);
      case RelDropped =>
        var i: nat, a: nat :| Answered(ws, es, id, s, i, a, false, n);
        ReceivedGoesOn(ws, es, id, s, i, n);
        assert Answered(ws, es, id, s, i, a, false, n + 1);
      case RelSent =>
        var i: nat, a: nat, j: nat :| Transmitted(ws, es, id, s, i, a, j, n);
        ReceivedGoesOn(ws, es, id, s, i, n);
        assert Transmitted(ws, es, id, s, i, a, j, n + 1);
      case _ =>
    }
  }

  /** The place of a publish at the next state, with what the event was. */
  lemma PlaceMoves(w: Window, e: Event, v: Window, s: nat)
    requires Sound(w) && StepsTo(w, e, v) && s < |w.ledger|
    ensures s < |v.ledger| && s < |v.qos2| && v.qos2[s] == w.qos2[s] && v.ledger[s] == PlaceAfter(w, e, s)
  {
    PlaceStep(w, e, s);
  }

  lemma StoryStep(ws: seq<Window>, es: seq<Event>, n: nat, s: nat)
    requires |ws| == |es| + 1 && n < |es| && Sound(ws[n]) && Sound(ws[n + 1])
    requires StepsTo(ws[n], es[n], ws[n + 1]) && s < |ws[n].ledger| && Story(ws, es, n, s)
    ensures s < |ws[n + 1].ledger| && Story(ws, es, n + 1, s)
  {
    var w, e, v := ws[n], es[n], ws[n + 1];
    PlaceMoves(w, e, v, s);
    match v.ledger[s]
    case Queued =>
    case Flying(id) =>
      if w.ledger[s] == Flying(id) {
        FlyingStep(ws, es, n, s, id);
      } else {
        assert v.phase[id] == Held;
      }
    case Completed =>
      if w.ledger[s] != Completed {
        CompletedStep(ws, es, n, s);
      }
    case Refused =>
      if w.ledger[s] != Refused {
        assert es[n] == Pubrec(e.id, true) && Holding(ws[n], e.id, s);
      }
  }

  lemma CompletedStep(ws: seq<Window>, es: seq<Event>, n: nat, s: nat)
    requires |ws| == |es| + 1 && n < |es| && StepsTo(ws[n], es[n], ws[n + 1]) && es[n].Release?
    requires Holding(ws[n], es[n].id, s) && Consistent(ws[n], es[n].id, s) && FlyingStory(ws, es, n, s, es[n].id)
    requires s < |ws[n + 1].ledger| == |ws[n + 1].qos2| && ws[n + 1].ledger[s] == Completed
    requires ws[n + 1].qos2[s] == ws[n].qos2[s]
    ensures Story(ws, es, n + 1, s)
  {
    var id := es[n].id;
    if ws[n].qos2[s] {
      assert ws[n].phase[id] == RelSent;
      var i: nat, a: nat, j: nat :| Transmitted(ws, es, id, s, i, a, j, n);
      assert es[n] == Release(id) && Transmitted(ws, es, id, s, i, a, j, n);
    } else {
      assert es[n] == Release(id) && Holding(ws[n], id, s);
    }
  }

  /** Over every run: a QoS 2 publish is completed only by a successful PUBREC, then the
      answer that queues its PUBREL, then the transmission of that PUBREL, then the
      acknowledgement of it, in this order, and all the while it is under way with its
      identifier in use; a QoS 1 publish by an acknowledgement; and a publish is refused
      only by a failing PUBREC. */
  lemma {:induction false} HandshakeTold(ws: seq<Window>, es: seq<Event>, max: nat, n: nat, s: nat)
    requires FreshTrace(ws, es, max) && n <= |es| && s < |ws[n].ledger|
    ensures |ws[n].ledger| == |ws[n].qos2| && Story(ws, es, n, s)
    decreases n
  {
    TraceSound(ws, es, max, n);
    if n > 0 {
      var w, e, v := ws[n - 1], es[n - 1], ws[n];
      assert StepsTo(w, e, v);
      TraceSound(ws, es, max, n - 1);
      if s < |w.ledger| {
        HandshakeTold(ws, es, max, n - 1, s);
        StoryStep(ws, es, n - 1, s);
      } else {
        assert v.ledger[s] == Queued;
      }
    }
  }

  /** ... and each of these events does it: at every event of every run, a publish becomes
      refused if and only if the event is a failing PUBREC for it, completed if and only
      if it is the acknowledgement of it, and then gives its quota back; otherwise it
      stays under way with its identifier in use. */
  lemma OutcomeExactly(ws: seq<Window>, es: seq<Event>, max: nat, n: nat, s: nat, id: Id)
    requires FreshTrace(ws, es, max) && n < |es| && s < |ws[n].ledger| && ws[n].ledger[s] == Flying(id)
    ensures var e, v := es[n], ws[n + 1];
      && s < |v.ledger|
      && (v.ledger[s] == Refused <==> e == Pubrec(id, true))
      && (v.ledger[s] == Completed <==> e == Release(id))
      && (v.ledger[s] == Flying(id) <==> id in v.inUse)
      && (v.ledger[s] != Flying(id) ==> v.quota == ws[n].quota + 1)
  {
    TraceSound(ws, es, max, n);
    var w, e, v := ws[n], es[n], ws[n + 1];
    assert StepsTo(w, e, v);
    PlaceMoves(w, e, v, s);
    OutcomeUse(w, e, v, s, id);
  }

  lemma OutcomeUse(w: Window, e: Event, v: Window, s: nat, id: Id)
    requires Sound(w) && StepsTo(w, e, v) && s < |w.ledger| && w.ledger[s] == Flying(id)
    ensures (e == Pubrec(id, true) || e == Release(id)) <==> id !in v.inUse
    ensures e == Pubrec(id, true) || e == Release(id) ==> v.quota == w.quota + 1
  {
    assert id in w.inUse;
  }

  /** What is completed or refused stays so. */
  lemma OutcomeIsFinal(ws: seq<Window>, es: seq<Event>, max: nat, n: nat, s: nat)
    requires FreshTrace(ws, es, max) && n < |es| && s < |ws[n].ledger|
    requires ws[n].ledger[s] == Completed || ws[n].ledger[s] == Refused
    ensures s < |ws[n + 1].ledger| && ws[n + 1].ledger[s] == ws[n].ledger[s]
  {
    TraceSound(ws, es, max, n);
    var w, e, v := ws[n], es[n], ws[n + 1];
    assert StepsTo(w, e, v);
    PlaceMoves(w, e, v, s);
  }
}
