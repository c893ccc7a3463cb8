/** The wake-up protocol of the transmit engine (connection/writer.go).

    Any number of goroutines share one writer: senders that queue a packet and
    call `run`, acknowledgement handlers that give quota back, and the transmit
    routines that `run` spawns.  Every shared access (a queue operation under
    its lock, an atomic load, store, add or compare-and-swap, a wait-group
    operation, a look at the quit channel) is one atomic step of one actor, and
    actors interleave without restriction.

    Queues are represented by their lengths: their order is the subject of
    module RingQueue and does not influence who gets woken up.
 */
module WriterProtocol {
  import opened Wrappers

  /** The four queues. */
  datatype Kind = Pubrel | Generic | QoS0 | QoS12

  /** Who is executing `run`: a sender or releaser, or a routine on its way out. */
  datatype Caller = Outside | Leaving

  /** The next atomic step of an actor.  `got` is whether the current round of
      `popPackets` has taken a packet yet. */
  datatype Pc =
    // sendGeneric, sendQoS0, sendQoS12, sendPubrel
    | SendAdd(kind: Kind)
    // releaseID: AddInt32 on the quota, then signalTxQuotaAvailable
    | QuotaAdd
    | QuotaSignal
    // run
    | RunAlive(caller: Caller)
    | RunCas(caller: Caller)
    // routine, entry
    | SyncWait
    | EntryAlive
    | SyncAdd
    // routine, one round of popPackets
    | PopAlive
    | PopPubrel
    | PopPeek(got: bool)
    | PopQuota(got: bool)
    | PopAcquire(got: bool)
    | PopRemove(got: bool)
    | PopGeneric(got: bool)
    | PopQoS0(got: bool)
    | Write
    // routine, the deferred function
    | ClearRunning(failing: bool)
    | Flush
    | SeePubrel
    | SeeGeneric
    | SeeQoS0
    | SeeQuota
    | SeeQoS12
    | SyncDone
    | Finished

  /** What the actors share.  `inside` is the wait-group counter `wgRunSync`;
      `failed` records that a write failed, `overdrawn` that `acquire` returned
      its error.  `owed` is a history variable: the kind of packet a leaving
      routine saw and that no routine has answered by taking a packet. */
  datatype Shared = Shared(
    running: bool,
    alive: bool,
    failed: bool,
    overdrawn: bool,
    inside: nat,
    pubrel: nat,
    generic: nat,
    qos0: nat,
    qos12: nat,
    quota: nat,
    owed: Option<Kind>)

  function Count(sh: Shared, k: Kind): nat {
    match k
    case Pubrel => sh.pubrel
    case Generic => sh.generic
    case QoS0 => sh.qos0
    case QoS12 => sh.qos12
  }

  function Put(sh: Shared, k: Kind): Shared {
    match k
    case Pubrel => sh.(pubrel := sh.pubrel + 1)
    case Generic => sh.(generic := sh.generic + 1)
    case QoS0 => sh.(qos0 := sh.qos0 + 1)
    case QoS12 => sh.(qos12 := sh.qos12 + 1)
  }

  /** Queue.Remove, which returns nil on an empty queue. */
  function Take(sh: Shared, k: Kind): Shared {
    if Count(sh, k) == 0 then sh else
      match k
      case Pubrel => sh.(pubrel := sh.pubrel - 1, owed := None)
      case Generic => sh.(generic := sh.generic - 1, owed := None)
      case QoS0 => sh.(qos0 := sh.qos0 - 1, owed := None)
      case QoS12 => sh.(qos12 := sh.qos12 - 1, owed := None)
  }

  /** The effect of one atomic step: the shared state, the actor's next step,
      and whether `go s.routine()` was executed. */
  datatype Outcome = Outcome(sh: Shared, pc: Pc, spawned: bool)

  function Goto(sh: Shared, pc: Pc): Outcome { Outcome(sh, pc, false) }

  /** After `run` returns: a sender is done, a routine goes on leaving. */
  function AfterRun(c: Caller): Pc {
    match c
    case Outside => Finished
    case Leaving => SyncDone
  }

  /** A leaving routine found a packet of kind `k`: it will call `run`. */
  function Saw(sh: Shared, k: Kind): Outcome {
    Goto(sh.(owed := if sh.alive then Some(k) else None), RunAlive(Leaving))
  }

  function Step(sh: Shared, pc: Pc, writeFails: bool): Outcome {
    match pc
    case SendAdd(k) => Goto(Put(sh, k), RunAlive(Outside))
    case QuotaAdd => Goto(sh.(quota := sh.quota + 1), if sh.quota + 1 == 1 then QuotaSignal else Finished)
    case QuotaSignal => Goto(sh, if sh.qos12 > 0 then RunAlive(Outside) else Finished)
    case RunAlive(c) => Goto(sh, if sh.alive then RunCas(c) else AfterRun(c))
    case RunCas(c) => Outcome(sh.(running := true), AfterRun(c), !sh.running)
    case SyncWait => Goto(sh, EntryAlive)
    case EntryAlive => Goto(sh, if sh.alive then SyncAdd else Finished)
    case SyncAdd => Goto(sh.(inside := sh.inside + 1), PopAlive)
    case PopAlive => Goto(sh, if sh.alive then PopPubrel else ClearRunning(false))
    case PopPubrel => Goto(Take(sh, Pubrel), PopPeek(sh.pubrel > 0))
    case PopPeek(got) => Goto(sh, if sh.qos12 > 0 then PopQuota(got) else PopGeneric(got))
    case PopQuota(got) => Goto(sh, if sh.quota > 0 then PopAcquire(got) else PopGeneric(got))
    case PopAcquire(got) =>
      if sh.quota == 0 then Goto(sh.(overdrawn := true), PopRemove(got))
      else Goto(sh.(quota := sh.quota - 1), PopRemove(got))
    case PopRemove(got) => Goto(Take(sh, QoS12), PopGeneric(true))
    case PopGeneric(got) => Goto(Take(sh, Generic), PopQoS0(got || sh.generic > 0))
    case PopQoS0(got) => Goto(Take(sh, QoS0), if got || sh.qos0 > 0 then Write else ClearRunning(false))
    case Write =>
      if writeFails then Goto(sh.(failed := true), ClearRunning(true)) else Goto(sh, PopAlive)
    case ClearRunning(failing) => Goto(sh.(running := false), if failing then SyncDone else Flush)
    case Flush => Goto(sh, SeePubrel)
    case SeePubrel => if sh.pubrel > 0 then Saw(sh, Pubrel) else Goto(sh, SeeGeneric)
    case SeeGeneric => if sh.generic > 0 then Saw(sh, Generic) else Goto(sh, SeeQoS0)
    case SeeQoS0 => if sh.qos0 > 0 then Saw(sh, QoS0) else Goto(sh, SeeQuota)
    case SeeQuota => Goto(sh, if sh.quota > 0 then SeeQoS12 else SyncDone)
    case SeeQoS12 => if sh.qos12 > 0 then Saw(sh, QoS12) else Goto(sh, SyncDone)
    case SyncDone => Goto(sh.(inside := if sh.inside == 0 then 0 else sh.inside - 1), Finished)
    case Finished => Goto(sh, Finished)
  }

  // ------------------------------------------------------------------
  // Regions of the routine's code

  /** Where a routine is: created but not past `wgRunSync.Add`, in its loop up
      to clearing `running`, or in the rest of the deferred function. */
  datatype Region = Away | Waiting | Looping | Departing

  function RegionOf(pc: Pc): Region {
    match pc
    case SendAdd(_) => Away
    case QuotaAdd => Away
    case QuotaSignal => Away
    case RunAlive(c) => if c == Leaving then Departing else Away
    case RunCas(c) => if c == Leaving then Departing else Away
    case SyncWait => Waiting
    case EntryAlive => Waiting
    case SyncAdd => Waiting
    case Flush => Departing
    case SeePubrel => Departing
    case SeeGeneric => Departing
    case SeeQoS0 => Departing
    case SeeQuota => Departing
    case SeeQoS12 => Departing
    case SyncDone => Departing
    case Finished => Away
    case _ => Looping
  }

  /** Between winning the compare-and-swap and clearing `running`. */
  predicate Holds(r: Region) { r == Waiting || r == Looping }

  /** Between `wgRunSync.Add` and `wgRunSync.Done`. */
  predicate Inside(pc: Pc) { RegionOf(pc) == Looping || RegionOf(pc) == Departing }

  // ------------------------------------------------------------------
  // The whole system

  /** All actors ever created, with two history variables: `token` is the
      routine that set `running` and has not cleared it, `leaving` the routine
      between clearing `running` and `wgRunSync.Done`. */
  datatype System = System(sh: Shared, actors: seq<Pc>, token: Option<nat>, leaving: Option<nat>)

  datatype Event =
    | Act(actor: nat, writeFails: bool)
    | NewSender(kind: Kind)
    | NewReleaser
    | Stop

  /** newWriter, with any negotiated quota. */
  function Init(quota: nat): System {
    System(Shared(false, true, false, false, 0, 0, 0, 0, 0, quota, None), [], None, None)
  }

  predicate Enabled(s: System, e: Event) {
    match e
    case Act(a, _) =>
      a < |s.actors| && s.actors[a] != Finished && (s.actors[a] == SyncWait ==> s.sh.inside == 0)
    case NewSender(_) => true
    case NewReleaser => true
    case Stop => s.sh.alive
  }

  function Advance(s: System, a: nat, o: Outcome): System
    requires a < |s.actors|
  {
    var was, now := RegionOf(s.actors[a]), RegionOf(o.pc);
    System(
      o.sh,
      s.actors[a := o.pc] + (if o.spawned then [SyncWait] else []),
      if o.spawned then Some(|s.actors|) else if Holds(was) && !Holds(now) then None else s.token,
      if now == Departing then Some(a) else if was == Departing then None else s.leaving)
  }

  function Apply(s: System, e: Event): System
    requires Enabled(s, e)
  {
    match e
    case Act(a, writeFails) => Advance(s, a, Step(s.sh, s.actors[a], writeFails))
    case NewSender(k) => s.(actors := s.actors + [SendAdd(k)])
    case NewReleaser => s.(actors := s.actors + [QuotaAdd])
    case Stop => s.(sh := s.sh.(alive := false, owed := None))
  }

  predicate ValidRun(s: System, es: seq<Event>)
    decreases |es|
  {
    |es| == 0 || (Enabled(s, es[0]) && ValidRun(Apply(s, es[0]), es[1..]))
  }

  /** The state reached by executing `es` from `s`. */
  function Run(s: System, es: seq<Event>): System
    requires ValidRun(s, es)
    decreases |es|
  {
    if |es| == 0 then s else Run(Apply(s, es[0]), es[1..])
  }

  // ------------------------------------------------------------------
  // The invariant

  /** `token` and `leaving` name the only routines in their regions. */
  ghost predicate TokenInv(s: System) {
    && (s.token.Some? ==> s.token.value < |s.actors|)
    && (s.leaving.Some? ==> s.leaving.value < |s.actors|)
    && (forall i :: 0 <= i < |s.actors| ==> (Holds(RegionOf(s.actors[i])) <==> s.token == Some(i)))
    && (forall i :: 0 <= i < |s.actors| ==> (RegionOf(s.actors[i]) == Departing <==> s.leaving == Some(i)))
  }

  /** The code the token holder and the leaving routine are executing. */
  ghost function TokenPc(s: System): Option<Pc>
    requires TokenInv(s)
  {
    if s.token.Some? then Some(s.actors[s.token.value]) else None
  }

  ghost function LeavingPc(s: System): Option<Pc>
    requires TokenInv(s)
  {
    if s.leaving.Some? then Some(s.actors[s.leaving.value]) else None
  }

  ghost predicate SyncInv(sh: Shared, holder: Option<Pc>, leaver: Option<Pc>) {
    && (holder.Some? ==> sh.running && Holds(RegionOf(holder.value)))
    && (leaver.Some? ==> RegionOf(leaver.value) == Departing)
    && (sh.alive && sh.running ==> holder.Some?)
    && (holder.Some? && leaver.Some? ==> holder.value == SyncWait)
    && (holder == Some(ClearRunning(true)) ==> sh.failed)
    && sh.inside == (if leaver.Some? || (holder.Some? && Inside(holder.value)) then 1 else 0)
  }

  /** What a routine has just read about the QoS 1/2 queue and the quota is still true. */
  ghost predicate ReadsInv(sh: Shared, holder: Option<Pc>, leaver: Option<Pc>) {
    && !sh.overdrawn
    && (holder.Some? ==>
          && (holder.value.PopQuota? || holder.value.PopAcquire? || holder.value.PopRemove? ==> sh.qos12 > 0)
          && (holder.value.PopAcquire? ==> sh.quota > 0))
    && (leaver.Some? && leaver.value.SeeQoS12? ==> sh.quota > 0)
  }

  /** The routine will still look at queue `k` before its first empty-handed round ends. */
  predicate NotPast(pc: Pc, k: Kind) {
    match pc
    case SyncWait => true
    case EntryAlive => true
    case SyncAdd => true
    case PopAlive => true
    case PopPubrel => true
    case PopPeek(got) => !got && k != Pubrel
    case PopQuota(got) => !got && k != Pubrel
    case PopAcquire(got) => !got && k != Pubrel
    case PopRemove(got) => !got && k != Pubrel
    case PopGeneric(got) => !got && (k == Generic || k == QoS0)
    case PopQoS0(got) => !got && k == QoS0
    case _ => false
  }

  predicate Decided(pc: Pc) {
    pc == RunAlive(Leaving) || pc == RunCas(Leaving)
  }

  /** A packet that made a routine start another one is still there, and that
      other routine has not passed it by. */
  ghost predicate OwedInv(sh: Shared, holder: Option<Pc>, leaver: Option<Pc>) {
    && (sh.owed.Some? ==>
          var k := sh.owed.value;
          && sh.alive
          && Count(sh, k) > 0
          && (k == QoS12 ==> sh.quota > 0 || (holder.Some? && holder.value.PopRemove?))
          && ((leaver.Some? && Decided(leaver.value)) || (holder.Some? && NotPast(holder.value, k))))
    && (sh.owed.Some? && leaver.Some? ==> Decided(leaver.value) || leaver.value == SyncDone)
  }

  /** A packet of kind `k` could be transmitted now. */
  predicate Sendable(sh: Shared, k: Kind) {
    Count(sh, k) > 0 && (k == QoS12 ==> sh.quota > 0)
  }

  /** The actor's code will reach `run` if a packet of kind `k` is still there. */
  predicate Commits(pc: Pc, k: Kind) {
    match pc
    case RunAlive(_) => true
    case RunCas(_) => true
    case QuotaSignal => k == QoS12
    case Flush => true
    case SeePubrel => true
    case SeeGeneric => k != Pubrel
    case SeeQoS0 => k == QoS0 || k == QoS12
    case SeeQuota => k == QoS12
    case SeeQoS12 => k == QoS12
    case _ => false
  }

  ghost predicate Committed(s: System, k: Kind) {
    exists i :: 0 <= i < |s.actors| && Commits(s.actors[i], k)
  }

  ghost predicate WakeInv(s: System, k: Kind) {
    s.sh.alive && !s.sh.failed && Sendable(s.sh, k) ==> s.sh.running || Committed(s, k)
  }

  ghost predicate ControlInv(sh: Shared, holder: Option<Pc>, leaver: Option<Pc>) {
    SyncInv(sh, holder, leaver) && ReadsInv(sh, holder, leaver) && OwedInv(sh, holder, leaver)
  }

  ghost predicate Inv(s: System) {
    && TokenInv(s) && ControlInv(s.sh, TokenPc(s), LeavingPc(s))
    && forall k :: WakeInv(s, k)
  }

  // ------------------------------------------------------------------
  // Every step keeps the invariant

  /** How one step of one actor moves between the regions. */
  lemma StepRegions(sh: Shared, pc: Pc, writeFails: bool)
    ensures var o := Step(sh, pc, writeFails);
      && (Holds(RegionOf(o.pc)) ==> Holds(RegionOf(pc)))
      && (RegionOf(o.pc) == Departing ==> RegionOf(pc) == Departing || RegionOf(pc) == Looping)
      && (o.spawned ==> !sh.running && !Holds(RegionOf(pc)))
  {
  }

  lemma TokenStep(s: System, a: nat, o: Outcome)
    requires TokenInv(s) && a < |s.actors|
    requires Holds(RegionOf(o.pc)) ==> Holds(RegionOf(s.actors[a]))
    requires RegionOf(o.pc) == Departing && RegionOf(s.actors[a]) != Departing ==> s.leaving == None
    requires o.spawned ==> s.token == None
    ensures TokenInv(Advance(s, a, o))
  {
  }

  /** A step of an actor that is neither routine. */
  lemma OutsiderStep(sh: Shared, pc: Pc, writeFails: bool, holder: Option<Pc>, leaver: Option<Pc>)
    requires ControlInv(sh, holder, leaver) && RegionOf(pc) == Away
    ensures var o := Step(sh, pc, writeFails);
      ControlInv(o.sh, if o.spawned then Some(SyncWait) else holder, leaver)
  {
  }

  /** A leaving routine that found a packet. */
  lemma SawStep(sh: Shared, k: Kind, holder: Option<Pc>, leaver: Option<Pc>)
    requires leaver.Some? && ControlInv(sh, holder, leaver) && Sendable(sh, k) && !Decided(leaver.value)
    requires leaver.value != SyncDone
    ensures ControlInv(Saw(sh, k).sh, holder, Some(RunAlive(Leaving)))
  {
  }

  /** A leaving routine that did not. */
  lemma LookStep(sh: Shared, pc: Pc, holder: Option<Pc>, leaver: Option<Pc>)
    requires leaver.Some? && ControlInv(sh, holder, leaver) && !Decided(leaver.value)
    requires leaver.value != SyncDone && RegionOf(pc) == Departing && !Decided(pc)
    requires pc.SeeQoS12? ==> sh.quota > 0
    ensures ControlInv(sh, holder, Some(pc))
  {
  }

  /** The leaving routine inside `run`, and its last step. */
  lemma DecidedStep(sh: Shared, writeFails: bool, holder: Option<Pc>, leaver: Option<Pc>)
    requires leaver.Some? && ControlInv(sh, holder, leaver)
    requires Decided(leaver.value) || leaver.value == SyncDone
    ensures var o := Step(sh, leaver.value, writeFails);
      ControlInv(o.sh, if o.spawned then Some(SyncWait) else holder,
                 if RegionOf(o.pc) == Departing then Some(o.pc) else None)
  {
  }

  /** A step of the leaving routine. */
  lemma LeaverStep(sh: Shared, writeFails: bool, holder: Option<Pc>, leaver: Option<Pc>)
    requires leaver.Some? && ControlInv(sh, holder, leaver)
    ensures var o := Step(sh, leaver.value, writeFails);
      ControlInv(o.sh, if o.spawned then Some(SyncWait) else holder,
                 if RegionOf(o.pc) == Departing then Some(o.pc) else None)
  {
    var o := Step(sh, leaver.value, writeFails);
    if Decided(leaver.value) || leaver.value == SyncDone {
      DecidedStep(sh, writeFails, holder, leaver);
    } else if Decided(o.pc) {
      var k := match leaver.value
        case SeePubrel => Pubrel case SeeGeneric => Generic case SeeQoS0 => QoS0 case _ => QoS12;
      SawStep(sh, k, holder, leaver);
    } else {
      LookStep(sh, o.pc, holder, leaver);
    }
  }

  /** A step of the routine that holds `running`. */
  lemma HolderStep(sh: Shared, writeFails: bool, holder: Option<Pc>, leaver: Option<Pc>)
    requires holder.Some? && ControlInv(sh, holder, leaver)
    requires holder.value == SyncWait ==> sh.inside == 0
    ensures var o := Step(sh, holder.value, writeFails);
      ControlInv(o.sh, if Holds(RegionOf(o.pc)) then Some(o.pc) else None,
                 if RegionOf(o.pc) == Departing then Some(o.pc) else leaver)
  {
  }

  /** Nobody's reason to wake the writer gets lost when actor `a` steps. */
  lemma WakeLocal(sh: Shared, pc: Pc, writeFails: bool, k: Kind)
    requires pc == ClearRunning(true) ==> sh.failed
    ensures var o := Step(sh, pc, writeFails);
      o.sh.alive && !o.sh.failed && Sendable(o.sh, k) && !o.sh.running ==>
        && !sh.failed && sh.alive
        && (Commits(o.pc, k) || (Sendable(sh, k) && !sh.running && !Commits(pc, k)))
  {
  }

  lemma WakeStep(s: System, a: nat, writeFails: bool, k: Kind)
    requires Enabled(s, Act(a, writeFails)) && WakeInv(s, k)
    requires s.actors[a] == ClearRunning(true) ==> s.sh.failed
    ensures WakeInv(Advance(s, a, Step(s.sh, s.actors[a], writeFails)), k)
  {
    WakeLocal(s.sh, s.actors[a], writeFails, k);
    var o := Step(s.sh, s.actors[a], writeFails);
    WakeFrame(s, a, o, k);
  }

  lemma WakeFrame(s: System, a: nat, o: Outcome, k: Kind)
    requires a < |s.actors| && WakeInv(s, k)
    requires o.sh.alive && !o.sh.failed && Sendable(o.sh, k) && !o.sh.running ==>
        && !s.sh.failed && s.sh.alive
        && (Commits(o.pc, k) || (Sendable(s.sh, k) && !s.sh.running && !Commits(s.actors[a], k)))
    ensures WakeInv(Advance(s, a, o), k)
  {
    var t := Advance(s, a, o);
    if t.sh.alive && !t.sh.failed && Sendable(t.sh, k) && !t.sh.running {
      if Commits(o.pc, k) {
        assert Commits(t.actors[a], k);
      } else {
        var i :| 0 <= i < |s.actors| && Commits(s.actors[i], k);
        assert t.actors[i] == s.actors[i];
      }
    }
  }

  /** An actor's step keeps the invariant on the two routines. */
  lemma ControlStep(s: System, a: nat, writeFails: bool)
    requires Inv(s) && Enabled(s, Act(a, writeFails))
    ensures var t := Advance(s, a, Step(s.sh, s.actors[a], writeFails));
      TokenInv(t) && ControlInv(t.sh, TokenPc(t), LeavingPc(t))
  {
    var pc := s.actors[a];
    var o := Step(s.sh, pc, writeFails);
    StepRegions(s.sh, pc, writeFails);
    TokenStep(s, a, o);
    match RegionOf(pc)
    case Away => OutsiderStep(s.sh, pc, writeFails, TokenPc(s), LeavingPc(s));
    case Departing => LeaverStep(s.sh, writeFails, TokenPc(s), LeavingPc(s));
    case _ => HolderStep(s.sh, writeFails, TokenPc(s), LeavingPc(s));
  }

  /** An actor's step keeps the invariant. */
  lemma ActStep(s: System, a: nat, writeFails: bool)
    requires Inv(s) && Enabled(s, Act(a, writeFails))
    ensures Inv(Advance(s, a, Step(s.sh, s.actors[a], writeFails)))
  {
    ControlStep(s, a, writeFails);
    forall k ensures WakeInv(Advance(s, a, Step(s.sh, s.actors[a], writeFails)), k) {
      WakeStep(s, a, writeFails, k);
    }
  }

  /** The environment's steps keep the invariant. */
  lemma ArrivalStep(s: System, e: Event)
    requires Inv(s) && Enabled(s, e) && !e.Act?
    ensures Inv(Apply(s, e))
  {
    var t := Apply(s, e);
    assert forall i :: 0 <= i < |s.actors| ==> t.actors[i] == s.actors[i];
    forall k ensures WakeInv(t, k) {
      assert WakeInv(s, k);
    }
  }

  lemma {:induction false} RunKeepsInv(s: System, es: seq<Event>)
    requires Inv(s) && ValidRun(s, es)
    ensures Inv(Run(s, es))
    decreases |es|
  {
    if |es| > 0 {
      if es[0].Act? {
        ActStep(s, es[0].actor, es[0].writeFails);
      } else {
        ArrivalStep(s, es[0]);
      }
      RunKeepsInv(Apply(s, es[0]), es[1..]);
    }
  }

  lemma InitInv(quota: nat)
    ensures Inv(Init(quota))
  {
  }

  // ------------------------------------------------------------------
  // Safety over whole runs

  /** No lost wake-up: in every state of every interleaving, a packet that could
      be transmitted has a routine working or an actor bound to start one. */
  lemma NoLostWakeup(quota: nat, es: seq<Event>, k: Kind)
    requires ValidRun(Init(quota), es)
    ensures var s := Run(Init(quota), es);
      s.sh.alive && !s.sh.failed && Sendable(s.sh, k) ==> s.sh.running || Committed(s, k)
  {
    InitInv(quota);
    RunKeepsInv(Init(quota), es);
    assert WakeInv(Run(Init(quota), es), k);
  }

  /** Single flight: at most one routine is between `wgRunSync.Add` and `Done`,
      at most one more is waiting to get there, and `acquire`, whose error
      `qos12PopPacket` throws away, has never returned one. */
  lemma SingleFlight(quota: nat, es: seq<Event>)
    requires ValidRun(Init(quota), es)
    ensures var s := Run(Init(quota), es);
      && (forall i, j :: 0 <= i < |s.actors| && 0 <= j < |s.actors| && Inside(s.actors[i]) && Inside(s.actors[j])
                         ==> i == j)
      && (forall i, j :: 0 <= i < |s.actors| && 0 <= j < |s.actors|
                         && RegionOf(s.actors[i]) == Waiting && RegionOf(s.actors[j]) == Waiting
                         ==> i == j)
      && !s.sh.overdrawn
  {
    InitInv(quota);
    RunKeepsInv(Init(quota), es);
  }

  // ------------------------------------------------------------------
  // Every run ends, and ends drained

  const UNIT := 32

  function Weight(pc: Pc, alive: bool): nat {
    match pc
    case SendAdd(_) => 2 * UNIT + 23
    case QuotaAdd => 24
    case QuotaSignal => 23
    case RunAlive(c) => if c == Outside then 22 else if alive then 23 else 2
    case RunCas(c) => if c == Leaving then 22 else 21
    case SyncWait => 20
    case EntryAlive => 19
    case SyncAdd => 18
    case PopPeek(true) => 24
    case PopQuota(true) => 23
    case PopAcquire(true) => 22
    case PopRemove(true) => 21
    case PopGeneric(true) => 20
    case PopQoS0(true) => 19
    case Write => 18
    case PopAlive => 17
    case PopPubrel => 16
    case PopPeek(false) => 15
    case PopQuota(false) => 14
    case PopAcquire(false) => 13
    case PopRemove(false) => 12
    case PopGeneric(false) => 11
    case PopQoS0(false) => 10
    case ClearRunning(_) => 9
    case Flush => 8
    case SeePubrel => 7
    case SeeGeneric => 6
    case SeeQoS0 => 5
    case SeeQuota => 4
    case SeeQoS12 => 3
    case SyncDone => 1
    case Finished => 0
  }

  /** Twice the packets queued, less one while a routine owes taking one. */
  function Load(sh: Shared): int {
    2 * (sh.pubrel + sh.generic + sh.qos0 + sh.qos12) - (if sh.owed.Some? then 1 else 0)
  }

  function TotalWeight(actors: seq<Pc>, alive: bool): nat {
    if |actors| == 0 then 0
    else TotalWeight(actors[..|actors| - 1], alive) + Weight(actors[|actors| - 1], alive)
  }

  function Rank(s: System): int {
    UNIT * Load(s.sh) + TotalWeight(s.actors, s.sh.alive)
  }

  lemma {:induction false} TotalWeightUpdate(actors: seq<Pc>, a: nat, pc: Pc, alive: bool)
    requires a < |actors|
    ensures TotalWeight(actors[a := pc], alive)
         == TotalWeight(actors, alive) - Weight(actors[a], alive) + Weight(pc, alive)
  {
    var n := |actors| - 1;
    if a == n {
      assert actors[a := pc][..n] == actors[..n];
    } else {
      assert actors[a := pc][..n] == actors[..n][a := pc];
      TotalWeightUpdate(actors[..n], a, pc, alive);
    }
  }

  lemma TotalWeightAppend(actors: seq<Pc>, pc: Pc, alive: bool)
    ensures TotalWeight(actors + [pc], alive) == TotalWeight(actors, alive) + Weight(pc, alive)
  {
    assert (actors + [pc])[..|actors|] == actors;
  }

  /** The load falls enough, or the actor's own weight does, to pay for what the step starts. */
  ghost predicate Pays(sh: Shared, pc: Pc, o: Outcome) {
    && o.sh.alive == sh.alive
    && UNIT * Load(o.sh) + Weight(o.pc, sh.alive) + (if o.spawned then Weight(SyncWait, sh.alive) else 0)
       < UNIT * Load(sh) + Weight(pc, sh.alive)
  }

  lemma AwayPays(sh: Shared, pc: Pc, writeFails: bool)
    requires RegionOf(pc) == Away && pc != Finished
    ensures Pays(sh, pc, Step(sh, pc, writeFails))
  {
  }

  lemma DepartingPays(sh: Shared, pc: Pc, writeFails: bool)
    requires RegionOf(pc) == Departing
    requires sh.owed.Some? ==> sh.alive && (Decided(pc) || pc == SyncDone)
    ensures Pays(sh, pc, Step(sh, pc, writeFails))
  {
  }

  predicate Taking(pc: Pc) { pc.PopPubrel? || pc.PopRemove? || pc.PopGeneric? || pc.PopQoS0? }

  lemma TakingPays(sh: Shared, pc: Pc, writeFails: bool)
    requires Taking(pc) && (pc.PopRemove? ==> sh.qos12 > 0)
    ensures Pays(sh, pc, Step(sh, pc, writeFails))
  {
  }

  lemma MovingPays(sh: Shared, pc: Pc, writeFails: bool)
    requires Holds(RegionOf(pc)) && !Taking(pc)
    ensures Pays(sh, pc, Step(sh, pc, writeFails))
  {
    var o := Step(sh, pc, writeFails);
    assert Load(o.sh) == Load(sh) && !o.spawned && o.sh.alive == sh.alive;
    assert Weight(o.pc, sh.alive) < Weight(pc, sh.alive);
  }

  lemma HolderPays(sh: Shared, pc: Pc, writeFails: bool)
    requires Holds(RegionOf(pc)) && (pc.PopRemove? ==> sh.qos12 > 0)
    ensures Pays(sh, pc, Step(sh, pc, writeFails))
  {
    if Taking(pc) {
      TakingPays(sh, pc, writeFails);
    } else {
      MovingPays(sh, pc, writeFails);
    }
  }

  /** Every step of every actor lowers the rank, which is never negative. */
  lemma ActLowersRank(s: System, a: nat, writeFails: bool)
    requires Inv(s) && Enabled(s, Act(a, writeFails))
    ensures 0 <= Rank(Apply(s, Act(a, writeFails))) < Rank(s)
  {
    var pc := s.actors[a];
    var o := Step(s.sh, pc, writeFails);
    assert Pays(s.sh, pc, o) by {
      match RegionOf(pc)
      case Away => AwayPays(s.sh, pc, writeFails);
      case Departing => DepartingPays(s.sh, pc, writeFails);
      case _ => HolderPays(s.sh, pc, writeFails);
    }
    var moved := s.actors[a := o.pc];
    TotalWeightUpdate(s.actors, a, o.pc, s.sh.alive);
    TotalWeightAppend(moved, SyncWait, s.sh.alive);
    var t := Apply(s, Act(a, writeFails));
    assert t.sh == o.sh && t.actors == if o.spawned then moved + [SyncWait] else moved;
    assert Rank(t) < Rank(s);
    ActStep(s, a, writeFails);
    RankNonneg(t);
  }

  lemma RankNonneg(s: System)
    requires Inv(s)
    ensures Rank(s) >= 0
  {
    assert s.sh.owed.Some? ==> Count(s.sh, s.sh.owed.value) > 0;
  }

  /** From a reachable state the actors present can take at most `Rank(s)` steps,
      whatever the schedule: every transmit routine terminates. */
  lemma {:induction false} ActorsTerminate(s: System, es: seq<Event>)
    requires Inv(s) && ValidRun(s, es) && forall e :: e in es ==> e.Act?
    ensures |es| <= Rank(s)
    decreases |es|
  {
    if |es| > 0 {
      var a, w := es[0].actor, es[0].writeFails;
      ActLowersRank(s, a, w);
      ActStep(s, a, w);
      ActorsTerminate(Apply(s, es[0]), es[1..]);
    } else {
      RankNonneg(s);
    }
  }

  /** While an actor is unfinished, some actor can step. */
  lemma NoDeadlock(s: System, i: nat)
    requires Inv(s) && i < |s.actors| && s.actors[i] != Finished
    ensures exists a: nat :: Enabled(s, Act(a, false))
  {
    if s.leaving.Some? {
      assert Enabled(s, Act(s.leaving.value, false));
    } else if s.actors[i] == SyncWait {
      assert s.token == Some(i);
      assert Enabled(s, Act(i, false));
    } else {
      assert Enabled(s, Act(i, false));
    }
  }

  /** A live, error-free writer that has come to rest has nothing left that it
      may transmit: the other queues are empty, and QoS 1/2 packets wait only
      for quota. */
  ghost predicate Drained(s: System) {
    && !s.sh.running && s.sh.inside == 0
    && s.sh.pubrel == s.sh.generic == s.sh.qos0 == 0
    && (s.sh.qos12 == 0 || s.sh.quota == 0)
  }

  ghost predicate AtRest(s: System) {
    forall a: nat :: !Enabled(s, Act(a, false))
  }

  lemma RestMeansDrained(s: System)
    requires Inv(s) && s.sh.alive && !s.sh.failed && AtRest(s)
    ensures Drained(s)
  {
    forall i | 0 <= i < |s.actors| ensures s.actors[i] == Finished {
      if s.actors[i] != Finished {
        NoDeadlock(s, i);
      }
    }
    assert s.token == None;
    assert WakeInv(s, Pubrel) && WakeInv(s, Generic) && WakeInv(s, QoS0) && WakeInv(s, QoS12);
  }

  // ------------------------------------------------------------------
  // Conservation of packets and quota, told on the steps of a run

  /** The steps of a routine that remove a packet of kind `k`, if there is one. */
  predicate Pops(pc: Pc, k: Kind) {
    match k
    case Pubrel => pc.PopPubrel?
    case Generic => pc.PopGeneric?
    case QoS0 => pc.PopQoS0?
    case QoS12 => pc.PopRemove?
  }

  /** Packets of one kind: added by senders and popped by routines, of these in the hands
      of a routine, written to the connection, and lost in a write that failed; and
      quota given back and taken. */
  datatype Tally = Tally(added: nat, popped: nat, held: nat, written: nat, lost: nat, given: nat, taken: nat)

  const ZERO := Tally(0, 0, 0, 0, 0, 0, 0)

  /** What event `e` in state `s` adds to the tally of kind `k`. */
  function Tick(s: System, e: Event, k: Kind, t: Tally): Tally
    requires Enabled(s, e)
  {
    if !e.Act? then t
    else
      var pc := s.actors[e.actor];
      if pc == SendAdd(k) then t.(added := t.added + 1)
      else if Pops(pc, k) && Count(s.sh, k) > 0 then t.(popped := t.popped + 1, held := t.held + 1)
      else if pc == Write && !e.writeFails then t.(written := t.written + t.held, held := 0)
      else if pc == Write then t.(lost := t.lost + t.held, held := 0)
      else if pc == QuotaAdd then t.(given := t.given + 1)
      else if pc.PopAcquire? then t.(taken := t.taken + 1)
      else t
  }

  function TallyFrom(s: System, es: seq<Event>, k: Kind, t: Tally): Tally
    requires ValidRun(s, es)
    decreases |es|
  {
    if |es| == 0 then t else TallyFrom(Apply(s, es[0]), es[1..], k, Tick(s, es[0], k, t))
  }

  /** The tally of a run from the start. */
  function TallyOf(quota: nat, es: seq<Event>, k: Kind): Tally
    requires ValidRun(Init(quota), es)
  {
    TallyFrom(Init(quota), es, k, ZERO)
  }

  /** The round of the routine has taken a packet and not yet written it. */
  predicate Carries(pc: Pc) {
    match pc
    case PopPeek(got) => got
    case PopQuota(got) => got
    case PopAcquire(got) => got
    case PopRemove(got) => got
    case PopGeneric(got) => got
    case PopQoS0(got) => got
    case Write => true
    case _ => false
  }

  /** The queue holds what was added and not popped; what was popped was written, unless a
      write failed, or is in the hands of the routine; the quota is what there was, with
      what was given back and without what was taken. */
  ghost predicate Balanced(s: System, quota: nat, k: Kind, t: Tally) {
    && Count(s.sh, k) + t.popped == t.added
    && s.sh.quota + t.taken == quota + t.given
    && t.popped == t.written + t.held + t.lost && (t.lost > 0 ==> s.sh.failed)
    && (t.held > 0 ==> s.token.Some? && s.token.value < |s.actors| && Carries(s.actors[s.token.value]))
  }

  lemma StepCounts(sh: Shared, pc: Pc, writeFails: bool, k: Kind)
    ensures Count(Step(sh, pc, writeFails).sh, k)
         == Count(sh, k) + (if pc == SendAdd(k) then 1 else 0) - (if Pops(pc, k) && Count(sh, k) > 0 then 1 else 0)
  {
    if pc.SendAdd? {
      PutCounts(sh, pc.kind, k);
    } else if j :| Pops(pc, j) {
      TakeCounts(sh, j, k);
    } else {
      StepKeepsCounts(sh, pc, writeFails, k);
    }
  }

  lemma PutCounts(sh: Shared, j: Kind, k: Kind)
    ensures Count(Put(sh, j), k) == Count(sh, k) + if j == k then 1 else 0
  {
  }

  lemma TakeCounts(sh: Shared, j: Kind, k: Kind)
    ensures Count(Take(sh, j), k) == Count(sh, k) - if j == k && Count(sh, k) > 0 then 1 else 0
  {
  }

  lemma StepKeepsCounts(sh: Shared, pc: Pc, writeFails: bool, k: Kind)
    requires !pc.SendAdd? && forall j :: !Pops(pc, j)
    ensures Count(Step(sh, pc, writeFails).sh, k) == Count(sh, k)
  {
    assert !Pops(pc, Pubrel) && !Pops(pc, Generic) && !Pops(pc, QoS0) && !Pops(pc, QoS12);
  }

  lemma StepQuota(sh: Shared, pc: Pc, writeFails: bool)
    requires ReadsOf(sh, pc)
    ensures Step(sh, pc, writeFails).sh.quota
         == sh.quota + (if pc == QuotaAdd then 1 else 0) - (if pc.PopAcquire? then 1 else 0)
  {
  }

  lemma StepCarries(sh: Shared, pc: Pc, writeFails: bool, k: Kind)
    ensures var o := Step(sh, pc, writeFails);
      (Carries(pc) && pc != Write) || (Pops(pc, k) && Count(sh, k) > 0) ==> Carries(o.pc)
  {
  }

  lemma StepFails(sh: Shared, pc: Pc, writeFails: bool)
    ensures Step(sh, pc, writeFails).sh.failed <==> sh.failed || (pc == Write && writeFails)
  {
  }

  /** A routine about to acquire has seen quota. */
  predicate ReadsOf(sh: Shared, pc: Pc) { pc.PopAcquire? ==> sh.quota > 0 }

  lemma InvReads(s: System, a: nat)
    requires Inv(s) && a < |s.actors|
    ensures ReadsOf(s.sh, s.actors[a])
    ensures Holds(RegionOf(s.actors[a])) <==> s.token == Some(a)
  {
  }

  lemma CarriesHolds(pc: Pc, k: Kind)
    ensures Carries(pc) || Pops(pc, k) ==> Holds(RegionOf(pc))
  {
  }

  lemma ActBalances(s: System, a: nat, writeFails: bool, quota: nat, k: Kind, t: Tally)
    requires Inv(s) && Enabled(s, Act(a, writeFails)) && Balanced(s, quota, k, t)
    ensures Balanced(Apply(s, Act(a, writeFails)), quota, k, Tick(s, Act(a, writeFails), k, t))
  {
    var pc := s.actors[a];
    var o := Step(s.sh, pc, writeFails);
    InvReads(s, a);
    StepCounts(s.sh, pc, writeFails, k);
    StepQuota(s.sh, pc, writeFails);
    StepCarries(s.sh, pc, writeFails, k);
    StepFails(s.sh, pc, writeFails);
    CarriesHolds(pc, k);
    CarriesHolds(o.pc, k);
    StepRegions(s.sh, pc, writeFails);
    TokenMoves(s, a, o);
  }

  /** Only a routine that lets go of `running` gives up the token, and only then is it free. */
  lemma TokenMoves(s: System, a: nat, o: Outcome)
    requires TokenInv(s) && a < |s.actors|
    ensures var v := Advance(s, a, o);
      && (s.token.Some? && s.token.value != a && !o.spawned && !(Holds(RegionOf(s.actors[a])) && !Holds(RegionOf(o.pc)))
          ==> v.token == s.token && v.actors[s.token.value] == s.actors[s.token.value])
      && (s.token == Some(a) && !o.spawned && Holds(RegionOf(o.pc)) ==> v.token == Some(a) && v.actors[a] == o.pc)
  {
  }

  lemma {:induction false} RunBalances(s: System, es: seq<Event>, quota: nat, k: Kind, t: Tally)
    requires Inv(s) && ValidRun(s, es) && Balanced(s, quota, k, t)
    ensures Balanced(Run(s, es), quota, k, TallyFrom(s, es, k, t))
    decreases |es|
  {
    if |es| > 0 {
      if es[0].Act? {
        ActBalances(s, es[0].actor, es[0].writeFails, quota, k, t);
        ActStep(s, es[0].actor, es[0].writeFails);
      } else {
        ArrivalStep(s, es[0]);
      }
      RunBalances(Apply(s, es[0]), es[1..], quota, k, Tick(s, es[0], k, t));
    }
  }

  /** Conservation: in every state of every interleaving each queue holds exactly the
      packets added to it that no routine has popped, and the quota is what there was at
      the start, with what was given back and without what was taken. */
  lemma PacketsConserved(quota: nat, es: seq<Event>, k: Kind)
    requires ValidRun(Init(quota), es)
    ensures Balanced(Run(Init(quota), es), quota, k, TallyOf(quota, es, k))
  {
    InitInv(quota);
    RunBalances(Init(quota), es, quota, k, ZERO);
  }

  /** How many packets of kind `k` the routine may still pop once the writer is stopped:
      its round goes on to the end, and it begins no other. */
  function Rest(pc: Pc, k: Kind): nat {
    match pc
    case PopPubrel => 1
    case PopPeek(_) => if k == Pubrel then 0 else 1
    case PopQuota(_) => if k == Pubrel then 0 else 1
    case PopAcquire(_) => if k == Pubrel then 0 else 1
    case PopRemove(_) => if k == Pubrel then 0 else 1
    case PopGeneric(_) => if k == Generic || k == QoS0 then 1 else 0
    case PopQoS0(_) => if k == QoS0 then 1 else 0
    case _ => 0
  }

  /** ... of all actors only the one that holds `running` may. */
  ghost function RestOf(s: System, k: Kind): nat
    requires TokenInv(s)
  {
    if s.token.Some? then Rest(s.actors[s.token.value], k) else 0
  }

  lemma StoppedStep(sh: Shared, pc: Pc, writeFails: bool, k: Kind)
    requires !sh.alive
    ensures var o := Step(sh, pc, writeFails);
      && !o.sh.alive
      && Rest(o.pc, k) + (if Pops(pc, k) then 1 else 0) <= Rest(pc, k)
  {
  }

  lemma RestHolds(pc: Pc, k: Kind)
    ensures Rest(pc, k) > 0 ==> Holds(RegionOf(pc))
    ensures Rest(SyncWait, k) == 0 && Rest(pc, k) <= 1
  {
  }

  lemma StoppedAct(s: System, a: nat, writeFails: bool, k: Kind, t: Tally)
    requires Inv(s) && !s.sh.alive && Enabled(s, Act(a, writeFails))
    ensures var v := Apply(s, Act(a, writeFails));
      TokenInv(v) && !v.sh.alive && Tick(s, Act(a, writeFails), k, t).popped + RestOf(v, k) <= t.popped + RestOf(s, k)
  {
    var pc := s.actors[a];
    var o := Step(s.sh, pc, writeFails);
    ControlStep(s, a, writeFails);
    InvReads(s, a);
    StoppedStep(s.sh, pc, writeFails, k);
    RestHolds(pc, k);
    RestHolds(o.pc, k);
    CarriesHolds(pc, k);
    StepRegions(s.sh, pc, writeFails);
    TokenMoves(s, a, o);
  }

  lemma {:induction false} StoppedRun(s: System, es: seq<Event>, k: Kind, t: Tally)
    requires Inv(s) && !s.sh.alive && ValidRun(s, es)
    ensures TallyFrom(s, es, k, t).popped <= t.popped + RestOf(s, k)
    decreases |es|
  {
    if |es| > 0 {
      if es[0].Act? {
        StoppedAct(s, es[0].actor, es[0].writeFails, k, t);
        ActStep(s, es[0].actor, es[0].writeFails);
      } else {
        ArrivalStep(s, es[0]);
      }
      StoppedRun(Apply(s, es[0]), es[1..], k, Tick(s, es[0], k, t));
    }
  }

  /** Stopping the writer stops it: whatever senders, releasers and routines do after it,
      at most one more packet of each kind leaves its queue. */
  lemma StopEndsTransmission(quota: nat, before: seq<Event>, es: seq<Event>, k: Kind, t: Tally)
    requires ValidRun(Init(quota), before) && ValidRun(Run(Init(quota), before), es)
    requires !Run(Init(quota), before).sh.alive
    ensures TallyFrom(Run(Init(quota), before), es, k, t).popped <= t.popped + 1
  {
    InitInv(quota);
    RunKeepsInv(Init(quota), before);
    var s := Run(Init(quota), before);
    StoppedRun(s, es, k, t);
    if s.token.Some? {
      RestHolds(s.actors[s.token.value], k);
    }
  }

  /** An actor that has yet to look whether the writer is stopped, or has ended. */
  predicate Late(pc: Pc) {
    || pc.SendAdd? || pc == QuotaAdd || pc == QuotaSignal || pc == RunAlive(Outside)
    || pc == SyncWait || pc == EntryAlive || pc == Finished
  }

  /** Once the writer is stopped such an actor starts no routine and enters none: it only
      ever ends. */
  lemma {:induction false} LateActorEnds(s: System, es: seq<Event>, a: nat)
    requires ValidRun(s, es) && !s.sh.alive && a < |s.actors| && Late(s.actors[a])
    ensures var t := Run(s, es); !t.sh.alive && a < |t.actors| && Late(t.actors[a])
    decreases |es|
  {
    if |es| > 0 {
      LateActorEnds(Apply(s, es[0]), es[1..], a);
    }
  }

  /** The rest of a routine whose write failed. */
  predicate Giving(pc: Pc) { pc == ClearRunning(true) || pc == SyncDone || pc == Finished }

  lemma {:induction false} GivingRun(s: System, es: seq<Event>, a: nat)
    requires ValidRun(s, es) && a < |s.actors| && Giving(s.actors[a])
    ensures a < |Run(s, es).actors| && Giving(Run(s, es).actors[a])
    decreases |es|
  {
    if |es| > 0 {
      GivingRun(Apply(s, es[0]), es[1..], a);
    }
  }

  /** A routine whose write fails takes no packet any more and does not look for any: all
      it does, in every continuation, is let go of `running` and of the wait group. */
  lemma FailedWriteEnds(s: System, a: nat, es: seq<Event>)
    requires a < |s.actors| && s.actors[a] == Write && ValidRun(Apply(s, Act(a, true)), es)
    ensures var t := Run(Apply(s, Act(a, true)), es); a < |t.actors| && Giving(t.actors[a])
  {
    GivingRun(Apply(s, Act(a, true)), es, a);
  }

  lemma {:induction false} RunConcat(s: System, a: seq<Event>, b: seq<Event>)
    requires ValidRun(s, a) && ValidRun(Run(s, a), b)
    ensures ValidRun(s, a + b) && Run(s, a + b) == Run(Run(s, a), b)
    decreases |a|
  {
    if |a| == 0 {
      assert a + b == b;
    } else {
      assert (a + b)[1..] == a[1..] + b;
      RunConcat(Apply(s, a[0]), a[1..], b);
    }
  }

  /** Every packet of kind `k` that was added has been written, except QoS 1/2 packets
      while there is no quota. */
  ghost predicate AllWritten(s: System, k: Kind, t: Tally) {
    t.written == t.added || (k == QoS12 && s.sh.quota == 0 && t.written + s.sh.qos12 == t.added)
  }

  lemma DrainedIsWritten(s: System, quota: nat, k: Kind, t: Tally)
    requires Inv(s) && Drained(s) && !s.sh.failed && Balanced(s, quota, k, t)
    ensures AllWritten(s, k, t)
  {
  }

  /** Liveness: take any reachable state and let the actors present run on in any
      order.  They stop after a bounded number of steps, and if the writer is then
      still alive and error-free, every packet ever added has been written, except
      QoS 1/2 packets that wait for quota. */
  lemma EveryScheduleDrains(quota: nat, before: seq<Event>, es: seq<Event>)
    requires ValidRun(Init(quota), before) && ValidRun(Run(Init(quota), before), es)
    requires forall e :: e in es ==> e.Act?
    ensures var s := Run(Init(quota), before);
      var t := Run(s, es);
      && |es| <= Rank(s) && ValidRun(Init(quota), before + es)
      && (AtRest(t) && t.sh.alive && !t.sh.failed ==>
            Drained(t) && forall k :: AllWritten(t, k, TallyOf(quota, before + es, k)))
  {
    var s := Run(Init(quota), before);
    InitInv(quota);
    RunKeepsInv(Init(quota), before);
    RunKeepsInv(s, es);
    ActorsTerminate(s, es);
    RunConcat(Init(quota), before, es);
    var t := Run(s, es);
    if AtRest(t) && t.sh.alive && !t.sh.failed {
      RestMeansDrained(t);
      forall k ensures AllWritten(t, k, TallyOf(quota, before + es, k)) {
        PacketsConserved(quota, before + es, k);
        DrainedIsWritten(t, quota, k, TallyOf(quota, before + es, k));
      }
    }
  }
}
