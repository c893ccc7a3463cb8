/** The two-phase will and session-expiry timer (clients/expiry.go), sections
    3.1.2.11.2 and 3.1.3.2.2 of MQTT 5.0.  Time is counted in seconds. */
module Expiry {
  import opened Wrappers

  /** uint32; every subtraction below is checked not to leave it. */
  type Seconds = x: int | 0 <= x < 0x1_0000_0000

  datatype Report =
    | WillPublished(at: nat)
    | SessionEnded(at: nat, expired: bool)

  /** The delay that counts: a will with no delay is none of the timer's business. */
  function Delay(hasWill: bool, willIn: Seconds): Option<nat> {
    if hasWill && willIn > 0 then Some(willIn) else None
  }

  function Min(a: nat, b: nat): nat { if a < b then a else b }

  /** When the will is due: after its delay or when the session expires,
      whichever is first. */
  function WillDue(delay: Option<nat>, expireIn: Option<Seconds>): Option<nat> {
    match (delay, expireIn)
    case (None, _) => None
    case (Some(w), None) => Some(w)
    case (Some(w), Some(e)) => Some(Min(w, e))
  }

  /** What must be reported, and when, for a timer started at `now`. */
  function Timeline(now: nat, delay: Option<nat>, expireIn: Option<Seconds>): seq<Report> {
    (match WillDue(delay, expireIn) case Some(t) => [WillPublished(now + t)] case None => []) +
    (match expireIn
     case Some(e) => [SessionEnded(now + e, true)]
     case None => [SessionEnded(now + (if delay.Some? then delay.value else 0), false)])
  }

  class Expiry {
    var will: bool
    var willIn: Seconds
    var expireIn: Option<Seconds>
    /** When the timer fires, if it is armed. */
    var timer: Option<nat>
    var reports: seq<Report>
    ghost var fired: nat

    /** What the armed timer still has to report. */
    ghost function Pending(): seq<Report>
      reads this
      requires timer.Some?
    {
      var t := timer.value;
      (if will then [WillPublished(t)] else []) +
      (match expireIn
       case None => [SessionEnded(t, false)]
       case Some(e) => [SessionEnded(t + e, true)])
    }

    constructor (will: bool, willIn: Seconds, expireIn: Option<Seconds>)
      ensures this.will == will && this.willIn == willIn && this.expireIn == expireIn
      ensures timer == None && reports == [] && fired == 0
    {
      this.will, this.willIn, this.expireIn := will, willIn, expireIn;
      timer, reports, fired := None, [], 0;
    }

    method Start(now: nat)
      requires timer == None
      modifies this`will, this`expireIn, this`timer
      ensures timer.Some? && Pending() == Timeline(now, Delay(old(will), willIn), old(expireIn))
    {
      var timerPeriod: Seconds := 0;
      if will && willIn > 0 {
        timerPeriod := willIn;
      } else {
        will := false;
      }
      if expireIn.Some? {
        if timerPeriod > 0 && timerPeriod < expireIn.value {
          expireIn := Some(expireIn.value - timerPeriod);
        } else {
          timerPeriod := expireIn.value;
          expireIn := Some(0);
        }
      }
      timer := Some(now + timerPeriod);
    }

    method TimerCallback()
      requires timer.Some?
      modifies this
      ensures fired == old(fired) + 1
      ensures timer == None ==> reports == old(reports) + old(Pending())
      ensures timer.Some? ==> reports + Pending() == old(reports) + old(Pending())
      ensures timer == None <==> old(expireIn) == None || old(expireIn) == Some(0)
      ensures timer.Some? ==> expireIn == Some(0)
    {
      var now := timer.value;
      fired := fired + 1;
      if will {
        reports := reports + [WillPublished(now)];
        will := false;
        willIn := 0;
      }
      if expireIn == None {
        reports := reports + [SessionEnded(now, false)];
        timer := None;
      } else if expireIn.value == 0 {
        reports := reports + [SessionEnded(now, true)];
        timer := None;
      } else {
        var val := expireIn.value;
        expireIn := Some(0);
        timer := Some(now + val);
      }
    }

    /** The timer left alone: it fires at most twice, and reports the timeline. */
    method RunOut(now: nat)
      requires timer == None && reports == [] && fired == 0
      modifies this
      ensures timer == None && fired <= 2
      ensures reports == Timeline(now, Delay(old(will), old(willIn)), old(expireIn))
    {
      ghost var due := Timeline(now, Delay(will, willIn), expireIn);
      Start(now);
      while timer.Some?
        invariant timer.Some? ==> reports + Pending() == due
        invariant timer == None ==> reports == due
        invariant fired <= 2 && (timer.Some? && fired > 0 ==> fired == 1 && expireIn == Some(0))
        decreases 2 - fired, timer.Some?
      {
        TimerCallback();
      }
    }
  }

  /** The timeline says: a will with a delay is published exactly once, after its delay
      or when the session expires, whichever is first; one without is none of the
      timer's business.  The end of the session is reported exactly once, as an expiry
      if and only if it has an expiry interval, and then exactly when that has passed. */
  lemma TimelineMeans(now: nat, will: bool, willIn: Seconds, expireIn: Option<Seconds>)
    ensures var t := Timeline(now, Delay(will, willIn), expireIn);
      && (if will && willIn > 0 then |t| == 2 && t[0].WillPublished? && t[0].at <= t[1].at else |t| == 1)
      && (will && willIn > 0 && expireIn.None? ==> t[0].at == t[1].at == now + willIn)
      && (will && willIn > 0 && expireIn.Some? ==> t[0].at == now + Min(willIn, expireIn.value))
      && t[|t| - 1].SessionEnded?
      && (t[|t| - 1].expired <==> expireIn.Some?)
      && (expireIn.Some? ==> t[|t| - 1].at == now + expireIn.value)
  {
  }
}
