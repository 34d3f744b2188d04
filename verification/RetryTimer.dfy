/**
 One message in the retry table: its timer, the goroutine that resends it and the
 acknowledgement that removes it, interleaved step by step. Times are nanoseconds.
 */
module RetryTimer {
  const SECOND := 1_000_000_000

  datatype Config = Config(maxTimeout: int)

  /** A timer counts down, or has put its tick into its channel, or neither. */
  datatype Timer = Active(due: int) | Expired(at: int) | Off

  /** Where the goroutine of the message stands. */
  datatype Place =
    | Waiting          // at the select
    | Ticked(at: int)  // has taken a tick and checked the time limit
    | Resent(at: int)  // has sent the message again
    | Counted(at: int) // has counted the attempt and lengthened the duration
    | Finished

  /** Where the acknowledgement of the message stands. */
  datatype Acking =
    | Unacked
    | Loaded              // taken out of the table
    | Stopped(stop: bool) // the timer was stopped; `stop` says whether it was active
    | Judged              // the round trip was used for the estimate, or not
    | Signalled           // the goroutine was told to stop

  datatype Entry = Entry(
    start: int, rto: int, clock: int, attempts: nat, duration: int,
    timer: Timer, place: Place, acking: Acking,
    sends: nat,     // transmissions so far, the first one included
    sampled: bool)  // whether its round trip was used for the estimate

  datatype Step =
    | Fire(now: int) | TakeTick | Resend | CountAttempt(increment: int) | ResetTimer(now: int)
    | SeeStop | Cancel
    | Load | StopTimer | UseSample | Signal

  function Push(now: int, rto: int): Entry {
    Entry(now, rto, now, 0, rto, Active(now + rto), Waiting, Unacked, 1, false)
  }

  predicate Enabled(cfg: Config, e: Entry, step: Step) {
    match step
    case Fire(now) => e.timer.Active? && now >= e.timer.due && now >= e.clock
    case TakeTick => e.place == Waiting && e.timer.Expired?
    case Resend => e.place.Ticked?
    case CountAttempt(increment) => e.place.Resent? && increment >= SECOND
    case ResetTimer(now) => e.place.Counted? && now >= e.clock
    case SeeStop => e.place == Waiting && e.acking == Signalled
    case Cancel => e.place == Waiting
    case Load => e.acking == Unacked
    case StopTimer => e.acking == Loaded
    case UseSample => e.acking.Stopped?
    case Signal => e.acking == Judged
  }

  function Next(cfg: Config, e: Entry, step: Step): Entry
    requires Enabled(cfg, e, step)
  {
    match step
    case Fire(now) => e.(timer := Expired(now), clock := now)
    case TakeTick =>
      if e.timer.at - e.start >= cfg.maxTimeout then e.(timer := Off, place := Finished)
      else e.(timer := Off, place := Ticked(e.timer.at))
    case Resend => e.(place := Resent(e.place.at), sends := e.sends + 1)
    case CountAttempt(increment) =>
      e.(place := Counted(e.place.at), attempts := e.attempts + 1, duration := e.duration + increment)
    case ResetTimer(now) => e.(place := Waiting, timer := Active(now + e.duration), clock := now)
    case SeeStop => e.(place := Finished)
    case Cancel => e.(place := Finished)
    case Load => e.(acking := Loaded)
    case StopTimer => e.(acking := Stopped(e.timer.Active?), timer := if e.timer.Active? then Off else e.timer)
    case UseSample => e.(acking := Judged, sampled := e.acking.stop && e.attempts == 0)
    case Signal => e.(acking := Signalled)
  }

  /** The entry after a schedule; steps that are not enabled do not happen. */
  ghost function After(cfg: Config, e: Entry, steps: seq<Step>): Entry {
    if steps == [] then e
    else
      var before := After(cfg, e, steps[..|steps| - 1]);
      var step := steps[|steps| - 1];
      if Enabled(cfg, before, step) then Next(cfg, before, step) else before
  }

  // ----- Karn's rule

  /** Only a waiting goroutine has a running timer; every send past the first is an
      attempt, counted or about to be; a stop that found the timer running froze the
      entry, and a sample is taken only from such a stop before any attempt. */
  ghost predicate Tracked(e: Entry) {
    && (e.timer.Active? ==> e.place == Waiting || e.place == Finished)
    && e.sends == 1 + e.attempts + (if e.place.Resent? then 1 else 0)
    && (e.acking == Stopped(true) || e.sampled ==> e.timer == Off && (e.place == Waiting || e.place == Finished))
    && (e.sampled ==> e.attempts == 0 && (e.acking == Judged || e.acking == Signalled))
  }

  lemma {:induction false} AlwaysTracked(cfg: Config, now: int, rto: int, steps: seq<Step>)
    ensures Tracked(After(cfg, Push(now, rto), steps))
  {
    if steps != [] { AlwaysTracked(cfg, now, rto, steps[..|steps| - 1]); }
  }

  lemma {:induction false} SampledStays(cfg: Config, e: Entry, steps: seq<Step>)
    requires Tracked(e) && e.sampled
    ensures var later := After(cfg, e, steps);
      Tracked(later) && later.sampled && later.sends == 1
  {
    if steps != [] { SampledStays(cfg, e, steps[..|steps| - 1]); }
  }

  /** Section 3 of RFC 6298, under every interleaving: a round trip is measured only on
      a message that was transmitted exactly once, and that is never sent again. */
  lemma KarnsRule(cfg: Config, now: int, rto: int, steps: seq<Step>, more: seq<Step>)
    requires After(cfg, Push(now, rto), steps).sampled
    ensures After(cfg, Push(now, rto), steps).sends == 1
    ensures After(cfg, After(cfg, Push(now, rto), steps), more).sends == 1
  {
    AlwaysTracked(cfg, now, rto, steps);
    SampledStays(cfg, After(cfg, Push(now, rto), steps), more);
  }

  /** A waiting goroutine has a timer, or a tick, unless an acknowledgement stopped it
      first; and before any attempt such a stop is what makes a sample. */
  ghost predicate Sampling(e: Entry) {
    && (e.acking == Unacked || e.acking == Loaded || e.acking == Stopped(false) ==> e.place == Waiting ==> e.timer != Off)
    && (e.acking == Judged && e.place == Waiting && e.timer == Off && e.attempts == 0 ==> e.sampled)
  }

  lemma {:induction false} AlwaysSampling(cfg: Config, now: int, rto: int, steps: seq<Step>)
    ensures Tracked(After(cfg, Push(now, rto), steps)) && Sampling(After(cfg, Push(now, rto), steps))
  {
    AlwaysTracked(cfg, now, rto, steps);
    if steps != [] {
      AlwaysTracked(cfg, now, rto, steps[..|steps| - 1]);
      AlwaysSampling(cfg, now, rto, steps[..|steps| - 1]);
    }
  }

  /** When the acknowledgement has been judged and the goroutine still waits, a sample
      was taken exactly if the message went out once and its timer was stopped in time. */
  lemma SampledExactlyWhenClean(cfg: Config, now: int, rto: int, steps: seq<Step>)
    requires var e := After(cfg, Push(now, rto), steps); e.acking == Judged && e.place == Waiting
    ensures var e := After(cfg, Push(now, rto), steps); e.sampled <==> e.sends == 1 && e.timer == Off
  {
    AlwaysSampling(cfg, now, rto, steps);
  }

  // ----- bounded retransmission

  /** The least time after `start` at which the timer can be due after `k` attempts:
      k + 1 waits of at least `rto`, each a second longer than the one before. */
  function EarliestDue(rto: int, k: nat): int {
    (k + 1) * rto + SECOND * (k * (k + 1) / 2)
  }

  lemma EarliestDueNext(rto: int, k: nat)
    ensures EarliestDue(rto, k + 1) == EarliestDue(rto, k) + rto + SECOND * (k + 1)
  {
    assert (k + 1) * (k + 2) == k * (k + 1) + 2 * (k + 1);
    assert (k + 2) * rto == (k + 1) * rto + rto;
  }

  ghost predicate Paced(cfg: Config, e: Entry) {
    && e.duration >= e.rto + SECOND * e.attempts
    && match e.place {
         case Waiting =>
           && (e.timer.Active? ==> e.timer.due >= e.start + EarliestDue(e.rto, e.attempts))
           && (e.timer.Expired? ==> e.clock >= e.timer.at >= e.start + EarliestDue(e.rto, e.attempts))
         case Ticked(at) => InTime(cfg, e, at, e.attempts)
         case Resent(at) => InTime(cfg, e, at, e.attempts)
         case Counted(at) => e.attempts > 0 && InTime(cfg, e, at, e.attempts - 1)
         case Finished => true
       }
    && (e.attempts > 0 ==> EarliestDue(e.rto, e.attempts - 1) < cfg.maxTimeout)
  }

  /** A tick that came at `at`, after `k` attempts, and within the time limit. */
  ghost predicate InTime(cfg: Config, e: Entry, at: int, k: nat) {
    e.clock >= at >= e.start + EarliestDue(e.rto, k) && at - e.start < cfg.maxTimeout
  }

  lemma StepKeepsPace(cfg: Config, e: Entry, step: Step)
    requires Tracked(e) && Paced(cfg, e) && Enabled(cfg, e, step)
    ensures Paced(cfg, Next(cfg, e, step))
    ensures Next(cfg, e, step).rto == e.rto
  {
    if e.attempts > 0 { EarliestDueNext(e.rto, e.attempts - 1); }
    hide EarliestDue;
  }

  lemma {:induction false} AlwaysPaced(cfg: Config, now: int, rto: int, steps: seq<Step>)
    ensures Paced(cfg, After(cfg, Push(now, rto), steps)) && After(cfg, Push(now, rto), steps).rto == rto
  {
    if steps == [] {
      assert EarliestDue(rto, 0) == rto;
    } else {
      var before := After(cfg, Push(now, rto), steps[..|steps| - 1]);
      AlwaysPaced(cfg, now, rto, steps[..|steps| - 1]);
      AlwaysTracked(cfg, now, rto, steps[..|steps| - 1]);
      if Enabled(cfg, before, steps[|steps| - 1]) { StepKeepsPace(cfg, before, steps[|steps| - 1]); }
    }
  }

  /** However acknowledgement, timer and goroutine interleave, `k` retransmissions need
      k waits, each a second longer than the last, inside the time limit. */
  lemma RetransmissionsAreBounded(cfg: Config, now: int, rto: int, steps: seq<Step>)
    requires After(cfg, Push(now, rto), steps).sends > 1
    ensures var k := After(cfg, Push(now, rto), steps).sends - 1;
      k * rto + 1_000_000_000 * (k * (k - 1) / 2) < cfg.maxTimeout
  {
    AlwaysPaced(cfg, now, rto, steps);
    AlwaysTracked(cfg, now, rto, steps);
    var e := After(cfg, Push(now, rto), steps);
    assert EarliestDue(rto, e.sends - 2) < cfg.maxTimeout;
  }

  // ----- another transmission for every tick in time

  lemma {:induction false} StartStays(cfg: Config, e: Entry, steps: seq<Step>)
    ensures After(cfg, e, steps).start == e.start
  {
    if steps != [] { StartStays(cfg, e, steps[..|steps| - 1]); }
  }

  lemma OneMore(cfg: Config, e: Entry, steps: seq<Step>, step: Step)
    ensures var before := After(cfg, e, steps);
      After(cfg, e, steps + [step]) == if Enabled(cfg, before, step) then Next(cfg, before, step) else before
  {
    assert (steps + [step])[..|steps|] == steps;
  }

  /** Under every interleaving, a tick that is taken leads to another transmission exactly
      if it came within the time limit. */
  lemma TickInTimeResends(cfg: Config, now: int, rto: int, steps: seq<Step>)
    requires var e := After(cfg, Push(now, rto), steps); e.place == Waiting && e.timer.Expired?
    ensures var e := After(cfg, Push(now, rto), steps);
      After(cfg, Push(now, rto), steps + [TakeTick] + [Resend]).sends
      == e.sends + if e.timer.at - now < cfg.maxTimeout then 1 else 0
  {
    StartStays(cfg, Push(now, rto), steps);
    OneMore(cfg, Push(now, rto), steps, TakeTick);
    OneMore(cfg, Push(now, rto), steps + [TakeTick], Resend);
    hide After;
  }

  /** Nothing can make this message be sent again. */
  predicate Quiescent(e: Entry) {
    e.place == Finished || (e.place == Waiting && e.timer == Off)
  }

  lemma {:induction false} QuiescentStays(cfg: Config, e: Entry, steps: seq<Step>)
    requires Quiescent(e) && Tracked(e)
    ensures var later := After(cfg, e, steps);
      Quiescent(later) && Tracked(later) && later.sends == e.sends && later.attempts == e.attempts
  {
    if steps != [] { QuiescentStays(cfg, e, steps[..|steps| - 1]); }
  }

  /** Under every interleaving a message is not sent again once its acknowledgement has
      stopped the running timer, or its waiting goroutine has seen the signal or that the
      session has ended, or has taken a tick past the time limit. */
  lemma StoppedIsNotResent(cfg: Config, now: int, rto: int, steps: seq<Step>, step: Step, more: seq<Step>)
    requires var e := After(cfg, Push(now, rto), steps);
      match step
      case StopTimer => e.acking == Loaded && e.timer.Active? && e.place == Waiting
      case SeeStop => e.acking == Signalled && e.place == Waiting
      case Cancel => e.place == Waiting
      case TakeTick => e.place == Waiting && e.timer.Expired? && e.timer.at - now >= cfg.maxTimeout
      case _ => false
    ensures After(cfg, After(cfg, Push(now, rto), steps + [step]), more).sends == After(cfg, Push(now, rto), steps).sends
  {
    StartStays(cfg, Push(now, rto), steps);
    AlwaysTracked(cfg, now, rto, steps + [step]);
    OneMore(cfg, Push(now, rto), steps, step);
    hide After, Tracked;
    QuiescentStays(cfg, After(cfg, Push(now, rto), steps + [step]), more);
  }

  /** One turn of the goroutine while no acknowledgement comes: when its timer fires, by
      how much the duration grows, and when the timer is set again. */
  datatype Round = Round(fire: int, increment: int, reset: int)

  function StepsOf(rounds: seq<Round>): seq<Step> {
    if rounds == [] then []
    else
      var r := rounds[|rounds| - 1];
      StepsOf(rounds[..|rounds| - 1]) + [Fire(r.fire)] + [TakeTick] + [Resend] + [CountAttempt(r.increment)] + [ResetTimer(r.reset)]
  }

  /** The duration of the timer after these turns. */
  function DurationAfter(rto: int, rounds: seq<Round>): int {
    if rounds == [] then rto else DurationAfter(rto, rounds[..|rounds| - 1]) + rounds[|rounds| - 1].increment
  }

  /** When the timer is set after these turns. */
  function SetAt(now: int, rounds: seq<Round>): int {
    if rounds == [] then now else rounds[|rounds| - 1].reset
  }

  /** Each tick comes once the duration has passed, in time, and no clock goes back. */
  ghost predicate InTimeThroughout(cfg: Config, now: int, rto: int, rounds: seq<Round>) {
    rounds != [] ==>
      var front, r := rounds[..|rounds| - 1], rounds[|rounds| - 1];
      && InTimeThroughout(cfg, now, rto, front)
      && SetAt(now, front) <= r.fire <= r.reset && r.fire >= SetAt(now, front) + DurationAfter(rto, front)
      && r.fire - now < cfg.maxTimeout && r.increment >= SECOND
  }

  /** A message that is not acknowledged is sent again with every tick in time, and the
      timer then runs for the timeout and all increments so far. */
  lemma {:induction false} UnansweredIsResent(cfg: Config, now: int, rto: int, rounds: seq<Round>)
    requires InTimeThroughout(cfg, now, rto, rounds)
    ensures After(cfg, Push(now, rto), StepsOf(rounds))
         == Entry(now, rto, SetAt(now, rounds), |rounds|, DurationAfter(rto, rounds),
                  Active(SetAt(now, rounds) + DurationAfter(rto, rounds)), Waiting, Unacked, 1 + |rounds|, false)
  {
    if rounds != [] {
      var front, r, e := rounds[..|rounds| - 1], rounds[|rounds| - 1], Push(now, rto);
      UnansweredIsResent(cfg, now, rto, front);
      var s0 := StepsOf(front);
      OneMore(cfg, e, s0, Fire(r.fire));
      OneMore(cfg, e, s0 + [Fire(r.fire)], TakeTick);
      OneMore(cfg, e, s0 + [Fire(r.fire)] + [TakeTick], Resend);
      OneMore(cfg, e, s0 + [Fire(r.fire)] + [TakeTick] + [Resend], CountAttempt(r.increment));
      OneMore(cfg, e, s0 + [Fire(r.fire)] + [TakeTick] + [Resend] + [CountAttempt(r.increment)], ResetTimer(r.reset));
      hide After;
    }
  }

  /** And the first tick past the time limit is the end of it. */
  lemma LateTickEnds(cfg: Config, now: int, rto: int, rounds: seq<Round>, late: int, more: seq<Step>)
    requires InTimeThroughout(cfg, now, rto, rounds)
    requires SetAt(now, rounds) <= late && late >= SetAt(now, rounds) + DurationAfter(rto, rounds) && late - now >= cfg.maxTimeout
    ensures After(cfg, After(cfg, Push(now, rto), StepsOf(rounds) + [Fire(late)] + [TakeTick]), more).sends == 1 + |rounds|
  {
    UnansweredIsResent(cfg, now, rto, rounds);
    OneMore(cfg, Push(now, rto), StepsOf(rounds), Fire(late));
    hide After, StepsOf, InTimeThroughout, DurationAfter, SetAt;
    StoppedIsNotResent(cfg, now, rto, StepsOf(rounds) + [Fire(late)], TakeTick, more);
  }
}
