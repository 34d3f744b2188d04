/**
 The keepalive loop of a connection: it answers and counts traffic, probes after
 silence, and gives the connection up after enough unanswered probes.
 */
module Keepalive {
  import opened Bytes

  datatype Config = Config(timeout: int, interval: nat, probes: int)

  /** What the loop does that can be seen from outside. */
  datatype Mark = Heard(now: int, answered: bool) | Probed(now: int) | Disconnected(now: int)

  /** What wakes the loop: traffic, which may be a probe that asks for an answer, the
      interval running out, or cancellation. */
  datatype Event = Traffic(now: int, asks: bool) | Tick(now: int) | Cancel

  datatype State = State(probes: nat, lastAck: Option<int>, started: int, entered: int, running: bool, marks: seq<Mark>)

  function Start(now: int): State {
    State(0, None, now, now, true, [])
  }

  /** A tick comes no sooner than one interval after the loop began to wait. */
  predicate Possible(cfg: Config, s: State, ev: Event) {
    match ev
    case Traffic(now, _) => now >= s.entered
    case Tick(now) => now >= s.entered + cfg.interval
    case Cancel => true
  }

  /** Less than the timeout has passed since the last traffic, or since the start. */
  predicate Quiet(cfg: Config, s: State, now: int) {
    (s.lastAck.Some? && now - s.lastAck.value < cfg.timeout) || now - s.started < cfg.timeout
  }

  function Handled(cfg: Config, s: State, ev: Event): State {
    if !s.running then s
    else
      match ev
      case Traffic(now, asks) =>
        s.(lastAck := Some(now), probes := 0, entered := now, marks := s.marks + [Heard(now, asks)])
      case Cancel => s.(running := false)
      case Tick(now) =>
        if Quiet(cfg, s, now) then s.(entered := now)
        else if s.probes >= cfg.probes then s.(running := false, marks := s.marks + [Disconnected(now)])
        else s.(probes := s.probes + 1, entered := now, marks := s.marks + [Probed(now)])
  }

  ghost function After(cfg: Config, now: int, events: seq<Event>): State {
    if events == [] then Start(now)
    else
      var before := After(cfg, now, events[..|events| - 1]);
      var ev := events[|events| - 1];
      if Possible(cfg, before, ev) then Handled(cfg, before, ev) else before
  }

  /** The loop itself, as it runs through its wake-ups. */
  method Loop(cfg: Config, now: int, events: seq<Event>) returns (marks: seq<Mark>)
    ensures marks == After(cfg, now, events).marks
  {
    var probes, lastAck, started := 0, None, now;
    var entered, running := now, true;
    marks := [];
    for i := 0 to |events|
      invariant State(probes, lastAck, started, entered, running, marks) == After(cfg, now, events[..i])
    {
      assert events[..i + 1][..i] == events[..i];
      if running {
        match events[i] {
          case Traffic(t, asks) =>
            if t >= entered {
              lastAck, probes, entered := Some(t), 0, t;
              if asks {
                marks := marks + [Heard(t, true)];
              } else {
                marks := marks + [Heard(t, false)];
              }
            }
          case Cancel =>
            running := false;
          case Tick(t) =>
            if t >= entered + cfg.interval {
              if (lastAck.Some? && t - lastAck.value < cfg.timeout) || t - started < cfg.timeout {
                entered := t;
              } else if probes >= cfg.probes {
                marks := marks + [Disconnected(t)];
                running := false;
              } else {
                marks := marks + [Probed(t)];
                probes := probes + 1;
                entered := t;
              }
            }
        }
      }
    }
    assert events[..|events|] == events;
  }

  // ----- when it gives up

  /** The latest of the start and the traffic at mark `k - 1`. */
  function Base(marks: seq<Mark>, k: nat, started: int): int
    requires k <= |marks|
  {
    if k > 0 && marks[k - 1].now > started then marks[k - 1].now else started
  }

  /** From mark `k` to before mark `j` there are only probes, and before them traffic or nothing. */
  ghost predicate ProbesFrom(marks: seq<Mark>, k: nat, j: nat) {
    k <= j <= |marks| && (forall i :: k <= i < j ==> marks[i].Probed?) && (k > 0 ==> marks[k - 1].Heard?)
  }

  ghost predicate Counting(cfg: Config, s: State) {
    var k := |s.marks| - s.probes;
    && 0 <= k && ProbesFrom(s.marks, k, |s.marks|)
    && (s.lastAck.None? <==> k == 0) && (k > 0 ==> s.lastAck == Some(s.marks[k - 1].now))
    && s.entered >= s.started && (k > 0 ==> s.entered >= s.marks[k - 1].now)
    && (s.probes > 0 ==> s.entered >= Base(s.marks, k, s.started) + cfg.timeout + (s.probes - 1) * cfg.interval)
    && (s.probes > 0 ==> s.probes <= cfg.probes)
  }

  /** The connection was given up at the last mark, with the whole history behind it. */
  ghost predicate GaveUpRightly(cfg: Config, s: State) {
    && s.marks != []
    && var j := |s.marks| - 1;
    && s.marks[j].Disconnected?
    && var probes := if cfg.probes < 0 then 0 else cfg.probes;
    && probes <= j && ProbesFrom(s.marks, j - probes, j)
    && s.marks[j].now >= Base(s.marks, j - probes, s.started) + cfg.timeout + probes * cfg.interval
  }

  ghost predicate Sensible(cfg: Config, s: State) {
    && (s.running ==> Counting(cfg, s))
    && (forall i :: 0 <= i < |s.marks| && s.marks[i].Disconnected? ==>
          !s.running && i == |s.marks| - 1 && GaveUpRightly(cfg, s))
  }

  lemma TickStaysSensible(cfg: Config, s: State, now: int)
    requires s.running && Sensible(cfg, s) && Possible(cfg, s, Tick(now))
    ensures Sensible(cfg, Handled(cfg, s, Tick(now)))
  {
    var k, next := |s.marks| - s.probes, Handled(cfg, s, Tick(now));
    hide After;
    assert (s.probes + 1 - 1) * cfg.interval == s.probes * cfg.interval;
    assert s.probes > 0 ==> s.probes * cfg.interval == (s.probes - 1) * cfg.interval + cfg.interval;
    if !Quiet(cfg, s, now) {
      assert forall i :: 0 <= i < |s.marks| ==> next.marks[i] == s.marks[i];
      assert Base(next.marks, k, s.started) == Base(s.marks, k, s.started);
      assert now >= Base(s.marks, k, s.started) + cfg.timeout;
    }
  }

  lemma {:induction false} AlwaysSensible(cfg: Config, now: int, events: seq<Event>)
    ensures Sensible(cfg, After(cfg, now, events)) && After(cfg, now, events).started == now
  {
    if events != [] {
      var before, ev := After(cfg, now, events[..|events| - 1]), events[|events| - 1];
      AlwaysSensible(cfg, now, events[..|events| - 1]);
      if before.running && Possible(cfg, before, ev) {
        if ev.Tick? {
          TickStaysSensible(cfg, before, ev.now);
        } else if ev.Traffic? {
          assert forall i :: 0 <= i < |before.marks| ==> (before.marks + [Heard(ev.now, ev.asks)])[i] == before.marks[i];
        }
      }
    }
  }

  /** In every run a connection is given up at most once, as the last thing that
      happens, right after exactly the configured number of probes with no traffic
      between them, and not before the timeout and that many intervals have passed
      since the last traffic and since the start. */
  lemma DisconnectIsEarned(cfg: Config, now: int, events: seq<Event>, j: nat)
    requires j < |After(cfg, now, events).marks| && After(cfg, now, events).marks[j].Disconnected?
    ensures var s := After(cfg, now, events); var probes := if cfg.probes < 0 then 0 else cfg.probes;
      && j == |s.marks| - 1 && !s.running
      && probes <= j && ProbesFrom(s.marks, j - probes, j)
      && s.marks[j].now >= Base(s.marks, j - probes, now) + cfg.timeout + probes * cfg.interval
  {
    AlwaysSensible(cfg, now, events);
  }

  // ----- that it gives up

  /** The interval runs out at each of these times, with nothing in between. */
  function Ticks(times: seq<int>): seq<Event> {
    seq(|times|, i requires 0 <= i < |times| => Tick(times[i]))
  }

  function Probes(times: seq<int>): seq<Mark> {
    seq(|times|, i requires 0 <= i < |times| => Probed(times[i]))
  }

  /** The times are an interval apart, after silence that has already lasted the timeout. */
  ghost predicate LongSilence(cfg: Config, s: State, times: seq<int>) {
    && (times != [] ==> Possible(cfg, s, Tick(times[0])) && !Quiet(cfg, s, times[0]))
    && (forall i :: 0 < i < |times| ==> times[i] >= times[i - 1] + cfg.interval)
  }

  lemma {:induction false} StaysSilent(cfg: Config, s: State, times: seq<int>, i: nat)
    requires LongSilence(cfg, s, times) && i < |times|
    ensures !Quiet(cfg, s, times[i])
  {
    if i > 0 { StaysSilent(cfg, s, times, i - 1); }
  }

  lemma OneMoreTick(cfg: Config, now: int, events: seq<Event>, times: seq<int>)
    requires times != []
    ensures var front, last := times[..|times| - 1], times[|times| - 1];
      var before := After(cfg, now, events + Ticks(front));
      && After(cfg, now, events + Ticks(times)) == (if Possible(cfg, before, Tick(last)) then Handled(cfg, before, Tick(last)) else before)
      && Probes(times) == Probes(front) + [Probed(last)]
  {
    var front, last, all := times[..|times| - 1], times[|times| - 1], events + Ticks(times);
    assert all[..|all| - 1] == events + Ticks(front);
    assert all[|all| - 1] == Tick(last);
  }

  lemma NoTicks(events: seq<Event>, marks: seq<Mark>)
    ensures events + Ticks([]) == events && marks + Probes([]) == marks
  {
  }

  /** While probes are left, each tick sends one. */
  lemma {:induction false} ProbesAddUp(cfg: Config, now: int, events: seq<Event>, times: seq<int>)
    requires var s := After(cfg, now, events);
      s.running && LongSilence(cfg, s, times) && s.probes + |times| <= cfg.probes
    ensures var s := After(cfg, now, events);
      After(cfg, now, events + Ticks(times))
      == s.(probes := s.probes + |times|, marks := s.marks + Probes(times),
            entered := if times == [] then s.entered else times[|times| - 1])
  {
    var s := After(cfg, now, events);
    if times == [] {
      NoTicks(events, s.marks);
    } else {
      var front := times[..|times| - 1];
      ProbesAddUp(cfg, now, events, front);
      StaysSilent(cfg, s, times, |times| - 1);
      OneMoreTick(cfg, now, events, times);
      hide After, Ticks, Probes;
      ConcatIsAssociative(s.marks, Probes(front), [Probed(times[|times| - 1])]);
    }
  }

  /** Silence ends a connection: after the probes that are left, one a tick, the next
      tick gives it up. */
  lemma SilenceDisconnects(cfg: Config, now: int, events: seq<Event>, times: seq<int>)
    requires var s := After(cfg, now, events);
      s.running && LongSilence(cfg, s, times)
      && |times| == (if s.probes < cfg.probes then cfg.probes - s.probes else 0) + 1
    ensures var s, later := After(cfg, now, events), After(cfg, now, events + Ticks(times));
      && !later.running
      && later.marks == s.marks + Probes(times[..|times| - 1]) + [Disconnected(times[|times| - 1])]
  {
    var s, front := After(cfg, now, events), times[..|times| - 1];
    hide After, Ticks, Probes;
    NoTicks(events, s.marks);
    if front != [] { ProbesAddUp(cfg, now, events, front); }
    StaysSilent(cfg, s, times, |times| - 1);
    OneMoreTick(cfg, now, events, times);
  }

  // ----- what each wake-up does

  /** When traffic was last heard. */
  function LastHeard(marks: seq<Mark>): Option<int> {
    if marks == [] then None
    else
      var last := marks[|marks| - 1];
      if last.Heard? then Some(last.now) else LastHeard(marks[..|marks| - 1])
  }

  /** How many probes were sent since. */
  function ProbesSince(marks: seq<Mark>): nat {
    if marks == [] || marks[|marks| - 1].Heard? then 0
    else ProbesSince(marks[..|marks| - 1]) + if marks[|marks| - 1].Probed? then 1 else 0
  }

  lemma {:induction false} AlwaysRemembers(cfg: Config, now: int, events: seq<Event>)
    ensures var s := After(cfg, now, events);
      s.started == now && (s.running ==> s.lastAck == LastHeard(s.marks) && s.probes == ProbesSince(s.marks))
  {
    if events != [] {
      AlwaysRemembers(cfg, now, events[..|events| - 1]);
      var s, ev := After(cfg, now, events[..|events| - 1]), events[|events| - 1];
      if Possible(cfg, s, ev) {
        assert forall m: Mark :: (s.marks + [m])[..|s.marks|] == s.marks;
      }
    }
  }

  lemma OneMoreEvent(cfg: Config, now: int, events: seq<Event>, ev: Event)
    ensures var before := After(cfg, now, events);
      After(cfg, now, events + [ev]) == if Possible(cfg, before, ev) then Handled(cfg, before, ev) else before
  {
    assert (events + [ev])[..|events|] == events;
  }

  /** In every run, traffic is heard, and answered exactly if it asks for that; a tick does
      nothing within the timeout of the start or of the last traffic, and after that sends
      a probe if fewer than the configured number were sent since, and else gives up. */
  lemma WakesAct(cfg: Config, now: int, events: seq<Event>, ev: Event)
    requires var s := After(cfg, now, events); s.running && Possible(cfg, s, ev)
    ensures var s, later := After(cfg, now, events), After(cfg, now, events + [ev]);
      if ev.Traffic? then later.running && later.marks == s.marks + [Heard(ev.now, ev.asks)]
      else if ev.Cancel? then !later.running && later.marks == s.marks
      else if ev.now - now < cfg.timeout
              || (LastHeard(s.marks).Some? && ev.now - LastHeard(s.marks).value < cfg.timeout) then
        later.running && later.marks == s.marks
      else if ProbesSince(s.marks) < cfg.probes then later.running && later.marks == s.marks + [Probed(ev.now)]
      else !later.running && later.marks == s.marks + [Disconnected(ev.now)]
  {
    AlwaysRemembers(cfg, now, events);
    OneMoreEvent(cfg, now, events, ev);
    hide After;
  }

  /** Every wake-up starts the interval again: the next tick comes a whole interval later. */
  lemma WakesStartInterval(cfg: Config, now: int, events: seq<Event>, ev: Event, t: int)
    requires var s := After(cfg, now, events); s.running && Possible(cfg, s, ev) && !ev.Cancel?
    requires After(cfg, now, events + [ev]).running
    ensures Possible(cfg, After(cfg, now, events + [ev]), Tick(t)) <==> t >= ev.now + cfg.interval
    ensures Possible(cfg, Start(now), Tick(t)) <==> t >= now + cfg.interval
  {
    OneMoreEvent(cfg, now, events, ev);
    hide After;
  }

  /** What has ended stays as it is. */
  lemma {:induction false} EndedStays(cfg: Config, now: int, events: seq<Event>, more: seq<Event>)
    requires !After(cfg, now, events).running
    ensures After(cfg, now, events + more) == After(cfg, now, events)
  {
    if more == [] {
      assert events + more == events;
    } else {
      EndedStays(cfg, now, events, more[..|more| - 1]);
      assert events + more == (events + more[..|more| - 1]) + [more[|more| - 1]];
      OneMoreEvent(cfg, now, events + more[..|more| - 1], more[|more| - 1]);
    }
  }
}
