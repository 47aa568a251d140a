/** The eviction log limiter: racing loggers, one compare-and-swap, at most one error line per window. */
module EvictionLog {

  const WINDOW: nat := 10_000_000_000

  /** What a logger has read: its clock, then the time of the last line. */
  datatype Sighting = Sighting(now: nat, last: nat)

  /** last is zero until the first line; lines are the times of the error lines so far. */
  datatype State = State(evicted: nat, last: nat, sightings: map<nat, Sighting>, lines: seq<nat>)

  datatype Step = Look(logger: nat, now: nat) | Decide(logger: nat)

  predicate Enabled(s: State, step: Step) {
    match step
    case Look(logger, now) => logger !in s.sightings && now > 0
    case Decide(logger) => logger in s.sightings
  }

  /** Every eviction is counted when it is looked at; a line is written only by the winner of the swap. */
  function Apply(s: State, step: Step): State
    requires Enabled(s, step)
  {
    match step
    case Look(logger, now) =>
      s.(evicted := s.evicted + 1, sightings := s.sightings[logger := Sighting(now, s.last)])
    case Decide(logger) =>
      var seen := s.sightings[logger];
      var done := s.(sightings := s.sightings - {logger});
      if seen.last != 0 && seen.now - seen.last < WINDOW then done
      else if s.last != seen.last then done
      else done.(last := seen.now, lines := s.lines + [seen.now])
  }

  function Run(s: State, steps: seq<Step>): State
    requires Runnable(s, steps)
    decreases |steps|
  {
    if steps == [] then s else Run(Apply(s, steps[0]), steps[1..])
  }

  predicate Runnable(s: State, steps: seq<Step>)
    decreases |steps|
  {
    steps == [] || (Enabled(s, steps[0]) && Runnable(Apply(s, steps[0]), steps[1..]))
  }

  predicate Inv(s: State) {
    && (forall i :: 0 <= i < |s.lines| ==> s.lines[i] > 0)
    && s.last == (if s.lines == [] then 0 else s.lines[|s.lines|-1])
    && (forall i, j :: 0 <= i < j < |s.lines| ==> s.lines[i] + WINDOW <= s.lines[j])
    && (forall g :: g in s.sightings ==> s.sightings[g].now > 0)
  }

  lemma StepKeepsSpacing(s: State, step: Step)
    requires Inv(s) && Enabled(s, step)
    ensures Inv(Apply(s, step))
    ensures Apply(s, step).evicted == s.evicted + if step.Look? then 1 else 0
  {
    var n := Apply(s, step);
    if n.lines != s.lines {
      assert n.lines[..|s.lines|] == s.lines;
    }
  }

  /** While a logger waits its sighting stays, and lines only come to those there are. */
  lemma {:induction false} WaitsUnchanged(s: State, steps: seq<Step>, logger: nat)
    requires Inv(s) && logger in s.sightings && Runnable(s, steps) && Decide(logger) !in steps
    ensures var e := Run(s, steps);
            && Inv(e) && s.lines <= e.lines && logger in e.sightings && e.sightings[logger] == s.sightings[logger]
    decreases |steps|
  {
    if steps != [] {
      StepKeepsSpacing(s, steps[0]);
      assert steps[0] in steps && forall x :: x in steps[1..] ==> x in steps;
      WaitsUnchanged(Apply(s, steps[0]), steps[1..], logger);
    }
  }

  /**
   * No eviction passes unmarked: when a logger that looked at some moment has decided, whatever came between, there is
   * a new line, or the last line stood less than a window before that moment.
   */
  lemma EveryEvictionMarked(s: State, logger: nat, now: nat, steps: seq<Step>)
    requires Inv(s) && Enabled(s, Look(logger, now))
    requires Runnable(Apply(s, Look(logger, now)), steps) && Decide(logger) !in steps
    ensures var e := Run(Apply(s, Look(logger, now)), steps);
            && Enabled(e, Decide(logger))
            && (|Apply(e, Decide(logger)).lines| > |s.lines| ||
                (s.lines != [] && now < s.lines[|s.lines|-1] + WINDOW))
  {
    StepKeepsSpacing(s, Look(logger, now));
    WaitsUnchanged(Apply(s, Look(logger, now)), steps, logger);
  }

  function Looks(steps: seq<Step>): nat {
    if steps == [] then 0 else (if steps[0].Look? then 1 else 0) + Looks(steps[1..])
  }

  /** However the loggers interleave, two error lines are a window apart and no eviction goes uncounted. */
  lemma {:induction false} LinesAreSpaced(s: State, steps: seq<Step>)
    requires Inv(s) && Runnable(s, steps)
    ensures Inv(Run(s, steps))
    ensures Run(s, steps).evicted == s.evicted + Looks(steps)
    decreases |steps|
  {
    if steps != [] {
      StepKeepsSpacing(s, steps[0]);
      hide Inv, Apply;
      LinesAreSpaced(Apply(s, steps[0]), steps[1..]);
    }
  }
}
