/** The circuit breaker: its locked methods, and what they keep over every interleaving of
    overlapping calls. */
module CircuitBreaker {
  import opened Wrappers

  datatype CircuitState = Closed | Open | HalfOpen

  datatype Config = Config(threshold: int, cooldown: real, successThreshold: int) {
    /** Failures in a row that open the breaker; one is needed even for a lower threshold. */
    function FailuresToOpen(): int {
      if threshold < 1 then 1 else threshold
    }

    /** Successes in a row that close it again. */
    function SuccessesToClose(): int {
      if successThreshold < 1 then 1 else successThreshold
    }
  }

  datatype Breaker = Breaker(state: CircuitState, failureCount: int, successCount: int, lastFailureTime: real)

  const FRESH := Breaker(Closed, 0, 0, 0.0)

  /** One locked step: a call is admitted or turned away, an admitted call ends, the state is read,
      an operator resets. Calls overlap, so exits come in any order. */
  datatype Event = Enter(id: nat, at: real) | Exit(id: nat, failed: bool, at: real) | Read(at: real) | Reset

  // ---------- One step ----------

  /** Cooling down: an open breaker becomes half open once the cooldown has passed. */
  function Cooled(c: Config, b: Breaker, now: real): Breaker {
    if b.state == Open && now - b.lastFailureTime >= c.cooldown
    then b.(state := HalfOpen, successCount := 0)
    else b
  }

  function Succeeded(c: Config, b: Breaker): Breaker {
    match b.state
    case Open => b
    case Closed => b.(failureCount := 0)
    case HalfOpen =>
      var n := b.successCount + 1;
      if n >= c.successThreshold then Breaker(Closed, 0, n, b.lastFailureTime) else b.(successCount := n)
  }

  function Failed(c: Config, b: Breaker, now: real): Breaker {
    match b.state
    case Open => b.(lastFailureTime := now)
    case HalfOpen => b.(state := Open, lastFailureTime := now)
    case Closed =>
      var n := b.failureCount + 1;
      Breaker(if n >= c.threshold then Open else Closed, n, b.successCount, now)
  }

  function Step(c: Config, b: Breaker, e: Event): Breaker {
    match e
    case Enter(_, at) => Cooled(c, b, at)
    case Read(at) => Cooled(c, b, at)
    case Exit(_, failed, at) => if failed then Failed(c, b, at) else Succeeded(c, b)
    case Reset => Breaker(Closed, 0, 0, b.lastFailureTime)
  }

  /** A call that enters at `at` is admitted unless the breaker is still open then. */
  predicate Admits(c: Config, b: Breaker, at: real) {
    Cooled(c, b, at).state != Open
  }

  /** Reading the state moves the breaker on just as a call that enters does, so what is read is open
      exactly if a call would be turned away. */
  lemma ReadingIsEntering(c: Config, b: Breaker, id: nat, at: real)
    ensures Step(c, b, Read(at)) == Step(c, b, Enter(id, at))
    ensures Step(c, b, Read(at)).state == Open <==> !Admits(c, b, at)
  {
  }

  // ---------- The object ----------

  datatype EnterResult = Admitted | Rejected(retryAfter: real)

  class Circuit {
    const config: Config
    var state: CircuitState
    var failureCount: int
    var successCount: int
    var lastFailureTime: real

    ghost function Now(): Breaker
      reads this
    {
      Breaker(state, failureCount, successCount, lastFailureTime)
    }

    constructor (config: Config)
      ensures this.config == config && Now() == FRESH
    {
      this.config := config;
      state, failureCount, successCount, lastFailureTime := Closed, 0, 0, 0.0;
    }

    method MaybeTransition(now: real)
      modifies this
      ensures Now() == Cooled(config, old(Now()), now)
    {
      if state == Open {
        if now - lastFailureTime >= config.cooldown {
          state := HalfOpen;
          successCount := 0;
        }
      }
    }

    method State(now: real) returns (s: CircuitState)
      modifies this
      ensures Now() == Step(config, old(Now()), Read(now)) && s == Now().state
    {
      MaybeTransition(now);
      s := state;
    }

    /** `__enter__`. A rejected call learns how much of the cooldown is left, read from a second,
        later clock reading, and never a negative time. */
    method Enter(ghost id: nat, now: real, later: real) returns (r: EnterResult)
      modifies this
      ensures Now() == Step(config, old(Now()), Event.Enter(id, now))
      ensures r.Admitted? <==> Admits(config, old(Now()), now)
      ensures r.Rejected? ==>
                var left := config.cooldown - (later - lastFailureTime);
                r.retryAfter >= 0.0 && r.retryAfter >= left && (r.retryAfter == 0.0 || r.retryAfter == left)
    {
      MaybeTransition(now);
      if state == Open {
        var left := config.cooldown - (later - lastFailureTime);
        return Rejected(if left > 0.0 then left else 0.0);
      }
      r := Admitted;
    }

    /** `__exit__`, with or without an exception. It does not look at the cooldown. */
    method Exit(ghost id: nat, failed: bool, now: real)
      modifies this
      ensures Now() == Step(config, old(Now()), Event.Exit(id, failed, now))
    {
      if !failed {
        OnSuccess();
      } else {
        OnFailure(now);
      }
    }

    method OnSuccess()
      modifies this
      ensures Now() == Succeeded(config, old(Now()))
    {
      if state == HalfOpen {
        successCount := successCount + 1;
        if successCount >= config.successThreshold {
          state := Closed;
          failureCount := 0;
        }
      } else if state == Closed {
        failureCount := 0;
      }
    }

    method OnFailure(now: real)
      modifies this
      ensures Now() == Failed(config, old(Now()), now)
    {
      lastFailureTime := now;
      if state == HalfOpen {
        state := Open;
      } else if state == Closed {
        failureCount := failureCount + 1;
        if failureCount >= config.threshold {
          state := Open;
        }
      }
    }

    method Reset()
      modifies this
      ensures Now() == Step(config, old(Now()), Event.Reset)
    {
      state := Closed;
      failureCount := 0;
      successCount := 0;
    }
  }

  // ---------- Runs ----------

  function Run(c: Config, trace: seq<Event>): Breaker {
    if trace == [] then FRESH else Step(c, Run(c, trace[..|trace| - 1]), trace[|trace| - 1])
  }

  lemma RunOneMore(c: Config, trace: seq<Event>, e: Event)
    ensures Run(c, trace + [e]) == Step(c, Run(c, trace), e)
  {
    assert (trace + [e])[..|trace|] == trace;
  }

  /** Failing exits since the last successful exit or reset, whatever state they met. */
  function FailuresInARow(trace: seq<Event>): nat {
    if trace == [] then 0
    else
      var before := FailuresInARow(trace[..|trace| - 1]);
      match trace[|trace| - 1]
      case Exit(_, failed, _) => if failed then before + 1 else 0
      case Reset => 0
      case _ => before
  }

  /** When the most recent failing exit was. */
  function LastFailure(trace: seq<Event>): Option<real> {
    if trace == [] then None
    else match trace[|trace| - 1]
      case Exit(_, true, at) => Some(at)
      case _ => LastFailure(trace[..|trace| - 1])
  }

  /** A closed breaker has counted exactly the failures in a row, and too few of them to open; any
      other has counted exactly as many as opening takes. The time it remembers is always that of
      the most recent failing exit, including exits that came late. */
  lemma {:induction false} CountersAreExplained(c: Config, trace: seq<Event>)
    ensures var b := Run(c, trace);
            && (b.state == Closed ==> b.failureCount == FailuresInARow(trace) < c.FailuresToOpen())
            && (b.state != Closed ==> b.failureCount == c.FailuresToOpen() && LastFailure(trace).Some?)
            && b.lastFailureTime == LastFailure(trace).GetOr(0.0)
  {
    if trace != [] {
      CountersAreExplained(c, trace[..|trace| - 1]);
    }
  }

  /** A closed breaker opens exactly on the failing exit that completes the row. */
  lemma OpensExactly(c: Config, trace: seq<Event>, e: Event)
    requires Run(c, trace).state == Closed
    ensures Run(c, trace + [e]).state != Closed
       <==> e.Exit? && e.failed && FailuresInARow(trace + [e]) == c.FailuresToOpen()
    ensures Run(c, trace + [e]).state != HalfOpen
  {
    CountersAreExplained(c, trace);
    RunOneMore(c, trace, e);
    assert (trace + [e])[..|trace|] == trace;
  }

  // ---------- Admission ----------

  /** The readings of one clock never decrease. */
  ghost predicate Monotone(trace: seq<Event>) {
    forall i, j :: 0 <= i < j < |trace| && !trace[i].Reset? && !trace[j].Reset? ==> trace[i].at <= trace[j].at
  }

  /** While the breaker is half open, the cooldown since the most recent failure is over. */
  lemma {:induction false} HalfOpenHasCooled(c: Config, trace: seq<Event>, now: real)
    requires Monotone(trace) && Run(c, trace).state == HalfOpen
    requires forall e :: e in trace && !e.Reset? ==> e.at <= now
    ensures LastFailure(trace).Some? && now - LastFailure(trace).value >= c.cooldown
  {
    CountersAreExplained(c, trace);
    var front, last := trace[..|trace| - 1], trace[|trace| - 1];
    CountersAreExplained(c, front);
    assert last in trace;
    if Run(c, front).state == HalfOpen {
      HalfOpenHasCooled(c, front, now);
    }
  }

  /** In every run with one monotone clock, a call is turned away exactly while the breaker is open
      and the most recent failure, even a late one, is less than the cooldown ago; so any call
      admitted by a breaker that is not closed comes at least the cooldown after that failure. */
  lemma AdmissionKeepsCooldown(c: Config, trace: seq<Event>, id: nat, at: real)
    requires Monotone(trace + [Enter(id, at)])
    ensures var b := Run(c, trace);
            && (!Admits(c, b, at) <==>
                  b.state == Open && LastFailure(trace).Some? && at - LastFailure(trace).value < c.cooldown)
            && (Admits(c, b, at) && b.state != Closed ==>
                  LastFailure(trace).Some? && at - LastFailure(trace).value >= c.cooldown)
  {
    CountersAreExplained(c, trace);
    var all := trace + [Enter(id, at)];
    assert forall i :: 0 <= i < |trace| ==> all[i] == trace[i];
    assert all[|trace|] == Enter(id, at);
    if Run(c, trace).state == HalfOpen {
      HalfOpenHasCooled(c, trace, at);
    }
  }

  // ---------- Recovery ----------

  predicate IsExit(e: Event, failed: bool) {
    e.Exit? && e.failed == failed
  }

  function Successes(trace: seq<Event>): nat {
    if trace == [] then 0
    else Successes(trace[..|trace| - 1]) + if IsExit(trace[|trace| - 1], false) then 1 else 0
  }

  lemma SuccessesOneMore(trace: seq<Event>, e: Event)
    ensures Successes(trace + [e]) == Successes(trace) + if IsExit(e, false) then 1 else 0
  {
    assert (trace + [e])[..|trace|] == trace;
  }

  /** Step `p` made an open breaker half open, and since then there were neither failing exits nor resets. */
  ghost predicate ProbationSince(c: Config, trace: seq<Event>, p: nat) {
    && p < |trace|
    && Run(c, trace[..p]).state == Open && Run(c, trace[..p + 1]).state == HalfOpen
    && (forall e :: e in trace[p + 1..] ==> !IsExit(e, true) && !e.Reset?)
  }

  /** How a step can leave a breaker half open. */
  lemma StaysHalfOpen(c: Config, b: Breaker, e: Event)
    requires Step(c, b, e).state == HalfOpen
    ensures if b.state == HalfOpen then
              && !IsExit(e, true) && !e.Reset?
              && Step(c, b, e).successCount == b.successCount + (if IsExit(e, false) then 1 else 0)
              && (IsExit(e, false) ==> Step(c, b, e).successCount < c.SuccessesToClose())
            else b.state == Open && Step(c, b, e).successCount == 0
  {
  }

  lemma ProbationGoesOn(c: Config, trace: seq<Event>, e: Event, p: nat)
    requires ProbationSince(c, trace, p) && !IsExit(e, true) && !e.Reset?
    ensures ProbationSince(c, trace + [e], p) && (trace + [e])[p + 1..] == trace[p + 1..] + [e]
  {
    var all := trace + [e];
    assert all[..p] == trace[..p] && all[..p + 1] == trace[..p + 1];
    assert all[p + 1..] == trace[p + 1..] + [e];
  }

  /** A half-open breaker is on probation since some step, and has counted the successes since. */
  lemma {:induction false} HalfOpenIsProbation(c: Config, trace: seq<Event>) returns (p: nat)
    requires Run(c, trace).state == HalfOpen
    ensures ProbationSince(c, trace, p)
    ensures Run(c, trace).successCount == Successes(trace[p + 1..]) < c.SuccessesToClose()
  {
    var n := |trace| - 1;
    var front, e := trace[..n], trace[n];
    assert trace == front + [e];
    StaysHalfOpen(c, Run(c, front), e);
    hide Step, Successes;
    if Run(c, front).state == HalfOpen {
      p := HalfOpenIsProbation(c, front);
      ProbationGoesOn(c, front, e, p);
      SuccessesOneMore(front[p + 1..], e);
    } else {
      p := n;
      assert trace[..n + 1] == trace && trace[n + 1..] == [];
      NoSuccesses();
    }
  }

  lemma NoSuccesses()
    ensures Successes([]) == 0
  {
  }

  /** Only a reset or the last of enough successes in a row closes a breaker on probation; between
      the step that made it half open and the one that closes it no exit failed. */
  lemma ClosesOnlyAfterSuccesses(c: Config, trace: seq<Event>, e: Event) returns (p: nat)
    requires Run(c, trace).state == HalfOpen && Run(c, trace + [e]).state == Closed
    ensures ProbationSince(c, trace, p)
    ensures e.Reset? || (IsExit(e, false) && Successes(trace[p + 1..] + [e]) == c.SuccessesToClose())
  {
    p := HalfOpenIsProbation(c, trace);
    RunOneMore(c, trace, e);
    assert (trace[p + 1..] + [e])[..|trace[p + 1..]|] == trace[p + 1..];
  }

  /** An open breaker ignores late successes: only a reset closes it directly. */
  lemma OpenClosesOnlyByReset(c: Config, trace: seq<Event>, e: Event)
    requires Run(c, trace).state == Open
    ensures Run(c, trace + [e]).state == Closed <==> e.Reset?
  {
    RunOneMore(c, trace, e);
  }

  // ---------- Probes ----------

  /** Calls that were admitted and have not ended. */
  function InFlight(c: Config, trace: seq<Event>): set<nat> {
    if trace == [] then {}
    else
      var front, last := trace[..|trace| - 1], trace[|trace| - 1];
      match last
      case Enter(id, at) => InFlight(c, front) + if Admits(c, Run(c, front), at) then {id} else {}
      case Exit(id, _, _) => InFlight(c, front) - {id}
      case _ => InFlight(c, front)
  }

  function Probes(n: nat, at: real): seq<Event> {
    seq(n, i requires 0 <= i < n => Enter(i, at))
  }

  /** The design speaks of one probe at a time; the code has no such limit. A half-open breaker
      admits any number of calls at once, and all of them are in flight together. */
  lemma {:induction false} ProbesAreUnlimited(c: Config, trace: seq<Event>, n: nat, at: real)
    requires Run(c, trace).state == HalfOpen
    ensures Run(c, trace + Probes(n, at)) == Run(c, trace)
    ensures InFlight(c, trace) <= InFlight(c, trace + Probes(n, at))
    ensures forall i :: 0 <= i < n ==> i in InFlight(c, trace + Probes(n, at))
  {
    if n == 0 {
      assert trace + Probes(0, at) == trace;
    } else {
      ProbesAreUnlimited(c, trace, n - 1, at);
      var all := trace + Probes(n, at);
      assert all[..|all| - 1] == trace + Probes(n - 1, at);
      assert all[|all| - 1] == Enter(n - 1, at);
    }
  }
}
