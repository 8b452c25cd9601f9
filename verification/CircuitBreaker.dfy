/** The tmux circuit breaker, called one operation at a time with a clock that does not run backwards. */
module CircuitBreaker {
  import opened Options
  import opened Windows

  datatype State = Closed | Open | HalfOpen

  datatype Policy = Policy(threshold: int, recovery: real, halfOpenMax: int)

  datatype Breaker = Breaker(state: State, failures: nat, lastFailure: real, calls: nat)

  const NEW := Breaker(Closed, 0, 0.0, 0)

  /** Reading the state lets an open breaker half-open once the recovery time is over. */
  function Refreshed(b: Breaker, p: Policy, now: real): Breaker {
    if b.state.Open? && now - b.lastFailure >= p.recovery then b.(state := HalfOpen, calls := 0) else b
  }

  function Failed(b: Breaker, p: Policy, now: real): Breaker {
    Breaker(if b.failures + 1 >= p.threshold then Open else b.state, b.failures + 1, now, b.calls)
  }

  function Closing(b: Breaker): Breaker {
    b.(state := Closed, failures := 0)
  }

  function Asked(b: Breaker, p: Policy, now: real): (Breaker, bool) {
    var r := Refreshed(b, p, now);
    if r.state.Closed? then (r, true)
    else if r.state.HalfOpen? && r.calls < p.halfOpenMax then (r.(calls := r.calls + 1), true)
    else (r, false)
  }

  class TmuxCircuitBreaker {
    const policy: Policy
    var state: State
    var failureCount: nat
    var lastFailureTime: real
    var halfOpenCalls: nat

    function Value(): Breaker
      reads this
    {
      Breaker(state, failureCount, lastFailureTime, halfOpenCalls)
    }

    constructor (policy: Policy)
      ensures this.policy == policy && Value() == NEW
    {
      this.policy := policy;
      state, failureCount, lastFailureTime, halfOpenCalls := Closed, 0, 0.0, 0;
    }

    method ReadState(now: real) returns (s: State)
      modifies this
      ensures Value() == Refreshed(old(Value()), policy, now) && s == Value().state
    {
      if state.Open? && now - lastFailureTime >= policy.recovery {
        state := HalfOpen;
        halfOpenCalls := 0;
      }
      s := state;
    }

    method RecordSuccess()
      modifies this
      ensures Value() == Closing(old(Value()))
    {
      failureCount := 0;
      state := Closed;
    }

    method RecordFailure(now: real)
      modifies this
      ensures Value() == Failed(old(Value()), policy, now)
    {
      failureCount := failureCount + 1;
      lastFailureTime := now;
      if failureCount >= policy.threshold {
        state := Open;
      }
    }

    method CanExecute(now: real) returns (admitted: bool)
      modifies this
      ensures (Value(), admitted) == Asked(old(Value()), policy, now)
    {
      var s := ReadState(now);
      if s.Closed? {
        return true;
      }
      if s.HalfOpen? && halfOpenCalls < policy.halfOpenMax {
        halfOpenCalls := halfOpenCalls + 1;
        return true;
      }
      return false;
    }

    method Reset()
      modifies this
      ensures Value() == Closing(old(Value()))
    {
      failureCount := 0;
      state := Closed;
    }
  }

  // Runs.

  datatype Event = Ask(now: real) | Look(now: real) | Fail(now: real) | Succeed(now: real) | Reset(now: real)

  ghost predicate Ordered(es: seq<Event>) {
    forall i, k :: 0 <= i <= k < |es| ==> es[i].now <= es[k].now
  }

  function Step(b: Breaker, p: Policy, e: Event): Breaker {
    match e
    case Ask(now) => Asked(b, p, now).0
    case Look(now) => Refreshed(b, p, now)
    case Fail(now) => Failed(b, p, now)
    case Succeed(_) => Closing(b)
    case Reset(_) => Closing(b)
  }

  function Run(es: seq<Event>, p: Policy): Breaker {
    if es == [] then NEW else Step(Run(es[..|es| - 1], p), p, es[|es| - 1])
  }

  /** Failures since the last success or reset. */
  function Failures(es: seq<Event>): nat {
    if es == [] then 0
    else
      var before := Failures(es[..|es| - 1]);
      match es[|es| - 1]
      case Fail(_) => before + 1
      case Succeed(_) => 0
      case Reset(_) => 0
      case _ => before
  }

  /** The time of the last failure. */
  function LastFailure(es: seq<Event>): real {
    if es == [] then 0.0
    else if es[|es| - 1].Fail? then es[|es| - 1].now
    else LastFailure(es[..|es| - 1])
  }

  /** Few enough failures for the breaker to be closed. */
  predicate Healthy(es: seq<Event>, p: Policy) {
    Failures(es) == 0 || Failures(es) < p.threshold
  }

  /** The calls let through since the breaker tripped. */
  function Probes(es: seq<Event>, p: Policy): seq<real> {
    if es == [] then []
    else
      var before, e := es[..|es| - 1], es[|es| - 1];
      match e
      case Ask(now) =>
        if !Healthy(before, p) && Asked(Run(before, p), p, now).1 then Probes(before, p) + [now] else Probes(before, p)
      case Succeed(_) => []
      case Reset(_) => []
      case _ => Probes(before, p)
  }

  /** How many of them came after the last failure. */
  function FreshProbes(es: seq<Event>, p: Policy): nat {
    if es == [] then 0
    else
      var before, e := es[..|es| - 1], es[|es| - 1];
      match e
      case Ask(now) =>
        if !Healthy(before, p) && Asked(Run(before, p), p, now).1 then FreshProbes(before, p) + 1
        else FreshProbes(before, p)
      case Look(_) => FreshProbes(before, p)
      case _ => 0
  }

  /** The fields of the breaker, read off the events. */
  lemma {:induction false} RunIs(es: seq<Event>, p: Policy)
    requires Ordered(es)
    ensures var b := Run(es, p);
      && b.failures == Failures(es)
      && b.lastFailure == LastFailure(es)
      && (b.state.Closed? <==> Healthy(es, p))
      && (b.state.Open? ==> FreshProbes(es, p) == 0)
      && (b.state.HalfOpen? ==> b.calls == FreshProbes(es, p) && es != [] &&
                                es[|es| - 1].now - b.lastFailure >= p.recovery)
  {
    if es != [] {
      RunIs(es[..|es| - 1], p);
    }
  }

  /** The breaker is closed exactly when there was no failure, or fewer than the threshold, since the last success
      or reset. */
  lemma ClosedIff(es: seq<Event>, p: Policy)
    requires Ordered(es)
    ensures Run(es, p).state.Closed? <==> Failures(es) == 0 || Failures(es) < p.threshold
  {
    RunIs(es, p);
  }

  /** A call gets through exactly when the breaker is healthy, or the recovery time is over and fewer than the
      permitted probes were made since the last failure. */
  lemma AdmitsIff(es: seq<Event>, p: Policy, now: real)
    requires Ordered(es) && forall e :: e in es ==> e.now <= now
    ensures Asked(Run(es, p), p, now).1 <==>
            Healthy(es, p) || (now - LastFailure(es) >= p.recovery && FreshProbes(es, p) < p.halfOpenMax)
  {
    RunIs(es, p);
    if es != [] {
      assert es[|es| - 1] in es;
    }
  }

  ghost predicate ProbesInv(es: seq<Event>, p: Policy) {
    var probes, stale, limit := Probes(es, p), |Probes(es, p)| - FreshProbes(es, p), Max(0, p.halfOpenMax);
    && 0 <= stale && FreshProbes(es, p) <= limit
    && (forall i :: 0 <= i < |probes| ==> es != [] && probes[i] <= es[|es| - 1].now)
    && (forall i :: 0 <= i < stale ==> probes[i] <= LastFailure(es))
    && (forall i :: stale <= i < |probes| ==> probes[i] >= LastFailure(es) + p.recovery)
    && Spaced(probes, limit, p.recovery)
  }

  lemma {:induction false} ProbesKeepInv(es: seq<Event>, p: Policy)
    requires Ordered(es)
    ensures ProbesInv(es, p)
  {
    if es != [] {
      var before, e := es[..|es| - 1], es[|es| - 1];
      ProbesKeepInv(before, p);
      assert forall i :: 0 <= i < |before| ==> es[i].now <= e.now;
      assert forall x :: x in before ==> x.now <= e.now;
      if e.Ask? {
        AdmitsIff(before, p, e.now);
      }
    }
  }

  /** After a trip without success or reset, no half-open interval as long as the recovery time sees more calls
      than the policy's number of probes. */
  lemma ProbesAreRare(es: seq<Event>, p: Policy, from: real)
    requires Ordered(es)
    ensures Count(Probes(es, p), t => from <= t < from + p.recovery) <= Max(0, p.halfOpenMax)
  {
    ProbesKeepInv(es, p);
    SpacedCount(Probes(es, p), Max(0, p.halfOpenMax), p.recovery, t => from <= t < from + p.recovery);
  }
}
